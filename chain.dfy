/**
 * Output records: the per-chain adjacency view written out one file per chain.
 */
module Chains {

  /** A transfer link as seen from the chain that owns it: the owner's endpoint
      is the `src` side, the counterparty's is the `dest` side. The counterparty
      chain's name is not a field; it is only the key under which the link is
      stored in `Chain.transfers`. */
  datatype ChainChannelInfo = ChainChannelInfo(
    channelSrc: string,
    portSrc: string,
    channelDest: string,
    portDest: string,
    ordering: string,
    version: string)

  /** One chain and its transfer links, at most one per counterparty name. */
  datatype Chain = Chain(chainName: string, transfers: map<string, ChainChannelInfo>)

  /** The same link seen from the other end: src and dest exchanged,
      ordering and version kept. */
  function Swap(info: ChainChannelInfo): ChainChannelInfo
  {
    ChainChannelInfo(info.channelDest, info.portDest, info.channelSrc, info.portSrc,
                     info.ordering, info.version)
  }

  /** Looking at a link from the other end twice gives the link back. */
  lemma SwapInvolutive(info: ChainChannelInfo)
    ensures Swap(Swap(info)) == info
  {
  }
}
