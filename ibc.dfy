/**
 * Input records: one pairwise channel descriptor per file of the
 * registry's `_IBC` directory, already parsed.
 */
module Ibc {

  /** One of the two chains a descriptor connects, named once at file level.
      Only `chainName` is read by the aggregation; the client and connection
      identifiers are carried along unread. */
  datatype IbcChainInfo = IbcChainInfo(chainName: string, clientId: string, connectionId: string)

  /** One endpoint of a channel: the channel identifier and the port it is bound to. */
  datatype IbcChannelInfo = IbcChannelInfo(channelId: string, portId: string)

  /** A channel between the two chains of a descriptor: exactly two endpoints,
      plus an ordering and a version that are never interpreted. */
  datatype IbcChannel = IbcChannel(
    chain1: IbcChannelInfo,
    chain2: IbcChannelInfo,
    ordering: string,
    version: string)

  /** A whole descriptor file: the two chains, and the ordered list of channels
      between them. Every channel in `channels` connects `chain1` to `chain2`. */
  datatype IbcData = IbcData(chain1: IbcChainInfo, chain2: IbcChainInfo, channels: seq<IbcChannel>)
}
