/**
 * The aggregation transform applied to every descriptor file: keep the
 * transfer channels, project them into directed links, and merge the two
 * directions into the map from chain name to `Chain`.
 */
module Transform {
  import opened Ibc
  import opened Chains

  datatype Option<T> = None | Some(value: T)

  /** The only application port the aggregation keeps. */
  const TransferPort: string := "transfer"

  /** Both endpoints are bound to the transfer port (exact, case-sensitive). */
  predicate IsTransfer(c: IbcChannel) {
    c.chain1.portId == TransferPort && c.chain2.portId == TransferPort
  }

  /** The transfer channels of `cs`, in their input order. */
  function Filter(cs: seq<IbcChannel>): (r: seq<IbcChannel>)
    ensures |r| <= |cs|
    ensures forall i :: 0 <= i < |r| ==> IsTransfer(r[i])
  {
    if cs == [] then []
    else (if IsTransfer(cs[0]) then [cs[0]] else []) + Filter(cs[1..])
  }

  /** The link owned by the descriptor's first chain: its endpoint is `src`. */
  function ForwardInfo(c: IbcChannel): ChainChannelInfo {
    ChainChannelInfo(c.chain1.channelId, c.chain1.portId, c.chain2.channelId, c.chain2.portId,
                     c.ordering, c.version)
  }

  /** The link owned by the descriptor's second chain: its endpoint is `src`. */
  function ReverseInfo(c: IbcChannel): ChainChannelInfo {
    ChainChannelInfo(c.chain2.channelId, c.chain2.portId, c.chain1.channelId, c.chain1.portId,
                     c.ordering, c.version)
  }

  /** A list of (key, link) pairs gathered into a map, inserting from first to
      last, so that a later pair overwrites an earlier one with the same key. */
  function Collect(ps: seq<(string, ChainChannelInfo)>): (r: map<string, ChainChannelInfo>)
    ensures r.Keys == set p | p in ps :: p.0
    ensures ps != [] ==> r[ps[|ps| - 1].0] == ps[|ps| - 1].1
  {
    if ps == [] then map[]
    else
      var last := ps[|ps| - 1];
      var init := ps[..|ps| - 1];
      assert forall p :: p in ps <==> p in init || p == last;
      Collect(init)[last.0 := last.1]
  }

  /** The map of forward links of the surviving channels `ts`, every one keyed
      by the second chain's name `key`. */
  function ForwardMap(ts: seq<IbcChannel>, key: string): map<string, ChainChannelInfo> {
    Collect(seq(|ts|, i requires 0 <= i < |ts| => (key, ForwardInfo(ts[i]))))
  }

  /** The map of reverse links of `ts`, every one keyed by the first chain's name `key`. */
  function ReverseMap(ts: seq<IbcChannel>, key: string): map<string, ChainChannelInfo> {
    Collect(seq(|ts|, i requires 0 <= i < |ts| => (key, ReverseInfo(ts[i]))))
  }

  /** The last transfer channel of a descriptor, the one whose links win. */
  function LastSurvivor(d: IbcData): Option<IbcChannel> {
    var ts := Filter(d.channels);
    if ts == [] then None else Some(ts[|ts| - 1])
  }

  /** The link the first chain stores under the second chain's name, if any. */
  function ForwardLink(d: IbcData): Option<ChainChannelInfo> {
    match LastSurvivor(d)
    case None => None
    case Some(c) => Some(ForwardInfo(c))
  }

  /** The link the second chain stores under the first chain's name, if any. */
  function ReverseLink(d: IbcData): Option<ChainChannelInfo> {
    match LastSurvivor(d)
    case None => None
    case Some(c) => Some(ReverseInfo(c))
  }

  /** The transfers map holding `link` under `key`, or nothing. */
  function AsMap(key: string, link: Option<ChainChannelInfo>): map<string, ChainChannelInfo> {
    match link
    case None => map[]
    case Some(l) => map[key := l]
  }

  /** Get-or-create the entry for `name`: an existing chain gets `link` stored
      under `key` (and is left alone when there is no link); a missing one is
      created with `name` as its chain name and `link` as its only transfer. */
  function MergeSide(chains: map<string, Chain>, name: string, key: string, link: Option<ChainChannelInfo>)
    : map<string, Chain>
  {
    if name in chains then
      match link
      case None => chains
      case Some(l) => chains[name := chains[name].(transfers := chains[name].transfers[key := l])]
    else
      chains[name := Chain(name, AsMap(key, link))]
  }

  /** One descriptor folded into the running map: first chain, then second. */
  function Step(chains: map<string, Chain>, d: IbcData): (r: map<string, Chain>)
    ensures r.Keys == chains.Keys + {d.chain1.chainName, d.chain2.chainName}
  {
    var afterFirst := MergeSide(chains, d.chain1.chainName, d.chain2.chainName, ForwardLink(d));
    MergeSide(afterFirst, d.chain2.chainName, d.chain1.chainName, ReverseLink(d))
  }

  /** The descriptors folded into `chains` in sequence order. */
  function Fold(chains: map<string, Chain>, ds: seq<IbcData>): map<string, Chain> {
    if ds == [] then chains else Step(Fold(chains, ds[..|ds| - 1]), ds[|ds| - 1])
  }

  /** The whole transform: every descriptor folded into an empty map. */
  function Aggregate(ds: seq<IbcData>): map<string, Chain> {
    Fold(map[], ds)
  }

  /** Every chain name that appears, on either side, in some descriptor of `ds`. */
  function ChainNames(ds: seq<IbcData>): (r: set<string>)
    ensures forall n :: n in r <==>
              exists d :: d in ds && (n == d.chain1.chainName || n == d.chain2.chainName)
  {
    if ds == [] then {}
    else
      var init := ds[..|ds| - 1];
      var last := ds[|ds| - 1];
      assert forall d :: d in ds <==> d in init || d == last;
      ChainNames(init) + {last.chain1.chainName, last.chain2.chainName}
  }

  /** Every entry is stored under its own chain name. */
  ghost predicate NamesMatch(chains: map<string, Chain>) {
    forall k :: k in chains ==> chains[k].chainName == k
  }
}
