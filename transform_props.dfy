/**
 * What the aggregation transform guarantees: filter membership and order,
 * last-write-wins inside a file and across files, coverage of every chain
 * name, the frame of one merge, idempotence and commutation.
 */
module TransformProps {
  import opened Ibc
  import opened Chains
  import opened Transform

  // ---------------------------------------------------------------------------
  // Filter

  /** Filtering distributes over concatenation: survivors keep their order. */
  lemma {:induction false} FilterAppend(a: seq<IbcChannel>, b: seq<IbcChannel>)
    ensures Filter(a + b) == Filter(a) + Filter(b)
  {
    if a == [] {
      assert a + b == b;
    } else {
      assert (a + b)[0] == a[0];
      assert (a + b)[1..] == a[1..] + b;
      FilterAppend(a[1..], b);
    }
  }

  /** A channel survives iff it is in the input and is a transfer channel. */
  lemma {:induction false} FilterMembers(cs: seq<IbcChannel>)
    ensures forall c :: c in Filter(cs) <==> c in cs && IsTransfer(c)
  {
    if cs != [] {
      FilterMembers(cs[1..]);
      assert cs == [cs[0]] + cs[1..];
    }
  }

  /** A list of transfer channels passes the filter unchanged. */
  lemma {:induction false} FilterKeepsTransfers(cs: seq<IbcChannel>)
    requires forall i :: 0 <= i < |cs| ==> IsTransfer(cs[i])
    ensures Filter(cs) == cs
  {
    if cs != [] {
      FilterKeepsTransfers(cs[1..]);
      assert cs == [cs[0]] + cs[1..];
    }
  }

  /** Filtering twice is filtering once: the second filter of the reverse
      projection changes nothing. */
  lemma FilterIdempotent(cs: seq<IbcChannel>)
    ensures Filter(Filter(cs)) == Filter(cs)
  {
    FilterKeepsTransfers(Filter(cs));
  }

  /** `cs[i]` is a transfer channel and no transfer channel follows it. */
  ghost predicate LastTransferAt(cs: seq<IbcChannel>, i: int) {
    0 <= i < |cs| && IsTransfer(cs[i]) && forall j :: i < j < |cs| ==> !IsTransfer(cs[j])
  }

  lemma FilterSingle(c: IbcChannel)
    ensures Filter([c]) == if IsTransfer(c) then [c] else []
  {
    assert [c][1..] == [];
  }

  /** Appending a non-transfer channel keeps the last transfer channel. */
  lemma LastTransferExtend(cs: seq<IbcChannel>, c: IbcChannel, i: int)
    requires LastTransferAt(cs, i) && !IsTransfer(c)
    ensures LastTransferAt(cs + [c], i) && (cs + [c])[i] == cs[i]
  {
    var ext := cs + [c];
    forall j | i < j < |ext| ensures !IsTransfer(ext[j]) {
      if j < |cs| { assert ext[j] == cs[j]; }
    }
  }

  /** The last survivor is the last transfer channel of the input. */
  lemma {:induction false} FilterLast(cs: seq<IbcChannel>)
    requires Filter(cs) != []
    ensures exists i :: LastTransferAt(cs, i) && cs[i] == Filter(cs)[|Filter(cs)| - 1]
  {
    var n := |cs|;
    var init, last := cs[..n - 1], cs[n - 1];
    assert cs == init + [last];
    FilterAppend(init, [last]);
    FilterSingle(last);
    if IsTransfer(last) {
      assert LastTransferAt(cs, n - 1);
    } else {
      assert Filter(cs) == Filter(init);
      FilterLast(init);
      var i :| LastTransferAt(init, i) && init[i] == Filter(init)[|Filter(init)| - 1];
      LastTransferExtend(init, last, i);
    }
  }

  /** A descriptor has a last survivor exactly when one of its channels is a
      transfer channel, and that survivor is the last such channel. */
  lemma LastSurvivorIsLastTransfer(d: IbcData)
    ensures LastSurvivor(d).None? <==> forall c :: c in d.channels ==> !IsTransfer(c)
    ensures LastSurvivor(d).Some? ==>
              exists i :: LastTransferAt(d.channels, i) && d.channels[i] == LastSurvivor(d).value
  {
    var ts := Filter(d.channels);
    FilterMembers(d.channels);
    if ts != [] {
      FilterLast(d.channels);
    }
  }

  // ---------------------------------------------------------------------------
  // Collecting (key, link) pairs into a map

  /** A pair that no later pair overrides supplies its key's value. */
  lemma {:induction false} CollectLastWins(ps: seq<(string, ChainChannelInfo)>, i: nat)
    requires i < |ps|
    requires forall j :: i < j < |ps| ==> ps[j].0 != ps[i].0
    ensures ps[i].0 in Collect(ps) && Collect(ps)[ps[i].0] == ps[i].1
  {
    var n := |ps|;
    if i < n - 1 {
      var init := ps[..n - 1];
      assert init[i] == ps[i];
      assert forall j :: i < j < |init| ==> init[j] == ps[j];
      CollectLastWins(init, i);
      assert ps[n - 1].0 != ps[i].0;
      assert Collect(ps) == Collect(init)[ps[n - 1].0 := ps[n - 1].1];
    }
  }

  /** Pairs that all share one key collect into that key mapped to the last link,
      or into the empty map when there are none. */
  lemma CollectSameKey(ps: seq<(string, ChainChannelInfo)>, key: string)
    requires forall p :: p in ps ==> p.0 == key
    ensures Collect(ps) == if ps == [] then map[] else map[key := ps[|ps| - 1].1]
  {
    if ps != [] {
      assert ps[|ps| - 1] in ps;
      assert Collect(ps).Keys == {key};
    }
  }

  /** Every forward link of one file shares the second chain's name as key, so
      the collected map holds only the link of the last surviving channel. */
  lemma ForwardMapIsForwardLink(d: IbcData)
    ensures ForwardMap(Filter(d.channels), d.chain2.chainName)
            == AsMap(d.chain2.chainName, ForwardLink(d))
  {
    var ts := Filter(d.channels);
    var key := d.chain2.chainName;
    var ps := seq(|ts|, i requires 0 <= i < |ts| => (key, ForwardInfo(ts[i])));
    CollectSameKey(ps, key);
  }

  /** The same for the reverse links, keyed by the first chain's name, after the
      code's second (redundant) filter. */
  lemma ReverseMapIsReverseLink(d: IbcData)
    ensures ReverseMap(Filter(Filter(d.channels)), d.chain1.chainName)
            == AsMap(d.chain1.chainName, ReverseLink(d))
  {
    FilterIdempotent(d.channels);
    var ts := Filter(d.channels);
    var key := d.chain1.chainName;
    var ps := seq(|ts|, i requires 0 <= i < |ts| => (key, ReverseInfo(ts[i])));
    CollectSameKey(ps, key);
  }

  /** The reverse link is the forward link seen from the other chain. */
  lemma ReverseIsSwappedForward(d: IbcData)
    ensures ReverseLink(d).Some? <==> ForwardLink(d).Some?
    ensures ReverseLink(d).Some? ==> ReverseLink(d).value == Swap(ForwardLink(d).value)
  {
  }

  // ---------------------------------------------------------------------------
  // One merge step, entry by entry

  /** The entry stored under `k`, or the fresh entry the code would create. */
  function Existing(chains: map<string, Chain>, k: string): Chain {
    if k in chains then chains[k] else Chain(k, map[])
  }

  /** The transfers descriptor `d` writes into the chain `owner`: the forward
      link for its first chain, then the reverse link for its second chain. */
  function Writes(d: IbcData, owner: string): map<string, ChainChannelInfo> {
    (if owner == d.chain1.chainName then AsMap(d.chain2.chainName, ForwardLink(d)) else map[])
    + (if owner == d.chain2.chainName then AsMap(d.chain1.chainName, ReverseLink(d)) else map[])
  }

  function Add(c: Chain, w: map<string, ChainChannelInfo>): Chain {
    c.(transfers := c.transfers + w)
  }

  /** Pointwise meaning of one get-or-create merge. */
  lemma MergeSideAt(chains: map<string, Chain>, name: string, key: string,
                    link: Option<ChainChannelInfo>, k: string)
    ensures Existing(MergeSide(chains, name, key, link), k)
            == if k == name then Add(Existing(chains, k), AsMap(key, link)) else Existing(chains, k)
  {
    var t := Existing(chains, k).transfers;
    assert t + map[] == t;
    if k == name && link.Some? {
      assert t + AsMap(key, link) == t[key := link.value];
    }
  }

  lemma AddTwice(c: Chain, w1: map<string, ChainChannelInfo>, w2: map<string, ChainChannelInfo>)
    ensures Add(Add(c, w1), w2) == Add(c, w1 + w2)
  {
    assert (c.transfers + w1) + w2 == c.transfers + (w1 + w2);
  }

  lemma AddNothing(c: Chain)
    ensures Add(c, map[]) == c
  {
    assert c.transfers + map[] == c.transfers;
  }

  /** Pointwise meaning of `Step`: each entry is the old (or fresh) entry with
      the descriptor's writes for that chain applied on top. */
  lemma StepAt(chains: map<string, Chain>, d: IbcData, k: string)
    ensures Existing(Step(chains, d), k) == Add(Existing(chains, k), Writes(d, k))
  {
    var c1, c2 := d.chain1.chainName, d.chain2.chainName;
    var mid := MergeSide(chains, c1, c2, ForwardLink(d));
    MergeSideAt(chains, c1, c2, ForwardLink(d), k);
    MergeSideAt(mid, c2, c1, ReverseLink(d), k);
    var w1 := if k == c1 then AsMap(c2, ForwardLink(d)) else map[];
    var w2 := if k == c2 then AsMap(c1, ReverseLink(d)) else map[];
    assert Writes(d, k) == w1 + w2;
    assert Existing(mid, k) == Add(Existing(chains, k), w1) by {
      if k != c1 { AddNothing(Existing(chains, k)); }
    }
    assert Existing(Step(chains, d), k) == Add(Existing(mid, k), w2) by {
      if k != c2 { AddNothing(Existing(mid, k)); }
    }
    AddTwice(Existing(chains, k), w1, w2);
  }

  /** Two maps with the same keys and the same entries are equal. */
  lemma EqualByEntries(a: map<string, Chain>, b: map<string, Chain>)
    requires a.Keys == b.Keys
    requires forall k :: Existing(a, k) == Existing(b, k)
    ensures a == b
  {
    forall k | k in a ensures a[k] == b[k] {
      assert Existing(a, k) == Existing(b, k);
    }
  }

  /** A descriptor writes, into chain `k`, only under the name of the other
      chain of its pair; with a surviving channel it writes exactly there. */
  lemma WritesKeys(d: IbcData, k: string)
    ensures forall j :: j in Writes(d, k) ==> {k, j} == {d.chain1.chainName, d.chain2.chainName}
    ensures LastSurvivor(d).Some? ==>
              forall j :: j in Writes(d, k) <==> {k, j} == {d.chain1.chainName, d.chain2.chainName}
  {
    var c1, c2 := d.chain1.chainName, d.chain2.chainName;
    forall j | {k, j} == {c1, c2}
      ensures (k == c1 && j == c2) || (k == c2 && j == c1)
    {
      assert k in {c1, c2} && j in {c1, c2};
      assert c1 in {k, j} && c2 in {k, j};
    }
  }

  // ---------------------------------------------------------------------------
  // Properties of one step

  /** Merging a descriptor leaves every other chain alone, keeps every existing
      chain's name, and in the chains it touches changes only the entry under
      the other chain of the pair. */
  lemma StepFrame(chains: map<string, Chain>, d: IbcData)
    ensures forall k :: k in chains && k != d.chain1.chainName && k != d.chain2.chainName
              ==> Step(chains, d)[k] == chains[k]
    ensures forall k :: k in chains ==> Step(chains, d)[k].chainName == chains[k].chainName
    ensures forall k, j :: k in chains && j in chains[k].transfers
              && {k, j} != {d.chain1.chainName, d.chain2.chainName}
              ==> j in Step(chains, d)[k].transfers
                  && Step(chains, d)[k].transfers[j] == chains[k].transfers[j]
  {
    var r := Step(chains, d);
    forall k | k in chains
      ensures r[k] == Add(chains[k], Writes(d, k))
    {
      StepAt(chains, d, k);
    }
    forall k | k in chains && k != d.chain1.chainName && k != d.chain2.chainName
      ensures r[k] == chains[k]
    {
      AddNothing(chains[k]);
    }
    forall k, j | k in chains && j in chains[k].transfers
                  && {k, j} != {d.chain1.chainName, d.chain2.chainName}
      ensures j in r[k].transfers && r[k].transfers[j] == chains[k].transfers[j]
    {
      WritesKeys(d, k);
    }
  }

  /** A chain seen for the first time is stored under its own name, holding
      exactly what this descriptor writes into it (nothing when no channel
      survived the filter). */
  lemma StepNewEntry(chains: map<string, Chain>, d: IbcData)
    ensures forall k :: k in Step(chains, d) && k !in chains
              ==> Step(chains, d)[k] == Chain(k, Writes(d, k))
    ensures LastSurvivor(d).None? ==>
              forall k :: k in Step(chains, d) && k !in chains ==> Step(chains, d)[k] == Chain(k, map[])
  {
    forall k | k in Step(chains, d) && k !in chains
      ensures Step(chains, d)[k] == Chain(k, Writes(d, k))
    {
      StepAt(chains, d, k);
      assert map[] + Writes(d, k) == Writes(d, k);
    }
  }

  /** A file with no surviving channel adds its missing chains and changes
      nothing else; when both of its chains are known, nothing at all. */
  lemma StepNoSurvivor(chains: map<string, Chain>, d: IbcData)
    requires LastSurvivor(d).None?
    ensures forall k :: k in chains ==> Step(chains, d)[k] == chains[k]
    ensures d.chain1.chainName in chains && d.chain2.chainName in chains ==> Step(chains, d) == chains
  {
    forall k | k in chains ensures Step(chains, d)[k] == chains[k] {
      StepAt(chains, d, k);
      AddNothing(chains[k]);
    }
  }

  /** With a surviving channel `c`, the first chain stores `c`'s forward link
      under the second chain's name and the second chain stores its reverse
      link under the first chain's name; when the two names coincide the
      reverse link, written second, is the one kept. */
  lemma StepStoresLinks(chains: map<string, Chain>, d: IbcData, c: IbcChannel)
    requires LastSurvivor(d) == Some(c)
    ensures d.chain2.chainName in Step(chains, d)[d.chain1.chainName].transfers
    ensures d.chain1.chainName in Step(chains, d)[d.chain2.chainName].transfers
    ensures d.chain1.chainName != d.chain2.chainName ==>
              Step(chains, d)[d.chain1.chainName].transfers[d.chain2.chainName] == ForwardInfo(c)
    ensures Step(chains, d)[d.chain2.chainName].transfers[d.chain1.chainName] == ReverseInfo(c)
  {
    StepAt(chains, d, d.chain1.chainName);
    StepAt(chains, d, d.chain2.chainName);
  }

  /** Only the chain names of a file are read: its client and connection
      identifiers do not affect the result. */
  lemma StepIgnoresIds(chains: map<string, Chain>, d: IbcData, e: IbcData)
    requires d.chain1.chainName == e.chain1.chainName && d.chain2.chainName == e.chain2.chainName
    requires d.channels == e.channels
    ensures Step(chains, d) == Step(chains, e)
  {
  }

  /** Every stored chain keeps being stored under its own name. */
  lemma StepNamesMatch(chains: map<string, Chain>, d: IbcData)
    requires NamesMatch(chains)
    ensures NamesMatch(Step(chains, d))
  {
    forall k | k in Step(chains, d) ensures Step(chains, d)[k].chainName == k {
      StepAt(chains, d, k);
    }
  }

  /** Folding the same descriptor again changes nothing. */
  lemma StepIdempotent(chains: map<string, Chain>, d: IbcData)
    ensures Step(Step(chains, d), d) == Step(chains, d)
  {
    var once := Step(chains, d);
    forall k ensures Existing(Step(once, d), k) == Existing(once, k) {
      StepAt(chains, d, k);
      StepAt(once, d, k);
      AddTwice(Existing(chains, k), Writes(d, k), Writes(d, k));
      assert Writes(d, k) + Writes(d, k) == Writes(d, k);
    }
    EqualByEntries(Step(once, d), once);
  }

  /** Within one chain, a later file about the same pair overwrites every
      entry an earlier one wrote. */
  lemma WritesOverridden(d: IbcData, e: IbcData, k: string)
    requires {d.chain1.chainName, d.chain2.chainName} == {e.chain1.chainName, e.chain2.chainName}
    requires LastSurvivor(e).Some?
    ensures Writes(d, k) + Writes(e, k) == Writes(e, k)
  {
    WritesKeys(d, k);
    WritesKeys(e, k);
    assert Writes(d, k).Keys <= Writes(e, k).Keys;
  }

  /** Within one chain, files about different pairs write disjoint entries. */
  lemma WritesDisjoint(d: IbcData, e: IbcData, k: string)
    requires {d.chain1.chainName, d.chain2.chainName} != {e.chain1.chainName, e.chain2.chainName}
    ensures Writes(d, k) + Writes(e, k) == Writes(e, k) + Writes(d, k)
  {
    WritesKeys(d, k);
    WritesKeys(e, k);
    assert Writes(d, k).Keys !! Writes(e, k).Keys;
  }

  /** Of two files about the same chain pair, the later one wins, provided it
      has a surviving channel: the earlier one leaves no trace. */
  lemma StepLaterWins(chains: map<string, Chain>, d: IbcData, e: IbcData)
    requires {d.chain1.chainName, d.chain2.chainName} == {e.chain1.chainName, e.chain2.chainName}
    requires LastSurvivor(e).Some?
    ensures Step(Step(chains, d), e) == Step(chains, e)
  {
    var mid := Step(chains, d);
    forall k ensures Existing(Step(mid, e), k) == Existing(Step(chains, e), k) {
      StepAt(chains, d, k);
      StepAt(mid, e, k);
      StepAt(chains, e, k);
      AddTwice(Existing(chains, k), Writes(d, k), Writes(e, k));
      WritesOverridden(d, e, k);
    }
    EqualByEntries(Step(mid, e), Step(chains, e));
  }

  /** Files about different chain pairs can be folded in either order. */
  lemma StepCommutes(chains: map<string, Chain>, d: IbcData, e: IbcData)
    requires {d.chain1.chainName, d.chain2.chainName} != {e.chain1.chainName, e.chain2.chainName}
    ensures Step(Step(chains, d), e) == Step(Step(chains, e), d)
  {
    var de, ed := Step(Step(chains, d), e), Step(Step(chains, e), d);
    forall k ensures Existing(de, k) == Existing(ed, k) {
      StepAt(chains, d, k);
      StepAt(Step(chains, d), e, k);
      StepAt(chains, e, k);
      StepAt(Step(chains, e), d, k);
      AddTwice(Existing(chains, k), Writes(d, k), Writes(e, k));
      AddTwice(Existing(chains, k), Writes(e, k), Writes(d, k));
      WritesDisjoint(d, e, k);
    }
    EqualByEntries(de, ed);
  }

  // ---------------------------------------------------------------------------
  // The fold over all files

  /** After all files, the keys are the starting keys plus every chain name
      that appears in any file, on either side, and nothing else. */
  lemma {:induction false} FoldKeys(chains: map<string, Chain>, ds: seq<IbcData>)
    ensures Fold(chains, ds).Keys == chains.Keys + ChainNames(ds)
  {
    if ds != [] {
      FoldKeys(chains, ds[..|ds| - 1]);
    }
  }

  /** Every chain stays stored under its own name through the whole fold. */
  lemma {:induction false} FoldNamesMatch(chains: map<string, Chain>, ds: seq<IbcData>)
    requires NamesMatch(chains)
    ensures NamesMatch(Fold(chains, ds))
  {
    if ds != [] {
      FoldNamesMatch(chains, ds[..|ds| - 1]);
      StepNamesMatch(Fold(chains, ds[..|ds| - 1]), ds[|ds| - 1]);
    }
  }

  /** Folding a concatenation is folding the second part into the result of
      the first. */
  lemma {:induction false} FoldAppend(chains: map<string, Chain>, a: seq<IbcData>, b: seq<IbcData>)
    ensures Fold(chains, a + b) == Fold(Fold(chains, a), b)
  {
    if b == [] {
      assert a + b == a;
    } else {
      var init := b[..|b| - 1];
      assert (a + b)[..|a + b| - 1] == a + init;
      assert (a + b)[|a + b| - 1] == b[|b| - 1];
      FoldAppend(chains, a, init);
    }
  }

  /** The result maps every chain name of the input, and only those, to the
      chain of that name; no input gives the empty map. */
  lemma AggregateCoversNames(ds: seq<IbcData>)
    ensures Aggregate(ds).Keys == ChainNames(ds)
    ensures NamesMatch(Aggregate(ds))
    ensures ds == [] ==> Aggregate(ds) == map[]
  {
    FoldKeys(map[], ds);
    FoldNamesMatch(map[], ds);
  }

  /** Processing the same file twice in a row, anywhere in the run, is
      processing it once. */
  lemma FoldRepeated(chains: map<string, Chain>, ds: seq<IbcData>, d: IbcData, b: seq<IbcData>)
    ensures Fold(chains, ds + [d, d] + b) == Fold(chains, ds + [d] + b)
  {
    FoldAppend(chains, ds + [d, d], b);
    FoldAppend(chains, ds + [d], b);
    FoldAppend(chains, ds, [d, d]);
    FoldAppend(chains, ds, [d]);
    assert [d, d][..1] == [d];
    StepIdempotent(Fold(chains, ds), d);
  }

  lemma FoldOne(chains: map<string, Chain>, d: IbcData)
    ensures Fold(chains, [d]) == Step(chains, d)
  {
    assert [d][..0] == [];
  }

  lemma FoldTwo(chains: map<string, Chain>, d: IbcData, e: IbcData)
    ensures Fold(chains, [d, e]) == Step(Step(chains, d), e)
  {
    assert [d, e][..1] == [d];
    assert [d][..0] == [];
    assert Fold(chains, [d]) == Step(Fold(chains, []), d);
    assert Fold(chains, [d, e]) == Step(Fold(chains, [d]), e);
  }

  /** Two adjacent files about different chain pairs can be exchanged without
      changing the final map. */
  lemma FoldSwapAdjacent(chains: map<string, Chain>, a: seq<IbcData>, d: IbcData, e: IbcData,
                         b: seq<IbcData>)
    requires {d.chain1.chainName, d.chain2.chainName} != {e.chain1.chainName, e.chain2.chainName}
    ensures Fold(chains, a + [d, e] + b) == Fold(chains, a + [e, d] + b)
  {
    FoldAppend(chains, a + [d, e], b);
    FoldAppend(chains, a + [e, d], b);
    FoldAppend(chains, a, [d, e]);
    FoldAppend(chains, a, [e, d]);
    FoldTwo(Fold(chains, a), d, e);
    FoldTwo(Fold(chains, a), e, d);
    StepCommutes(Fold(chains, a), d, e);
  }

  /** Of two adjacent files about the same chain pair, the earlier one is
      overwritten when the later one has a surviving channel. */
  lemma FoldLaterWins(chains: map<string, Chain>, a: seq<IbcData>, d: IbcData, e: IbcData,
                      b: seq<IbcData>)
    requires {d.chain1.chainName, d.chain2.chainName} == {e.chain1.chainName, e.chain2.chainName}
    requires LastSurvivor(e).Some?
    ensures Fold(chains, a + [d, e] + b) == Fold(chains, a + [e] + b)
  {
    FoldAppend(chains, a + [d, e], b);
    FoldAppend(chains, a + [e], b);
    FoldAppend(chains, a, [d, e]);
    FoldAppend(chains, a, [e]);
    FoldTwo(Fold(chains, a), d, e);
    assert [e][..0] == [];
    StepLaterWins(Fold(chains, a), d, e);
  }

  // ---------------------------------------------------------------------------
  // The fold, entry by entry

  /** Everything the files of `ds` write into the chain `k`, in file order,
      a later write replacing an earlier one under the same name. */
  function WritesAll(ds: seq<IbcData>, k: string): map<string, ChainChannelInfo> {
    if ds == [] then map[] else WritesAll(ds[..|ds| - 1], k) + Writes(ds[|ds| - 1], k)
  }

  /** Pointwise meaning of a whole run: each entry is the old (or fresh) entry
      with all the files' writes for that chain applied in order. */
  lemma {:induction false} FoldAt(chains: map<string, Chain>, ds: seq<IbcData>, k: string)
    ensures Existing(Fold(chains, ds), k) == Add(Existing(chains, k), WritesAll(ds, k))
  {
    if ds == [] {
      AddNothing(Existing(chains, k));
    } else {
      var init, last := ds[..|ds| - 1], ds[|ds| - 1];
      FoldAt(chains, init, k);
      StepAt(Fold(chains, init), last, k);
      AddTwice(Existing(chains, k), WritesAll(init, k), Writes(last, k));
    }
  }

  /** The writes of a concatenation are those of the first part overridden by
      those of the second. */
  lemma {:induction false} WritesAllAppend(a: seq<IbcData>, b: seq<IbcData>, k: string)
    ensures WritesAll(a + b, k) == WritesAll(a, k) + WritesAll(b, k)
  {
    if b == [] {
      assert a + b == a;
      assert WritesAll(a, k) + map[] == WritesAll(a, k);
    } else {
      var init, last := b[..|b| - 1], b[|b| - 1];
      var ab := a + b;
      assert ab[..|ab| - 1] == a + init;
      assert ab[|ab| - 1] == last;
      assert WritesAll(ab, k) == WritesAll(a + init, k) + Writes(last, k);
      assert WritesAll(b, k) == WritesAll(init, k) + Writes(last, k);
      WritesAllAppend(a, init, k);
      MapAddAssoc(WritesAll(a, k), WritesAll(init, k), Writes(last, k));
    }
  }

  lemma WritesAllOne(d: IbcData, k: string)
    ensures WritesAll([d], k) == Writes(d, k)
  {
    assert [d][..0] == [];
    assert map[] + Writes(d, k) == Writes(d, k);
  }

  lemma MapAddAssoc(x: map<string, ChainChannelInfo>, y: map<string, ChainChannelInfo>,
                    z: map<string, ChainChannelInfo>)
    ensures (x + y) + z == x + (y + z)
  {
  }

  /** A block of writes whose names are all rewritten later is overridden,
      whatever comes in between or after. */
  lemma Overridden(pre: map<string, ChainChannelInfo>, x: map<string, ChainChannelInfo>,
                   y: map<string, ChainChannelInfo>, z: map<string, ChainChannelInfo>,
                   w: map<string, ChainChannelInfo>)
    requires x.Keys <= z.Keys
    ensures pre + (x + (y + (z + w))) == pre + (y + (z + w))
  {
  }

  /** The writes of `a`, then `d`, then `m`, then `e`, then `b`. */
  lemma WritesAllSplit(a: seq<IbcData>, d: IbcData, m: seq<IbcData>, e: IbcData,
                       b: seq<IbcData>, k: string)
    ensures WritesAll(a + ([d] + (m + ([e] + b))), k)
            == WritesAll(a, k) + (Writes(d, k) + (WritesAll(m, k) + (Writes(e, k) + WritesAll(b, k))))
    ensures WritesAll(a + (m + ([e] + b)), k)
            == WritesAll(a, k) + (WritesAll(m, k) + (Writes(e, k) + WritesAll(b, k)))
  {
    var tail := m + ([e] + b);
    WritesAllAppend(a, [d] + tail, k);
    WritesAllAppend([d], tail, k);
    WritesAllAppend(a, tail, k);
    WritesAllAppend(m, [e] + b, k);
    WritesAllAppend([e], b, k);
    WritesAllOne(d, k);
    WritesAllOne(e, k);
  }

  /** Dropping a file whose chain names another remaining file also has
      leaves the set of chain names unchanged. */
  lemma ChainNamesDrop(a: seq<IbcData>, d: IbcData, tail: seq<IbcData>, e: IbcData)
    requires e in tail
    requires {d.chain1.chainName, d.chain2.chainName} == {e.chain1.chainName, e.chain2.chainName}
    ensures ChainNames(a + ([d] + tail)) == ChainNames(a + tail)
  {
    var long, short := a + ([d] + tail), a + tail;
    assert forall x :: x in long <==> x in short || x == d;
    assert e in short;
    assert d.chain1.chainName in {e.chain1.chainName, e.chain2.chainName};
    assert d.chain2.chainName in {e.chain1.chainName, e.chain2.chainName};
  }

  /** Entry by entry, the earlier file of a same-pair couple leaves no trace. */
  lemma FoldLaterWinsAt(chains: map<string, Chain>, a: seq<IbcData>, d: IbcData,
                        m: seq<IbcData>, e: IbcData, b: seq<IbcData>, k: string)
    requires {d.chain1.chainName, d.chain2.chainName} == {e.chain1.chainName, e.chain2.chainName}
    requires LastSurvivor(e).Some?
    ensures Existing(Fold(chains, a + ([d] + (m + ([e] + b)))), k)
            == Existing(Fold(chains, a + (m + ([e] + b))), k)
  {
    FoldAt(chains, a + ([d] + (m + ([e] + b))), k);
    FoldAt(chains, a + (m + ([e] + b)), k);
    WritesAllSplit(a, d, m, e, b, k);
    WritesOverridden(d, e, k);
    assert Writes(d, k).Keys <= Writes(e, k).Keys by {
      assert Writes(d, k) + Writes(e, k) == Writes(e, k);
    }
    Overridden(WritesAll(a, k), Writes(d, k), WritesAll(m, k), Writes(e, k), WritesAll(b, k));
  }

  /** Of two files about the same chain pair, anywhere in the run and with any
      files in between, the later one wins when it has a surviving channel:
      the earlier one can be dropped without changing the final map. */
  lemma FoldLaterWinsAnywhere(chains: map<string, Chain>, a: seq<IbcData>, d: IbcData,
                              m: seq<IbcData>, e: IbcData, b: seq<IbcData>)
    requires {d.chain1.chainName, d.chain2.chainName} == {e.chain1.chainName, e.chain2.chainName}
    requires LastSurvivor(e).Some?
    ensures Fold(chains, a + ([d] + (m + ([e] + b)))) == Fold(chains, a + (m + ([e] + b)))
  {
    var tail := m + ([e] + b);
    var long, short := a + ([d] + tail), a + tail;
    FoldKeys(chains, long);
    FoldKeys(chains, short);
    assert e in tail by { assert tail[|m|] == e; }
    ChainNamesDrop(a, d, tail, e);
    forall k ensures Existing(Fold(chains, long), k) == Existing(Fold(chains, short), k) {
      FoldLaterWinsAt(chains, a, d, m, e, b, k);
    }
    EqualByEntries(Fold(chains, long), Fold(chains, short));
  }
}
