/**
 * Concrete runs of the transform on small inputs.
 */
module Scenarios {
  import opened Ibc
  import opened Chains
  import opened Transform
  import opened TransformProps

  function Pair(a: string, b: string, channels: seq<IbcChannel>): IbcData {
    IbcData(IbcChainInfo(a, "07-tendermint-0", "connection-0"),
            IbcChainInfo(b, "07-tendermint-1", "connection-1"), channels)
  }

  function Channel(id1: string, port1: string, id2: string, port2: string): IbcChannel {
    IbcChannel(IbcChannelInfo(id1, port1), IbcChannelInfo(id2, port2), "unordered", "ics20-1")
  }

  /** A transfer channel between A and B, and a file about A and C whose only
      channel has a non-transfer port on one side: A and B hold each other's
      link, and C is still created, with no transfers. */
  lemma TwoFiles()
    ensures Aggregate([Pair("A", "B", [Channel("ch-1", "transfer", "ch-2", "transfer")]),
                       Pair("A", "C", [Channel("ch-3", "transfer", "ch-4", "icahost")])])
            == map[
                 "A" := Chain("A", map["B" := ChainChannelInfo("ch-1", "transfer", "ch-2", "transfer",
                                                               "unordered", "ics20-1")]),
                 "B" := Chain("B", map["A" := ChainChannelInfo("ch-2", "transfer", "ch-1", "transfer",
                                                               "unordered", "ics20-1")]),
                 "C" := Chain("C", map[])]
  {
    var ab := Pair("A", "B", [Channel("ch-1", "transfer", "ch-2", "transfer")]);
    var ac := Pair("A", "C", [Channel("ch-3", "transfer", "ch-4", "icahost")]);
    FoldTwo(map[], ab, ac);
    assert Filter(ab.channels) == ab.channels;
    assert Filter(ac.channels) == [];
  }

  /** The port match is exact: "Transfer" is not the transfer port. */
  lemma PortMatchIsCaseSensitive()
    ensures Filter([Channel("ch-1", "Transfer", "ch-2", "transfer")]) == []
  {
    assert "Transfer"[0] != "transfer"[0];
  }

  /** Inside one file the last surviving channel wins, in both directions. */
  lemma LastChannelOfFileWins()
    ensures Aggregate([Pair("A", "B", [Channel("ch-1", "transfer", "ch-2", "transfer"),
                                       Channel("ch-5", "transfer", "ch-6", "transfer")])])
            == map[
                 "A" := Chain("A", map["B" := ChainChannelInfo("ch-5", "transfer", "ch-6", "transfer",
                                                               "unordered", "ics20-1")]),
                 "B" := Chain("B", map["A" := ChainChannelInfo("ch-6", "transfer", "ch-5", "transfer",
                                                               "unordered", "ics20-1")])]
  {
    var ab := Pair("A", "B", [Channel("ch-1", "transfer", "ch-2", "transfer"),
                              Channel("ch-5", "transfer", "ch-6", "transfer")]);
    FoldOne(map[], ab);
    assert Filter(ab.channels) == ab.channels;
  }

  /** A file that pairs a chain with itself keeps only the reverse link. */
  lemma SelfPairKeepsReverse()
    ensures Aggregate([Pair("A", "A", [Channel("ch-1", "transfer", "ch-2", "transfer")])])
            == map["A" := Chain("A", map["A" := ChainChannelInfo("ch-2", "transfer", "ch-1", "transfer",
                                                                 "unordered", "ics20-1")])]
  {
    var aa := Pair("A", "A", [Channel("ch-1", "transfer", "ch-2", "transfer")]);
    FoldOne(map[], aa);
    assert Filter(aa.channels) == aa.channels;
    var fwd, rev := ForwardInfo(aa.channels[0]), ReverseInfo(aa.channels[0]);
    assert map["A" := fwd]["A" := rev] == map["A" := rev];
  }

  /** Two files about the same pair do not commute: whichever comes last wins. */
  lemma SamePairOrderMatters()
    ensures Aggregate([Pair("A", "B", [Channel("ch-1", "transfer", "ch-2", "transfer")]),
                       Pair("A", "B", [Channel("ch-7", "transfer", "ch-8", "transfer")])])
            != Aggregate([Pair("A", "B", [Channel("ch-7", "transfer", "ch-8", "transfer")]),
                          Pair("A", "B", [Channel("ch-1", "transfer", "ch-2", "transfer")])])
  {
    var d := Pair("A", "B", [Channel("ch-1", "transfer", "ch-2", "transfer")]);
    var e := Pair("A", "B", [Channel("ch-7", "transfer", "ch-8", "transfer")]);
    assert Filter(d.channels) == d.channels;
    assert Filter(e.channels) == e.channels;
    FoldTwo(map[], d, e);
    FoldTwo(map[], e, d);
    StepStoresLinks(Step(map[], d), e, e.channels[0]);
    StepStoresLinks(Step(map[], e), d, d.channels[0]);
    assert "ch-7" != "ch-1" by { assert "ch-7"[3] != "ch-1"[3]; }
  }
}
