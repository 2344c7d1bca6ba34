/**
 * The driver loop over the descriptor files, written the way the program runs
 * it: one running map updated in place, an entry looked up and either
 * modified or inserted, and the modification itself a loop over the
 * collected links.
 */
module Aggregation {
  import opened Ibc
  import opened Chains
  import opened Transform
  import opened TransformProps

  /** The `and_modify` body: every collected link is inserted under `key`
      (the collected map's own keys are ignored). An empty collection leaves
      the transfers alone; otherwise `key` ends up holding one of the collected
      links, and nothing else changes. */
  method InsertTransfers(transfers: map<string, ChainChannelInfo>, key: string,
                         collected: map<string, ChainChannelInfo>)
    returns (r: map<string, ChainChannelInfo>)
    ensures collected == map[] ==> r == transfers
    ensures collected != map[] ==> exists l :: l in collected.Values && r == transfers[key := l]
  {
    r := transfers;
    var pending := collected.Keys;
    while pending != {}
      invariant pending <= collected.Keys
      invariant pending == collected.Keys ==> r == transfers
      invariant pending != collected.Keys ==>
                  exists l :: l in collected.Values && r == transfers[key := l]
      decreases pending
    {
      var k :| k in pending;
      assert collected[k] in collected.Values;
      r := r[key := collected[k]];
      pending := pending - {k};
    }
  }

  /** `entry(name).and_modify(..).or_insert(Chain { name, collected })`, where
      every collected link is keyed by `key`. */
  method MergeEntry(chains: map<string, Chain>, name: string, key: string,
                    collected: map<string, ChainChannelInfo>)
    returns (r: map<string, Chain>)
    ensures r.Keys == chains.Keys + {name}
    ensures forall k :: k in chains && k != name ==> r[k] == chains[k]
    ensures name !in chains ==> r[name] == Chain(name, collected)
    ensures collected.Keys <= {key} ==>
              r == MergeSide(chains, name, key, if key in collected then Some(collected[key]) else None)
  {
    if name in chains {
      var e := chains[name];
      var updated := InsertTransfers(e.transfers, key, collected);
      r := chains[name := e.(transfers := updated)];
    } else {
      r := chains[name := Chain(name, collected)];
    }
    if collected.Keys <= {key} && key in collected {
      assert collected == map[key := collected[key]];
      assert collected.Values == {collected[key]};
    }
  }

  /** The whole run: every descriptor file, in the order given, merged into an
      initially empty map. The result is the specification's fold, so every
      chain name of the input is a key and every chain is stored under its
      own name. */
  method BuildChains(files: seq<IbcData>) returns (chains: map<string, Chain>)
    ensures chains == Aggregate(files)
    ensures chains.Keys == ChainNames(files)
    ensures NamesMatch(chains)
  {
    chains := map[];
    for i := 0 to |files|
      invariant chains == Fold(map[], files[..i])
    {
      var d := files[i];
      var transfers := Filter(d.channels);
      var toChain2 := ForwardMap(transfers, d.chain2.chainName);
      ForwardMapIsForwardLink(d);
      chains := MergeEntry(chains, d.chain1.chainName, d.chain2.chainName, toChain2);
      var toChain1 := ReverseMap(Filter(transfers), d.chain1.chainName);
      ReverseMapIsReverseLink(d);
      chains := MergeEntry(chains, d.chain2.chainName, d.chain1.chainName, toChain1);
      assert files[..i + 1][..i] == files[..i];
    }
    assert files[..|files|] == files;
    AggregateCoversNames(files);
  }
}
