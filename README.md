# chain-registry-ibc aggregation, modelled in Dafny

The program reads the registry's `_IBC` directory. Each file there describes one pair of chains
and the IBC channels between them (`IbcData`). The program re-indexes these files into one `Chain`
record per chain name. A record maps each counterparty chain name to the transfer channel
parameters (`ChainChannelInfo`) as seen from that chain.

For every file the program does five things:
1. It keeps the channels whose two endpoints are both bound to the port `"transfer"`.
2. It projects each survivor into a forward link, keyed by the second chain's name, with the first
   chain's endpoint as `src`.
3. It projects each survivor into a reverse link, keyed by the first chain's name, with the
   endpoints swapped.
4. It does a get-or-create on the first chain's entry and stores the forward link.
5. It does the same for the second chain's entry and the reverse link.

Files:
- `ibc.dfy` (module `Ibc`): the input records of `src/ibc.rs`.
- `chain.dfy` (module `Chains`): the output records of `src/chain.rs`. It also defines `Swap`,
  which views a link from its other end.
- `transform.dfy` (module `Transform`): the transform as pure functions. `Filter` and the two
  projections are here. `Collect` is the `collect()` of (key, link) pairs into a `HashMap`.
  `MergeSide` is the `entry().and_modify().or_insert()` merge. `Step` handles one file, `Fold`
  handles the whole sequence of files, and `Aggregate` folds into an empty map.
- `transform_props.dfy` (module `TransformProps`): the lemmas about this specification. `StepAt`
  describes one step entry by entry, as "the old or freshly created entry, with the file's writes
  for that chain applied on top". The frame, idempotence, last-write-wins and commutation lemmas
  are derived from it.
- `aggregation.dfy` (module `Aggregation`): the driver loop written as the program runs it. A map
  variable is updated in place. An entry is looked up and then either modified, by a loop over
  the collected links, or inserted. `BuildChains` is proved equal to `Aggregate`.
- `scenarios.dfy` (module `Scenarios`): concrete inputs and the exact maps they produce.

A file whose channels are all filtered out still creates an entry for each of its chains, with an
empty `transfers` map (src/main.rs:62-65, 86-89); see `Scenarios.TwoFiles` and
`TransformProps.StepNewEntry`. When the two chain names of a file are
equal, the reverse link is written second and replaces the forward link
(`TransformProps.StepStoresLinks`, `Scenarios.SelfPairKeepsReverse`).

## Model

| member | source | states |
|---|---|---|
| `Transform.Filter` | src/main.rs:42 | every survivor has both endpoints' port exactly "transfer", and the result is no longer than the input |
| `TransformProps.FilterMembers` | src/main.rs:42 | a channel survives iff it is in the input and both of its ports are exactly "transfer" |
| `TransformProps.FilterSingle` | src/main.rs:42 | a single channel is kept iff it is a transfer channel |
| `TransformProps.FilterAppend` | src/main.rs:42 | filtering distributes over concatenation, so survivors keep their input order |
| `TransformProps.FilterKeepsTransfers` | src/main.rs:67 | a list of transfer channels passes the filter unchanged |
| `TransformProps.FilterIdempotent` | src/main.rs:66-67 | the second filter on the already filtered list changes nothing |
| `TransformProps.FilterLast` | src/main.rs:42 | the last survivor is a transfer channel of the input after which no transfer channel follows |
| `TransformProps.LastTransferExtend` | src/main.rs:42 | appending a non-transfer channel keeps the last transfer channel where it was |
| `TransformProps.LastSurvivorIsLastTransfer` | src/main.rs:42-54 | a file has a winning channel iff one of its channels is a transfer channel, and the winner is the last such channel |
| `Transform.Collect` | src/main.rs:43-54 | collecting (key, link) pairs gives exactly the pairs' keys, and the last pair's link is stored under its key |
| `TransformProps.CollectLastWins` | src/main.rs:43-54 | any pair that no later pair with the same key follows supplies that key's value |
| `TransformProps.CollectSameKey` | src/main.rs:43-54 | pairs that all share one key collect into the empty map or into that key mapped to the last link |
| `TransformProps.ForwardMapIsForwardLink` | src/main.rs:43-54 | the forward map of a file holds at most one entry: the second chain's name mapped to the last survivor's forward link |
| `TransformProps.ReverseMapIsReverseLink` | src/main.rs:66-78 | the reverse map holds at most one entry: the first chain's name mapped to the last survivor's reverse link |
| `TransformProps.ReverseIsSwappedForward` | src/main.rs:43-78 | the reverse link exists iff the forward one does, and it is the forward link with src and dest exchanged |
| `Chains.SwapInvolutive` | src/main.rs:45-75 | viewing a link from the other end twice gives the same link |
| `Transform.Step` | src/main.rs:56-89 | after one file the keys are the old keys plus both chain names of the file |
| `TransformProps.MergeSideAt` | src/main.rs:56-65 | get-or-create: the entry for the named chain is the old entry, or a fresh one with that name and no transfers, with the link stored under the key; other entries are unchanged |
| `TransformProps.StepAt` | src/main.rs:56-89 | every entry after a file is the old or fresh entry with exactly that file's writes for that chain applied, the reverse write last |
| `TransformProps.WritesKeys` | src/main.rs:59 | a file writes into a chain only under the name of the other chain of its pair, and with a survivor it writes exactly there |
| `TransformProps.StepFrame` | src/main.rs:56-89 | chains outside the pair are unchanged, chain names are unchanged, and in the pair's chains every other counterparty's link is unchanged |
| `TransformProps.StepNewEntry` | src/main.rs:62-65 | a chain seen for the first time is stored under its own name with only this file's link, or with no transfers when nothing survived |
| `TransformProps.StepNoSurvivor` | src/main.rs:56-89 | a file with no surviving channel leaves every existing chain untouched, and changes nothing when both of its chains already exist |
| `TransformProps.StepStoresLinks` | src/main.rs:56-89 | with a survivor, the first chain holds its forward link under the second chain's name, and the second chain holds its reverse link under the first chain's name; when the names are equal the reverse link is kept |
| `TransformProps.StepIgnoresIds` | src/ibc.rs:5-9 | client and connection identifiers do not affect the result; only the chain names and the channels do |
| `TransformProps.StepNamesMatch` | src/main.rs:64 | every chain stays stored under its own chain name after a file |
| `TransformProps.StepIdempotent` | src/main.rs:59 | merging the same file twice gives the same map as merging it once |
| `TransformProps.WritesOverridden` | src/main.rs:83 | for one chain, a later file about the same pair with a survivor overwrites every entry the earlier file wrote |
| `TransformProps.WritesDisjoint` | src/main.rs:83 | for one chain, files about different chain pairs write under different names |
| `TransformProps.StepLaterWins` | src/main.rs:56-89 | of two files about the same chain pair, the later one wins when it has a survivor: the earlier one leaves no trace |
| `TransformProps.StepCommutes` | src/main.rs:56-89 | two files about different chain pairs give the same map in either order |
| `Transform.ChainNames` | src/ibc.rs:33-35 | a name is collected iff it is the first or the second chain of some file |
| `TransformProps.FoldKeys` | src/main.rs:32-89 | the final keys are the starting keys plus every chain name of every file, with nothing missing and nothing extra |
| `TransformProps.FoldNamesMatch` | src/main.rs:32-89 | every chain stays stored under its own name through the whole run |
| `TransformProps.FoldAppend` | src/main.rs:32 | processing a concatenation is processing the second part on top of the first |
| `TransformProps.AggregateCoversNames` | src/main.rs:30-91 | the result's keys are exactly the input's chain names, each chain is stored under its own name, and no files give the empty map |
| `TransformProps.FoldOne` | src/main.rs:32 | a single file is processed by one step |
| `TransformProps.FoldTwo` | src/main.rs:32 | two files are processed by two steps, in input order |
| `TransformProps.FoldRepeated` | src/main.rs:32-89 | processing the same file twice in a row, anywhere in the run, equals processing it once |
| `TransformProps.FoldSwapAdjacent` | src/main.rs:32-89 | adjacent files about different chain pairs can be exchanged without changing the result |
| `TransformProps.FoldLaterWins` | src/main.rs:32-89 | of adjacent files about the same pair, the earlier one is overwritten when the later one has a survivor |
| `TransformProps.FoldAt` | src/main.rs:32-89 | every entry after a run is the old or fresh entry with all the files' writes for that chain applied in file order |
| `TransformProps.WritesAllAppend` | src/main.rs:32 | the writes of a concatenation are the first part's writes overridden by the second part's |
| `TransformProps.FoldLaterWinsAnywhere` | src/main.rs:32-89 | of two files about the same pair, with any files in between, the earlier one can be dropped when the later one has a survivor |
| `TransformProps.WritesAllSplit` | src/main.rs:32 | the writes of a run split into those of its parts, in file order |
| `TransformProps.ChainNamesDrop` | src/ibc.rs:33-35 | dropping a file whose two chain names another remaining file also names leaves the set of chain names unchanged |
| `TransformProps.FoldLaterWinsAt` | src/main.rs:32-89 | entry by entry, the earlier of two same-pair files leaves no trace when the later one has a survivor |
| `Aggregation.InsertTransfers` | src/main.rs:58-60 | inserting the collected links under one key leaves the transfers alone when nothing was collected; otherwise the key holds one of the collected links and nothing else changes |
| `Aggregation.MergeEntry` | src/main.rs:56-65 | the entry API adds only the named key and leaves other entries alone; a new entry gets the name and the collected map; when the collected links are keyed by one name, the result is the get-or-create merge |
| `Aggregation.BuildChains` | src/main.rs:30-91 | the loop over all files yields the fold of the specification, whose keys are all input chain names, each stored under its own name |
| `Scenarios.TwoFiles` | src/main.rs:41-89 | an A-B transfer file and an A-C file without a transfer channel give A and B each other's link, and a C entry with no transfers |
| `Scenarios.PortMatchIsCaseSensitive` | src/main.rs:42 | a port named "Transfer" is filtered out |
| `Scenarios.LastChannelOfFileWins` | src/main.rs:43-89 | of two transfer channels in one file, only the last one's links are kept, in both directions |
| `Scenarios.SelfPairKeepsReverse` | src/main.rs:80-89 | a file that pairs a chain with itself leaves only the reverse link |
| `Scenarios.SamePairOrderMatters` | src/main.rs:32 | two files about the same pair with different channels give different results in the two orders |

## Left out

- Directory listing, the file check, opening files and JSON parsing (src/main.rs:32-39) are left out. The input is an already parsed sequence of `IbcData`, and its order is taken as given. The program does not sort the directory entries, so that order depends on the filesystem.
- Parse and I/O failures and the `error_chain!` plumbing (src/main.rs:15-21) are left out. They come from foreign libraries and abort the run; the transform itself never fails.
- Output is left out: creating `/tmp/ibc` and writing one pretty-printed JSON file per chain (src/main.rs:92-96). The model ends at the final map.
- The `println!` banner (src/main.rs:26-29) is left out; it has no effect on the result.
- Serde derives and JSON field names are left out. They are library behaviour.
- `IbcChannelTags` (src/ibc.rs:18-22) is left out. No other record refers to it.
- Nothing in this code writes an index file, records timestamps, sorts its inputs or reads command-line options.
- Aggregation.InsertTransfers: when the collection holds several different links, it states only that one of them ends up under the key, because a `HashMap` is iterated in an unspecified order. Every collection the program passes has at most one entry, and then the result is exact.
- Aggregation.MergeEntry: it ties its result to `MergeSide` only for collections keyed by the target name alone, which is the only kind the program builds (see `TransformProps.ForwardMapIsForwardLink`).
- Strings are compared as sequences of characters. Rust's byte-wise UTF-8 comparison agrees with that for equality.
