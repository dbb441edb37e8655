# A verified model of Aethernet's core

This project models the parts of Aethernet where a mistake would be hard to see, and proves what they are for. It is
written in Dafny 4.11; `dafny verify dfyconfig.toml` checks all of it.

| files | what they model |
|---|---|
| `Voting`, `VotingRound`, `VotingSafety`, `VotingRuns`, `VotingExhaustion` | the stake-weighted voting round: transitions on values, the class that performs them, what a tally guarantees, invariants of every run, how many rounds an event stays open |
| `VotingHearing`, `VotingAgreement`, `VotingValues`, `VotingSettling`, `VotingRestart`, `VotingBoot` | nodes that hear ballots, agreement between nodes on the verdict and on the value, reload after a restart with and without a bound validator set |
| `WeightedMedian`, `WeightedSets` | the weighted median of submitted values, and sums of weights |
| `Dag`, `DagGrowth`, `DagQueries`, `DagSort`, `DagReplay`, `DagLoad`, `Walks` | the append-only causal graph with its incrementally kept child sets and tips, the graphs that can be grown, ancestor searches, anchors and prerequisites, both topological sorts, replay from an unordered store |
| `BitGroups`, `Registers`, `ChecksumStep`, `GaloisField`, `Bech32`, `Remainders`, `Address` | bit regrouping, the BIP-173 checksum as a register and as a remainder of polynomials over GF(32), addresses |
| `Depth`, `DepthWalks`, `DepthBound` | memoised verification depth, what it counts, and how far its 64 bits reach |
| `JsonText`, `CanonicalJson`, `KeyOrder`, `CanonicalOrder` | a reader of JSON text after RFC 8259, the canonical printer, and its key order against that of RFC 8785 |
| `BlobSync`, `BlobFates` | the blob fetch coordinator, as interleaved steps of requesters and workers; how requests are served and why sessions end |
| `TxReplay` | transaction time checks and the cache of seen transaction IDs |
| `FeeSplit`, `Reserve`, `ReserveRuns` | division of assurance fees, the lazily loaded replay reserve, its books over whole runs |
| `Sorting`, `Collections`, `Int64` | sorting and lexicographic order; options and counting; 64-bit signed arithmetic |

Objects that the program updates in place are classes; loops are loops, with the sequence or map they walk visited in an
arbitrary order where Go iterates over a map. Each such method is proved equal to a transition or a specification function
on values, and the properties are proved of those for every input and every run. Clocks, the hash and signature functions,
event IDs, lower-casing of characters, committees and network outcomes are parameters.

Places where the code does something other than its comments say:

- The comment of the voting package says that no coalition of at most a third of the weight can make correct nodes
  finalize differently. `SmallEquivocatorSplitsNodes` gives two runs that a voter with 6.7% splits; `SplitExactly` says
  exactly which coalitions can.
- The final value is called deterministic and computed from all approve votes. It is the median of those that have
  arrived at the quorum: `ConsistentVotesTwoValues` gives two runs with the same votes and values that fix 10 and 20.
  `SettlesExactly` says for which values all runs of all nodes fix the same one.
- A vote is checked against the current validator set, which is replaced while events are open (`cmd/node/main.go` line
  537), and tallied with the set the event was opened under. An approver without a seat in that one has no weight in the
  tally, but counts one in the median: in `OutsidersMoveValue` the only seat reports 10 and the value is 999.
  `ConfinesExactly` says when a group confines the value to the range of its own in spite of that.
- Stored votes are loaded before the validator set is bound (`cmd/node/main.go` lines 886 and 1239), and every record
  opened before keeps the registry fallback, whose denominator is the weight received. `UnboundLoadSplitsNodes` is a node
  that restarts in this order and approves an event which another node rejects under the snapshot, without a voter on both
  sides; `UnboundLoadOpen` says exactly which events come back open. The theorems about restarts and agreement are about
  bound records and do not cover these.
- `TopologicalSort` reports a cycle for a graph that has none as soon as one event repeats a reference, and only then.
  `FalseCycleReported` builds such a graph by two calls of `Add`.
- The comment of `topoSort` says that it skips events with missing parents. `SkippedIffLooped` says that it skips exactly
  those from which references lead into a cycle; `MissingParentEmitted` is a listing with a missing parent.
- The verification depth is computed in 64 bits. `ReportedDepthExact` says that it is always right with up to 62 packets
  behind, and not always with 63.
- `RequestFetch` says that it does nothing for a local blob. `LocalBlobRefetched` is a run in which it fetches one that
  another request fetched, `StoredBlobFetched` one that another component stored; `RefetchIffRace` says exactly when.
- The lifetime of a transaction is computed in 64 bits. `ReplayCaughtExactly` says for which timestamps replay protection
  survives that.
- Bech32 decoding accepts mixed case, which BIP-173 forbids: `MixedCaseAccepted` and `MixedRefusedIff`.
- Keys of canonical JSON are sorted by code point, where section 3.2.3 of RFC 8785 asks for UTF-16 code units.
  `RfcOrderIffClashFree` says for which values that shows; `RfcOrderMissed` gives one.
- The comment of `ProcessSettlement` says that a failed accrual leaves the reserve as it was. `FailedSettlement` says that
  it never does, `RetriedSettlement` that a retry then accrues twice.

## Model

| member | source | states |
|---|---|---|
| WeightedMedian.MedianUnique | internal/consensus/voting.go:634-680 | at most one submitted value has at most half the weight strictly below it and more than half at or below it |
| WeightedMedian.MedianExists | internal/consensus/voting.go:634-680 | as soon as there is weight, there is such a value |
| WeightedMedian.ScanFindsMedian | internal/consensus/voting.go:657-679 | the entry at which the running weight of the sorted entries passes half the total is the median of the voters, whatever order they were collected in |
| WeightedMedian.MedianOfMultiset | internal/consensus/voting.go:634-680 | the median depends only on the multiset of (value, weight) pairs, not on who submitted them or in which order |
| WeightedMedian.MajorityBoundsMedian | internal/consensus/voting.go:634-680 | a group with more than half the weight confines the median between its smallest and its largest value |
| VotingRounds.ComputeWeightedMedian | internal/consensus/voting.go:634-680 | the collect, sort and scan loops return the weighted median of the approve votes, zero without any |
| VotingRounds.TallyWeights | internal/consensus/voting.go:539-558 | the loop over the votes adds up total, yes and no weight of the eligible voters, in any order, modulo 2^64 |
| VotingRounds.DecideOutcome | internal/consensus/voting.go:560-602 | the ratio comparisons decide by the quorum of the active weight: approve at it, reject when the no side leaves less than it |
| VotingRounds.VotingRound.TallyVotesLocked | internal/consensus/voting.go:531-608 | the tally of an open record: weights, verdict, value, next order number, stored votes deleted, or the round advanced |
| VotingRounds.VotingRound.RegisterVote | internal/consensus/voting.go:449-510 | one registration step with its exact error: eligibility, committee, finalized, exhausted, duplicate, in that order |
| VotingRounds.VotingRound.TallyVotes | internal/consensus/voting.go:516-525 | one explicit tally step, or the unknown-event error |
| VotingRounds.VotingRound.ChangeValidatorSet | internal/consensus/voting.go:332-336 | a new validator set binds only records opened later |
| VotingRounds.VotingRound.MarkCallbackFired | internal/consensus/voting.go:744-754 | true exactly for the first marking of a finalized record |
| VotingSafety.TallyExact | internal/consensus/voting.go:539-558 | on a snapshot whose reported total covers its seats the 64-bit sums never wrap and both sides together stay within that total |
| VotingSafety.ConflictWeighsEquivocators | internal/consensus/voting.go:562-602 | opposite verdicts on one snapshot imply that the voters recorded on both sides carry at least the weight by which the two winning sides overshoot the whole |
| VotingSafety.ConflictNamesEquivocator | internal/consensus/voting.go:562-602 | so there is a voter of positive weight with opposite recorded votes |
| VotingSafety.EarlyVerdictIsFinal | internal/consensus/voting.go:539-602 | a verdict on part of the votes is the verdict of every consistent extension |
| VotingSafety.FullVoteDecides | internal/consensus/voting.go:562-602 | once every seat with weight has voted and enough voters took part, a tally decides |
| VotingAgreement.FullVoteFinalizes | internal/consensus/voting.go:449-608 | so in every run a record on which every seat with weight has voted, with enough participants, is finalized |
| VotingAgreement.SmallEquivocatorSplitsNodes | internal/consensus/voting.go:21-26 | the one-third bound of the package comment fails: two runs of fresh nodes that differ in the vote of one voter with 6.7% of the weight finalize one event approved and rejected |
| VotingSafety.SplitExactly | internal/consensus/voting.go:21-26 | a coalition can split the verdict if and only if some honest group falls short of the quorum alone and reaches it with the coalition |
| VotingSafety.SplitExtremes | internal/consensus/voting.go:21-26 | a coalition without weight never can, one that reaches a positive threshold alone always can |
| VotingRuns.RunKeeps | internal/consensus/voting.go:449-608 | after every run: final orders are exactly 1 to the sequence number without repeats, every record is tallied and decided by its votes, the store holds exactly the votes of open events |
| VotingRuns.RunEvolves | internal/consensus/voting.go:465-608 | between any two points of a run votes never change, a finalized record keeps verdict, value and order, an exhausted one never finalizes or takes a vote |
| VotingRuns.CallbackFiresOnce | internal/consensus/voting.go:744-754 | over any run the marker answers true at most once per event, and exactly once if the event ends up marked |
| VotingExhaustion.RoundCounts | internal/consensus/voting.go:604-606 | in every run the round of an open event is one more than the number of `TallyVotes` calls that met it open, up to the limit |
| VotingExhaustion.ExhaustedExactly | internal/consensus/voting.go:488-491 | a vote is refused for exhaustion if and only if the event is open and the allowed number of such calls has left it so |
| Voting.RegistryWeightLargest | internal/consensus/voting.go:418-435 | a number is at most the registry weight if and only if it fits 64 bits and ten thousand times it is at most reputation times stake |
| VotingAgreement.CrossNodeAgreement | internal/consensus/voting.go:449-608 | two nodes, any two runs from any stores, both records bound to one snapshot: if one approved and the other rejected, a positive-weight voter is on record with both votes |
| VotingRestart.AgreementAfterRestart | internal/consensus/voting.go:359-377 | an event open before a restart with the set bound, settled afterwards, and settled the other way by another node: a positive-weight voter is on record with both votes, and the record holds all admitted votes of the former life |
| VotingAgreement.MajorityBoundsFinalValue | internal/consensus/voting.go:578-585 | in any run the final value of an approved event lies within the values of every majority group of approvers |
| VotingValues.ConsistentVotesTwoValues | internal/consensus/voting.go:228-231 | two fresh nodes under one snapshot that hear three of the same four approvals, each with one value, fix the values 10 and 20 |
| VotingValues.OutsidersMoveValue | internal/consensus/voting.go:634-680 | a run in which the only seat of the bound snapshot reports 10, two voters admitted by a later set report 999, and the final value is 999 |
| VotingValues.GroupBoundsValue | internal/consensus/voting.go:578-585 | every node's final value lies in the range of the values a group reports, whatever others report, if the seats outside the group make no quorum with seats inside that weigh at most as much as they and the approvers outside without a seat |
| VotingValues.FewNeverSway | internal/consensus/voting.go:578-585 | there is no such quorum if twice the weight outside the group and one per such approver stay below the quorum |
| VotingSettling.ConfinesExactly | internal/consensus/voting.go:449-680 | the condition is exact: the final value lies in the range of the group's values in all runs of all nodes with at most k such approvers if and only if there is no such quorum, or nothing can be approved at all |
| VotingSettling.SettlesExactly | internal/consensus/voting.go:449-680 | for given values of those who vote, seated or not, all runs of all nodes that approve fix the value m if and only if those below m make no quorum with others that weigh less in the median, and those above m none with others that weigh no more, or nothing can be approved at all |
| VotingSettling.SettledValue | internal/consensus/voting.go:578-585 | if every quorum of the voters with given values has the median m, then m is the final value of an approved event in any run whose approvers are among them and reported these values |
| VotingAgreement.MedianTotalFits | internal/consensus/voting.go:641-668 | the weights the median adds up exceed the snapshot's active weight by at most one per approver |
| VotingRestart.LoadPersistedVotes | internal/consensus/voting.go:359-377 | loading is the run that registers each listed vote with value zero, errors ignored |
| VotingRestart.RestartReopens | internal/consensus/voting.go:359-377 | if the snapshot of the open events is bound before loading: reloading the store of any reachable node, in any order, reopens exactly the open events with the still admitted votes, finalizes none on the way and leaves the store as it was |
| VotingRestart.RestartExact | internal/consensus/voting.go:359-377 | the votes are the same if and only if every voter is still admitted; yes and no weight are the same if and only if every voter with weight is |
| VotingRestart.VotesOutlive | internal/consensus/voting.go:359-377 | whatever the restarted node does after loading, those events keep the snapshot and the admitted votes, with the value zero |
| VotingRestart.RestartZeroesValue | internal/consensus/voting.go:371-374 | so an event whose reloaded approvals hold more than half of the approve weight is approved with the value zero |
| VotingBoot.UnboundLoadOpen | internal/consensus/voting.go:359-377 | loading without a bound set: an event is open after every order of the listing if and only if no round is allowed or no part of its admitted votes, with enough participants and positive weight, reaches the threshold of its own weight |
| VotingBoot.UnboundLoadSplitsNodes | cmd/node/main.go:879-889 | a node that restarts in the program's boot order approves an event that was open, and its stored votes are gone; a node that hears the same vote and one more under the snapshot rejects it |
| Dag.EventsDetermineGraph | internal/dag/dag.go:207-221 | child sets and tips of a well-formed graph are determined by its events |
| Dag.DAG.Add | internal/dag/dag.go:175-241 | an event is accepted if and only if it is new, keeps the graph causal and is signed; the duplicate error exactly for known IDs, the missing-reference error exactly for new events that would not keep it causal, and no change with any error; else the event stored in memory and on disk with child sets and tips again exact |
| DagGrowth.Grow | internal/dag/dag.go:175-241 | adding a list to an empty graph is accepted throughout if and only if every event is new, signed and listed after all it refers to; then the graph holds exactly the list |
| DagGrowth.GrownIffCausal | internal/dag/dag.go:175-241 | the graphs built by such lists are exactly those whose references resolve without a cycle and whose events are all signed |
| DagGrowth.AnyOrderGrows | internal/dag/dag.go:175-241 | any listing of such a graph with parents first will do |
| Dag.DAG.AddFromStore | internal/dag/dag.go:339-398 | the exact replay error; events with unknown parents and repeated events are skipped silently; the graph stays well-formed |
| DagQueries.Ancestors | internal/dag/dag.go:577-628 | exactly the strict transitive closure of the references, without repeats, never the event itself; an error exactly for unknown events |
| DagQueries.IsAncestor | internal/dag/dag.go:638-682 | the early-exit search agrees with the closure on all stored pairs |
| DagQueries.EventUnderTip | internal/dag/dag.go:207-221 | every event is a tip or an ancestor of a tip |
| DagQueries.AnchoredIffStored | internal/dispatch/anchor.go:31-52 | an anchor is at or below a tip exactly when it is empty or a stored event |
| DagQueries.AnchorStaysGood | internal/dispatch/anchor.go:31-52 | an accepted anchor is accepted after any further events |
| DagQueries.VerifyAnchor | internal/dispatch/anchor.go:31-52 | the loop over the tips accepts exactly the empty anchor and stored events |
| DagQueries.CheckPrerequisites | internal/dispatch/prerequisites.go:33-66 | succeeds exactly when every declared prerequisite is a strict ancestor of the event; then nothing is missing |
| DagSort.TopologicalSort | internal/dag/dag.go:684-753 | succeeds if and only if no event repeats a reference; then it returns every event once, ordered by timestamp and ID |
| DagSort.FalseCycleReported | internal/dag/dag.go:739-741 | a graph without a cycle, built by two accepted calls of `Add`, for which the sort reports one |
| DagSort.RepeatStays | internal/dag/dag.go:684-753 | once an event with a repeated reference is in, the sort fails whatever is appended |
| DagSort.CausalOrderUnique | internal/dag/dag.go:742-752 | that order is unique, so neither map iteration nor the sort algorithm shows in it |
| DagSort.CausalOrderMeans | internal/dag/dag.go:742-752 | in it an earlier event has the smaller timestamp, or the same one and an ID that is the beginning of the other's or smaller at the first difference |
| DagSort.ParentsFirstIffKeys | internal/dag/dag.go:684-753 | parents precede children in it if and only if the sort keys grow along every reference |
| DagSort.LamportParentsFirst | internal/dag/dag.go:684-753 | under the Lamport rule parents precede children |
| DagSort.SortEventsByCausalTS | cmd/node/main.go:675-688 | the in-place exchange sort leaves the array sorted by timestamp and ID, the same elements |
| DagSort.ReplaySortAgrees | cmd/node/main.go:675-688 | sorting any enumeration of the graph this way gives what `TopologicalSort` returns |
| DagReplay.TopoSort | internal/dag/dag.go:278-333 | it ends on every listing and emits listed events only; without a repeated ID sorted and skipped share out the input, every parent in the input is sorted before its child, and whatever is skipped waits on something skipped |
| DagReplay.SkippedIffLooped | internal/dag/dag.go:278-333 | an event is skipped if and only if references lead from it into a cycle of listed events; references to unlisted events do not matter |
| DagReplay.NothingSkipped | internal/dag/dag.go:278-333 | nothing is skipped if and only if the listing has no cycle |
| DagReplay.MissingParentEmitted | internal/dag/dag.go:274-333 | a listed event whose only parent is missing is emitted |
| DagLoad.LoadFromStore | internal/dag/dag.go:248-272 | on any listing the graph is well-formed and holds listed events with matching IDs and no invalid signature only; without a repeated ID, damaged or not, it succeeds if and only if every event without a cycle ahead is such, and then holds exactly the events whose whole ancestry is listed and acyclic |
| DagLoad.ReplayEqualsLive | internal/dag/dag.go:175-398 | replaying, in any order, what any run of `Add` stored rebuilds the same events, child sets and tips, if and only if the IDs match |
| BitGroups.ConvertBits | internal/crypto/address.go:177-203 | for all group sizes up to eight bits: with padding the result spells the input followed by fewer zero bits than a group; without, it is the input without the bits left over, an error if those are not zero or as many as an input group |
| BitGroups.BytesSurvive | internal/crypto/address.go:177-203 | bytes to five-bit groups and back is the identity, for every byte string |
| BitGroups.SymbolsSurvive | internal/crypto/address.go:177-203 | five-bit groups that convert to bytes are the groups those bytes convert to |
| Bech32.ComputePolymod | internal/crypto/address.go:94-107 | the loop computes the checksum register of BIP-173 |
| GaloisField.FeedbackIsMultiple | internal/crypto/address.go:94-107 | with multiplication in GF(32) defined by a^5 = a^3 + 1: what the generators feed back is the symbol that leaves the register times 29, 22, 20, 21, 29 and 18 |
| Remainders.PolymodIsRemainder | internal/crypto/address.go:94-107 | for all values the register is the one remainder, of degree below six, of the polynomial with leading coefficient one and the values behind it, modulo x^6 + 29x^5 + 22x^4 + 20x^3 + 21x^2 + 29x + 18 |
| Remainders.MessageOfSymbols | internal/crypto/address.go:94-107 | five-bit values are the coefficients of that polynomial as they are |
| Remainders.PrefixExpands | internal/crypto/address.go:109-119 | every character of a prefix below U+2000 enters as its quotient by 32 and, behind a zero, its remainder |
| Remainders.VerifiesIffUnit | internal/crypto/address.go:132-134 | a text verifies if and only if its polynomial leaves one |
| ChecksumStep.AdvanceInjective | internal/crypto/address.go:94-107 | the shift with feedback loses nothing: the five feedback constants have independent low symbols |
| Bech32.CodeLaws | internal/crypto/address.go:94-107 | one step of the register is injective, and what enters in the last six steps passes through unchanged |
| Bech32.ChecksumUnique | internal/crypto/address.go:121-134 | the six symbols that make a text verify exist and are unique |
| Bech32.CreateChecksum | internal/crypto/address.go:121-130 | the code computes those six symbols |
| Bech32.BurstDetected | internal/crypto/address.go:132-134 | for any prefix and any length, a valid text changed within six neighbouring symbols does not verify |
| Bech32.SingleErrorDetected | internal/crypto/address.go:132-134 | in particular changing exactly one symbol is always detected |
| Address.EncodeDecode | internal/crypto/address.go:136-173 | decoding undoes encoding for lower-case prefixes, in any script, within the length limit |
| Address.DecodeEncode | internal/crypto/address.go:136-173 | whatever decodes re-encodes to its own lower-case form |
| Address.KeyRoundTrip | internal/crypto/address.go:17-50 | every 32-byte key comes back from its address with the prefix of its network |
| Address.AddressCanonical | internal/crypto/address.go:34-50 | every accepted address is, in lower case, the address of the key it names |
| Address.OneAddressPerKey | internal/crypto/address.go:34-50 | two accepted addresses of one key and network differ at most in case |
| Address.MixedCaseAccepted | internal/crypto/address.go:151-173 | every key has on each network an accepted address with capitals and small letters |
| Address.DecodesIffEncoding | internal/crypto/address.go:136-173 | any text decodes if and only if it has at most 90 bytes and its lower-case form is what encoding some prefix and data gives |
| Address.MixedRefusedIff | internal/crypto/address.go:151-173 | the mixed-case rule of BIP-173 is kept on a text if and only if the text is not mixed, has more than 90 bytes, or its lower-case form is no encoding |
| Address.Bech32Encode | internal/crypto/address.go:136-149 | the encoding loop: prefix, separator, data and checksum in the character set, an error for values outside it |
| Address.AlphabetText | internal/crypto/address.go:136-149 | the symbols 0 to 31 behind the prefix abcdef are written as in the test vector of BIP-173, up to the checksum |
| Address.Bech32Decode | internal/crypto/address.go:151-173 | the decoding loop, with its length, separator, character and checksum errors |
| Address.AddressFromPublicKey | internal/crypto/address.go:17-30 | the address of a key, an error for any length but 32 |
| Address.PublicKeyFromAddress | internal/crypto/address.go:34-50 | the decoding of an address with its prefix and length checks |
| Depth.Search.ComputeDepth | internal/analytics/depth.go:31-65 | with a cache and an on-stack set carried through the recursion: an error exactly when a cycle is reachable, else the depth of the plain recursion in 64 bits |
| Depth.ComputeVerificationDepth | internal/analytics/depth.go:25-29 | the same from a fresh start, on every finite evidence map |
| DepthWalks.WalksListed | internal/analytics/depth.go:31-65 | the depth of a packet is the number of walks along references that start at it, the empty one included and repeated parents told apart |
| DepthBound.DepthBounded | internal/analytics/depth.go:52-61 | without repeated parents the depth of a packet is at most two to the number of packets behind it |
| DepthBound.ReportedDepthExact | internal/analytics/depth.go:52-61 | all packets without repeated parents and with at most n packets behind them are reported with their true depth if and only if n is at most 62 |
| DepthBound.RepeatedParentsOverflow | internal/analytics/depth.go:52-61 | with repeated parents a chain of 64 packets of depth 2^64 - 1 is reported as -1 |
| CanonicalJson.JcsWrite | internal/auth/canonical.go:28-79 | the printer appends the text of a value, keys in code-point order, whatever order the map is iterated in |
| CanonicalJson.Canonicalize | internal/auth/canonical.go:16-26 | the text of a decoded value, which a reader of JSON reads as this value to its end |
| CanonicalJson.ReadBack | internal/auth/canonical.go:28-128 | for every value, key order and delimited rest, a reader written after RFC 8259 reads the printed text as the value and leaves the rest |
| CanonicalJson.EscapeShortest | internal/auth/canonical.go:99-128 | no text that reads as a character is shorter than its escape, and code numbers are in small letters |
| CanonicalJson.WriteString | internal/auth/canonical.go:99-128 | the string loop appends the quoted and escaped string |
| CanonicalJson.PrintRead | internal/auth/canonical.go:28-128 | a value can be read back from any text that starts with it, up to a delimiter: equal texts have equal values, equal key orders and equal rests |
| CanonicalJson.CanonicalTextIsUnique | internal/auth/canonical.go:28-128 | two values with the same canonical text are equal |
| CanonicalJson.SortedKeysUnique | internal/auth/canonical.go:54-59 | a key set has one sorted listing |
| CanonicalJson.SortGivesListing | internal/auth/canonical.go:54-59 | sorting any enumeration of the keys gives it |
| KeyOrders.OrdersDisagree | internal/auth/canonical.go:58-59 | code-point order and UTF-16 order disagree on two strings if and only if at the first difference one has a character from U+10000 on and the other one in U+E000 to U+FFFF |
| CanonicalOrder.SameListing | internal/auth/canonical.go:58-59 | a key set is listed alike in both orders if and only if it holds no such pair |
| CanonicalOrder.RfcOrderIffClashFree | internal/auth/canonical.go:12-26 | the text is the one in the key order of RFC 8785 if and only if no object at any depth holds such a pair |
| CanonicalOrder.RfcOrderMissed | internal/auth/canonical.go:12-26 | an object with two keys whose text is not |
| BlobSync.StepKeeps | internal/blobsync/engine.go:85-243 | every step of every requester and worker keeps the invariant |
| BlobSync.OneFetchPerHash | internal/blobsync/engine.go:85-243 | in every interleaving a hash in flight is in exactly one place: held by one requester, queued once, or held by one worker; a hash not in flight is in none |
| BlobSync.BeginKeeps | internal/blobsync/engine.go:164-171 | a worker always finds the session of the request it took |
| BlobSync.ClosedOnce | internal/blobsync/engine.go:198-243 | a session's done channel is closed at most once in any run, and a settled session never changes again |
| BlobSync.TriesBounded | internal/blobsync/engine.go:177-182 | over any run the fetches sent for a session are as many as it records and at most its policy's retries |
| BlobFates.SettledBecause | internal/blobsync/engine.go:176-243 | in every run a settled session has completed if and only if one of its tries found the blob; it has failed only after exactly as many tries as its policy allows or at a passed deadline |
| BlobFates.ServedInOrder | internal/blobsync/engine.go:105-162 | requests are taken up in the order in which they were accepted, and those that wait are the rest |
| BlobFates.GivenUpIffFull | internal/blobsync/engine.go:105-114 | a request is given up if and only if 1024 accepted ones have not been taken up |
| BlobFates.TakenUpIffWaiting | internal/blobsync/engine.go:149-162 | an idle worker takes a request up if and only if one waits |
| BlobSync.LocalBlobRefetched | internal/blobsync/engine.go:83-104 | a run after which a blob that another request fetched is local and in flight again |
| BlobSync.StoredBlobFetched | internal/blobsync/engine.go:83-104 | a run in which another component stores the blob between the check and the reservation, and it is fetched all the same |
| BlobSync.RefetchIffRace | internal/blobsync/engine.go:85-104 | a reservation opens a session for a local blob if and only if the request has checked, nobody is fetching the blob, and a worker or another component stored it after this request's check with no deletion since |
| BlobSync.Backoff | internal/blobsync/engine.go:214-222 | the doubling loop computes min(max, initial * 2^attempt), and the initial delay on the first try |
| BlobSync.DelayCapped | internal/blobsync/engine.go:214-222 | the delay respects the cap if and only if it is not the first try or the initial delay does |
| BlobSync.DelayGrows | internal/blobsync/engine.go:214-222 | the first delay is the initial one, each later one twice the one before or the cap, whichever is less |
| TxReplay.AcceptedTimes | internal/auth/txverify.go:85-100 | with 64-bit arithmetic the accepted times are an interval around the two timestamps, bounded by the lifetime exactly if its computation does not overflow |
| TxReplay.TxIDStore.MarkSeen | internal/auth/txidstore.go:32-58 | reports whether the ID was seen in memory or store; afterwards it is |
| TxReplay.TxIDStore.IsSeen | internal/auth/txidstore.go:61-75 | reports whether the ID was seen |
| TxReplay.TxIDStore.Cleanup | internal/auth/txidstore.go:98-107 | removes exactly the entries older than the time to live, visited in any order |
| TxReplay.ReplaySeen | internal/auth/txverify.go:85-100 | whatever is marked and evicted in between, an accepted and marked transaction is reported as seen at every later time at which it is still accepted, also without a store, if its lifetime does not overflow |
| TxReplay.OverflowForgotten | internal/auth/txverify.go:88-90 | with an overflowing lifetime a cleanup 601 seconds later forgets a transaction that is then accepted again |
| TxReplay.ReplayCaughtExactly | internal/auth/txverify.go:85-100 | replay protection holds if and only if the lifetime does not overflow, or the transaction expires within the first minutes of the epoch, or its expiry check overflows |
| TxReplay.StoredStaysSeen | internal/auth/txidstore.go:42-57 | with a store a marked ID stays seen for good, also after a restart |
| TxReplay.OnlyMarkedSeen | internal/auth/txidstore.go:32-75 | an ID that is neither seen at the start nor marked is never reported as seen |
| FeeSplit.ConservedIffFits | internal/assurance/fee_split.go:43-92 | a fee is split exactly, on both levels, if and only if the parts taken off first fit; the treasury share does not matter |
| FeeSplit.SplitExcess | internal/assurance/fee_split.go:43-92 | a split never hands out less than the fee, and exactly the fee if and only if those parts fit |
| FeeSplit.PartsAreFloors | internal/assurance/fee_split.go:43-92 | where the parts fit, verifier, reserve or executor, dispute and canary each get the whole units of their own share, of the fee or of the protocol portion, and protocol and treasury get what is left |
| FeeSplit.SharesConserve | internal/assurance/fee_split.go:43-92 | shares that sum to at most one on each level split every fee exactly |
| FeeSplit.DefaultsConserve | internal/config/config.go:582-594 | so the built-in configuration splits every fee exactly |
| FeeSplit.DefaultsOfHundredMillion | internal/assurance/fee_split_test.go:37-118 | the split of a hundred million units that the tests of the code expect, with and without a replay |
| Reserve.AccruedFunds | internal/assurance/replay_reserve.go:80-104 | through the lazy cache an accrual adds to one category of a plain map and touches no other |
| Reserve.DrawnFunds | internal/assurance/replay_reserve.go:110-126 | a draw takes from one category what is asked or what there is |
| Reserve.RestartedFunds | internal/assurance/replay_reserve.go:61-94 | after a restart, with any categories preloaded, the funds are those of the store, so the same as before if every write had succeeded |
| Reserve.ReplayReserve.Accrue | internal/assurance/replay_reserve.go:98-104 | load, add and write through; a failed write leaves the amount in memory |
| Reserve.ReplayReserve.Draw | internal/assurance/replay_reserve.go:110-126 | load, subtract and write through, returning the amount drawn; a failed write is undone and draws nothing |
| Reserve.ReplayReserve.Balance | internal/assurance/replay_reserve.go:129-141 | the funds of the category, whether cached or not |
| Reserve.ReplayReserve.LoadFromStore | internal/assurance/replay_reserve.go:61-74 | the preloading loop gives the restarted reserve |
| Reserve.ComputeReplayExecutorPayout | internal/assurance/fee_split.go:101-109 | the executor's part of the split plus what is drawn, at most the larger of that part and the minimum, the minimum exactly when the reserve covers the shortfall; the reserve loses exactly the draw, and nothing if the write fails |
| Reserve.ProcessSettlement | internal/assurance/fee_split.go:122-133 | the split of the fee, and the reserve portion accrued to the category when there was no replay; an error exactly if that could not be stored |
| Reserve.FailedSettlement | internal/assurance/fee_split.go:119-133 | a settlement whose accrual fails always changes the funds in memory, also after earlier failures; a restart brings back what the store has, which are the funds before if nothing else was unsaved |
| Reserve.RetriedSettlement | internal/assurance/fee_split.go:119-133 | a retry that succeeds stores the amount twice |
| ReserveRuns.SettleIs | internal/assurance/fee_split.go:101-133 | the settlement step of the runs below is the accrual without a replay and the executor's top-up after one, with writes that succeed or fail |
| ReserveRuns.MoneyConserved | internal/assurance/fee_split.go:101-133 | over any run of settlements, top-ups, draws, lookups and restarts with any shares and any writes failing: reserve at the end, payouts, overflow losses and what restarts dropped equal reserve at the start, receipts, what splits paid beyond their fee and what refused deposits left behind, for every category and to the last unit |
| ReserveRuns.MintedUnlessFits | internal/assurance/fee_split.go:43-92 | a settlement pays nothing beyond its fee if and only if the parts taken off first fit |
| ReserveRuns.AheadByGap | internal/assurance/replay_reserve.go:61-126 | memory is ahead of the store by exactly the deposits that could not be stored since the category's last successful write or the last restart |
| ReserveRuns.NothingLost | internal/assurance/replay_reserve.go:98-126 | without failing writes, with shares that sum to at most one on each level, while the money of a category fits 64 bits, nothing is lost and nothing appears |

## Left out

- VotingRounds.DecideOutcome: compares exact fractions, so it does not model the rounding of `float64` at the very boundary of the threshold.
- VotingRounds.ComputeWeightedMedian: adds weights without 64-bit wrap-around; by `MedianTotalFits` the sum can only wrap when the active weight is within the number of voters of 2^64.
- VotingAgreement.CrossNodeAgreement: is about records with a bound snapshot and does not cover records opened or loaded before a set is bound; `VotingBoot.UnboundLoadSplitsNodes` shows that it fails for them.
- VotingSettling.SettlesExactly: is about positive thresholds and snapshots whose total covers their seats, like `VotingSettling.ConfinesExactly`. The runs that show necessity may contain voters nobody else has heard of who object, to make up the participants.
- VotingRestart.RestartReopens: is about loading with the set bound; the program's own boot order is the subject of `VotingBoot.UnboundLoadOpen`. Submitted values and the round counter are not reproduced, because the code does not store them.
- VotingRounds.VotingRound.RegisterVote: the record is a value in a map rather than a shared object, so aliasing through a returned record is not modelled; the code hands out deep copies. The order and round counters are unbounded.
- DagReplay.TopoSort: for a listing in which a damaged value repeats the ID of another, it states no order and no exact share of what is skipped.
- DagLoad.LoadFromStore: for such a listing it does not say which of the listed events are loaded. The graph's store is modelled by the IDs inside the values.
- BitGroups.ConvertBits: group sizes above eight bits, which do not fit a byte, and input values wider than their group, which no caller passes, are not modelled.
- Address.Bech32Decode: characters are code points with their UTF-8 length, and invalid UTF-8 is not modelled.
- CanonicalJson.Canonicalize: starts from the decoded value; the JSON decoder before it is not modelled.
- CanonicalJson.ReadBack: the reader takes integers only, as the model's numbers are.
- CanonicalJson.JcsWrite: numbers are integers, printed without a bound; fractions and magnitudes from 2^53 on, where `float64` loses integers, are not modelled.
- BlobSync.TriesBounded: a try is one outcome; the search over hint cache, origin and broadcast inside it is not modelled.
- TxReplay.TxIDStore.MarkSeen: the store is a set of keys with data and does not fail.
- TxReplay.ReplayCaughtExactly: the clock does not go back and stays between the epoch and 2^63 minus a minute.
- FeeSplit.ConservedIffFits: shares are exact fractions between zero and one, so it does not model the rounding of `float64` products.
- Failing reads of the reserve store, and failures of the stores behind votes and events.
- Ed25519, SHA-256 and the computation of event IDs: deterministic functions given as parameters.
- Subscriptions to stored blobs: the check for the blob and the registration are separate steps, so no wake-up guarantee holds.
- HTTP handlers, command-line programs, the dispatcher loop, escrow, ledgers and task verification.
- Rate limiters, the holder-hint cache, circuit-breaker checks of the reserve and configuration parsing: they would only add easy members.
