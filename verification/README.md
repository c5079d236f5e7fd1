# Verified model of the crawler control plane and the YaCy wire library

A Dafny model of the parts of YaGo where order, time and arithmetic are subtle, with proofs
of what they promise.

| file | models |
|---|---|
| `Punycode.dfy`, `PunycodeDecoder.dfy`, `PunycodeUnique.dfy`, `PunycodeSamples.dfy` | the RFC 3492 encoder of host labels, against the decoder of that RFC with its own parameters |
| `Backpath.dfy` | dot-segment resolution of URL paths as a rewriting loop |
| `Base64.dfy`, `DhtPosition.dfy`, `IndexAbstract.dfy`, `AbstractGrammar.dfy` | enhanced base64, positions on the 63-bit hash ring, and the search index abstract with its parser |
| `OrderReplay.dfy` | the framing of a recovered order stream and its session manifest |
| `ProgressSpec.dfy`, `ProgressInHand.dfy`, `ProgressDrain.dfy`, `ProgressRetry.dfy`, `ProgressQueue.dfy` | the progress delivery queue: a state machine with its run properties, and the class |
| `GrantSpec.dfy`, `GrantRuns.dfy`, `GrantRegistry.dfy` | lease grants under heartbeat answers, expiry and settlement attempts; the registry, its signals and its watcher |
| `TerminalSettlement.dfy`, `OutboxLaws.dfy`, `SettlementRelay.dfy`, `SettlementProgress.dfy`, `SettlementExample.dfy`, `SettlementWorker.dfy` | the two-phase terminal settlement relay over a durable outbox, with interleaving workers, faults and crashes |
| `ActiveOrders.dfy`, `ActiveOrderRuns.dfy`, `ActiveOrderAnswers.dfy`, `ActiveOrderRepeats.dfy`, `ActiveOrderTable.dfy` | claims and settle loops of active orders, and the ring of completed leases |
| `FetchStart.dfy`, `FetchLooks.dfy`, `FetchAdmission.dfy` | fetch-start leases, their permit windows and the session gate |
| `Wrappers.dfy`, `LeaseIdentity.dfy` | shared types |

Two shapes recur. Code that works alone is a method whose contract is its meaning. Code that
shares state is a state machine of atomic steps, one for each stretch of code under a lock or
one transaction, with theorems about all its runs; the class beside it performs the steps in
place, and each method is proved to extend a run of the machine. Clocks, remote answers,
callbacks, faults and crashes are inputs of the steps.

Findings worth knowing:

- A permit's window is computed with 64-bit durations, so place times interval wraps for
  intervals beyond 2^63 nanoseconds divided by the place. `FetchStart.UsedInOwnWindow` gives the exact
  condition and `FetchStart.WrappedPermitEscapes` an input beyond it.
- The progress queue reads the clock a second time to compute a wait. A retried report that
  comes due between the two readings is delivered without being marked as in flight, so a
  later terminal report of its run can take its place while its delivery is under way
  (`ProgressInHand.ReplacedWhileDelivered`). `ProgressInHand.InHandReplaceable` gives the exact
  condition, for reports of both kinds.
- A report marked as in flight is never coalesced onto, and a terminal one stays the head of its run
  until it is settled. A running one can go while it is being delivered: a terminal report that finds
  the queue full evicts it when it is the oldest expendable one, and closing drops it
  (`ProgressInHand.MarkedStays` says exactly when, `ProgressInHand.GivesWayWhileDelivered` is a run).
- A lease that is remembered as completed and completes again, as it does when two runs share
  it, keeps its old place in the ring. What it outlasts then depends on that place:
  `ActiveOrders.KeptExactly` and `ActiveOrders.SurvivesExactly` say exactly how much, and
  `ActiveOrderRepeats.RepeatedForgottenAtOnce` is a run in which it is forgotten after one
  further lease.
- `DhtPosition.DistanceExact`: the distance is exact for words less than a ring apart; arguments
  beyond 63 bits, which no position has, can fail it (`DhtPosition.DistanceAcrossTurns`).
- Re-encoding decoded text gives the text back only for canonical text (`Base64.EncodeDecode`).

## Model

| member | source | states |
|---|---|---|
| Punycode.Threshold | yagomodel/host_punycode.go:97-106 | The threshold of a digit position always lies between 1 and 26 |
| Punycode.Adapt | yagomodel/host_punycode.go:108-121 | The loop that divides delta down yields the bias that section 6.1 of RFC 3492 gives, for the first insertion and for later ones |
| Punycode.BiasMeaning | yagomodel/host_punycode.go:108-121 | In numbers: with e = delta/700 for the first insertion and delta/2 later and d = e + e/points, the bias is 36 for each of the fewest divisions by 35 that bring d down to at most 455, plus 36 parts of the rest over the rest and 38 |
| Punycode.ThresholdAgrees | yagomodel/host_punycode.go:97-106 | The threshold is that of the decoding procedure of section 6.2 of RFC 3492 |
| Punycode.Digit | yagomodel/host_punycode.go:123-128 | Every digit value is written as a lower-case letter or a figure that the decoder reads back as that value |
| Punycode.ReadDigits | yagomodel/host_punycode.go:76-85 | Reading the variable-length integer written for any q gives q back, at every position, bias and weight, and leaves the rest of the text |
| Punycode.NextCodePoint | yagomodel/host_punycode.go:62-67 | The scan finds the smallest code point of the input that is not below n |
| Punycode.WriteDelta | yagomodel/host_punycode.go:76-85 | Appends exactly the digits of the delta under the bias, nothing else |
| Punycode.MirrorsInsert | yagomodel/host_punycode.go:75-89 | Writing one delta keeps the encoder in step with the decoder of section 6.2 of RFC 3492, which inserts the same code point at the same place and adapts to the same bias |
| Punycode.Scan | yagomodel/host_punycode.go:70-90 | One pass over the input writes every occurrence of n and stays in step with the decoder; the handled count stays the number of code points below |
| Punycode.Round | yagomodel/host_punycode.go:61-93 | One round of the encoder handles at least one more code point, stays in step with the decoder and keeps the delta within its bound |
| Punycode.DeltaBounded | yagomodel/host_punycode.go:68-91 | The delta of an input is at most 0x110001 times its length plus one, which fits a signed 64-bit integer for fewer than 2^42 code points |
| Punycode.Encode | yagomodel/host_punycode.go:44-95 | For every sequence of code points the encoder terminates and the decoder of section 6.2 of RFC 3492, which has its own parameters and bias, turns its output into the input again; basic code points come first and the rest is lower-case digits |
| PunycodeUnique.EncodingUnique | yagomodel/host_punycode.go:44-95 | There is only one text of that form which the decoder turns into the input, so the output is determined |
| PunycodeSamples.SamplesEncode | yagomodel/host_punycode.go:44-128 | Three labels worked out: the encoder writes r8jz45g, 4ca0b and bcher-kva for them and nothing else |
| Backpath.MatchParent | yagomodel/resolve_backpath.go:54-71 | Matches exactly when a named segment is followed by a whole ".." segment, and says where that one ends |
| Backpath.CollapseBackpath | yagomodel/resolve_backpath.go:39-52 | One pass over any text writes the rendered collapse of its segments |
| Backpath.CollapseKeepsWalk | yagomodel/resolve_backpath.go:39-52 | A pass does not change the stack that folding the segments gives, from any starting stack |
| Backpath.CollapseShortens | yagomodel/resolve_backpath.go:10-16 | A pass that changes anything makes the text shorter, so the outer loop ends |
| Backpath.ResolveBackpath | yagomodel/resolve_backpath.go:5-27 | The whole resolution, loop and root cleanup, equals rendering the walk of the input segments, with the trailing form the code gives |
| Backpath.ResolvedMeaning | yagomodel/resolve_backpath.go:5-27 | The named segments of the result are the stack obtained by folding the segments of the input, where ".." pops or does nothing at the root |
| Backpath.ResolvedFixpoint | yagomodel/resolve_backpath.go:5-27 | Resolving a resolved path changes nothing |
| Backpath.ResolvedClean | yagomodel/resolve_backpath.go:5-27 | The result starts with "/" and holds no "//", no "/./" and no ".." segment |
| Backpath.ResolvedTrail | yagomodel/resolve_backpath.go:5-27 | The result ends with "/." exactly if the path does, and with "/" exactly if the path does or nothing else is left; every other segment is a name |
| Base64.NewDecodeTable | yagomodel/base64.go:14-23 | The table maps the symbols of the alphabet to their values and every other byte to -1 |
| Base64.Encode | yagomodel/base64.go:25-44 | The text spells the bits of the input six at a time, padded with zeros, in ceil(8n/6) symbols, although the 32-bit buffer wraps |
| Base64.Decode | yagomodel/base64.go:46-69 | Fails exactly on a symbol outside the alphabet other than a line feed; otherwise the bytes are the whole octets of the symbols' bits |
| Base64.DecodedWireFormBodyBytes | yagomodel/compact_wire_form.go:96-109 | Fails on the same bodies as decoding, and otherwise is the very length decoding yields |
| Base64.DecodeEncode | yagomodel/base64.go:25-69 | Decoding what was encoded gives the input bytes back, for all byte strings |
| Base64.EncodingUnique | yagomodel/base64.go:25-44 | A byte string has one encoding |
| Base64.EncodeDecode | yagomodel/base64.go:25-69 | Encoding what was decoded gives the symbols back exactly when the left-over bits of the last symbol are zero and no symbol is superfluous |
| IndexAbstract.Base64Order | yagomodel/search_index_abstract.go:141-148 | The search through the alphabet gives the rank of the byte, with bytes outside ranked behind |
| IndexAbstract.CompareBase64Strings | yagomodel/search_index_abstract.go:121-139 | The loop computes the lexicographic comparison by rank, a prefix before its extensions |
| IndexAbstract.CompareTransitive | yagomodel/search_index_abstract.go:121-139 | The comparison is transitive, strictly so when one step is strict |
| IndexAbstract.SortStrings | yagomodel/search_index_abstract.go:31-34 | Sorting gives an ascending permutation of the strings |
| IndexAbstract.GroupByHost | yagomodel/search_index_abstract.go:14-21 | Each host part maps to the path parts of the valid hashes on it, in order, and only such hosts are there |
| IndexAbstract.EncodeSearchIndexAbstract | yagomodel/search_index_abstract.go:9-50 | The text prints non-empty groups in strictly ascending host order, each with its ascending path parts, that hold exactly the valid input hashes |
| IndexAbstract.GroupsHold | yagomodel/search_index_abstract.go:14-34 | The groups hold each valid input hash as often as the input does and nothing else |
| IndexAbstract.DecodeGroup | yagomodel/search_index_abstract.go:86-109 | A group is refused exactly when its form is wrong, whatever the limit; else its hashes join up to the limit |
| IndexAbstract.DecodeSearchIndexAbstractWithLimit | yagomodel/search_index_abstract.go:56-84 | Decoding with a limit succeeds on the inputs unlimited decoding succeeds on and returns the first hashes of its result, none for a negative limit |
| IndexAbstract.DecodeSearchIndexAbstract | yagomodel/search_index_abstract.go:52-54 | The default limit never truncates |
| IndexAbstract.DecodedFits | yagomodel/search_index_abstract.go:52-54 | No text holds more hashes than a sixth of its length, which is why the default limit is enough |
| IndexAbstract.BodyParses | yagomodel/search_index_abstract.go:36-49 | The printed groups parse back as the same hashes in the same order |
| IndexAbstract.AllHashesOrdered | yagomodel/search_index_abstract.go:31-49 | The printed hashes ascend by host part, then by path part |
| IndexAbstract.DecodeEncode | yagomodel/search_index_abstract.go:9-109 | Decoding an encoded abstract gives exactly the multiset of valid input hashes, ordered by host part then path part |
| IndexAbstract.AbstractUnique | yagomodel/search_index_abstract.go:27-49 | An input has one such text, whatever order the map of hosts is visited in |
| AbstractGrammar.DecodedExactly | yagomodel/search_index_abstract.go:52-109 | A text is decoded if and only if it is empty or groups of a host part, a colon and path parts, separated by commas, between braces, and then to the hashes of the groups in order |
| AbstractGrammar.DecodedValid | yagomodel/search_index_abstract.go:86-109 | Whatever is decoded is a valid hash |
| AbstractGrammar.SampleText | yagomodel/search_index_abstract.go:36-49 | Two groups written out as a text and as hashes |
| AbstractGrammar.CompareTells | yagomodel/search_index_abstract.go:121-139 | A string comes before another exactly if it is a proper prefix of it or ranks lower at the first difference |
| AbstractGrammar.RankTells | yagomodel/search_index_abstract.go:141-148 | Symbols rank by value, before every other byte |
| DhtPosition.Cardinal | yagomodel/base64.go:73-87 | Ten 6-bit symbols, missing ones as zeros, shifted by three and filled with ones: never beyond 2^63-1, so no 64-bit shift loses a bit |
| DhtPosition.PositionOf | yagomodel/dht_position.go:12-18 | The position is that of the first ten symbols, and there is one exactly for well-formed hashes |
| DhtPosition.PositionOrders | yagomodel/dht_position.go:12-18 | Positions order and equate hashes as base64 comparison of their first ten symbols does |
| DhtPosition.PositionOnRing | yagomodel/dht_position.go:12-18 | Every position is on the 63-bit ring |
| DhtPosition.PositionEnds | yagomodel/base64.go:73-87 | The low three bits of a position are set; the least position is 7 and the greatest 2^63-1 |
| DhtPosition.DistanceExact | yagomodel/dht_position.go:20-25 | The 64-bit distance is (to - from) mod 2^63 exactly when to - from lies in [-2^63, 2^63), as it does for all positions |
| DhtPosition.DistanceAcrossTurns | yagomodel/dht_position.go:20-25 | From 0 to 2^63, which no position is, the distance is not (to - from) mod 2^63 |
| DhtPosition.DistanceArrives | yagomodel/dht_position.go:20-25 | Going the distance from one position arrives at the other, and no fewer steps do |
| DhtPosition.VerticalPositionParts | yagomodel/dht_position.go:41-62 | Defined for every exponent 0..62 and partition within it and for nothing else; the top bits are the partition and the low bits the word's own |
| DhtPosition.OwnPartition | yagomodel/dht_position.go:27-39 | Placing a word in the partition it already has gives its position back |
| OrderReplay.RecoveredOrderReplay.Accept | yago-crawler/internal/crawlorder/recovered_order_replay.go:138-168 | Accepts and advances exactly as the replay automaton; a header only when no batch is open, leases in header order, the end marker on the last only |
| OrderReplay.ValidRecoveredLeaseHeader | yago-crawler/internal/crawlorder/recovered_order_replay.go:170-183 | Valid exactly when all are lease identifiers and none repeats |
| OrderReplay.RecoveredSessionManifest.AcceptFrame | yago-crawler/internal/crawlorder/recovered_session_manifest.go:12-49 | Accepts a frame exactly as the manifest automaton and returns what to confirm |
| OrderReplay.RecoveredSessionManifest.AcceptOrdinary | yago-crawler/internal/crawlorder/recovered_session_manifest.go:55-62 | An ordinary order is refused exactly while declared leases are outstanding, and closes the recovery otherwise |
| OrderReplay.Drain | yago-crawler/internal/crawlorder/recovered_order_replay.go:30-136 | The loop consumes the longest prefix both automata accept |
| OrderReplay.Sound | yago-crawler/internal/crawlorder/recovered_order_replay.go:30-168 | Every accepted stream is well framed, and the receivers' state is what that shape says |
| OrderReplay.Complete | yago-crawler/internal/crawlorder/recovered_order_replay.go:30-168 | Every well-framed stream is accepted |
| OrderReplay.AcceptedExactly | yago-crawler/internal/crawlorder/recovered_order_replay.go:30-168 | The two receivers together accept exactly the well-framed streams |
| OrderReplay.ManifestHandedOver | yago-crawler/internal/crawlorder/recovered_session_manifest.go:12-62 | With a manifest, the recovered leases before the first ordinary order are a repetition-free permutation of it, and no recovered order follows an ordinary one |
| ProgressSpec.StepKeeps | yago-crawler/internal/crawlorder/progress_delivery_queue.go:100-401 | Every enqueue, next, settle and close keeps the structure: no empty sequence, queued is the sum of lengths within capacity, versions distinct and increasing along each sequence, kinds alternating but for the first pair, the report in hand marked as in flight exactly if it was due when its choice began, a pending marked report a head, nothing to prune once closed |
| ProgressSpec.RunKeeps | yago-crawler/internal/crawlorder/progress_delivery_queue.go:100-401 | That structure holds in every state of every run |
| ProgressSpec.HandedOutInOrder | yago-crawler/internal/crawlorder/progress_delivery_queue.go:192-268 | Over every run, with marked and unmarked hand-overs, the versions handed out for one run never decrease, and repeat only when the same terminal report is tried again |
| ProgressSpec.TerminalLeaves | yago-crawler/internal/crawlorder/progress_delivery_queue.go:317-401 | A step makes a pending terminal report disappear only by settling it other than by failure, or by a later terminal report of its run taking its place while it is last and not in hand, unless it was handed over although not due when its choice began |
| ProgressSpec.TerminalReportsSurvive | yago-crawler/internal/crawlorder/progress_delivery_queue.go:100-401 | Over a whole run, a terminal report pending earlier and not later was settled or replaced in one of those ways by one step in between |
| ProgressInHand.MarkedStays | yago-crawler/internal/crawlorder/progress_delivery_queue.go:100-180 | In every step but a settlement the report marked as in flight stays the head of its run, unaltered, if and only if it does not give way: only a running report does, when a terminal one that replaces nothing finds the queue full and it is alone in its run and the oldest expendable one, or when the queue closes and no terminal report follows it |
| ProgressInHand.MarkedStaysInRun | yago-crawler/internal/crawlorder/progress_delivery_queue.go:100-180 | Over a whole run, until something is settled, the marked report is still the head of its run, or one step in between made it give way; a terminal one never does |
| ProgressInHand.GivesWayWhileDelivered | yago-crawler/internal/crawlorder/progress_delivery_queue.go:358-382 | A run in which a running report in flight gives way to a terminal report of another run |
| ProgressInHand.InHandReplaceable | yago-crawler/internal/crawlorder/progress_delivery_queue.go:111-127 | Some enqueue puts another report of the same kind in the place of the report in hand if and only if it is the last of its run and was not yet due at the first reading of the clock |
| ProgressInHand.TerminalInHandReplaceable | yago-crawler/internal/crawlorder/progress_delivery_queue.go:206-268 | An enqueue can make a terminal report in hand disappear if and only if that same condition holds |
| ProgressInHand.ReplacedWhileDelivered | yago-crawler/internal/crawlorder/progress_delivery_queue.go:206-268 | A run in which a failed terminal report comes due between the two readings of the clock and is replaced while its second delivery is under way |
| ProgressDrain.RoundTakesOne | yago-crawler/internal/crawlorder/progress_delivery_queue.go:192-268 | A report is handed over and settled other than by failure only while something is pending, and exactly one report goes |
| ProgressDrain.Drains | yago-crawler/internal/crawlorder/progress_delivery_queue.go:192-268 | From a closed queue and free hands, whatever is chosen, there are never more such rounds than queued reports, and exactly after as many the queue is empty and the loop is told to end |
| ProgressDrain.DrainExists | yago-crawler/internal/crawlorder/progress_delivery_queue.go:192-268 | Such rounds, as many as reports are queued, are always possible |
| ProgressSpec.TerminalRefused | yago-crawler/internal/crawlorder/progress_delivery_queue.go:129-148 | An open queue turns a terminal report away exactly when it is full, nothing is expendable and the report replaces nothing |
| ProgressSpec.ChosenOnce | yago-crawler/internal/crawlorder/progress_delivery_queue.go:238-273 | The choice of the next report is a function of the queue, whatever the map iteration order |
| ProgressSpec.ChosenFirst | yago-crawler/internal/crawlorder/progress_delivery_queue.go:224-273 | The choice is, in due times, versions and kinds alone, whichever head is first in line: of those due the terminal ones first, then the sooner due, then the smaller version; with none due, the soonest |
| ProgressSpec.HandedOutFirst | yago-crawler/internal/crawlorder/progress_delivery_queue.go:206-273 | In every run each report handed over was first in line at the first reading of the clock, and was due by the second |
| ProgressRetry.RetryWaits | yago-crawler/internal/crawlorder/progress_delivery_queue.go:317-347 | In every state of every run a pending report that has failed n times waits min(maximum, minimum times 2^n) the next time, and one that never failed the minimum |
| ProgressRetry.SettlesAs | yago-crawler/internal/crawlorder/progress_delivery_queue.go:317-401 | Settling the head keeps a failed terminal report in front with a new wait and drops any other, makes a running one next in line due at once, and changes nothing else |
| ProgressRetry.RunningAccepted | yago-crawler/internal/crawlorder/progress_delivery_queue.go:111-148 | An open queue takes a running report exactly when it replaces one or there is room, and a closed queue takes none |
| ProgressRetry.TerminalAccepted | yago-crawler/internal/crawlorder/progress_delivery_queue.go:111-148 | A terminal report that is taken is the last of its run, due at once, with the least wait |
| ProgressQueue.Retain | yago-crawler/internal/crawlorder/progress_delivery_queue.go:164-171 | The in-place filter leaves in front exactly the terminal reports and those a terminal report follows |
| ProgressQueue.ProgressDeliveryQueue.Enqueue | yago-crawler/internal/crawlorder/progress_delivery_queue.go:100-157 | Is an enqueue step: coalescing, eviction for terminal reports, refusal when full |
| ProgressQueue.ProgressDeliveryQueue.EvictExpendableRunningTail | yago-crawler/internal/crawlorder/progress_delivery_queue.go:358-382 | Evicts the oldest expendable running tail, in flight or not, if there is one |
| ProgressQueue.ProgressDeliveryQueue.Next | yago-crawler/internal/crawlorder/progress_delivery_queue.go:206-268 | Is a next step: the head that is first in line by kind, due time and version is handed over marked when due; when none is due the soonest is waited for, and handed over unmarked when it has come due by the second reading of the clock |
| ProgressQueue.ProgressDeliveryQueue.Choose | yago-crawler/internal/crawlorder/progress_delivery_queue.go:238-268 | The loop over the runs, in any order, finds the head that is first in line |
| ProgressQueue.ProgressDeliveryQueue.Settle | yago-crawler/internal/crawlorder/progress_delivery_queue.go:317-347 | Is a settle step: the head goes, or a failed terminal report is scheduled again with a doubled, bounded wait |
| ProgressQueue.ProgressDeliveryQueue.RemoveHead | yago-crawler/internal/crawlorder/progress_delivery_queue.go:384-401 | Drops the head; a running report next in line comes due at once |
| ProgressQueue.ProgressDeliveryQueue.Close | yago-crawler/internal/crawlorder/progress_delivery_queue.go:159-180 | Is a close step: every sequence is pruned and the count follows |
| ProgressQueue.ProgressDeliveryQueue.PruneSequence | yago-crawler/internal/crawlorder/progress_delivery_queue.go:164-178 | The sequence of a run becomes what the filter retains, or goes, and the count keeps its distance to the sum of lengths |
| GrantRegistries.Grant.ApplyRenewal | yago-crawler/internal/crawllease/grant_renewal.go:16-50 | The record after an answer, and the outcome, are those of the renewal transition |
| GrantRuns.StorySound | yago-crawler/internal/crawllease/grant_renewal.go:16-50 | Whatever happens to a lease, its expiry and renewal time follow from the answers that renewed it, its settlement window remembers the newest answer, and the attempts it counts are those begun and not failed |
| GrantRuns.Fate | yago-crawler/internal/crawllease/grant_registry.go:76-269 | A tracked lease ends if and only if it is ended outright, or, with no attempt open, an answer that is not late does not renew it or the clock reaches its last deadline, or its last attempt fails with the newest answer not live or the last deadline passed |
| GrantRuns.Appears | yago-crawler/internal/crawllease/grant_batch.go:10-44 | A lease comes to be tracked only with an admitted batch |
| GrantRuns.LiveAnswerConfirms | yago-crawler/internal/crawllease/grant_renewal.go:30-50 | An answer in time that says the lease is renewed confirms it, with the request as the renewal time and the later of both deadlines as expiry |
| GrantRuns.ExpiryIsMaximum | yago-crawler/internal/crawllease/grant_renewal.go:39-44 | The expiry is the maximum of request start plus time to live over the live answers applied, and the renewal time is the start of the last of them |
| GrantRuns.NothingMovesBack | yago-crawler/internal/crawllease/grant_renewal.go:23-44 | Neither the renewal time nor the expiry ever moves back, and a confirmed grant stays confirmed |
| GrantRuns.StaleAnswerIgnored | yago-crawler/internal/crawllease/grant_renewal.go:23-28 | An answer to a request begun before an applied one changes nothing but the expiry check it brings |
| GrantRuns.NeverOutlivesNode | yago-crawler/internal/crawllease/grant_registry.go:122-129 | If the node extends from when it handles each request, an unprotected confirmed grant is gone before the node's deadline |
| GrantRuns.ProtectedStays | yago-crawler/internal/crawllease/settled_grant.go:20-59 | From an attempt begun on a confirmed grant until as many have failed as began, counted over the events alone, no answer and no expiry removes the grant, whatever else begins and fails meanwhile |
| GrantRuns.LastFailure | yago-crawler/internal/crawllease/settled_grant.go:38-59 | When the last of the attempts begun and not failed fails, the grant is kept exactly when the newest-started answer of the window was live, or there was none, and a deadline is still to come |
| GrantRuns.RegistryFollowsStories | yago-crawler/internal/crawllease/grant_registry.go:76-269 | In every run each lease of the registry follows its own story, whatever the others do |
| GrantRuns.WithinCapacity | yago-crawler/internal/crawllease/grant_batch.go:31-37 | No run ever tracks more leases than the capacity |
| GrantRuns.AdmittedWhenItFits | yago-crawler/internal/crawllease/grant_batch.go:10-44 | A batch is admitted if and only if its identifiers are valid and it fits the capacity together with what is tracked, and then exactly it is added |
| GrantRuns.StepKeys | yago-crawler/internal/crawllease/grant_batch.go:10-44 | A batch is tracked as a whole or not at all, and nothing else adds a lease |
| GrantRuns.NoMissedAvailability | yago-crawler/internal/crawllease/grant_registry.go:153-159 | Two moments have the same availability signal exactly when the tracked and the confirmed leases were the same all the time between |
| GrantRuns.NoMissedLoss | yago-crawler/internal/crawllease/lease_loss_signal.go:3-22 | The loss signal is unchanged exactly when no lease was lost between; settling, revoking and closing are not losses |
| GrantRuns.LossMeans | yago-crawler/internal/crawllease/lease_loss_signal.go:3-22 | A lease is lost when it goes by rejection, an answer, the clock or the failure of its last attempt |
| GrantRuns.MoveMissesNothing | yago-crawler/internal/crawllease/grant_registry.go:161-209 | No move of registry or watcher lets a watcher asleep without a pending wake-up miss an expiry |
| GrantRuns.WatcherMissesNothing | yago-crawler/internal/crawllease/grant_registry.go:161-209 | In every run, a watcher asleep until a time with no wake-up pending has every confirmed unprotected grant expire no earlier; asleep without a time, there is none |
| GrantRegistries.GrantRegistry.Renew | yago-crawler/internal/crawllease/grant_registry.go:76-120 | Is a renewal step of all requested leases, with both signals raised exactly when due |
| GrantRegistries.GrantRegistry.Expire | yago-crawler/internal/crawllease/grant_registry.go:224-235 | Removes exactly the confirmed unprotected grants whose expiry has come and tells whether any went |
| GrantRegistries.GrantRegistry.ExpireAndSignal | yago-crawler/internal/crawllease/grant_registry.go:217-222 | Is an observation step: availability and loss are signalled exactly when a grant expired |
| GrantRegistries.GrantRegistry.ActiveLeaseIds | yago-crawler/internal/crawllease/grant_registry.go:63-74 | After expiry, lists the tracked leases, each once |
| GrantRegistries.GrantRegistry.Confirmed | yago-crawler/internal/crawllease/grant_registry.go:122-129 | After expiry, tells whether the lease is confirmed |
| GrantRegistries.GrantRegistry.ObserveAvailability | yago-crawler/internal/crawllease/grant_registry.go:153-159 | After expiry, returns the current availability signal |
| GrantRegistries.GrantRegistry.ObserveLosses | yago-crawler/internal/crawllease/lease_loss_signal.go:3-9 | After expiry, returns the current loss signal |
| GrantRegistries.GrantRegistry.NextExpiry | yago-crawler/internal/crawllease/grant_registry.go:190-209 | The wait ends at the earliest expiry of a confirmed unprotected grant; negative exactly when there is none |
| GrantRegistries.GrantRegistry.Revoke | yago-crawler/internal/crawllease/grant_registry.go:143-151 | Removes the lease with an availability signal and no loss signal |
| GrantRegistries.GrantRegistry.Reject | yago-crawler/internal/crawllease/lease_loss_signal.go:11-22 | Removes the lease with both signals |
| GrantRegistries.GrantRegistry.Settle | yago-crawler/internal/crawllease/settled_grant.go:61-72 | Removes the lease with an availability signal and no loss signal |
| GrantRegistries.GrantRegistry.Close | yago-crawler/internal/crawllease/grant_registry.go:242-252 | Removes every lease; availability is signalled only if there was one |
| GrantRegistries.GrantRegistry.BeginSettlement | yago-crawler/internal/crawllease/settled_grant.go:20-36 | After expiry, opens an attempt exactly on a confirmed grant; the first one opens a fresh window |
| GrantRegistries.GrantRegistry.SettlementFailed | yago-crawler/internal/crawllease/settled_grant.go:38-59 | Closes one attempt; the last decides about the grant |
| GrantRegistries.GrantRegistry.TrackMany | yago-crawler/internal/crawllease/grant_batch.go:10-44 | Adds exactly the untracked leases of a valid batch that fits, or changes nothing; an invalid identifier is reported before the capacity |
| GrantRegistries.GrantRegistry.Track | yago-crawler/internal/crawllease/grant_registry.go:57-61 | Tracking one lease is tracking a batch of one |
| GrantRegistries.Unique | yago-crawler/internal/crawllease/grant_batch.go:11-22 | The distinct identifiers of the batch, or none exactly when one is invalid |
| SettlementRelay.StepKeeps | yago-crawler/internal/crawlorder/terminal_settlement_relay.go:138-313 | Every step of every worker, every fault, answer, staging and crash keeps: one owner per lease, rows well formed, what each owner knows of its row true, the log allowed by the protocol and in agreement with the rows |
| SettlementRelay.RunKeeps | yago-crawler/internal/crawlorder/terminal_settlement_relay.go:138-313 | That invariant holds in every state of every run |
| SettlementRelay.ProtocolFollowed | yago-crawler/internal/crawlorder/terminal_settlement_relay.go:177-313 | The log of every run is accepted by the protocol automaton |
| SettlementRelay.StepPermitted | yago-crawler/internal/crawlorder/terminal_settlement_relay.go:177-313 | A step changes at most one row, and that row only forward, or away after a final answer |
| SettlementRelay.PhaseNeverBack | yago-crawler/internal/crawlorder/terminal_settlement_relay.go:177-313 | Between any two moments of a run through which a row stays, its durable phase does not go back, and its definition and a token once kept stay |
| SettlementRelay.ConfirmedOnlyDurably | yago-crawler/internal/crawlorder/terminal_settlement_relay.go:282-303 | Confirmation is asked for only with a 32-byte token made durable before for a row that has not gone since |
| SettlementRelay.FirstPhaseNotRepeated | yago-crawler/internal/crawlorder/terminal_settlement_relay.go:241-255 | The first phase is never asked for again once its token is durable, as long as the row stays |
| SettlementRelay.GoneOnlyAnswered | yago-crawler/internal/crawlorder/terminal_settlement_refusal.go:17-43 | A row disappears only after the node accepted its confirmation with the durable token or answered that it does not know it, since the row was staged |
| SettlementExample.SettledAcrossCrash | yago-crawler/internal/crawlorder/terminal_settlement_relay.go:177-313 | A run from staging to the end of a settlement in which the worker is lost in a crash after the token is kept: the first phase is asked for once, and all entries but a refusal occur in order |
| SettlementProgress.TurnAdvances | yago-crawler/internal/crawlorder/terminal_settlement_relay.go:241-313 | While the outbox works and the node accepts or puts off, each turn of an owner that is not put off brings it nearer to the removal of its row, or removes it |
| SettlementProgress.SettlesUnderway | yago-crawler/internal/crawlorder/terminal_settlement_relay.go:177-313 | However other workers, stagings and session changes interleave, an owner from the first phase on removes its row within as many such turns as its rank, as long as the process lives |
| SettlementProgress.OwnerSettles | yago-crawler/internal/crawlorder/terminal_settlement_relay.go:177-313 | An owner anywhere from rebinding to completing, holding its row as it stands if it has yet to read it, removes the row in at most ten turns in which all goes well |
| SettlementProgress.NoDeadEnd | yago-crawler/internal/crawlorder/terminal_settlement_relay.go:138-313 | After every run every row of the outbox can still be settled: after a restart a fresh worker removes it within twelve events |
| SettlementProgress.RebindsToSession | yago-crawler/internal/crawlorder/terminal_settlement_session_rebinding.go:30-55 | A row of another session is read with the current session if and only if it awaits acknowledgment and the session is of its worker, granted leases and holds this one; otherwise as it is |
| SettlementProgress.NotFoundRemoves | yago-crawler/internal/crawlorder/terminal_settlement_refusal.go:17-43 | An owner answered as not found removes its row in its next turn when the outbox works, whatever others do meanwhile |
| OutboxLaws.StageDecides | yago-crawler/internal/frontiercheckpoint/terminal_settlement_outbox.go:16-84 | When staging succeeds and what it leaves: new only with a complete run, unchanged when there already, rebound while not acknowledged |
| OutboxLaws.RecordDecides | yago-crawler/internal/frontiercheckpoint/terminal_settlement_outbox.go:181-215 | The first 32-byte token is kept, the same again is fine and another is a conflict; a missing row is no error |
| OutboxLaws.AdvanceDecides | yago-crawler/internal/frontiercheckpoint/terminal_confirmation_transition.go:11-38 | Confirmation is prepared exactly with the token that was kept |
| OutboxLaws.CompleteDecides | yago-crawler/internal/frontiercheckpoint/terminal_settlement_outbox.go:238-258 | A row is completed exactly while it is confirming |
| OutboxLaws.DiscardDecides | yago-crawler/internal/frontiercheckpoint/terminal_settlement_discard.go:9-22 | A row is discarded in any phase, and never that of another order |
| OutboxLaws.RebindDecides | yago-crawler/internal/frontiercheckpoint/terminal_settlement_session_rebinding.go:12-83 | A row is rebound exactly while it awaits acknowledgment without a token under the same definition |
| SettlementRelay.SendsMatchOutbox | yago-crawler/internal/crawlorder/terminal_settlement_relay.go:241-313 | At the moment of a first-phase call the row awaits acknowledgment; at a confirmation call it is confirming with that token |
| SettlementRelay.OwnershipKeeps | yago-crawler/internal/crawlorder/terminal_settlement_relay.go:154-175 | The in-flight map gives each lease at most one owner |
| SettlementRelay.RebindPermitted | yago-crawler/internal/crawlorder/terminal_settlement_session_rebinding.go:30-55 | Rebinding at most changes the session of the row |
| SettlementRelay.StagePermitted | yago-crawler/internal/frontiercheckpoint/terminal_settlement_outbox.go:16-84 | Staging adds a row without a token or changes the session of one; definition, phase and token of a row that is there stay |
| SettlementRelay.AdvancePermitted | yago-crawler/internal/frontiercheckpoint/terminal_settlement_outbox.go:181-236 | Keeping a token and starting confirmation change at most the row of the lease, move its phase forward only, and never replace a token |
| SettlementRelay.RemovalPermitted | yago-crawler/internal/frontiercheckpoint/terminal_settlement_outbox.go:238-258 | A worker that completes or discards removes at most the row of its lease, and only after the node accepted or refused it |
| SettlementWorker.TerminalSettlementRelay.CurrentTerminalSettlement | yago-crawler/internal/crawlorder/terminal_settlement_relay.go:203-239 | Rebinds if the session asks for it, then reads the row; without one it tells a missing row from a conflict |
| SettlementWorker.TerminalSettlementRelay.AcknowledgeTerminalSettlement | yago-crawler/internal/crawlorder/terminal_settlement_relay.go:241-280 | Skips the first phase when a token is kept; else calls, checks the token and keeps it durably before going on |
| SettlementWorker.TerminalSettlementRelay.PrepareConfirmation | yago-crawler/internal/frontiercheckpoint/terminal_settlement_outbox.go:217-236 | Makes the confirming phase durable before confirmation is asked for |
| SettlementWorker.TerminalSettlementRelay.ConfirmTerminalSettlement | yago-crawler/internal/crawlorder/terminal_settlement_relay.go:282-313 | Confirms with the kept token and completes; success means no row is left |
| SettlementWorker.TerminalSettlementRelay.CallConfirmation | yago-crawler/internal/crawlorder/terminal_settlement_relay.go:297-312 | Asks for confirmation with the kept token and deletes the row once it is given |
| SettlementWorker.TerminalSettlementRelay.Deliver | yago-crawler/internal/crawlorder/terminal_settlement_relay.go:332-346 | Repeats the call with the same settlement until there is an answer to go by |
| SettlementWorker.TerminalSettlementRelay.DiscardRefusedSettlement | yago-crawler/internal/crawlorder/terminal_settlement_refusal.go:17-43 | Drops the row the node does not know; success means no row is left |
| SettlementWorker.TerminalSettlementRelay.AdvanceExclusive | yago-crawler/internal/crawlorder/terminal_settlement_relay.go:177-201 | The worker takes one machine step for each contribution of the world and ends; success means that no row of the settlement is left |
| SettlementWorker.TerminalSettlementRelay.AdvanceWithDelivery | yago-crawler/internal/crawlorder/terminal_settlement_relay.go:138-175 | Joins exactly when the lease is in flight, and otherwise leaves the in-flight map as it was |
| ActiveOrders.KeptExactly | yago-crawler/internal/crawlorder/active_orders.go:213-228 | Whatever completes, new or again, a remembered lease stays remembered all the while if and only if no more leases complete anew than 4096 less the length of the queue plus its place |
| ActiveOrders.RememberedExactly | yago-crawler/internal/crawlorder/active_orders.go:213-228 | If the lease itself does not complete again, the same condition decides whether it is remembered in the end |
| ActiveOrders.SurvivesExactly | yago-crawler/internal/crawlorder/active_orders.go:213-228 | The lease at a place is sure to be remembered after completions of n distinct leases if and only if n is at most 4096 less the length of the queue plus its place |
| ActiveOrders.StillRemembered | yago-crawler/internal/crawlorder/active_orders.go:213-228 | The lease at any place outlasts that many distinct leases, in any order and however often, itself among them |
| ActiveOrders.PushedOut | yago-crawler/internal/crawlorder/active_orders.go:213-228 | One fresh lease more pushes the lease at any place out |
| ActiveOrders.RoomAtTheEnds | yago-crawler/internal/crawlorder/active_orders.go:213-228 | A lease just completed for the first time outlasts 4095 others; the oldest of a full queue completing again is forgotten after one |
| ActiveOrders.RemembersNewest | yago-crawler/internal/crawlorder/active_orders.go:213-228 | What is remembered is the newest 4096 of what was remembered followed by what completed anew |
| ActiveOrders.RememberAllBounded | yago-crawler/internal/crawlorder/active_orders.go:213-228 | The remembered leases are distinct and never more than 4096 |
| ActiveOrderTable.OrderTable.RememberCompletedLease | yago-crawler/internal/crawlorder/active_orders.go:213-228 | The ring with its slot and set is the bounded queue: same leases, same order |
| ActiveOrderTable.OrderTable.ClaimOrder | yago-crawler/internal/crawlorder/active_orders.go:39-76 | Answers and changes the table exactly as the claim rule |
| ActiveOrderTable.OrderTable.EnterSettling | yago-crawler/internal/crawlorder/active_orders.go:172-184 | Under the lock: reads the latest delivery, marks it as settling, remembers it if asked |
| ActiveOrderTable.OrderTable.LeaveSettling | yago-crawler/internal/crawlorder/active_orders.go:187-198 | Under the lock: deletes the run exactly when its version is still the one read |
| ActiveOrderTable.OrderTable.SettleWithFailureRetention | yago-crawler/internal/crawlorder/active_orders.go:153-200 | With any claims during any callback the loop ends and the run is gone; its rounds are a run of the machine, each callback got the delivery that was latest when it began, and the answer is that of the last |
| ActiveOrderTable.OrderTable.SettleLoop | yago-crawler/internal/crawlorder/active_orders.go:171-199 | Repeats rounds until nothing joined during a callback; every callback gets the latest delivery, and the run is gone at the end |
| ActiveOrderRuns.JoinShape | yago-crawler/internal/crawlorder/active_orders.go:78-108 | A claim that takes effect replaces the delivery and moves the version past that of a callback under way; any other changes nothing |
| ActiveOrderAnswers.AnswerTells | yago-crawler/internal/crawlorder/active_orders.go:39-121 | Where the rebinder does not decide: StartsRun if and only if the order is identified, not completed and has no key or no run; JoinsRun if and only if a run of the same definition stands; Rejected if and only if the definition is missing or another; AlreadyCompleted if and only if the lease is remembered |
| ActiveOrderAnswers.AnswerHolds | yago-crawler/internal/crawlorder/active_orders.go:54-107 | A claim that starts or joins leaves a run of its order with its delivery, its version moved on exactly when a callback may be under way or the lease differs, and nothing else changed |
| ActiveOrderAnswers.RebinderHolds | yago-crawler/internal/crawlorder/active_orders.go:78-121 | Where the rebinder decides, recovering and joining move the run to the claim past a callback, and any other answer changes nothing |
| ActiveOrderAnswers.StartsAgainOnlyOnceEnded | yago-crawler/internal/crawlorder/active_orders.go:39-200 | In every run, two claims of a key both answered that the order starts have the deletion of its run between them |
| ActiveOrderAnswers.KeyTells | yago-crawler/internal/crawlorder/active_orders.go:202-211 | Claims share a run when they name the same provenance, or none and the same lease |
| ActiveOrderRuns.StepKeeps | yago-crawler/internal/crawlorder/active_orders.go:39-200 | Every claim and every half of a settle loop keeps what loops rely on |
| ActiveOrderRuns.DeletedOnlySettled | yago-crawler/internal/crawlorder/active_orders.go:187-197 | In every run an entry is deleted only when a callback got its latest claimed delivery and no claim joined since |
| ActiveOrderRuns.CalledWithLatest | yago-crawler/internal/crawlorder/active_orders.go:172-185 | Every callback gets the delivery that joined last |
| ActiveOrderRuns.GoesOnOnlyForNewer | yago-crawler/internal/crawlorder/active_orders.go:171-199 | The loop goes on exactly when the version has moved past the one it read |
| ActiveOrderRuns.CallbacksBounded | yago-crawler/internal/crawlorder/active_orders.go:171-199 | A loop calls back at most once more than the version has moved on |
| ActiveOrderRuns.RecentAreCompletions | yago-crawler/internal/crawlorder/active_orders.go:163-193 | What is remembered in a run is the bounded queue of the leases it completed |
| ActiveOrderRuns.CompletedStaysAnswered | yago-crawler/internal/crawlorder/active_orders.go:50-52 | In every run, after a lease completes, for the first time or again, well-formed claims of it are answered as already completed and change nothing while no more distinct leases complete than its place leaves room for, 4095 after a first completion; if it does not complete again, exactly while no more complete anew than that |
| ActiveOrderRepeats.RepeatedForgottenAtOnce | yago-crawler/internal/crawlorder/active_orders.go:213-228 | A run in which two provenances complete one lease, the second time as the oldest of a full ring: after one further lease a claim of it starts a run again |
| FetchStart.CurrentMaximumPermits | yago-crawler/internal/fleetfetchstart/admission.go:351-374 | Between 1 and 256, no more than the demand or the capacity justify, and as many as they do |
| FetchStart.MeasuredAllowance | yago-crawler/internal/fleetfetchstart/permit_delivery.go:9-14 | The measured delivery allowance is the delay where that lies between zero and one second, and the nearer bound otherwise |
| FetchStart.AllowanceNanoseconds | yago-crawler/internal/fleetfetchstart/admission.go:260-269 | What is sent is the measured allowance unchanged, and never outside the bounds |
| FetchStart.StepKeeps | yago-crawler/internal/fleetfetchstart/admission.go:110-341 | Every look at the session, permit, request and answer keeps the client, its lease and its log consistent |
| FetchStart.UsedInOwnWindow | yago-crawler/internal/fleetfetchstart/admission.go:154-180 | A consumed finite permit falls into its own window on the node's clock, for all latencies and clock offsets, exactly when its place times the interval fits 63 bits |
| FetchStart.WrappedPermitEscapes | yago-crawler/internal/fleetfetchstart/admission.go:155-157 | A run with clocks that agree, in which a lease of twelve permits an interval of 2^61+1 nanoseconds apart has its last permit used before even the fifth is due, because the product wraps |
| FetchStart.UsedOnce | yago-crawler/internal/fleetfetchstart/admission.go:144-180 | No permit of a lease is used or passed over twice |
| FetchLooks.LookDecides | yago-crawler/internal/fleetfetchstart/admission.go:140-184 | In every run, a look at a permit passes it over if its window is over, empty, or over before the spacing after some use allows it, uses it if the window is open and the spacing has passed, and otherwise leaves the client as it was |
| FetchLooks.PassedOverExactly | yago-crawler/internal/fleetfetchstart/admission.go:140-184 | Over every run, a permit was passed over if and only if nothing was left of its window when it was looked at, and used if and only if it was open then |
| FetchLooks.NoneLostUnseen | yago-crawler/internal/fleetfetchstart/admission.go:140-184 | When a lease is finished every one of its permits was used or passed over, but for those left out at its grant |
| FetchLooks.OtherwiseDecides | yago-crawler/internal/fleetfetchstart/admission.go:140-153 | A lease without a limit gives its next permit at any time, and a used-up one is finished with its sequence as the completed one |
| FetchLooks.AnswerGrants | yago-crawler/internal/fleetfetchstart/admission.go:271-322 | A lease is granted if and only if the session stands and the answer grants the asked sequence at most the permits asked for with a proper window, and its first window opens that long after the answer and closes that long after the request |
| FetchLooks.FailureGrants | yago-crawler/internal/fleetfetchstart/admission.go:222-243 | A node that knows no leases leaves the crawler to its own rate when there is none set, and other failures grant nothing |
| FetchLooks.AnswerMeasures | yago-crawler/internal/fleetfetchstart/admission.go:213-217 | Every answer sets the delay measured |
| FetchLooks.LookTells | yago-crawler/internal/fleetfetchstart/admission.go:112-122 | The session that stands leaves the client as it is, and another starts over but for the time of the last use |
| FetchLooks.FirstRequestFixes | yago-crawler/internal/fleetfetchstart/admission.go:186-205 | The first request of a sequence carries the permits asked for and the delay measured then |
| FetchStart.UsesSpaced | yago-crawler/internal/fleetfetchstart/permit_delivery.go:16-26 | Finite uses are at least the later lease's interval apart, across leases and sessions |
| FetchStart.UsedUnderItsGeneration | yago-crawler/internal/fleetfetchstart/admission.go:110-138 | A permit is used or passed over only under the session generation its lease was granted in |
| FetchStart.RequestsAgree | yago-crawler/internal/fleetfetchstart/admission.go:186-205 | All requests of one sequence in one session carry the same permits, allowance and completed sequence, and the latter is the one before, none for the first |
| FetchStart.RepliedShape | yago-crawler/internal/fleetfetchstart/admission.go:271-322 | An answer changes the measured delay and perhaps the lease, which lies inside the granted window and is taken only in the session it was asked for |
| FetchAdmission.SessionGate.SetConnected | yago-crawler/internal/fleetfetchstart/session_gate.go:31-41 | The generation and the signal move exactly when the state changes, so a generation belongs to one state |
| FetchStart.NoMissedSessionChange | yago-crawler/internal/fleetfetchstart/session_gate.go:24-41 | Two snapshots of a run show the same generation exactly when the connection was the same at every moment between |
| FetchStart.GenerationTells | yago-crawler/internal/fleetfetchstart/session_gate.go:31-41 | In every run the connection is up exactly when the generation is odd |
| FetchStart.GrantedInOneSession | yago-crawler/internal/fleetfetchstart/admission.go:218-221 | In every run, when an answer grants a lease the connection has stood at every moment since the client took that session up |
| FetchAdmission.Admission.LookAtSession | yago-crawler/internal/fleetfetchstart/admission.go:112-122 | Goes on only when connected, and starts over in a new session |
| FetchAdmission.Admission.ResetForSession | yago-crawler/internal/fleetfetchstart/admission.go:333-341 | Everything but the time of the last use starts over |
| FetchAdmission.Admission.TakePermit | yago-crawler/internal/fleetfetchstart/admission.go:140-184 | Each permit looked at is a use step at its reading of the clock; what is recorded is permits passed over, and one used at the end exactly on an admission |
| FetchAdmission.Admission.AcquireLease | yago-crawler/internal/fleetfetchstart/admission.go:186-258 | The request, any changes of the connection and the answer are a run of the machine; a lease is held afterwards only in the session it was asked for |

## Left out

- Counters the program keeps in 64 bits (report versions, order versions, sequences, session
  generations, signal generations) are unbounded here; none comes near its limit. So is the delta
  of the punycode encoder, which stays below 2^63 for all inputs of fewer than 2^42 code points
  (`Punycode.DeltaBounded`).
- Splitting a host into labels and choosing which to encode (`toPunycode`), and text that is not
  valid UTF-8: labels are sequences of code points below the program's 32-bit bound.
- Whether a lease identifier or a session identity is valid UTF-8 and one visible line; their
  lengths are modelled.
- The other field checks of a settlement (provenance, tally, history, worker identity), which
  are folded into its content.
- Confirming recovered leases through the heartbeat, decoding order payloads and handing
  deliveries to the pipeline while a stream is drained; failures there end the stream too.
- The remote procedure calls, their retries' waits and timeouts, goroutines, timers, logging and
  metrics. A retry wait of a failed report is any number of time units; whether a report's lease is
  lost is part of the outcome given to the settle step.
- The watcher's timer is relative and starts after the registry's lock is released, so it wakes a
  little past the earliest expiry. The watcher here sleeps until that expiry, and its wake-up may come
  at any later time.
- Contexts of grants and the causes they are cancelled with; the order in which active leases
  are listed.
- Releasing and protecting the lease grant around a settlement; the relay's reconciliation loop,
  which starts workers in any order here, and the run record behind a staged settlement, which is a
  yes or no here.
- Bitwise "or" and "and" on disjoint bits are sums and remainders; the library sort is an
  insertion sort, and strings of a map are visited in any order.
- More than one settle loop for a key, or more than one admission at a time: the program's callers
  run one settle loop for a run, and admissions are serialised.
- Instants and their distances in fetch-start admission are unbounded integers; only the product of
  place and interval wraps.
- The frontier, the checkpoint database apart from the outbox, the node, HTTP, browsers and parsing
  of documents.
- ProgressQueue.ProgressDeliveryQueue.Settle: does not model the warning that is logged, only that it was given once.
- SettlementWorker.TerminalSettlementRelay.AdvanceWithDelivery: a worker that joins does not wait here; what
  the owner does meanwhile is the state machine's.
