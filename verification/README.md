# A model of the GFW X packet gateway and its proofs

GFW X is a packet-policy gateway. Traffic is decoded into flows, flows are judged against a rule set, and the
verdicts are cached, counted, logged and, with NFQUEUE, sent back to the kernel. This project models the
self-contained logic below `internal/` and proves what that logic is for:

- **The compiled rule index.** `Compile` spreads a rule set over a hash map, a reversed byte trie, two binary CIDR
  trees, an exact-address map and a linear list, all grown in place. `RuleIndex.CandidatesFire`,
  `Evaluate.LayersExact` and `Evaluate.VerdictExact` show that a walk over these structures finds exactly the rules a
  plain reading of the rule list finds, each once and in its layer, and that the verdict is the preferred rule of the
  highest layer. `Policy.Decide` carries this through to the traced and the untraced decision.
- **The data plane.** The gateway's steps as a state machine over any number of goroutines
  (`DataPlane.ConservationLaw`, `DataPlane.CachedDecision`, `DataPlane.ResidenceIsStable`, and the way of a packet from
  `DataPlane.HitServed` to `DataPlane.JobServed`), the sharded flow table with
  in-place eviction as a refinement of a map (`FlowTable`), and the worker pool (`Runner`).
- **The log pipeline.** Producers, drain goroutine and close handshake (`LogPipeline.MainLoopWritesAll`,
  `LogPipeline.StopLosesNothingIff`), and the multiplicative sampler
  with its exact count (`Sampler.SamplingIsExact`).
- **Wire parsers.** DNS names with compression, the TLS ClientHello and the NFQUEUE attribute walk: total on all
  octet strings, sound against a grammar or an encoder, with exact round trips.
- **Rule versions and the TXT format.** `Diff`, the revision chain, conflict reports, and the round trip of the TXT
  printer and parser for every rule set the parser yields.
- **The login limiter.** The bounds on failed logins, for single and for overlapping requests, and runs that reach them.

Where code and comment disagree, the model follows the code, and a pair of lemmas says what holds instead:

- `internal/logging/logger.go:88-92` says that no accepted event is left behind. `LogPipeline.AcceptedEventCanBeLost` is a
  run that leaves one behind, `LogPipeline.StopLosesNothingIff` the exact condition at the moment of stop and
  `LogPipeline.LosesNothingIff` the one at the drain's exit.
- `internal/rules/version.go:43-44` says that later mutations cannot corrupt the history. The live repository shares the
  slice of the head revision, so direct additions, updates and deletions can: `SharedRules.HistoryKeptIff` says for every
  run of them when they do not, `SharedRules.DeleteThenAdd` and `SharedRules.DeleteDoubles` are runs that do.
- `internal/rules/version.go:258` calls the history oldest-first. It is newest-first: `Revisions.HistoryIsReversed`, with
  `Revisions.OldestFirstIff` for when both orders are one.
- `internal/rules/rules_test.go:17-30` fixes label-aware suffix matching. The index compares bytes:
  `SuffixLabels.IndexAgreesIff`, with `SuffixLabels.InsideALabel`, `SuffixLabels.StarReachesBase` and
  `SuffixLabels.FinalDotMissed` as instances.
- `internal/rules/rules.go:134-140` pairs a field with a value in a conflict report. They can come from different matchers:
  `Rules.ReportConsistent`, with `Rules.PortValueReported` as an instance.
- `internal/pipeline/pipeline.go:107-109` says that `Run` ends on cancellation. `Runner.StopCanHang` is a run in which it
  waits for ever, `Runner.ReturnsIff` the exact condition.
- `internal/tls/tls.go:27` says that ALPN is extracted. The loop starts at the length of the protocol list instead of behind
  it: `Tls.AlpnReadIff` says when the list is read back all the same, `Tls.AlpnMisread` what becomes of every usual one.
- `internal/bench/bench.go:173` promises a record that the parser reads. `Tls.SniRoundTrip` says up to which name length.

Text is ASCII: case mapping and white space are those of ASCII. Times are integers. Objects the source updates in place
are classes; the immutable set built by `Compile`, events, packets, revisions and parse results are values.

## Model

| member | source | states |
|---|---|---|
| Text.FoldExact | internal/rules/repo.go:523 | texts agree up to letter case exactly when they have the same letters, place for place |
| Text.TrimExact | internal/rules/repo.go:260 | trimming cuts white space off both ends, all of it and nothing else |
| Text.SpaceCodes | internal/rules/repo.go:260 | white space is the six ASCII characters |
| Text.SuffixExact | internal/rules/rules.go:99-110 | a suffix is what follows some beginning, and cutting it off leaves that beginning |
| Text.LessExact | internal/rules/version.go:99-121 | the order of identifiers: proper prefixes first, else by the first character that differs |
| SuffixTrie.SuffixTrie.Insert | internal/rules/repo.go:40-52 | inserting grows the trie in place so that it stands for the insertion log with one more entry |
| SuffixTrie.SuffixTrie.Lookup | internal/rules/repo.go:55-72 | a lookup answers with the rules of the longest non-empty inserted suffix of the domain, in insertion order |
| SuffixTrie.LongestIsLongest | internal/rules/repo.go:55-72 | the answer belongs to one suffix, and no longer suffix of the domain was inserted |
| SuffixTrie.LongestFound | internal/rules/repo.go:55-72 | a non-empty answer comes from a suffix that was inserted |
| CidrTree.CidrTree.Insert | internal/rules/repo.go:92-112 | inserting follows or grows the bit path of the prefix and appends there, for IPv4 and IPv6 alike |
| CidrTree.CidrTree.Lookup | internal/rules/repo.go:161-186 | a lookup collects the rules of every inserted prefix on the address's path, also when the path ends early |
| CidrTree.CoveringExact | internal/rules/repo.go:114-139 | the insertions met are exactly those whose prefix covers the address |
| CidrTree.CoveringOrdered | internal/rules/repo.go:114-139 | they come by prefix length and then by insertion order, each once |
| CidrTree.CollectedIsCovering | internal/rules/repo.go:114-139 | the rules returned are the payloads of these insertions in this order |
| CidrTree.CoverIsBlock | internal/rules/repo.go:92-112 | covering on the bit path is membership in the numeric address block of the network |
| RuleIndex.ScanRule | internal/rules/repo.go:473-521 | the early-exit matcher loop computes the conjunction of all matchers, the category comparison for category rules |
| RuleIndex.OneMatcher | internal/rules/repo.go:482-518 | what the scan answers for a rule with one matcher, field by field, in terms of the traffic: SNI, DNS name, protocol and category up to letter case, a port modulo 2^16 against either port, an IP against the destination, never for CIDR and ASN |
| RuleIndex.SeveralMatchers | internal/rules/repo.go:482-520 | a rule with several matchers matches exactly when every rule with one of them does |
| RuleIndex.CategoryMatches | internal/rules/repo.go:474-481 | a category rule compares the category alone, and no rule matches without matchers |
| RuleIndex.NormalizeExact | internal/rules/repo.go:260 | a normalized text is the part between the white space at both ends, letter for letter without capitals |
| RuleIndex.TrimStarExact | internal/rules/repo.go:262-271 | a suffix pattern loses one leading star and the dot behind it, and nothing else |
| RuleIndex.KeysCollide | internal/rules/repo.go:226-238 | two addresses share an exact-address key exactly when they are equal or one is the IPv6 address of the other's four octets and twelve zeros |
| RuleIndex.ExactMember | internal/rules/repo.go:221-222 | the hash map answers with exactly the indexed rules having a domain matcher equal to the domain |
| RuleIndex.SuffixSound | internal/rules/repo.go:223-225 | every rule the trie answers with owns the longest suffix pattern of the rule list |
| RuleIndex.SuffixComplete | internal/rules/repo.go:223-225 | every owner of the longest suffix pattern is in the trie's answer |
| RuleIndex.IpMember | internal/rules/repo.go:226-238 | the address map answers with exactly the rules having that 16-octet key |
| RuleIndex.Cidr4Member | internal/rules/repo.go:239-246 | the IPv4 tree answers with exactly the rules having a network that contains the address |
| RuleIndex.Cidr6Member | internal/rules/repo.go:247-251 | the same for the IPv6 tree |
| RuleIndex.LinearMember | internal/rules/repo.go:213-216 | the linear list yields the matching category rules and the matching rules with a matcher outside the trees |
| RuleIndex.CandidatesFire | internal/rules/repo.go:396-437 | a walk over the indexes meets a rule exactly when it fires under the plain scan of the rule list |
| RuleIndex.OneFires | internal/rules/repo.go:396-437 | when an enabled rule with one matcher fires, field by field, in terms of rule and traffic |
| RuleIndex.SeveralFire | internal/rules/repo.go:396-437 | a rule with any matchers fires exactly when one of its tree matchers fires alone, or it has another matcher and every one matches |
| RuleIndex.CategoryFires | internal/rules/repo.go:213-216 | a category rule fires exactly for its category, up to letter case, whatever its matchers |
| Compile.IndexMatcher | internal/rules/repo.go:219-254 | indexing one matcher extends exactly the index of its field, in place for the trees |
| Compile.IndexRule | internal/rules/repo.go:218-255 | the matchers of one indexed rule are spread over the indexes, in order |
| Compile.Compile | internal/rules/repo.go:200-258 | the built structures together stand for the whole rule list, disabled rules skipped and category rules in the linear list; the rule count and the identifier map are right |
| Evaluate.ClassifyAll | internal/rules/repo.go:440-457 | classifying an answer sorts the rules met for the first time into their layers |
| Evaluate.ScanLinear | internal/rules/repo.go:427-436 | the linear loop skips rules met before and adds exactly the matching others |
| Evaluate.Collect | internal/rules/repo.go:396-437 | the walk yields the layers of all candidates in the order it meets them |
| Evaluate.OnlyExact | internal/rules/repo.go:440-457 | a layer holds exactly the met rules of its kind, each once |
| Evaluate.LayersExact | internal/rules/repo.go:379-392 | each of the four buckets holds exactly the firing rules of its kind, each once |
| Evaluate.PickUnique | internal/rules/repo.go:460-470 | fewest matchers, latest hit and first in the list leave one choice |
| Evaluate.Pick | internal/rules/repo.go:460-470 | the single pass returns that choice |
| Evaluate.EvalBuckets | internal/rules/repo.go:379-392 | all layers are reported, and the decision is the verdict of the rules |
| Evaluate.Eval | internal/rules/repo.go:284-350 | it decides as EvalBuckets does and returns the winning layer |
| Evaluate.VerdictExact | internal/rules/repo.go:284-350 | the verdict is that of the best firing rule: allow beats block, block beats category, category beats the rest, no firing rule of its layer is preferred to it, and it comes before its equals there; it carries the action named for the kind, the rule's category and its name or first matcher; there is none exactly when no rule of a known kind fires |
| Repo.RuleRepo.Replace | internal/rules/repo.go:542-555 | the rule set is swapped together with indexes compiled from it |
| Repo.RuleRepo.Add | internal/rules/repo.go:579-592 | a rule of a known kind whose matchers, at least one, have known fields and values that are not blank is appended, one without identifier as a full copy under the fresh one; every other rule is refused; indexes follow |
| Repo.RuleRepo.Update | internal/rules/repo.go:595-610 | the first rule with the identifier is replaced; invalid or unknown rules change nothing |
| Repo.RuleRepo.Delete | internal/rules/repo.go:613-625 | the first rule with the identifier is dropped; an unknown one changes nothing |
| Repo.RuleRepo.Get | internal/rules/repo.go:567-576 | the first rule with the identifier |
| Repo.RuleRepo.RecordHit | internal/rules/repo.go:661-678 | each reference counts one hit, modulo 2^64, for the first rule with its identifier; indexes and policy are untouched |
| Repo.RuleRepo.EvalBuckets | internal/rules/repo.go:636-641 | in every repository state the buckets are those of the current rules |
| Repo.RuleRepo.Eval | internal/rules/repo.go:628-633 | in every repository state the verdict is that of the current rules |
| Policy.DecisionTrace.AddMatched | internal/policy/decisiontrace.go:98-104 | one matched rule is appended with its layer |
| Policy.DecisionTrace.AddSkipped | internal/policy/decisiontrace.go:107-118 | a pair is recorded once, in canonical order |
| Policy.DecisionTrace.AddConflicts | internal/policy/policy.go:140-150 | the skipped list becomes the duplicate-free set of conflicting pairs among the matched rules |
| Policy.DecideBuckets | internal/policy/policy.go:121-169 | the traced route decides as the rules call for and traces every matched rule and overridden pair |
| Policy.TraceExact | internal/policy/policy.go:121-169 | a traced evaluation adds exactly the firing rules of a known kind, each with the number of its layer, and exactly the conflicting pairs among them, none twice |
| Policy.Preempt | internal/policy/policy.go:65-97 | bypass and detector settle the matter exactly when they are to, with the decision the priority chain calls for |
| Policy.Route | internal/policy/policy.go:65-119 | bypass, detector, rules, default: one decision, the same with and without a trace, and what the trace learns in each case |
| Policy.ResolutionProper | internal/policy/policy.go:65-119 | said of input and firing rules alone: the source is the detector exactly outside bypass with an applied reject, drop or ratelimit, whose action is then taken; the rules exactly when one of a known kind fires, with the action, label and category of the best; bypass and default observe |
| Policy.Decide | internal/policy/policy.go:50-53 | the untraced decision is the proper one for the current rules |
| Policy.DecideWithTrace | internal/policy/policy.go:58-63 | the traced decision is the same proper one |
| Policy.CreditedRules | internal/policy/policy.go:171-178 | the rules credited with a rule decision are exactly the firing rules of a known kind |
| Rules.FindShared | internal/rules/rules.go:145-164 | the matcher scan finds a conflict exactly when there is one, and names the field of the first shared matcher |
| Rules.FindConflicts | internal/rules/rules.go:167-181 | the nested loops report row by row, the field and the value each from its own scan |
| Rules.ConflictsExact | internal/rules/rules.go:167-181 | exactly the conflicting pairs are reported, the earlier rule first |
| Rules.ReportConsistent | internal/rules/rules.go:183-192 | the reported value belongs to the reported field exactly when the first shared matcher is no port matcher |
| Rules.PortValueReported | internal/rules/rules.go:183-192 | two conflicting rules whose report names the domain field and a port value |
| Rules.ValidExact | internal/rules/rules.go:114-132 | validation accepts exactly the rules of a known kind with at least one matcher, all of known fields, none with a blank value |
| Rules.Names | internal/rules/rules.go:14-46 | the names of fields and kinds in files, labels and reports |
| SuffixLabels.LabelMatchIff | internal/rules/rules.go:98-111 | on every pattern and domain the three comparisons come to one: the base of the pattern, final dots dropped, ends the domain at a label |
| SuffixLabels.FiresIff | internal/rules/repo.go:55-72 | a suffix rule fires through the index exactly when its bytes end the domain and no longer pattern does |
| SuffixLabels.IndexAgreesIff | internal/rules/repo.go:262-271 | index and matcher agree exactly when a pattern at a label also matches by bytes with no longer one beside it, and a pattern not at a label does not match by bytes or is overtaken by a longer one |
| SuffixLabels.LabelSeenIff | internal/rules/repo.go:260-271 | a pattern at a label matches by bytes exactly when something is left behind its star and both texts or neither end in a dot |
| SuffixLabels.InsideALabel | internal/rules/rules.go:98-111 | a pattern the index matches inside a label and the matcher does not |
| SuffixLabels.StarReachesBase | internal/rules/rules_test.go:23 | a starred pattern that reaches its base domain through the index only |
| SuffixLabels.FinalDotMissed | internal/rules/rules.go:98-100 | a domain with a final dot that the matcher covers and the index does not |
| FlowTable.MaskIsMod | internal/flow/table.go:83-98 | masking with a power of two less one is the remainder |
| FlowTable.RoundUp | internal/flow/table.go:49-58 | the shard count is the least power of two that is at least n |
| FlowTable.Table.constructor | internal/flow/table.go:49-70 | a new table is empty and its shard count as stated |
| FlowTable.Table.SelIsMod | internal/flow/table.go:83-98 | shard and bucket of a key are its hashes modulo the shard count and the bucket count |
| FlowTable.Table.Find | internal/flow/table.go:127-135 | the chain walk finds the entry of a key exactly when the key is live |
| FlowTable.Table.Get | internal/flow/table.go:124-139 | a hit unpins the flow, restarts its clock and counts as a hit; everything else stays |
| FlowTable.Table.UpdateBytes | internal/flow/table.go:163-178 | each counter of a resident flow grows by its own argument modulo 2^64, its other fields and every other flow stay |
| FlowTable.UpdatesAddUp | internal/flow/table.go:163-178 | over any list of updates to a resident flow each counter is its start plus the sum of its own column, modulo 2^64 |
| FlowTable.Table.Put | internal/flow/table.go:142-160 | insert if absent, with the next identifier, at the head of its chain, every other chain as it was; a resident key keeps its flow |
| FlowTable.Table.SweepEntry | internal/flow/table.go:205-227 | one entry of the walk is spliced out in place exactly when it has expired unpinned, and the walk goes on to its successor |
| FlowTable.Table.SweepCell | internal/flow/table.go:204-228 | one walk over a chain unlinks its expired unpinned entries in place and counts them |
| FlowTable.Table.Sweep | internal/flow/table.go:198-231 | exactly the expired unpinned entries go, their number is returned, and the active counter follows |
| DataPlane.ConservationLaw | internal/gateway/gateway.go:266-301 | in every reachable state packets are the arrivals and the five classes plus queued jobs plus jobs in hand, each counter counts the completions with its actions, byte totals are those of the accounted packets, and no packet is lost or doubled |
| DataPlane.ClassesPartition | internal/gateway/gateway.go:474-489 | every completed packet counts in exactly one class |
| DataPlane.CachedDecision | internal/gateway/gateway.go:273-280 | a packet served from the cache gets the action that the inserting finish decided for its 5-tuple |
| DataPlane.ResidenceIsStable | internal/gateway/gateway.go:430-451 | while a flow stays resident, its entry and its decision survive mode switches, rule changes and duplicate jobs |
| DataPlane.HitServed | internal/gateway/gateway.go:273-280 | a packet that finds its 5-tuple in the table is completed from the cache, with the action the resident flow was born with |
| DataPlane.BypassServed | internal/gateway/gateway.go:269-271 | a packet whose mode read saw bypass is completed with observe and reaches neither table nor queue |
| DataPlane.MissFound | internal/gateway/gateway.go:269-284 | in the other modes the table is consulted, and a 5-tuple not resident makes a new flow |
| DataPlane.MissServed | internal/gateway/gateway.go:284-301 | a new flow goes to the back of its queue, the slow one exactly when it is unknown; with that queue full the packet is completed with observe |
| DataPlane.JobServed | internal/gateway/gateway.go:372-458 | a worker completes its job with what rules and mode call for when it decides, and publishes the flow unless its 5-tuple is resident by then |
| DataPlane.StaleServed | internal/gateway/gateway.go:273-280 | whatever rules and mode other than bypass come into force, a flow that stays resident is still served with the action it was born with: every reachable state has such a run |
| DataPlane.SweptAnew | internal/gateway/gateway.go:519-534 | after a sweep of its flow a packet of the 5-tuple makes a new one |
| DataPlane.QueuesInOrder | internal/gateway/gateway.go:349-370 | at every step of every run both queues are first in, first out, within capacity, unknown flows in the slow one and the others in the fast one |
| DataPlane.GetsFree | internal/gateway/gateway.go:266-301 | from every reachable state a goroutine gets free by its own steps, at most six |
| LogPipeline.SinkInOrder | internal/logging/logger.go:81-163 | at every interleaving accepted events are the batches, the buffer and the queue in order; batches have 1 to 512 events; nothing is written after the storage closed |
| LogPipeline.MainLoopWritesAll | internal/logging/logger.go:81-110 | from every reachable state with the main loop running, receiving, timer and writing alone bring every accepted event into the sink |
| LogPipeline.TimerWrites | internal/logging/logger.go:102-107 | a timer that fires on a non-empty buffer is followed by exactly one write, of that buffer; on an empty one nothing happens |
| LogPipeline.NothingUnaccounted | internal/logging/logger.go:62-79 | every event submitted is accepted, counted as dropped or still with its producer; the queue keeps its capacity; the ratio's ends drop nothing and accept nothing |
| LogPipeline.StopLosesNothingIff | internal/logging/logger.go:168-175 | right after Close has closed stop, every completed Close will have written every accepted event exactly when no Submit is past the closed check and still able to enqueue |
| LogPipeline.QuietCloseLosesNothing | internal/logging/logger.go:168-175 | with no such Submit in flight at stop, Close returns with every accepted event written and counted |
| LogPipeline.LosesNothingIff | internal/logging/logger.go:143-151 | after the drain goroutine left, nothing is ever lost exactly when nothing is queued and no Submit can still enqueue |
| LogPipeline.AcceptedEventCanBeLost | internal/logging/logger.go:62-79 | a run in which an accepted event is never written |
| LogPipeline.DrainProgress | internal/logging/logger.go:119-155 | after a quiet stop the drain always has a step and every step brings it closer to its end |
| LogPipeline.ThreeIdleRounds | internal/logging/logger.go:119-155 | drainAll leaves only after three rounds at least, and four after any event it took |
| Sampler.Source.SampleHit | internal/logging/logger.go:195-213 | one call advances the 64-bit counter, unless the ratio decides by itself |
| Sampler.HashIsResidue | internal/logging/logger.go:209-213 | cutting the product to 64 bits does not change its low 20 bits |
| Sampler.ResidueInjective | internal/logging/logger.go:209-213 | the odd multiplier permutes the residues modulo 2^20 |
| Sampler.SamplingIsExact | internal/logging/logger.go:195-213 | any 2^20 consecutive calls with a ratio between 0 and 1 hit exactly ceil(ratio * 2^20) times |
| Dns.PointerExact | internal/dns/dns.go:31-35 | a pointer has both top bits set and leads to the offset in its other fourteen bits |
| Dns.PointerRoundTrip | internal/dns/dns.go:31-35 | a pointer written to any offset below 2^14 is read back |
| Dns.Resolve | internal/dns/dns.go:54-95 | the recursive loop terminates and stays in bounds on all bytes, pointer cycles included |
| Dns.Name | internal/dns/dns.go:17-51 | the same for the outer loop, with the offset behind the name |
| Dns.NameSound | internal/dns/dns.go:17-95 | a parsed name is the one the compression grammar spells, up to one trailing dot, and the new offset lies past the start and inside the data |
| Dns.DerivesUnique | internal/dns/dns.go:17-95 | the grammar spells at most one name at an offset |
| Dns.DerivedIsParsed | internal/dns/dns.go:17-95 | a name the grammar spells is parsed exactly when its derivation stays within the label and pointer limits, and comes out as spelled |
| Dns.SplitJoin | internal/integration/harness_test.go:109-112 | splitting a joined name gives its labels back |
| Dns.QueryExact | internal/dns/dns.go:107-131 | which packets are taken for queries, and which error the others get |
| Dns.QueryReads | internal/dns/dns.go:107-131 | the question read is a name the grammar spells at offset 12 and the two numbers behind it |
| Dns.QueryRoundTrip | internal/integration/harness_test.go:99-116 | behind any header of a query, parsing an encoded question yields its name, lower-cased, and type exactly when it has at most 31 labels |
| Tls.ReadHost | internal/tls/tls.go:93-108 | the server name loop returns the first usable host name of a list |
| Tls.ReadExtensions | internal/tls/tls.go:80-125 | the extension loop accepts the complete extensions of the block and keeps the last usable name |
| Tls.ParseClientHello | internal/tls/tls.go:29-127 | the parser stays in bounds and terminates on all bytes and computes the parse function |
| Tls.ExtensionsFill | internal/tls/tls.go:80-90 | on arbitrary bytes the extensions accepted are those encoded at the front of the block, and no complete one follows |
| Tls.AcceptedOfPrefix | internal/tls/tls.go:39-125 | extensions accepted from a prefix of arbitrary input are a prefix of those accepted from the whole |
| Tls.ReadsEncoded | internal/tls/tls.go:29-127 | every encoded ClientHello is read back: version and exactly its extensions |
| Tls.CutLosesLast | internal/tls/tls.go:39-90 | cutting an encoded record anywhere loses at least its last extension |
| Tls.ReadNameList | internal/tls/tls.go:93-108 | an encoded server name list yields its first host name |
| Tls.SniRead | internal/tls/tls.go:91-108 | with one server_name extension the name reported is the first host name of its list |
| Tls.AlpnRead | internal/tls/tls.go:109-123 | with one ALPN extension the protocols reported are what the loop makes of its body |
| Tls.ProtocolsExact | internal/tls/tls.go:113-122 | the loop yields a list of names exactly when they are encoded from its start on and no further entry fits |
| Tls.AlpnReadIff | internal/tls/tls.go:109-123 | an encoded protocol list is read back exactly when, behind its own length, it starts like itself and the octet behind that start is above 1 |
| Tls.AlpnMisread | internal/tls/tls.go:109-123 | a list shorter than 256 octets is read as an empty name and the whole list |
| Tls.BuildIsEncode | internal/bench/bench.go:173-189 | the benchmark's record is the general encoding of one message, for names of any length |
| Tls.SniRoundTrip | internal/bench/bench.go:173-189 | the parser finds the name of that record exactly for names of at most 65479 octets |
| Tls.NoSniWhenCut | internal/tls/tls.go:39-90 | no proper prefix of that record yields a name |
| Nfq.ByteOrder | internal/nfq/nfq_proto.go:135-203 | which octet weighs how much, in network and in either host order |
| Nfq.ParsePacketMsg | internal/nfq/nfq_proto.go:135-175 | the attribute walk stays in bounds and terminates on all bytes and computes the parse function |
| Nfq.ReadMeans | internal/nfq/nfq_proto.go:154-164 | the last packet header gives the id, the last payload wins, a short header fails |
| Nfq.LastOfIsLast | internal/nfq/nfq_proto.go:154-164 | what the last attribute of a type is |
| Nfq.WalkReads | internal/nfq/nfq_proto.go:144-167 | walking serialised attributes yields them all, padding skipped, in either byte order |
| Nfq.ParsesSerialised | internal/nfq/nfq_proto.go:135-175 | on serialised attributes the parser returns last id and last payload, or exactly the error they call for |
| Nfq.BuildVerdict | internal/nfq/nfq_proto.go:179-203 | the buffer written in place is a header naming the queue and a single verdict attribute |
| Nfq.VerdictReadBack | internal/nfq/nfq_proto.go:179-203 | every field of a verdict message, header and attribute, is read back as given, in either host order |
| Nfq.AnswerMatches | internal/nfq/nfq_proto.go:209-216 | the answer to any delivered packet names its queue and id, and drops for exactly the four stopping verdicts |
| Sorting.SortByIsSort | internal/rules/rules.go:398-403 | the stable sort keeps every element, orders by key and keeps equal keys in order |
| Sorting.StrictUnique | internal/rules/version.go:102-121 | strictly ordered lists with the same elements are equal |
| Versions.ContentExact | internal/rules/version.go:73-83 | contents agree exactly when the rules agree in everything but hit accounting |
| Versions.SnapshotIsLabel | internal/rules/version.go:61-69 | a change names a rule as decisions do |
| Versions.Diff | internal/rules/version.go:87-126 | the loops over maps in arbitrary order compute the specified list |
| Versions.DiffExact | internal/rules/version.go:87-126 | one change for every identifier whose rule differs, and no other |
| Versions.DiffOnePerId | internal/rules/version.go:87-126 | no identifier is listed twice |
| Versions.DiffLaidOut | internal/rules/version.go:85-86 | added and modified rules by identifier, then removed ones by identifier |
| Versions.DiffUnique | internal/rules/version.go:85-86 | documented content and order leave only one list |
| Versions.DiffEmpty | internal/rules/version.go:73-83 | no changes exactly when the indexed rule sets agree |
| Versions.DiffEmptyDistinct | internal/rules/version.go:87-126 | with distinct identifiers, no changes exactly when the same rules occur on both sides |
| Versions.RepeatedIdHidesChange | internal/rules/version.go:90-95 | with a repeated identifier a dropped rule goes unnoticed |
| Versions.DiffReversed | internal/rules/version.go:87-126 | reversing the direction swaps added with removed and before with after |
| Versions.PatchDiff | internal/rules/version.go:87-126 | carrying out the changes leads from the one set of identifiers to the other |
| Revisions.CloneRules | internal/rules/version.go:129-139 | new objects with the same content and hit accounting |
| Revisions.RevisionStore.EnableBootRevision | internal/rules/version.go:169-180 | the rules present at start become revision zero, once |
| Revisions.RevisionStore.Apply | internal/rules/version.go:197-218 | a set of acceptable rules becomes live and is recorded with time, parent and difference; any other changes nothing; older snapshots stay, no rule of theirs live |
| Revisions.RevisionStore.Rollback | internal/rules/version.go:223-238 | the live content becomes the target's, recorded as a new revision; an unknown target changes nothing |
| Revisions.RevisionStore.DryRun | internal/rules/version.go:242-256 | the preview lists what Apply would record and the conflicts, and nothing changes |
| Revisions.RevisionStore.History | internal/rules/version.go:259-271 | the loop computes the specified list |
| Revisions.RevisionStore.FindRevision | internal/rules/version.go:284-291 | the first revision with the identifier |
| Revisions.ReplayReaches | internal/rules/version.go:207-217 | replaying the recorded changes reproduces the identifiers of every revision |
| Revisions.RollbackReverses | internal/rules/version.go:223-238 | rolling the head back records its changes backwards and restores the predecessor |
| Revisions.NoChangeRevision | internal/rules/version.go:207-214 | a revision without changes is one whose rules agree with its predecessor's |
| Revisions.HistoryIsReversed | internal/rules/version.go:258-271 | the history is the recorded revisions, latest first |
| Revisions.OldestFirstIff | internal/rules/version.go:258-271 | the documented oldest-first order is met exactly when at most one revision has been recorded |
| SharedRules.LiveSlice.constructor | internal/rules/version.go:209-217 | after Apply and Rollback the live slice is the head revision's array, without spare capacity |
| SharedRules.LiveSlice.Add | internal/rules/repo.go:579-592 | an addition writes into spare capacity of the array it lies in, or moves the slice to a new one |
| SharedRules.LiveSlice.Update | internal/rules/repo.go:595-610 | an update overwrites the first rule with the identifier in place |
| SharedRules.LiveSlice.Delete | internal/rules/repo.go:613-625 | a deletion moves the tail down in place and shortens the live part only |
| SharedRules.EditKeepsIff | internal/rules/version.go:211-213 | one edit leaves the recorded snapshot as it was exactly when it is harmless at the slice's place |
| SharedRules.HistoryKeptIff | internal/rules/version.go:211-213 | over a run of direct edits the snapshot reads as recorded at every moment exactly when each edit is harmless where the ones before it have left the slice |
| SharedRules.DeleteHarmlessIff | internal/rules/repo.go:613-625 | with distinct identifiers a deletion is harmless exactly when it finds nothing or drops the last live rule |
| SharedRules.AddFirstProtects | internal/rules/repo.go:587 | an addition right after Apply or Rollback moves the slice out, and no later edit reaches the history |
| SharedRules.DeleteThenAdd | internal/rules/repo.go:587 | a run after which the recorded revision ends in a rule that was never in it |
| SharedRules.DeleteDoubles | internal/rules/repo.go:618 | a run after which the recorded revision lists a rule twice |
| Txt.ParseBytes | internal/rules/rules.go:264-302 | the line loop yields the specified rules, or the first failing line |
| Txt.MarshalTxt | internal/rules/rules.go:372-379 | the printing loop yields the specified text, sorted by identifier |
| Txt.SentenceReads | internal/rules/rules.go:206-261 | what a line means: the first word, up to letter case, gives the kind, the others the domain, starred suffix or category; a comment is skipped and any other first word fails |
| Txt.StructuredExact | internal/rules/rules.go:270-288 | which texts are left to the JSON and YAML readers |
| Txt.PrintedReadsIff | internal/rules/rules.go:381-396 | of all acceptable rules exactly those with one matcher of plain value on a domain without star, a starred suffix, or, for allow and block rules, a category, for block of one word, survive printing and parsing |
| Txt.FieldsJoin | internal/rules/rules.go:211-235 | splitting at white space undoes joining with blanks |
| Txt.PlainJoin | internal/rules/rules.go:211-235 | joining undoes splitting for values as the parser keeps them |
| Txt.ParsedShaped | internal/rules/rules.go:206-261 | every rule read from TXT has one matcher, on a domain, a suffix or a category, with a plain value |
| Txt.TxtNeverInvalid | internal/rules/rules.go:301 | validation never rejects what a TXT text yields |
| Txt.LineReads | internal/rules/rules.go:381-396 | a printed rule parses back |
| Txt.ReprintedSame | internal/rules/rules.go:381-396 | kind and field survive printing and parsing, the value up to letter case |
| Txt.RoundTrip | internal/rules/rules.go:290-301 | any rule set read from TXT, printed and read again, comes back sorted by identifier, rule for rule |
| Runner.TakenBound | internal/pipeline/pipeline.go:76-79 | packets taken and not written never outnumber the workers |
| Runner.WrittenOnceAfterProcessing | internal/pipeline/pipeline.go:138-160 | every packet is written at most once, after it was processed, and processed once, after it was taken |
| Runner.DoneClosedOnce | internal/pipeline/pipeline.go:175-180 | the channel is closed at most once |
| Runner.FirstErrorKept | internal/pipeline/pipeline.go:167-173 | the first recorded error is kept |
| Runner.ResultIsFirstError | internal/pipeline/pipeline.go:118-126 | Run returns the first recorded error, end of file being none |
| Runner.FaultRecorded | internal/pipeline/pipeline.go:138-162 | after a failed call its worker next records that error, unless the source says it was stopped |
| Runner.WorkerEnds | internal/pipeline/pipeline.go:129-163 | in every run a worker's steps follow its loop: check, take, process, write and again, or record, close and no more |
| Runner.NothingAfterReturn | internal/pipeline/pipeline.go:110-127 | after Run returned no worker touches source, processor or sink |
| Runner.ReturnsIff | internal/pipeline/pipeline.go:129-180 | in every reachable state Run can still return exactly when the channel is closed, or the context not cancelled, or some worker past its loop head can close it; otherwise it waits for ever |
| Runner.StopCanHang | internal/pipeline/pipeline.go:165 | a run in which Stop makes Run wait for ever |
| LoginLimiter.Auth.AllowLogin | internal/api/auth.go:129-156 | the counter of the source moves as specified, no other source is touched |
| LoginLimiter.Auth.RecordFailure | internal/api/auth.go:159-172 | a known source's failure is counted, the failure at the maximum locks |
| LoginLimiter.Auth.ResetFailCount | internal/api/auth.go:89-93 | a success forgets the source |
| LoginLimiter.Auth.FailedAttempt | internal/api/auth.go:129-172 | a failed attempt as one step |
| LoginLimiter.StaysSound | internal/api/auth.go:129-172 | at every interleaving the counter stays below the maximum and the window outlives the lock |
| LoginLimiter.LockHolds | internal/api/auth.go:142-149 | a window reset never cuts a lock short, whatever requests step in between |
| LoginLimiter.MaxFailureLocks | internal/api/auth.go:159-172 | the failure that reaches the maximum locks for the whole lock time |
| LoginLimiter.FailuresBounded | internal/api/auth.go:23-27 | with one attempt at a time any half-open lock-time interval records at most 2 * loginMax - 1 failures |
| LoginLimiter.OverlappingBounded | internal/api/auth.go:129-172 | with at most k requests under way it records at most 2 * loginMax - 2 + k |
| LoginLimiter.OverlappingReached | internal/api/auth.go:129-172 | a run that reaches this bound, for every k |
| LoginLimiter.BoundReached | internal/api/auth.go:23-27 | a run of one attempt at a time that reaches its bound |

## Left out

- The library parsers of addresses, networks and decimal numbers, the DNS lower-casing, `maphash`, clocks and `NewID` are
  parameters; `SrcIP` is not modelled because no matcher reads it.
- Text beyond ASCII: Unicode case folding and Unicode white space.
- CidrTree.CidrTree: one class stands for the IPv4 and the IPv6 tree, which run the same code at 4 and 16 octets.
- Compile.Compile: the compiled set is a record over the heap trees, since nothing writes to it after `Compile`; the walks'
  layers are values instead of slices behind pointers.
- Evaluate.Eval: the source repeats the loops of `collect` line for line; both are one method here.
- Repo.RuleRepo.Add: a rule without identifier is stored as a copy with the fresh one; the source writes it into the
  caller's object. The refresh signal channel is left out.
- Rules.Rule: the policy fields are constants, because no modelled code writes them after a rule is built; hit accounting is
  mutable.
- Revisions.RevisionStore.Apply: slices are values here, so that live edits cannot reach a snapshot; what direct edits of
  the shared slice do is stated in `SharedRules`, for rules that have their identifier. A nil and an empty matcher slice are the same.
- FlowTable.Table: a flow is a value inside its table entry, so a caller's later writes through the same pointer are not
  modelled; shards are laid side by side in one array of chain heads; shifting past 2^62 shards is not modelled;
  identifiers are insertion numbers modulo 2^64.
- DataPlane.ConservationLaw: counters are unbounded; a queue hand-off at capacity zero, the workers' stop, per-flow
  counters, latency, traces, the shadow comparator and event emission are left out; any goroutine may ingest or work, which
  allows more runs than the source; repository and mode changes are one kind of step.
- FlowTable.Table.Sweep: the source releases the lock between shards; other operations in between are covered by
  `FlowTable.Table.SweepCell`, the step under one lock, and by the arbitrary sweeps of `DataPlane`.
- SuffixLabels.LabelSeenIff: says nothing of texts with white space at their ends, which `SuffixLabels.IndexAgreesIff`
  covers.
- LogPipeline.SinkInOrder: address masking and storage write errors are left out; timers fire at any time.
- Tls.AlpnReadIff: several ALPN extensions in one message are covered by `Tls.ParseClientHello` alone; an empty protocol
  name, which RFC 7301 does not allow, is not covered.
- Nfq.ParsePacketMsg: sockets, the configuration message and the sink's fail mode are left out.
- Txt.RoundTrip: the YAML and JSON readers and writers are not part of this model; a text they would get is reported as
  structured.
- Runner.ReturnsIff: a source whose `Start` fails, before any worker runs, is left out; that `Run` can return means that
  some answers of source, processor and sink lead there, not that all do.
- LoginLimiter.OverlappingBounded: each operation reads the clock once, where recording a failure at the maximum reads it
  twice; successful logins, which forget the source, are left out.
- HTTP handlers, sessions, password hashing, netlink sockets, capture files, storage, export formats, the user interface and
  the browser gate: plumbing over libraries.
- Detector scoring, DPI classification, throughput and latency meters, ring buffers and number printers: thresholds and
  formatting that would add only easy members. The detection report is an arbitrary input of `Policy.Decide`.
