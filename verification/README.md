# Ingate verification model

Ingate is an API gateway with a control plane, Proxy-Wasm plugins, and an access-log service (ALS)
that delivers request records to Kafka. This project models four parts of it in Dafny and proves
what they are for:

- **Header transformation.** The controller compiles a policy into plugin configuration, the plugin
  compiles that into a flat program, and an interpreter edits the header list of each request inside
  one backing array. `Headers.dfy` gives the meaning of programs on ordered header lists,
  `HeaderLaws.dfy` the laws of that meaning, `Transformer.dfy` the in-place interpreter and the
  plugin's compiler, `ConfigJson.dfy` the plugin's strict reading of its JSON configuration,
  `PolicyCompiler.dfy` the controller's compiler. Header names compare without
  case and repeated fields keep their order, as sections 5.1 and 5.3 of RFC 9110 require.
- **Record delivery.** `RecorderProtocol.dfy` is the request recorder as a concurrent state machine:
  any number of writers and one replayer interleave freely, everything can fail, and the process can
  crash at any step; `Recovery.dfy` says from which states it recovers without a restart, `Repeats.dfy` when it
  publishes a confirmed batch again. `Gate.dfy`
  is the state behind its lock, `DiskQueue.dfy` the disk queue, `Capacity.dfy` its capacity policy,
  `Kafka.dfy` the client that delivers batches. `Recorder.dfy` is the recorder object run by one caller over these
  objects, and `SerialRuns.dfy` the protocol paths that its calls are. `LostAck.dfy`, `Drill.dfy` and
  `WalCopy.dfy` are the drills that lose an acknowledgement, look for the duplicate and damage a log.
- **The admin API journey.** `Journey.dfy` has the client that creates, updates and cleans up
  resources against a store with optimistic versions and reference-protected deletes;
  `Pagination.dfy` its search through a paged listing.
- **Source checkers and the mock-response plugin.** `Declarations.dfy` and `Layout.dfy` model the
  declaration-layout checker, `Documentation.dfy` the documentation checker, `MockResponse.dfy` the
  in-place validation of mock-response headers.

The recorder object carries the state of the protocol along as ghost state: each of its calls is a
path of protocol steps, the gate, the queue's entries and Kafka's log are what that state shows, and
so what holds in every run of the protocol holds of the objects (`Recorder.Recorder.AcceptedIsKept`).

Environment decisions are parameters: Kafka's answers, what the storage probe finds, disk errors, the
clock, lost responses, name folding, name and value normalisation and validity. Statements hold for
all of them. Three assumptions are made about them: the storage probe counts at least the bytes of the
records in the log (`DiskQueue.Probe`); a record for which the client reports a temporary or permanent
error is not in Kafka's log (`Kafka.Outcome`); and, only in `MockResponse.DecodedIsStable` and the
policy-to-plugin lemmas, normalising twice is normalising once.

## Where the code and its documentation disagree

- `MaxRules` is documented as the bound for a policy's request and response rules together
  (internal/pkg/apis/gateway/validation/headertransformation_policy.go:3). The plugin checks it for
  each direction by itself, so it starts on twice as many operations
  (`Transformer.BoundIsPerDirection`). A configuration that starts the plugin keeps the documented
  bound if and only if its two lists name at most `MaxRules` headers in all
  (`Transformer.CombinedBound`), and every configuration the controller produces does
  (`PolicyCompiler.PolicyReachesPlugin`).
- The disk queue's comment says the largest sequence number is kept in reserve
  (internal/als/data/diskqueue/queue.go:96). The check lets an entry be appended under that number,
  and such an entry can be replayed but never committed (`DiskQueue.LastNumberSticks`).
  `DiskQueue.Queue.Commit` states the exact condition: a batch that was read is committed if and only
  if its last number is not the largest one, the log answers and can be cut, and the entry that
  becomes the first, if there is one, can be read.

## Rules that hold under a condition

- "A caller that retries until it is told of success makes Kafka hold the first accepted batch twice
  and every other once" holds if and only if no failed delivery left records of the batch in the log
  (`LostAck.RetryingCallerDuplicatesOne`); a caller can tell that from its reports when all other
  failures are temporary with nothing confirmed (`LostAck.CleanFailuresLeaveNothing`).
- "The recorder publishes no batch that Kafka has confirmed" holds in runs without crashes and failed
  commits (`Repeats.NothingIsRepeated`); one of either is enough to break it (`Repeats.CrashRepeats`,
  `Repeats.FailedCommitRepeats`).
- "The documentation report does not depend on the order of files" holds if and only if the written
  files of each undocumented directory belong to one package
  (`Documentation.ReportIsOrderIndependent`).

## Model

| member | source | states |
|---|---|---|
| HeaderLaws.Factorisation | plugins/transformer/main.go:255-278 | a program acts on any union of name classes that no rename enters or leaves exactly as its operations keyed there act on those headers alone |
| HeaderLaws.UntouchedHeaders | plugins/transformer/main.go:254-278 | headers whose names no operation mentions keep order, spelling and values |
| HeaderLaws.EffectOnName | plugins/transformer/main.go:256-278 | what each operation leaves, in order, of the headers with its name: nothing, one, the present ones or else one, one more at the end, or two names merged in list order; a header put in comes last of all |
| HeaderLaws.DeadOperation | plugins/transformer/main.go:255-278 | an operation that a later remove or replace overwrites can be deleted without changing the whole result, unless a rename in between moves its headers away |
| HeaderLaws.RenameSavesAppend | plugins/transformer/main.go:260-265 | the rename condition of dead-operation elimination cannot be dropped |
| HeaderLaws.Commutation | plugins/transformer/main.go:255-278 | adjacent operations on different names can be swapped before any program whose renames do not cross some set of names that separates the two: the headers inside and outside the set, and so of every name, keep their order |
| HeaderLaws.RenameTellsOrder | plugins/transformer/main.go:260-265 | a later rename that merges the two names does tell the orders apart |
| HeaderLaws.Idempotence | plugins/transformer/main.go:255-278 | a program of removes, replaces and adds run twice leaves, name by name, what it leaves run once |
| HeaderLaws.IdempotenceIsPerName | plugins/transformer/main.go:266-272 | the interleaving of different names may change on the second run |
| Transformer.AppendHeader | plugins/transformer/main.go:268 | append writes in place into spare capacity and otherwise copies, leaving the old array alone |
| Transformer.RemoveHeader | plugins/transformer/main.go:286-294 | compaction into the front of the same array yields the filtered list and leaves everything behind it as it was, so no unread entry is overwritten |
| Transformer.RenameHeader | plugins/transformer/main.go:260-265 | in-place rename changes the names of matching headers and nothing else |
| Transformer.ApplyOperations | plugins/transformer/main.go:255-278 | the interpreter, sharing one backing array, returns exactly the list the program means |
| Transformer.CompileRules | plugins/transformer/main.go:195-216 | compilation succeeds iff every rule is supported, not empty and compiles and the total is within the bound; the result is the in-order flattening; a failure names the first problem |
| Transformer.CompileIs | plugins/transformer/main.go:227-252 | which texts of a header entry each operation takes, and which of them is to blame when the entry does not compile, the name first |
| Transformer.CompiledAt | plugins/transformer/main.go:195-216 | the operation at each place of a program is the one compiled from the header at that place of the rules |
| Transformer.CompiledIsWellFormed | plugins/transformer/main.go:227-252 | a compiled program has one well-formed operation per configured header |
| Transformer.AcceptedProgram | plugins/transformer/main.go:195-278 | an accepted program adds at most MaxRules headers to any list and keeps valid headers valid |
| Transformer.PluginContext.OnPluginStart | plugins/transformer/main.go:94-120 | the plugin starts iff both rule lists are acceptable and not both are empty, and then holds both compiled programs |
| Transformer.BoundIsPerDirection | plugins/transformer/main.go:105-118 | the plugin starts on configurations with twice MaxRules operations in all |
| Transformer.CombinedBound | plugins/transformer/main.go:105-118 | the plugin's operations of both directions are within MaxRules together iff the configuration lists at most that many headers in all |
| ConfigJson.DecodesIffProper | plugins/transformer/main.go:178-193 | a document is decoded iff every key at every depth names a field, in some spelling, and every value is null or of the kind the field takes |
| ConfigJson.NullReads | plugins/transformer/main.go:40-64 | what null stands for in each place: nothing set, an empty list, a blank item |
| PolicyCompiler.CompileTransformerHeader | internal/controller/biz/compiler/header_transformation.go:177-215 | a policy rule compiles iff its word is one of the five, the operation it asks for is well-formed once normalised, and a removal carries no value |
| PolicyCompiler.CompileTransformerRules | internal/controller/biz/compiler/header_transformation.go:162-175 | succeeds iff every policy rule is acceptable so, in order, with the operation word in lower case; a failure names the first that is not |
| PolicyCompiler.CompilePolicy | internal/controller/biz/compiler/header_transformation.go:104-160 | accepts a policy iff it has between one and MaxRules rules in all and every one is acceptable, and encodes the result; the error is that of the count, or names the first bad request rule, or after good request rules the first bad response rule |
| PolicyCompiler.ConfigReadsBack | internal/controller/biz/compiler/header_transformation.go:24-41 | the plugin reads back, field by field, every configuration the controller can encode, empty fields left out |
| PolicyCompiler.WordsAgree | internal/controller/biz/compiler/header_transformation.go:170 | the supported words are five, and in lower case they are the plugin's words for the same operations |
| PolicyCompiler.PolicyReachesPlugin | internal/controller/biz/compiler/header_transformation.go:104-215 | the plugin decodes and starts on every configuration the controller produces, runs exactly the operations the policy asks for, in order, and keeps the common bound |
| Gate.RecorderState.ReserveWriteTarget | internal/als/biz/recorder_state.go:40-52 | admission picks the target and counts the write in one transition |
| Gate.RecorderState.FailKafkaWrite | internal/als/biz/recorder_state.go:66-76 | a failed write ends, raises the barrier and reserves its queue append in one transition |
| Gate.RecorderState.ResumeKafkaWrites | internal/als/biz/recorder_state.go:125-136 | direct writes resume iff nothing is in flight, queued or paused and the topic is compliant |
| RecorderProtocol.NothingAcceptedIsLost | internal/als/biz/recorder.go:60-64 | at-least-once: in every run, with crashes, each batch that Write accepted or the queue held at the start is confirmed by Kafka or in the queue |
| RecorderProtocol.StepsAreIndependent | internal/als/biz/recorder_state.go:11-12 | the runs are all interleavings: whether a call or the replayer can take its next step depends on no other call and not on the gate |
| Repeats.NothingIsRepeated | internal/als/biz/recorder.go:60-64 | exactly once short of losing memory: without crashes and failed commits no publisher call carries a batch that Kafka had confirmed |
| Repeats.RepeatsAreBounded | internal/als/biz/recorder.go:60-64 | in every run a batch is published again after its confirmation at most once for each crash, failed commit or unconfirmed replay |
| Repeats.CrashRepeats | internal/als/biz/recorder.go:146-152 | a crash between confirmation and commit has the batch published again |
| Repeats.FailedCommitRepeats | internal/als/biz/recorder.go:148-152 | so does a failed commit |
| RecorderProtocol.DirectWritesOvertakeNothing | internal/als/biz/recorder_state.go:39-52 | while direct writes are open the queue is empty, nothing is on its way into it, and all accepted batches are confirmed |
| RecorderProtocol.PublicationOrder | internal/als/biz/recorder.go:81-112 | a Kafka call carrying a batch finds every batch accepted before that batch's Write began already confirmed, or carries it ahead |
| RecorderProtocol.BarrierLifts | internal/als/biz/recorder_state.go:125-136 | in every reached state a step takes the barrier down iff it is a recovery on a compliant topic with nothing in flight, queued or paused, or a restart over an empty queue |
| RecorderProtocol.BarrierRises | internal/als/biz/recorder_state.go:40-123 | a step puts it up iff it admits a batch on a topic that is not compliant, settles a failed direct write or finds the topic not compliant before a replay |
| RecorderProtocol.HealthIsLastWord | internal/als/biz/recorder_state.go:32-116 | in every run the two health flags are the last words since the start: of Kafka, whose late success behind the barrier says nothing, and of the disk queue |
| Recovery.RecoversUnlessPaused | internal/als/biz/recorder_state.go:97-136 | in every reached state, whatever is in flight: without a restart there is a way to end all calls, empty the queue, confirm everything accepted and reopen direct writes iff the replay has met no permanent error since the process last started |
| Recovery.ReplayRecovers | internal/als/biz/recorder.go:117-159 | once calls have ended the replay loop alone does it, with any batch size |
| RecorderProtocol.NextCounted | internal/als/biz/recorder_state.go:40-76 | every step keeps the two counters equal to the calls in flight |
| SerialRuns.WriteRun | internal/als/biz/recorder.go:102-113 | an undisturbed Write is a path of the protocol with exactly this effect on gate, queue and histories |
| SerialRuns.ReplayRun | internal/als/biz/recorder.go:117-159 | so is an undisturbed replay, with every outcome |
| Kafka.Client.Publish | internal/als/data/kafka/publisher.go:27-74 | counts confirmed and failed records and reports the most serious error; the log grows by the records that arrive |
| Kafka.ReportIsExact | internal/als/data/kafka/publisher.go:55-140 | the report is permanent iff the batch cannot be encoded or some record is refused for ever, uncertain iff otherwise some fate is unknown, temporary iff otherwise some record is refused; it counts the confirmed records, and the log grows by these and those that landed unseen |
| Kafka.ReportTells | internal/als/data/kafka/publisher.go:55-80 | no error means exactly the batch was appended, a temporary error exactly as many records as were confirmed, any other at least these |
| Capacity.Policy.AdmitsIsExact | internal/als/data/diskqueue/capacity.go:35-55 | the checks against 64-bit overflow never change a verdict: growth is admitted iff afterwards the room for copying a segment is left in the budget and beside the reserve on the file system |
| Capacity.Policy.StateIsExact | internal/als/data/diskqueue/capacity.go:73-125 | the health is what unbounded arithmetic gives: blocked iff not one block fits, critical and healthy by fill level and headroom |
| Capacity.RoundedIsLeast | internal/als/data/diskqueue/capacity.go:134-146 | an allocation is the least number of whole blocks that holds the size |
| DiskQueue.MeasureEntries | internal/als/data/diskqueue/queue.go:358-386 | opening succeeds iff every entry decodes and the usage fits 64-bit counters, and finds the usage of the whole log |
| DiskQueue.Open | internal/als/data/diskqueue/queue.go:290-343 | a queue opens iff directory, lock and log can be opened, the log can be replayed completely and the storage can be measured; it then holds all of the log |
| DiskQueue.Queue.Write | internal/als/data/diskqueue/queue.go:64-134 | an append adds exactly one entry and keeps the cached usage equal to a scan and within 64 bits, or changes nothing; it succeeds iff the batch is sound, fits a segment and the policy's room, a number is left and the disk works; the error is the first thing that stands against it |
| DiskQueue.StorableExactly | internal/als/data/diskqueue/queue.go:64-134 | the conditions of an append in plain arithmetic, from the record sizes and the framing to the room for copying a segment in the budget and beside the reserve |
| DiskQueue.Queue.AdmittedFits | internal/als/data/diskqueue/queue.go:107-128 | an admitted batch cannot overflow the 64-bit counters, which the code adds to without a check |
| DiskQueue.Queue.Read | internal/als/data/diskqueue/queue.go:142-199 | the batch is the longest run of whole entries from the front within the limit, at least one; the read succeeds iff every entry it looks at can be read back |
| DiskQueue.FillsIsLongest | internal/als/data/diskqueue/queue.go:165-192 | the batch holds one entry, or the greatest number of whole entries whose records are within the limit |
| DiskQueue.MeasureCons | internal/als/data/diskqueue/queue.go:358-386 | a scan counts entries, records and their sizes and knows the time of the first entry |
| DiskQueue.FillsIsUnique | internal/als/data/diskqueue/queue.go:165-192 | the log and the limit determine the batch |
| DiskQueue.Queue.Commit | internal/als/data/diskqueue/queue.go:203-257 | exactly the entries through the batch's last number go; a batch that was read is committed, and the cached usage stays equal to a scan, iff that number is not the largest, the log answers and can be cut, and the next entry can be read |
| DiskQueue.GenuineSurvivesAppend | internal/als/data/diskqueue/queue.go:201-203 | appends between read and commit do not invalidate the batch |
| DiskQueue.LastNumberSticks | internal/als/data/diskqueue/queue.go:96-99 | an entry that the disk takes is written under the largest number and read but never committed |
| Recorder.Recorder.Write | internal/als/biz/recorder.go:102-113 | a batch is accepted iff Kafka was asked and said yes or the queue took it; queue, Kafka's log and gate afterwards follow, the counters balance, and the call is a path of the protocol |
| Recorder.UnavailableMeans | internal/als/biz/recorder_state.go:80-89 | an append speaks against the storage iff a sound batch meets a log, a number, a probe or, given room, a write that fails; a refusal of the batch or for lack of room does not |
| Recorder.Recorder.ReplayBatch | internal/als/biz/recorder.go:117-159 | idle iff the topic is not compliant or the queue is empty; a front batch that can be read is given to Kafka, and committed, retried or paused by Kafka's report and the disk's answers; the queue loses it iff it was committed, and Kafka's log grows by what arrived; otherwise nothing changes; the gate is paused afterwards iff it was before or the call says so; the call is a path of the protocol |
| Recorder.Recorder.AcceptedIsKept | internal/als/biz/recorder.go:60-64 | at-least-once for the objects: after any calls each record of every accepted batch is in Kafka's log, or the batch makes an entry of the queue |
| LostAck.LostAckPublisher.Publish | hack/als-e2e/kafka.go:37-52 | the first accepted delivery is reported as an uncertain failure of all records and clears the flag; other results pass through |
| LostAck.ThroughIsReported | hack/als-e2e/kafka.go:37-52 | for its caller the publisher is a client whose first complete delivery is one of unknown fate |
| LostAck.PublishAll | hack/als-e2e/kafka.go:37-52 | a run of calls on the real publisher reports, flags and appends what the folded transitions say |
| LostAck.OnlyFirstSuccessIsHidden | hack/als-e2e/kafka.go:37-52 | over every run, with the flag threaded through the calls, exactly the first accepted call is misreported |
| LostAck.LogAccounted | hack/als-e2e/kafka.go:37-52 | the records a run adds to Kafka's log are those of the reported successes, those of the one hidden success and what failed calls left behind |
| LostAck.CopiesInLog | hack/als-e2e/kafka.go:37-52 | how often a record of one batch stands in Kafka's log, from what its caller was told |
| LostAck.RetryingCallerDuplicatesOne | hack/als-e2e/kafka.go:134-148 | a caller that retries until one success leaves the first accepted batch twice and any other once in Kafka's log iff no failed call left copies behind |
| LostAck.CleanFailuresLeaveNothing | internal/als/biz/publisher.go:13-19 | nothing was left behind if all other failures were reported as temporary with nothing confirmed |
| LostAck.LeftoversDuplicateToo | internal/als/data/kafka/publisher.go:126-140 | behind any hidden success, a delivery of unknown fate that is repeated puts another batch into the log twice for one reported success |
| Drill.ConsumeUntil | hack/als-e2e/kafka.go:154-184 | succeeds iff the polls see enough matches of the log, using no more of them than needed |
| Drill.VerifyDuplicate | hack/als-e2e/kafka.go:101-150 | the drill succeeds iff its queue opens empty, the record is stored, both deliveries are accepted, the replay commits and the consumer sees two records with the identifier; with a new identifier it must have seen the very end of the log, which holds the record twice more |
| WalCopy.GuardIsExact | hack/als-e2e/server.go:75-92 | the wrapping check accepts iff 3 <= last-first+1 < 2^64, and then the middle is strictly inside |
| WalCopy.CopyCorruptQueue | hack/als-e2e/server.go:92-116 | with a wrapping 64-bit counter the copy terminates for all indices; it succeeds iff every entry is readable, the middle one not empty, the destination empty, every write accepted and the last flush done, and writes contiguous indices from 1 |
| WalCopy.CopyIsDamaged | hack/als-e2e/server.go:92-114 | a complete copy differs from the source in exactly one byte of one entry, neither the first nor the last |
| WalCopy.CopyTwiceRestores | hack/als-e2e/server.go:92-116 | a complete copy of a complete copy holds the source's entries, and the first copy does not |
| WalCopy.CopyIsCopyable | hack/als-e2e/server.go:75-92 | the copy itself passes the check and every entry of it can be copied |
| WalCopy.CopyTwice | hack/als-e2e/server.go:75-116 | run on its own output the copier succeeds iff the disk lets it, and restores the source's entries |
| Journey.Store.Replace | internal/adminapi/biz/routing/service/usecase.go:94-114 | a missing or stale resource leaves the store as it was; a replacement advances just that resource's version, makes the version it started from stale, and keeps every reference resolvable |
| Journey.Store.Delete | internal/adminapi/biz/routing/service/usecase.go:117-131 | a missing, stale or referenced resource leaves the store as it was; any other goes alone, and no reference is ever left without its resource |
| Journey.VersionsAreTracked | hack/adminapi-e2e/journey.go:119-154 | after any calls stack paths are distinct, and a recorded version is current iff the last change was confirmed to the client |
| Journey.CleanupLeaves | hack/adminapi-e2e/journey.go:248-257 | under any failures cleanup leaves what was there before and exactly the resources it cannot remove and all they reach by reference |
| Journey.CleanupRestores | hack/adminapi-e2e/journey.go:248-257 | with all responses confirmed and no failure the store is what it was before the journey |
| Journey.Client.Create | hack/adminapi-e2e/journey.go:169-191 | a confirmed creation is pushed with its version even if its state is then refused, an unconfirmed one is not |
| Journey.Client.Update | hack/adminapi-e2e/journey.go:119-129 | the recorded version follows a confirmed update that shows a newer version |
| Journey.Client.UpdateCleanupVersion | hack/adminapi-e2e/journey.go:239-246 | the first entry for the path is overwritten and no other |
| Journey.Client.Cleanup | hack/adminapi-e2e/journey.go:248-257 | deletes newest first and goes on after failures |
| Pagination.FindListed | hack/adminapi-e2e/journey.go:207-236 | the search ends, finds the identifier iff some page lists it, and requests no page twice |
| Pagination.ListingIsAcyclic | hack/adminapi-e2e/journey.go:226-234 | a listing that ends serves no page twice |
| Pagination.ListingIsUnique | hack/adminapi-e2e/journey.go:207-236 | following the cursors determines the pages searched |
| Declarations.ConstantOwner | hack/verify-go-declarations/main.go:363-395 | the scan yields the block's owner, or none |
| Declarations.OwnerIs | hack/verify-go-declarations/main.go:363-407 | a block belongs to a type iff it starts with no repetition and every specification repeats, declares the type or converts every value to it |
| Declarations.OwnerIsUnique | hack/verify-go-declarations/main.go:363-407 | a name is the owner iff the block is not empty and every specification, repetitions written out, declares it or converts every value to it |
| Layout.CollectTypeDeclarations | hack/verify-go-declarations/main.go:141-158 | the tables hold exactly the declared types, with their last declaration, and the structs |
| Layout.CollectConstructors | hack/verify-go-declarations/main.go:160-176 | the table holds exactly the types with a constructor, with the last one |
| Layout.ConstructorOwnerIs | hack/verify-go-declarations/main.go:321-361 | a function constructs the first declared result type it is named for, bare or behind pointers, type arguments and parentheses, and none iff it is a method or named for none |
| Layout.ReportOutOfOrder | hack/verify-go-declarations/main.go:115-137 | the scan reports exactly the declarations behind one of a greater category; the others are in nondecreasing order |
| Layout.TablesKnow | hack/verify-go-declarations/main.go:141-158 | the tables know a type by its last declaration, and a struct by any declaration of the name as one |
| Layout.NoneLateIsSegmented | hack/verify-go-declarations/main.go:289-319 | no declaration stands behind one of a later segment iff the file is plain constants, variables, types with what belongs to them, exported functions and private functions, imports standing anywhere |
| Layout.InOrderIsSegmented | hack/verify-go-declarations/main.go:289-319 | nothing is reported iff the file splits into const, var, type, exported and private function segments |
| Layout.VerifyConstants | hack/verify-go-declarations/main.go:187-206 | reports exactly the constant blocks that do not follow their type |
| Layout.VerifyTypes | hack/verify-go-declarations/main.go:208-250 | reports exactly the late structs and the constructors that do not follow their type |
| Layout.VerifyFile | hack/verify-go-declarations/main.go:104-138 | the violations of a file are exactly the places where one of the rules on order and attachment is broken, each once |
| Layout.AcceptedExactly | hack/verify-go-declarations/main.go:104-138 | the checker accepts a file iff it has the five segments, everything attached to a type stands right behind it and plain structs come before structs with constructors |
| Layout.AttachedFollows | hack/verify-go-declarations/main.go:192-206 | in an accepted file attached constants and recorded constructors stand right behind their type |
| Layout.LastConstructorFollows | hack/verify-go-declarations/main.go:160-250 | in an accepted file a constructor stands right behind its type iff no later function constructs that type |
| Layout.EarlierConstructorIsFree | hack/verify-go-declarations/main.go:160-250 | an accepted file with a constructor before its type |
| Layout.AttachmentIsExclusive | hack/verify-go-declarations/main.go:186-250 | in an accepted file a type declaration, grouped or not, has at most one attached declaration, attached to one type |
| Layout.PlainStructsComeFirst | hack/verify-go-declarations/main.go:208-236 | in an accepted file structs without constructors precede structs with one |
| Layout.AcceptedIsSegmented | hack/verify-go-declarations/main.go:104-138 | an accepted file is plain constants, variables, types with what belongs to them, exported functions, private functions, and everything attached to a type is in the third segment |
| Documentation.ProseIs | hack/verify-go-docs/main.go:258-264 | the prose is the lines whose trimmed text starts with no plus sign, each once and in order |
| Documentation.FilterLines | hack/verify-go-docs/main.go:257-264 | filtering within the line array keeps exactly the lines that are no directives, in order |
| Documentation.DocumentationText | hack/verify-go-docs/main.go:256-266 | the text is the trimmed join of exactly the lines that are no directives |
| Documentation.PlainText | hack/verify-go-docs/main.go:256-266 | a text without directives is left as it is, save for trimming |
| Documentation.SplitIsInverse | hack/verify-go-docs/main.go:257-265 | the lines of a text are the only ones without line ends in them that join to it |
| Documentation.OneMoreFile | hack/verify-go-docs/main.go:62-88 | what one more file changes: nothing if it is generated; a documented one takes its directory out of the report for good, another puts it in if it is its first |
| Documentation.LeqIs | hack/verify-go-docs/main.go:92-106 | the order of the report: the first different character decides, and a prefix comes first |
| Documentation.UndocumentedPackages | hack/verify-go-docs/main.go:54-110 | reports exactly the directories with written files and no package comment, each once, ascending, under the package of the first file visited |
| Documentation.ReportIsOrderIndependent | hack/verify-go-docs/main.go:79-106 | the whole report is the same for every visiting order iff the written files of each undocumented directory belong to one package |
| Documentation.DirectoriesAreOrderIndependent | hack/verify-go-docs/main.go:79-106 | which directories are reported does not depend on the order |
| MockResponse.DecodeConfig | plugins/mock-response/main.go:130-157 | accepts iff the bounds hold and every header is valid and unrepeated once normalised, and then every header is in normal form; the error is that of the first check that fails, at the first bad header |
| MockResponse.FailsMeans | plugins/mock-response/main.go:130-157 | what each error says of the configuration, and that everything before the header it names is right |
| MockResponse.DecodedIsStable | plugins/mock-response/main.go:140-157 | a decoded configuration decodes again to itself |

## Left out

- Kafka.Client.Publish: one log stands for the topic; how records spread over partitions by their keys is not modelled, and no result depends on it but the drill's, whose batch is one record.
- Recorder.Recorder.Write: one call at a time; concurrent calls are the subject of RecorderProtocol.
- RecorderProtocol.PublicationOrder: order of the recorder's publisher calls; what Kafka partitions, other instances and consumers do with them is outside.
- Recovery.RecoversUnlessPaused: existence of the recovery under successful answers; timers, back-off and cancellation of the replay loop are not modelled.
- DiskQueue.Queue.Write: a cancelled context refuses the call before anything else; the recorder never passes one.
- WalCopy.CopyCorruptQueue: the flags and the opening of the two logs.
- Journey.CleanupLeaves: the journey is the store's only client, and a failing deletion is one that has no effect on the store.
- Pagination.FindListed: listings whose cursors never end are excluded; the code does not end on them either.
- Transformer.ApplyOperations: slices start at the beginning of their array, and a larger array's size is arbitrary.
- ConfigJson.DecodesIffProper: documents are trees. JSON text, and what Go does with a list whose key is given twice, are outside.
- Unicode case folding, trimming and the grammar of header names and values: parameters.
- HTTP, gRPC, Kafka, Proxy-Wasm host calls, the log's file format, checksums, file walking and Go parsing: replaced by their decoded results.
- Layout.VerifyFile: files marked as generated, which the checker skips.
- The check that a provider set sits in the file named after its package, comment wording checks and violation texts: each is a test of one name or text by itself.
- Token quotas, rate limits, route and listener compilation, configuration delivery to Envoy, analytics, the assistant and the console: other subsystems.
- Certificates, ports, prefixes and observability probes of the end-to-end programs: input and output only.
