# Freja: a verified model of the inspection proxy

Freja is a proxy that inspects what it forwards, decides by policy whether it may be forwarded,
records every decision in a tamper-evident log, and shows traffic to an operator who may edit it.
This project models the logic of those parts in Dafny and proves what they promise, for every
input, every chunking, every interleaving and every run.

## What is modelled

- **Inspected relay.** `Inspection` is the fixed-pattern scanner with its bounded carry,
  `FlowInspection` the per-flow budgets, capture and verdict, `Relay` the two-direction relay as a
  step function over environment events together with the loop that runs it. `RelayProperties` and
  `RelaySafety` hold the theorems over whole runs. `AuditQueue` is the queue their records go
  through, under the fail-closed and the fail-open policy.
- **Live observation.** `BodyStream` is the lossy body-prefix stream and its consumer;
  `TrafficModel`, `TrafficProperties` and `TuiReducer` are the bounded reducer that holds the rows,
  and `TrafficBodies` says what those rows show of the bodies that were sent.
- **Policy and destinations.** `Hosts`, `Acl` and `AclProperties` are hostnames, the rule compiler
  and the three-valued evaluator; `Destination` is authorization on a pinned snapshot while
  reloads happen, `HttpPolicy` the evaluation of HTTP requests and responses.
- **Audit.** `AuditLog` is the hash-chained sink and the draining worker with signed checkpoints,
  `AuditReplay` what offline replay accepts and what that is worth, `AuditLines` and `AuditFile` the
  segment as lines and bytes, `ReplayScan` the replay loop. `ReplayAgreement`, `RelayReplay`,
  `ReplayDecisions` and `HttpReplay` prove that replay reports and decides what the live proxy did.
- **HTTP edits.** `HeaderEdits` is the header diff, its application and the operator's submission;
  `HttpFraming` the framing validator and hop-by-hop removal.
- **Leaf cache.** `LeafCache` is the cache of generated TLS configurations under concurrent callers.

Three conventions recur. The environment is a parameter: what the network does next is a sequence
of events, what an audit queue or writer will accept is part of its state, hashing, signing and JSON
are functions, hash-map iteration order is a function. Code that updates state in place is a class
whose methods are proved against a function on values, and the theorems are about that function.
Machine counters saturate at 64 bits exactly where the code's do.

`dafny verify dfyconfig.toml` checks the whole project.

## Findings about the code

- `LeafCache.InsertCoherentIff` gives the exact condition under which inserting keeps the cache
  coherent. The condition is unstated at `insert` and false for a cached key
  (`LeafCache.InsertTwiceBreaks`); the second lookup under the same lock establishes it
  (`LeafCache.StepRefines`).
- A row of the terminal does not always show a prefix of the request it stands for: an accepted edit
  replaces the shown body (`TrafficBodies.EditBreaksPrefix`), and an interception shows the body as the
  automatic hooks left it. Either keeps the property if and only if the body it puts in the row is
  itself a prefix (`TrafficBodies.EditKeepsPrefixIff`, `TrafficBodies.InterceptKeepsPrefixIff`). In
  every run, the rows that do not keep it are exactly those last given a body that is none
  (`TrafficBodies.RunShowsPrefixes`), and without such bodies there are no exceptions
  (`TrafficBodies.NothingReplaced`).
- Replay does not always decide a recorded HTTP request as the live proxy did: redaction may rewrite its
  target, and a rule on the path sees the difference (`HttpPolicy.PathPolicySees`). It does so under
  every policy if and only if redaction left the target as it was (`HttpReplay.RequestReplaysIff`).
  Secret headers never make a difference, because policy sees them masked in the first place.
- The detour-loop error of the resolved stage cannot occur after a successful requested stage
  (`Destination.NoDetourLoop`): the compile-time restrictions on detour rules make it dead code.

## Model

| member | source | states |
|---|---|---|
| `Inspection.NewPattern` | crates/freja-policy/src/inspection.rs:86-115 | a detector is accepted exactly when it has bytes, directions and no detour; otherwise the error is for the first of these it lacks, and names it |
| `Inspection.Compile` | crates/freja-policy/src/inspection.rs:176-195 | compiles exactly pattern lists with distinct detectors, and rejects at the first repetition |
| `Inspection.FindPatternExact` | crates/freja-policy/src/inspection.rs:223-260 | with distinct detectors, policy consults the very pattern that fired |
| `Inspection.StreamScanner.Inspect` | crates/freja-policy/src/inspection.rs:274-307 | each call reports exactly the matches ending in its chunk, at absolute offsets, while the retained carry is the last (longest pattern − 1) bytes of the whole stream |
| `Inspection.WindowFindings` | crates/freja-policy/src/inspection.rs:280-306 | scanning only carry and chunk finds everything a scan of the whole stream would find ending in the chunk |
| `Inspection.FindingsExact` | crates/freja-policy/src/inspection.rs:287-337 | a finding is reported if and only if an applicable pattern occurs where it says and ends after the carry |
| `Inspection.ChunkingIrrelevant` | crates/freja-policy/src/inspection.rs:274-307 | however a stream is cut into chunks, the findings together are those of one scan of the whole stream |
| `Inspection.ReportedInLastByteChunk` | crates/freja-policy/src/inspection.rs:287-303 | each match is reported in the chunk holding its last byte and in no other |
| `Inspection.FindingsDistinct` | crates/freja-policy/src/inspection.rs:287-337 | no match is reported twice |
| `FlowInspection.FlowInspector.PermitChunk` | crates/freja-proxy/src/inspection.rs:87-163 | verdict, budgets, delivered records and observer events of one chunk, whether publishing fails on the way (fail-closed) or drops records (fail-open) |
| `FlowInspection.FlowInspector.PublishUiPrefix` | crates/freja-proxy/src/inspection.rs:165-194 | the observer gets the retained prefix of the chunk, and one truncation report |
| `FlowInspection.FlowInspector.Capture` | crates/freja-proxy/src/inspection.rs:196-215 | the captured slice is what is left of the capture budget |
| `FlowInspection.PublishFindings` | crates/freja-proxy/src/inspection.rs:120-162 | findings are published in order up to the first that blocks, or until a fail-closed publication fails |
| `FlowInspection.DropsChangeNothing` | crates/freja-proxy/src/runtime/publication.rs:14-24 | under fail-open, whichever records are dropped, verdict, counters and observer events are those of a queue that drops none, and the records delivered are a subsequence of its records, in order |
| `AuditQueue.DeliveredInOrder` | crates/freja-audit/src/publisher.rs:98-113 | under either failure policy the consumer gets a subsequence of the published records, in the order of publication |
| `FlowInspection.PermittedIffClean` | crates/freja-proxy/src/inspection.rs:87-163 | under enforcement a chunk is permitted if and only if scanning it leaves the scanned stream free of denied patterns, wherever they straddle chunks |
| `Relay.ForwardChunk` | crates/freja-proxy/src/tcp/relay.rs:352-411 | inspection, hook and controlled write of one chunk, as the step function says |
| `RelayProperties.WriteShape` | crates/freja-proxy/src/tcp/relay.rs:413-434 | a write that completes puts all of its bytes on the wire and counts them; one that is interrupted puts a prefix there and stops the run; nothing else of the direction changes |
| `Relay.RelayFlow` | crates/freja-proxy/src/tcp/relay.rs:136-340 | the relay loop computes exactly the run of the step function on whatever events occur |
| `RelayProperties.RunShape` | crates/freja-proxy/src/tcp/relay.rs:74-340 | in every run a pending preflight buffer is below its limit with a deadline exactly while non-empty, nothing follows a closed write half, counters are the bytes written |
| `RelayProperties.ReadNeverEmpty` | crates/freja-proxy/src/tcp/relay.rs:86-91 | the next read always has room, so a zero count means end of stream |
| `RelayProperties.RunConserves` | crates/freja-proxy/src/tcp/relay.rs:159-340 | per direction, bytes written followed by bytes held are the bytes read; a stopped run wrote a prefix of what it read |
| `RelayProperties.ClosedByEof` | crates/freja-proxy/src/tcp/relay.rs:190-300 | a direction closes only because its source ended |
| `RelayProperties.CompletedRun` | crates/freja-proxy/src/tcp/relay.rs:159-340 | completion means both sources ended, everything read was written, each write half was shut exactly once and last, and counters agree |
| `RelaySafety.DeniedNeverForwarded` | crates/freja-proxy/src/tcp/relay.rs:136-411 | streaming and enforced: no denied pattern ever occurs in the first maximum-inspected bytes written in a direction, in any run |
| `RelaySafety.PreflightInspectsFirst` | crates/freja-proxy/src/tcp/relay.rs:93-124 | preflight and enforced: in every run that wrote anything, a clean, non-empty buffer within the limit had been scanned, and the first write is exactly that buffer, or a part of it where the run stopped during this write |
| `RelaySafety.BlockedOnlyWhenDenied` | crates/freja-proxy/src/inspection.rs:108-162 | a run ends as blocked only if a source really sent a denied pattern within the budget |
| `BodyStream.ProducerPublishesOwed` | crates/freja-proxy/src/inspection.rs:165-194 | each chunk publishes exactly the owed prefix event, whatever the verdict and the audit queue |
| `BodyStream.RunPublishesOwed` | crates/freja-proxy/src/inspection.rs:165-194 | the events of a whole run are exactly those owed for its chunks |
| `BodyStream.LossyPrefix` | crates/freja-ui/src/tui/model.rs:173-182 | any events of a stream, dropped, repeated or reordered, rebuild a prefix of it |
| `BodyStream.LosslessReconstruction` | crates/freja-ui/src/tui/model.rs:173-182 | without loss the body is the first min(limit, total) bytes, not incomplete, truncated exactly when the total exceeds the limit |
| `BodyStream.EventsAreContiguous` | crates/freja-proxy/src/inspection.rs:165-194 | published events are gapless and retain exactly min(limit, total) bytes |
| `BodyStream.GapsAreFlagged` | crates/freja-ui/src/tui/model.rs:173-182 | with in-order loss a gap is flagged exactly when something arrived after it, and the body is whole exactly when nothing non-empty was lost |
| `Hosts.SuffixIsLabelSuffix` | crates/freja-policy/src/acl/model.rs:96-110 | for valid hostnames the textual suffix test holds exactly when the label list is a suffix of the candidate's label list |
| `Hosts.NewHostName` | crates/freja-domain/src/endpoint.rs:93-127 | accepts exactly the valid names and returns the normalized form; otherwise reports an empty name, an overlong name, or the first label defect, in this order |
| `Hosts.TrailingDotInvalid` | crates/freja-domain/src/endpoint.rs:95-108 | a normalized name still ending in a dot is invalid, so only one root dot is forgiven |
| `Hosts.ValidationIdempotent` | crates/freja-domain/src/endpoint.rs:93-127 | validating an accepted name again changes nothing |
| `Acl.EvaluateExpression` | crates/freja-policy/src/acl/policy.rs:180-235 | the recursive evaluator with early exits computes the compositional meaning, reasons included |
| `Acl.EvaluateAll` | crates/freja-policy/src/acl/policy.rs:237-252 | stops at the first non-match, keeps unavailability, collects reasons in order |
| `Acl.EvaluateAny` | crates/freja-policy/src/acl/policy.rs:254-268 | stops at the first match, keeps unavailability |
| `Acl.EmptyOperatorExact` | crates/freja-policy/src/acl/policy.rs:155-178 | an empty operator is reported exactly when the expression is not well formed |
| `Acl.NewPolicy` | crates/freja-policy/src/acl/policy.rs:28-57 | compiles exactly policies with distinct ids, well-formed expressions, admissible detours and a default that is no detour; otherwise the first defective rule, and the default only when no rule is defective |
| `Acl.Evaluate` | crates/freja-policy/src/acl/policy.rs:71-110 | first match wins, with one outcome per rule tried up to and including it |
| `AclProperties.EvalIsKleene` | crates/freja-policy/src/acl/policy.rs:180-268 | the evaluator is strong Kleene logic |
| `AclProperties.DefiniteStays` | crates/freja-policy/src/acl/policy.rs:180-268 | a definite verdict never changes when later-stage facts arrive |
| `AclProperties.SelectionStays` | crates/freja-policy/src/acl/policy.rs:71-110 | a rule selected with no undecided rule before it stays selected, with the same action, at every later stage |
| `AclProperties.DefaultStays` | crates/freja-policy/src/acl/policy.rs:71-110 | the default, once every rule definitely fails, stays the decision |
| `AclProperties.MatchHasReason` | crates/freja-policy/src/acl/policy.rs:155-268 | every match of a well-formed expression carries at least one reason |
| `AclProperties.DecisionHasReason` | crates/freja-policy/src/acl/policy.rs:71-110 | every decision of a compiled policy carries at least one reason |
| `AclProperties.RequestedStageDecides` | crates/freja-policy/src/acl/policy.rs:119-134 | a requested-stage expression is decided by the requested facts alone, the same at every stage |
| `AclProperties.TcpIsRequired` | crates/freja-policy/src/acl/policy.rs:136-153 | an expression passing the TCP check only ever matches TCP flows |
| `AclProperties.DetourIsTcp` | crates/freja-policy/src/acl/policy.rs:41-51 | a selected detour rule always governs a TCP flow and its action is that detour |
| `AclProperties.DetourKnownWhenRequested` | crates/freja-policy/src/acl/policy.rs:41-51 | a detour decided at any stage was already decided, by the same rule, on the requested facts |
| `Destination.DataPlaneServices.AuthorizeRequestedTarget` | crates/freja-proxy/src/destination.rs:48-114 | carries out the requested-stage plan of the pinned snapshot whatever is reloaded meanwhile; fail-closed it ends where publishing fails, fail-open it ends as planned with some records dropped |
| `Destination.DataPlaneServices.AuthorizeResolvedTargets` | crates/freja-proxy/src/destination.rs:116-171 | carries out the resolved-stage plan likewise |
| `Destination.DataPlaneServices.AuthorizeAndResolve` | crates/freja-proxy/src/destination.rs:13-46 | result and delivered records are those of one plan on the snapshot current on entry, under any reloads and either audit policy |
| `Destination.SelectedIsPermitted` | crates/freja-proxy/src/destination.rs:57-113 | the selected target is permitted by the snapshot; a detour keeps source and protocol |
| `Destination.AtMostTwoRounds` | crates/freja-proxy/src/destination.rs:57-113 | policy is asked once, and a second time exactly after an enforced detour |
| `Destination.NoLateDetour` | crates/freja-proxy/src/destination.rs:158-163 | once the requested stage permits, no resolved address can ask for a detour |
| `Destination.NoDetourLoop` | crates/freja-proxy/src/destination.rs:116-171 | the resolved stage's detour-loop error is unreachable |
| `Destination.ResolvedVerdict` | crates/freja-proxy/src/destination.rs:116-171 | the verdict on the addresses is the first denial in address order, guard before policy |
| `Destination.AuthorizationVerdict` | crates/freja-proxy/src/destination.rs:116-171 | enforced: succeeds if and only if every address passes guard and policy |
| `Destination.WholeVerdict` | crates/freja-proxy/src/destination.rs:13-46 | enforced: the whole authorization succeeds if and only if the target is permitted, resolves, and all its addresses are allowed by one snapshot; refusals name the earliest denial |
| `Destination.ConnectAny` | crates/freja-proxy/src/destination.rs:173-203 | connects to the first address that accepts, stops on shutdown, and otherwise reports the last failure |
| `AuditLog.BigEndianRoundTrip` | crates/freja-audit/src/checkpoint.rs:203-208 | big-endian encoding loses nothing within its width |
| `AuditLog.CheckpointMessageInjective` | crates/freja-audit/src/checkpoint.rs:203-208 | a signed message determines the covered sequence and hash |
| `AuditLog.JsonlAuditSink.WriteEvent` | crates/freja-audit/src/sink.rs:77-119 | appends exactly the next chained record or appends nothing; only a failed write poisons; the sequence ends at the largest 64-bit number |
| `AuditLog.JsonlAuditSink.Flush` | crates/freja-audit/src/sink.rs:126-131 | a failed flush is reported and does not poison |
| `AuditLog.JsonlAuditSink.DrainEnvelope` | crates/freja-audit/src/sink.rs:169-185 | one envelope's record, then a checkpoint over that record when its count is a multiple of the interval |
| `AuditLog.DrainJsonl` | crates/freja-audit/src/sink.rs:161-187 | the output is exactly the prefix of the owed segment that the writer accepted, with the right error, and nothing after a failure |
| `AuditReplay.DrainedIsAccepted` | crates/freja/src/replay.rs:40-81 | replay accepts every drained segment; with a required key, if and only if an interval was completed |
| `AuditReplay.FailedDrainIsIntact` | crates/freja-audit/src/sink.rs:112-115 | the complete records a failing writer leaves behind verify one by one |
| `AuditFile.FileReadsBack` | crates/freja/src/replay.rs:40-43 | a file of records the codec can decode reads and parses back to exactly those records if and only if no line exceeds the limit |
| `AuditFile.DrainedFileIsAccepted` | crates/freja/src/replay.rs:40-76 | the bytes of a complete drain read back to the drained segment exactly when no line is too long, and replay then accepts it, with a required key if and only if an interval was completed |
| `AuditFile.CutFile` | crates/freja/src/replay.rs:40-43 | a file cut inside a line parses to every complete record and reports that line; a line lacking only its line feed still counts; asked of the codec and the limit only for the records in the file |
| `AuditFile.FailedDrainReplays` | crates/freja-audit/src/sink.rs:110-115 | after a failed write, whatever part of the line got out, replay finds every earlier record intact and at most the very record being written, and reports a bad line exactly when the cut is inside it |
| `AuditFile.CodecExists` | crates/freja-audit/src/sink.rs:110-111 | every list of records has a codec and a line limit that meet the hypotheses of the four results above |
| `AuditReplay.DrainedLength` | crates/freja-audit/src/sink.rs:161-187 | n ordinary events at interval k make n + n/k records |
| `AuditReplay.OrdinaryPosition` | crates/freja-audit/src/sink.rs:161-187 | the j-th event is recorded, redacted and in order, at position j + j/k |
| `AuditReplay.CheckpointPosition` | crates/freja-audit/src/sink.rs:172-184 | a checkpoint directly follows the event it is due after and covers that record's sequence and hash |
| `AuditReplay.CheckpointsCloseIntervals` | crates/freja-audit/src/sink.rs:161-187 | a record is a checkpoint exactly when its position closes an interval |
| `AuditReplay.LastHashCommits` | crates/freja/src/replay.rs:46-70 | two accepted segments of any lengths ending in the same hash are equal record for record, or the digest collides on records they hold |
| `AuditReplay.CheckpointFixesHistory` | crates/freja/src/replay.rs:54-67 | accepted checkpoints over the same signed message fix the whole history before them, or the digest collides |
| `ReplayScan.StreamScanners.Scan` | crates/freja/src/replay.rs:179-189 | captured bytes reach the scanner of their own stream and change no other |
| `ReplayScan.ReplayAudit` | crates/freja/src/replay.rs:17-82 | succeeds exactly on accepted segments, otherwise names the first faulty line and its fault; emits a decision for every evaluation of recorded facts and every finding in captured bytes, in record order |
| `ReplayAgreement.LiveCovers` | crates/freja-proxy/src/inspection.rs:94-215 | live scanning and capture each cover a prefix of the stream and stop only when their budget is spent |
| `ReplayAgreement.CapturesFit` | crates/freja-proxy/src/inspection.rs:196-215 | no captured piece exceeds the capture limit |
| `ReplayAgreement.ReplayScansOwnChunks` | crates/freja/src/replay.rs:155-195 | flows interleaved in the segment do not change what replay reports for a stream |
| `ReplayAgreement.DrainKeepsChunks` | crates/freja-audit/src/sink.rs:161-187 | redaction, hashing and checkpoints leave every captured byte of every stream in the segment |
| `ReplayAgreement.ReplayAgreesWithLive` | crates/freja/src/replay.rs:155-195 | through drain and replay, a stream's replayed findings are exactly the live findings ending inside the captured prefix; when capture outran the scan, the live ones and those completed beyond it |
| `ReplayAgreement.OutputForStream` | crates/freja/src/replay.rs:155-195 | what the loop emits for a stream is exactly the policy's decisions on the findings replayed for it |
| `ReplayAgreement.EmissionsAgreeWithLive` | crates/freja/src/replay.rs:155-195 | the decisions emitted for a stream from a drained segment are the live ones, except for findings only the longer of scan and capture completes |
| `RelayReplay.RunAccounted` | crates/freja-proxy/src/inspection.rs:94-162 | in every run that published all its records, a direction's capture records are those of the chunks it inspected, and so are its finding records unless inspection blocked |
| `RelayReplay.ReplayReportsRun` | crates/freja/src/replay.rs:155-195 | streaming and never blocked: replaying the segment that holds a run's captures reports exactly the findings the run published that end inside the captured prefix |
| `RelayReplay.EmissionsReportRun` | crates/freja/src/replay.rs:155-195 | for such a run, the decisions on the findings it published are those the replay loop emits for the stream, and those on findings ending beyond the captured prefix |
| `ReplayDecisions.DrainedFacts` | crates/freja/src/replay.rs:216-250 | replaying any drained segment emits, flow by flow, the decisions on the facts the flow recorded, as redaction left them |
| `ReplayDecisions.AuthorizationRederives` | crates/freja/src/replay.rs:216-250 | with the live configuration, replaying the facts an authorization recorded makes exactly the decisions it recorded, in order |
| `ReplayDecisions.ReplayedAuthorization` | crates/freja/src/replay.rs:216-250 | the same through the log, among whatever else the flow and all other flows record: replay emits the authorization's decisions in their place |
| `ReplayDecisions.RunRederives` | crates/freja-proxy/src/inspection.rs:120-162 | replaying the finding facts a relay run published makes exactly the inspection decisions it published, in order |
| `ReplayDecisions.ReplayedSession` | crates/freja/src/replay.rs:216-250 | for an authorization followed by an inspected relay run, replay of the segment emits exactly the decisions the session made, in order, also when the last blocked the run |
| `HttpPolicy.PolicyHeaders` | crates/freja-proxy/src/http/headers.rs:92-113 | the header facts hold exactly the names on the wire, in lower case, each with all its values in order, secret ones masked |
| `HttpPolicy.CollectedIsMasked` | crates/freja-proxy/src/http/headers.rs:92-113 | no header facts the proxy collects hold the value of a secret header |
| `HttpPolicy.EvaluateRequest` | crates/freja-proxy/src/http/service/forward.rs:280-328 | facts and decision are recorded for every address, then the first denial, which decides; a refused record ends the evaluation |
| `HttpPolicy.EvaluateResponse` | crates/freja-proxy/src/http/service/forward.rs:430-471 | facts, decision and, when denied, the action are recorded; a refused record ends the evaluation |
| `HttpPolicy.AllowedEverywhere` | crates/freja-proxy/src/http/service/forward.rs:292-328 | under enforcement a request passes if and only if policy allows it at every address |
| `HttpPolicy.RedactionUnseenIff` | crates/freja-audit/src/redaction.rs:80-98 | every compiled policy decides redacted facts as the live ones if and only if redaction left the request target alone |
| `HttpPolicy.PathPolicySees` | crates/freja-audit/src/redaction.rs:80-88 | a rewritten target is decided differently by a policy with one rule on the path |
| `HttpReplay.RequestReplaysIff` | crates/freja/src/replay.rs:216-250 | whatever the policy, replay makes again the decisions on a request if and only if redaction left its target alone or it had no address |
| `HttpReplay.ReplayedExchange` | crates/freja/src/replay.rs:216-250 | through the log, replay emits exactly the decisions of an exchange in order: authorization, request at every address, response |
| `AuditLines.ReadBoundedLine` | crates/freja/src/replay.rs:111-138 | the bounded read returns the next line if and only if its text fits the limit |
| `AuditLines.WrittenReadsBack` | crates/freja/src/replay.rs:111-138 | written lines read back one for one exactly when none exceeds the limit |
| `Decimals.DecimalRoundTrip` | crates/freja-policy/src/hook/mutation.rs:69-71 | the decimal text of a length parses back to it |
| `HeaderEdits.HeaderTable.ApplyHeadMutation` | crates/freja-policy/src/hook/mutation.rs:116-157 | applies a plan up to the first protected name, which it reports |
| `HeaderEdits.HeaderTable.NormalizeReplacedBodyHeaders` | crates/freja-policy/src/hook/mutation.rs:76-82 | exactly the representation headers of the old body are removed |
| `HeaderEdits.HeaderTable.ApplyHttpMutation` | crates/freja-policy/src/hook/mutation.rs:54-73 | head plan, bounded body plan and framing, including the state left by each error |
| `HeaderEdits.HeaderDiff` | crates/freja-ui/src/tui/editor.rs:428-452 | the diff covers each name of either map once, in the order met |
| `HeaderEdits.DiffRoundTrip` | crates/freja-ui/src/tui/editor.rs:428-452 | applying the diff to what was edited gives what was wanted |
| `HeaderEdits.DiffTouchesChanges` | crates/freja-ui/src/tui/editor.rs:437-450 | the diff touches only names whose values change |
| `HeaderEdits.DiffEmptyIffEqual` | crates/freja-ui/src/tui/editor.rs:428-452 | the diff is empty if and only if the maps are equal |
| `HeaderEdits.DiffRefusal` | crates/freja-policy/src/hook/mutation.rs:116-157 | applying a diff is refused at the first protected name that would change |
| `HeaderEdits.EditAllowedIff` | crates/freja-policy/src/hook/mutation.rs:139-157 | a diff can be applied if and only if the edit leaves every protected header alone |
| `HeaderEdits.Submit` | crates/freja-ui/src/tui/editor.rs:284-332 | objections in the order raised, and otherwise decision, displayed headers and body |
| `HeaderEdits.SubmitAcceptedIff` | crates/freja-ui/src/tui/editor.rs:284-332 | an edit is accepted if and only if body, edited head and displayed head fit their limits and no protected header changes |
| `HeaderEdits.ContinueIffUnchanged` | crates/freja-ui/src/tui/editor.rs:297-311 | the request continues unmodified if and only if nothing was changed |
| `HeaderEdits.SubmissionIsApplied` | crates/freja-ui/src/tui/editor.rs:293-331 | applying a submitted modification to the original request gives exactly the displayed headers and body |
| `HttpFraming.TrimAscii` | crates/freja-proxy/src/http/headers.rs:180-188 | exactly the leading and trailing white space goes |
| `HttpFraming.ContentLengthExact` | crates/freja-proxy/src/http/headers.rs:156-178 | lengths are accepted if and only if all tokens are equal 64-bit digit strings |
| `HttpFraming.ValidateContentLength` | crates/freja-proxy/src/http/headers.rs:156-178 | the loop gives the verdict on the whole token list, with the first error |
| `HttpFraming.ValidatedFraming` | crates/freja-proxy/src/http/headers.rs:45-62 | accepted headers have unambiguous framing: one chunked coding, agreeing lengths, or neither |
| `HttpFraming.MutationIsWellFramed` | crates/freja-policy/src/hook/mutation.rs:61-73 | whatever went in, a successful mutation leaves one Content-Length that parses to the body length and no other framing, so only the size budget can object |
| `HttpFraming.StripHopByHop` | crates/freja-proxy/src/http/headers.rs:64-90 | nominated and hop-by-hop headers go, or nothing does and the bad token is reported |
| `HttpFraming.EndToEndExact` | crates/freja-proxy/src/http/headers.rs:64-90 | exactly those names lose their values and every other name keeps them |
| `HttpFraming.StripIsIdempotent` | crates/freja-proxy/src/http/headers.rs:64-90 | stripping twice changes nothing more |
| `LeafCache.LeafCacheTable.Get` | crates/freja-proxy/src/tls/cache.rs:30-35 | a hit returns the entry and makes it the most recent |
| `LeafCache.LeafCacheTable.Insert` | crates/freja-proxy/src/tls/cache.rs:37-48 | the state after making room and adding, also for a key already cached |
| `LeafCache.InsertCoherentIff` | crates/freja-proxy/src/tls/cache.rs:37-48 | entries and recency stay in step after an insertion if and only if the key is absent, is the entry about to be dropped, or nothing is cached |
| `LeafCache.InsertTwiceBreaks` | crates/freja-proxy/src/tls/cache.rs:37-48 | inserting a cached key breaks the recency list |
| `LeafCache.StepRefines` | crates/freja-proxy/src/tls/interceptor.rs:166-189 | each caller's step is a move of a time-stamped LRU map; the second lookup discharges what insertion needs |
| `LeafCache.RunRefines` | crates/freja-proxy/src/tls/interceptor.rs:166-189 | under every interleaving the cache is a bounded LRU map whose recency list and entries hold the same keys, each once |
| `LeafCache.ServedOwnConfig` | crates/freja-proxy/src/tls/interceptor.rs:166-189 | every caller is served a configuration generated for its own key |
| `LeafCache.ServedIsCached` | crates/freja-proxy/src/tls/interceptor.rs:175-188 | a served configuration is the cached and most recent one at that moment, and the hit flag says whether it was there before |
| `TuiReducer.TuiModel.Ensure` | crates/freja-ui/src/tui/model.rs:1016-1103 | finds or makes the row of a flow, evicting only an evictable row and moving the selection with its row |
| `TuiReducer.TuiModel.ApplyEvent` | crates/freja-ui/src/tui/model.rs:328-488 | reduces one event as the step function says and keeps the invariant |
| `TuiReducer.TuiModel.SetInteractiveState` | crates/freja-ui/src/tui/model.rs:691-699 | replaces the paused set and keeps the invariant |
| `TuiReducer.TuiModel.ApplyInterceptRequest` | crates/freja-ui/src/tui/model.rs:701-730 | gives a paused request a row at the expense of any row not paused |
| `TuiReducer.TuiModel.ApplyEditedRequest` | crates/freja-ui/src/tui/model.rs:934-944 | replaces the body shown in the selected row, if there is one, and keeps the invariant |
| `TuiReducer.TuiModel.CloseSession` | crates/freja-ui/src/tui/model.rs:1105-1130 | closes every row of the session, or makes a closed TCP row when there is none |
| `TuiReducer.TuiModel.MoveSelection` | crates/freja-ui/src/tui/model.rs:637-667 | the selection moves by one within the rows |
| `TrafficProperties.RunKeeps` | crates/freja-ui/src/tui/model.rs:328-488 | every run keeps rows within the limit with distinct identities, a selection in range, bounded evidence, increasing ids, and no id in two rows |
| `TrafficProperties.IdsNeverReused` | crates/freja-ui/src/tui/model.rs:383-399 | the evaluation ids given out over a run strictly increase |
| `TrafficProperties.StepSparesPaused` | crates/freja-ui/src/tui/model.rs:1034-1103 | no operation evicts the row of a request that is paused |
| `TrafficProperties.PausedRowSurvives` | crates/freja-ui/src/tui/model.rs:1034-1103 | over any run during which it stays paused, a request keeps its row |
| `TrafficBodies.RunShowsPrefixes` | crates/freja-ui/src/tui/model.rs:412-433 | with events of many flows interleaved, lost, repeated or reordered, and rows evicted and remade, every row shows a prefix of the response its flow carried, and it shows a prefix of the request if and only if it was not last given other text, by an edit or by intercepting a body that hooks had changed |
| `TrafficBodies.NothingReplaced` | crates/freja-ui/src/tui/model.rs:701-730 | without edits, and with bodies intercepted as they were sent, no row of any run is an exception |
| `TrafficBodies.EditKeepsPrefixIff` | crates/freja-ui/src/tui/model.rs:934-944 | an accepted edit keeps every row a prefix of the truth if and only if the edited body is one |
| `TrafficBodies.InterceptKeepsPrefixIff` | crates/freja-ui/src/tui/model.rs:701-730 | an interception that gets a row keeps every row a prefix of the truth if and only if the intercepted body is one |
| `TrafficBodies.EditBreaksPrefix` | crates/freja-ui/src/tui/model.rs:934-944 | an edit that breaks the property |
| `TrafficBodies.EditStays` | crates/freja-ui/src/tui/model.rs:934-944 | an edit is shown in the row selected when it was accepted, until that body is reported, intercepted or edited again |
| `TrafficBodies.InterceptStays` | crates/freja-ui/src/tui/model.rs:701-730 | an intercepted body is shown in its row until that body is reported, intercepted or edited again |

## Left out

- Sockets, asynchronous scheduling, TLS handshakes, DNS and SOCKS: they appear only as environment events and outcomes.
- SHA-256, Ed25519, JSON, hexadecimal and URL handling: functions passed in, taken not to fail.
- Redaction of observation text and of request targets: functions passed in; that they hide secrets is not claimed.
- Configuration of the audit queue's capacity and its count of rejected records: a queue is described by what its publishers experience.
- HTTP wire framing, forwarding and body hooks: not modelled; hooks appear in the relay as plans, and the relay theorems about bytes assume they keep every chunk.
- Parsing of the edited request document, start-line comparison, caret and editing modes: the submission starts from the parsed headers and body.
- Metrics, configuration loading, key files and rendering.
- Row display text, session metadata, capture counters, repeat workspaces and the evidence view of the reducer: they do not affect rows, selection or ids.
- Evidence hashes in findings, and the textual form of addresses in reasons.
- Lock poisoning in the leaf cache ends a call with an error; a poisoned lock staying poisoned is not modelled.
- Inspection.StreamScanner.Inspect: exact while the bytes scanned before a call number at most 2^64 − 1, because the byte counter saturates there.
- ReplayScan.ReplayAudit: emitted decisions are exact while the segment captures at most 2^64 − 1 bytes, for the same reason.
- ReplayDecisions.AuthorizationRederives: stated for the records of a completed authorization; a publication that fails on the way can leave facts without their decision.
- RelayReplay.ReplayReportsRun: that the run's capture records reach the segment in order is a hypothesis, since the contexts that attribute records to flows are added outside the relay.
- RelayReplay.EmissionsReportRun: the same hypothesis.
- ReplayDecisions.ReplayedSession: that the session's facts reach the segment in order is a hypothesis, for the same reason.
- HttpReplay.ReplayedExchange: the same hypothesis; and request targets that redaction rewrites are outside it, as `HttpReplay.RequestReplaysIff` says they must be.
- FlowInspection.FlowInspector.PermitChunk: one object per direction, where the source keeps arrays indexed by direction.
- ReplayScan.StreamScanners.Scan: scanners are kept as values in the map and resumed, where the source updates them inside the map.
- RelayProperties.RunConserves: stated for hooks that keep chunks, since a hook may replace or drop bytes by design.
