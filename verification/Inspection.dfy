/** Fixed-pattern inspection: compiled programs, the finding policy and the
    per-direction streaming scanner with its bounded carry. */
module Inspection {
  import opened Common
  import opened Domain

  datatype ByteRange = ByteRange(start: nat, end: nat)

  datatype Finding = Finding(
    detector: string,
    severity: Severity,
    confidence: Confidence,
    direction: Direction,
    range: Option<ByteRange>,
    tags: seq<string>)

  datatype Pattern = Pattern(
    detector: string,
    rule: string,
    bytes: Bytes,
    severity: Severity,
    confidence: Confidence,
    directions: seq<Direction>,
    action: RuleAction,
    tags: seq<string>)

  predicate ValidPattern(p: Pattern) {
    p.bytes != [] && p.directions != [] && !p.action.Detour?
  }

  type InspectionPattern = p: Pattern | ValidPattern(p)
    witness Pattern("d", "r", [0], Low, Heuristic, [ClientToUpstream], Allow, [])

  datatype InspectionError =
    | EmptyPattern(detector: string)
    | EmptyDirections(detector: string)
    | UnsupportedDetour(detector: string)
    | DuplicateDetector(detector: string)

  /** Validates one detector, reporting the first defect in the order checked. */
  function NewPattern(p: Pattern): (r: Result<InspectionPattern, InspectionError>)
    ensures r.Success? <==> ValidPattern(p)
    ensures r.Success? ==> r.value == p
    ensures r.Failure? ==> r.error.detector == p.detector
    ensures r.Failure? ==>
              && (r.error.EmptyPattern? <==> p.bytes == [])
              && (r.error.EmptyDirections? <==> p.bytes != [] && p.directions == [])
              && (r.error.UnsupportedDetour? <==> p.bytes != [] && p.directions != [])
  {
    if p.bytes == [] then Failure(EmptyPattern(p.detector))
    else if p.directions == [] then Failure(EmptyDirections(p.detector))
    else if p.action.Detour? then Failure(UnsupportedDetour(p.detector))
    else Success(p)
  }

  predicate UniqueDetectors(patterns: seq<InspectionPattern>) {
    forall i, j | 0 <= i < j < |patterns| :: patterns[i].detector != patterns[j].detector
  }

  /** `maximum` is the length of the longest pattern, and zero without patterns. */
  predicate IsLongest(patterns: seq<InspectionPattern>, maximum: nat) {
    && (forall p | p in patterns :: |p.bytes| <= maximum)
    && (maximum == 0 || exists p | p in patterns :: |p.bytes| == maximum)
  }

  datatype RawProgram = RawProgram(
    generation: nat, patterns: seq<InspectionPattern>, maximumPatternBytes: nat)
  {
    predicate Compiled() {
      UniqueDetectors(patterns) && IsLongest(patterns, maximumPatternBytes)
    }
  }

  /** A program that came out of the compiler. */
  type Program = p: RawProgram | p.Compiled() witness RawProgram(0, [], 0)

  /** Compiles patterns, rejecting at the first repeated detector identity. */
  method Compile(generation: nat, patterns: seq<InspectionPattern>)
    returns (r: Result<Program, InspectionError>)
    ensures r.Success? <==> UniqueDetectors(patterns)
    ensures r.Success? ==>
              r.value.patterns == patterns && r.value.generation == generation
    ensures r.Failure? ==>
              exists j | 0 < j < |patterns| ::
                && UniqueDetectors(patterns[..j]) && !UniqueDetectors(patterns[..j + 1])
                && r.error == DuplicateDetector(patterns[j].detector)
  {
    var detectors: set<string> := {};
    var maximum: nat := 0;
    for i := 0 to |patterns|
      invariant UniqueDetectors(patterns[..i])
      invariant detectors == set p | p in patterns[..i] :: p.detector
      invariant IsLongest(patterns[..i], maximum)
    {
      var pattern := patterns[i];
      assert patterns[..i + 1] == patterns[..i] + [pattern];
      UniqueExtends(patterns[..i], pattern);
      if pattern.detector in detectors {
        return Failure(DuplicateDetector(pattern.detector));
      }
      detectors := detectors + {pattern.detector};
      LongestExtends(patterns[..i], pattern, maximum);
      maximum := if maximum < |pattern.bytes| then |pattern.bytes| else maximum;
    }
    assert patterns[..|patterns|] == patterns;
    r := Success(RawProgram(generation, patterns, maximum));
  }

  lemma UniqueExtends(patterns: seq<InspectionPattern>, next: InspectionPattern)
    requires UniqueDetectors(patterns)
    ensures UniqueDetectors(patterns + [next]) <==> next.detector !in (set p | p in patterns :: p.detector)
  {
    var all := patterns + [next];
    if next.detector in (set p | p in patterns :: p.detector) {
      var k :| 0 <= k < |patterns| && patterns[k].detector == next.detector;
      assert all[k].detector == all[|patterns|].detector;
    }
  }

  lemma LongestExtends(patterns: seq<InspectionPattern>, next: InspectionPattern, maximum: nat)
    requires IsLongest(patterns, maximum)
    ensures IsLongest(patterns + [next], if maximum < |next.bytes| then |next.bytes| else maximum)
  {
  }

  lemma PatternsAreNonEmpty(program: Program)
    ensures program.patterns != [] ==> program.maximumPatternBytes > 0
  {
    if program.patterns != [] {
      assert program.patterns[0] in program.patterns;
    }
  }

  /** The pattern a finding policy consults: the first one carrying the detector. */
  function FindPattern(patterns: seq<InspectionPattern>, detector: string): Option<InspectionPattern> {
    if patterns == [] then None
    else if patterns[0].detector == detector then Some(patterns[0])
    else FindPattern(patterns[1..], detector)
  }

  function DenyAction(protocol: Protocol): EnforcementAction {
    match protocol
    case Http => HttpReject
    case Tcp => TcpClose
  }

  /** Turns a finding into a protocol-aware decision; unknown detectors allow. */
  function Evaluate(program: Program, finding: Finding, protocol: Protocol): Decision {
    var matched := FindPattern(program.patterns, finding.detector);
    var action :=
      if matched.Some? && matched.value.action.Deny? then DenyAction(protocol) else AllowFlow;
    Decision(
      action, program.generation, StreamingStage,
      if matched.Some? then Some(matched.value.rule) else None,
      [MatchReason("detector-finding", Text(finding.detector))])
  }

  /** Unique detectors make the policy consult exactly the pattern that fired. */
  lemma {:induction false} FindPatternExact(patterns: seq<InspectionPattern>, i: nat)
    requires UniqueDetectors(patterns) && i < |patterns|
    ensures FindPattern(patterns, patterns[i].detector) == Some(patterns[i])
  {
    if i > 0 {
      FindPatternExact(patterns[1..], i - 1);
    }
  }

  // ---- What a scan must report, stated on the whole stream ----

  predicate OccursAt(stream: Bytes, needle: Bytes, start: nat) {
    start + |needle| <= |stream| && stream[start..start + |needle|] == needle
  }

  /** The finding for a match at `start` of a window whose first byte is stream offset `base`. */
  function FindingAt(p: InspectionPattern, direction: Direction, base: nat, start: nat): Finding {
    var first := SaturatingAdd(base, start);
    var last := SaturatingAdd(base, start + |p.bytes|);
    Finding(
      p.detector, p.severity, p.confidence, direction,
      if first < last then Some(ByteRange(first, last)) else None, p.tags)
  }

  /** Matches of one pattern starting before `n` and ending after `from`, in order of offset. */
  function PatternFindings(
    p: InspectionPattern, direction: Direction, stream: Bytes, base: nat, from: nat, n: nat): seq<Finding>
  {
    if n == 0 then []
    else
      var before := PatternFindings(p, direction, stream, base, from, n - 1);
      if OccursAt(stream, p.bytes, n - 1) && n - 1 + |p.bytes| > from
      then before + [FindingAt(p, direction, base, n - 1)] else before
  }

  /** What one pattern contributes: nothing where it does not apply. */
  function PatternShare(
    p: InspectionPattern, direction: Direction, stream: Bytes, base: nat, from: nat): seq<Finding>
  {
    if direction in p.directions then PatternFindings(p, direction, stream, base, from, |stream|) else []
  }

  /** Matches of every applicable pattern, in pattern order, ending after `from`. */
  function FindingsAfter(
    patterns: seq<InspectionPattern>, direction: Direction, stream: Bytes, base: nat, from: nat): seq<Finding>
  {
    if patterns == [] then []
    else
      var last := patterns[|patterns| - 1];
      FindingsAfter(patterns[..|patterns| - 1], direction, stream, base, from)
      + PatternShare(last, direction, stream, base, from)
  }

  /** The findings owed for `chunk` once `seen` has been scanned: matches whose last byte is in `chunk`. */
  function NewFindings(program: Program, direction: Direction, seen: Bytes, chunk: Bytes): seq<Finding> {
    FindingsAfter(program.patterns, direction, seen + chunk, 0, |seen|)
  }

  function AllFindings(program: Program, direction: Direction, stream: Bytes): seq<Finding> {
    FindingsAfter(program.patterns, direction, stream, 0, 0)
  }

  /** `p` fires at `start`: it applies, it occurs there, and it ends after `from`. */
  predicate Fires(p: InspectionPattern, direction: Direction, stream: Bytes, from: nat, start: nat) {
    direction in p.directions && OccursAt(stream, p.bytes, start) && start + |p.bytes| > from
  }

  /** `f` describes a match of `p` at `start` ending after `from`. */
  predicate Reports(
    p: InspectionPattern, direction: Direction, stream: Bytes, base: nat, from: nat, start: nat, f: Finding)
  {
    OccursAt(stream, p.bytes, start) && start + |p.bytes| > from && f == FindingAt(p, direction, base, start)
  }

  lemma {:induction false} PatternFindingsExact(
    p: InspectionPattern, direction: Direction, stream: Bytes, base: nat, from: nat, n: nat, f: Finding)
    ensures f in PatternFindings(p, direction, stream, base, from, n) <==>
            exists s: nat :: s < n && Reports(p, direction, stream, base, from, s, f)
  {
    if n > 0 {
      PatternFindingsExact(p, direction, stream, base, from, n - 1, f);
      if Reports(p, direction, stream, base, from, n - 1, f) {
        assert f in PatternFindings(p, direction, stream, base, from, n);
      }
    }
  }

  /** Pattern `p` fires somewhere and `f` is the finding for it. */
  ghost predicate Explains(
    p: InspectionPattern, direction: Direction, stream: Bytes, base: nat, from: nat, f: Finding)
  {
    exists s: nat :: Fires(p, direction, stream, from, s) && f == FindingAt(p, direction, base, s)
  }

  lemma ShareExact(
    p: InspectionPattern, direction: Direction, stream: Bytes, base: nat, from: nat, f: Finding)
    ensures f in PatternShare(p, direction, stream, base, from) <==> Explains(p, direction, stream, base, from, f)
  {
    PatternFindingsExact(p, direction, stream, base, from, |stream|, f);
    if s: nat :| Fires(p, direction, stream, from, s) && f == FindingAt(p, direction, base, s) {
      assert s < |stream| && Reports(p, direction, stream, base, from, s, f);
    }
    if direction in p.directions {
      if s: nat :| s < |stream| && Reports(p, direction, stream, base, from, s, f) {
        assert Fires(p, direction, stream, from, s);
      }
    }
  }

  lemma {:induction false} FindingsExplained(
    patterns: seq<InspectionPattern>, direction: Direction, stream: Bytes, base: nat, from: nat, f: Finding)
    ensures f in FindingsAfter(patterns, direction, stream, base, from) <==>
            exists i: nat :: i < |patterns| && Explains(patterns[i], direction, stream, base, from, f)
  {
    if patterns != [] {
      var k := |patterns| - 1;
      var front := patterns[..k];
      FindingsExplained(front, direction, stream, base, from, f);
      ShareExact(patterns[k], direction, stream, base, from, f);
      if i: nat :| i < k && Explains(front[i], direction, stream, base, from, f) {
        assert patterns[i] == front[i];
      }
      if i: nat :| i < |patterns| && Explains(patterns[i], direction, stream, base, from, f) {
        assert i < k ==> front[i] == patterns[i];
      }
    }
  }

  /** A finding is reported exactly when some applicable pattern fires and describes it. */
  lemma FindingsExact(
    patterns: seq<InspectionPattern>, direction: Direction, stream: Bytes, base: nat, from: nat, f: Finding)
    ensures f in FindingsAfter(patterns, direction, stream, base, from) <==>
            exists i: nat, s: nat ::
              i < |patterns| && Fires(patterns[i], direction, stream, from, s)
              && f == FindingAt(patterns[i], direction, base, s)
  {
    FindingsExplained(patterns, direction, stream, base, from, f);
    if i: nat, s: nat :| i < |patterns| && Fires(patterns[i], direction, stream, from, s)
                         && f == FindingAt(patterns[i], direction, base, s) {
      assert Explains(patterns[i], direction, stream, base, from, f);
    }
  }

  // ---- Splitting a scan at a point of the stream ----

  lemma {:induction false} NoFindingsBefore(
    p: InspectionPattern, direction: Direction, stream: Bytes, base: nat, from: nat, n: nat)
    requires n == 0 || n - 1 + |p.bytes| <= from
    ensures PatternFindings(p, direction, stream, base, from, n) == []
  {
    if n > 0 {
      NoFindingsBefore(p, direction, stream, base, from, n - 1);
    }
  }

  lemma OccursInPrefix(stream: Bytes, needle: Bytes, mid: nat, s: nat)
    requires mid <= |stream|
    ensures OccursAt(stream[..mid], needle, s) <==> OccursAt(stream, needle, s) && s + |needle| <= mid
  {
  }

  /** Matches ending after `from` are those completed by `mid` followed by those completed later. */
  lemma {:induction false} PatternFindingsSplit(
    p: InspectionPattern, direction: Direction, stream: Bytes, base: nat, from: nat, mid: nat, n: nat)
    requires from <= mid <= |stream|
    ensures PatternFindings(p, direction, stream, base, from, n)
            == PatternFindings(p, direction, stream[..mid], base, from, n)
               + PatternFindings(p, direction, stream, base, mid, n)
  {
    if n > 0 {
      var s := n - 1;
      PatternFindingsSplit(p, direction, stream, base, from, mid, s);
      OccursInPrefix(stream, p.bytes, mid, s);
      if s + |p.bytes| <= mid {
        NoFindingsBefore(p, direction, stream, base, mid, n);
        NoFindingsBefore(p, direction, stream, base, mid, s);
      }
    }
  }

  lemma {:induction false} PatternFindingsTrim(
    p: InspectionPattern, direction: Direction, stream: Bytes, base: nat, from: nat, n: nat)
    requires |stream| <= n
    ensures PatternFindings(p, direction, stream, base, from, n)
            == PatternFindings(p, direction, stream, base, from, |stream|)
  {
    if |stream| < n {
      PatternFindingsTrim(p, direction, stream, base, from, n - 1);
    }
  }

  lemma {:induction false} FindingsSplit(
    patterns: seq<InspectionPattern>, direction: Direction, stream: Bytes, base: nat, from: nat, mid: nat)
    requires from <= mid <= |stream|
    ensures multiset(FindingsAfter(patterns, direction, stream, base, from))
            == multiset(FindingsAfter(patterns, direction, stream[..mid], base, from))
               + multiset(FindingsAfter(patterns, direction, stream, base, mid))
  {
    if patterns != [] {
      var last := patterns[|patterns| - 1];
      FindingsSplit(patterns[..|patterns| - 1], direction, stream, base, from, mid);
      ShareSplit(last, direction, stream, base, from, mid);
    }
  }

  lemma ShareSplit(
    p: InspectionPattern, direction: Direction, stream: Bytes, base: nat, from: nat, mid: nat)
    requires from <= mid <= |stream|
    ensures PatternShare(p, direction, stream, base, from)
            == PatternShare(p, direction, stream[..mid], base, from) + PatternShare(p, direction, stream, base, mid)
  {
    if direction in p.directions {
      PatternFindingsSplit(p, direction, stream, base, from, mid, |stream|);
      PatternFindingsTrim(p, direction, stream[..mid], base, from, |stream|);
    }
  }

  /** The findings of each chunk, scanned in order. */
  function ScanChunks(program: Program, direction: Direction, chunks: seq<Bytes>): (r: seq<seq<Finding>>)
    ensures |r| == |chunks|
  {
    if chunks == [] then []
    else
      var k := |chunks| - 1;
      ScanChunks(program, direction, chunks[..k])
      + [NewFindings(program, direction, Flatten(chunks[..k]), chunks[k])]
  }

  /** However a stream is cut into chunks, the findings are those of one scan of the whole stream. */
  lemma {:induction false} ChunkingIrrelevant(program: Program, direction: Direction, chunks: seq<Bytes>)
    ensures multiset(Flatten(ScanChunks(program, direction, chunks)))
            == multiset(AllFindings(program, direction, Flatten(chunks)))
  {
    if chunks == [] {
      EmptyStreamFindsNothing(program.patterns, direction, 0, 0);
    } else {
      var k := |chunks| - 1;
      var seen := Flatten(chunks[..k]);
      var stream := seen + chunks[k];
      ChunkingIrrelevant(program, direction, chunks[..k]);
      FlattenAppend(ScanChunks(program, direction, chunks[..k]), NewFindings(program, direction, seen, chunks[k]));
      FindingsSplit(program.patterns, direction, stream, 0, 0, |seen|);
      assert stream[..|seen|] == seen;
    }
  }

  lemma {:induction false} EmptyStreamFindsNothing(
    patterns: seq<InspectionPattern>, direction: Direction, base: nat, from: nat)
    ensures FindingsAfter(patterns, direction, [], base, from) == []
  {
    if patterns != [] {
      EmptyStreamFindsNothing(patterns[..|patterns| - 1], direction, base, from);
    }
  }

  /** Each match is reported in the chunk that holds its last byte and in no other. */
  lemma {:induction false} ReportedInLastByteChunk(
    program: Program, direction: Direction, chunks: seq<Bytes>, k: nat, f: Finding)
    requires k < |chunks|
    ensures f in ScanChunks(program, direction, chunks)[k] <==>
            exists i: nat, s: nat ::
              i < |program.patterns|
              && Fires(program.patterns[i], direction, Flatten(chunks[..k + 1]), |Flatten(chunks[..k])|, s)
              && f == FindingAt(program.patterns[i], direction, 0, s)
  {
    var last := |chunks| - 1;
    if k < last {
      ReportedInLastByteChunk(program, direction, chunks[..last], k, f);
      assert chunks[..last][..k] == chunks[..k] && chunks[..last][..k + 1] == chunks[..k + 1];
    } else {
      assert chunks[..k + 1] == chunks;
      FindingsExact(program.patterns, direction, Flatten(chunks), 0, |Flatten(chunks[..k])|, f);
    }
  }

  lemma {:induction false} PatternFindingsDistinct(
    p: InspectionPattern, direction: Direction, stream: Bytes, from: nat, n: nat)
    requires |stream| <= U64_MAX
    ensures Distinct(PatternFindings(p, direction, stream, 0, from, n))
  {
    if n > 0 {
      PatternFindingsDistinct(p, direction, stream, from, n - 1);
      PatternFindingsExact(p, direction, stream, 0, from, n - 1, FindingAt(p, direction, 0, n - 1));
      if OccursAt(stream, p.bytes, n - 1) {
        assert FindingAt(p, direction, 0, n - 1).range == Some(ByteRange(n - 1, n - 1 + |p.bytes|));
      }
    }
  }

  /** No match is reported twice while offsets fit in 64 bits. */
  lemma {:induction false} FindingsDistinct(
    patterns: seq<InspectionPattern>, direction: Direction, stream: Bytes, from: nat)
    requires UniqueDetectors(patterns) && |stream| <= U64_MAX
    ensures Distinct(FindingsAfter(patterns, direction, stream, 0, from))
  {
    if patterns != [] {
      var k := |patterns| - 1;
      var last := patterns[k];
      var before := FindingsAfter(patterns[..k], direction, stream, 0, from);
      var more := PatternFindings(last, direction, stream, 0, from, |stream|);
      FindingsDistinct(patterns[..k], direction, stream, from);
      PatternFindingsDistinct(last, direction, stream, from, |stream|);
      forall x, y | 0 <= x < |before| && 0 <= y < |more|
        ensures before[x] != more[y]
      {
        FindingsExact(patterns[..k], direction, stream, 0, from, before[x]);
        PatternFindingsExact(last, direction, stream, 0, from, |stream|, more[y]);
      }
    }
  }

  // ---- The bounded window sees everything the whole stream would ----

  function Suffix(s: Bytes, n: nat): Bytes {
    s[|s| - Min(n, |s|)..]
  }

  lemma SuffixExtends(seen: Bytes, bytes: Bytes, n: nat)
    ensures var window := Suffix(seen, n) + bytes;
            Suffix(seen + bytes, n) == window[SaturatingSub(|window|, n)..]
  {
  }

  lemma OccursInWindow(stream: Bytes, needle: Bytes, d: nat, s: nat)
    requires d <= |stream|
    ensures OccursAt(stream, needle, d + s) <==> OccursAt(stream[d..], needle, s)
  {
  }

  lemma {:induction false} WindowPattern(
    p: InspectionPattern, direction: Direction, stream: Bytes, from: nat, d: nat, n: nat)
    requires d <= from <= |stream| && (d == 0 || d - 1 + |p.bytes| <= from)
    ensures PatternFindings(p, direction, stream, 0, from, d + n)
            == PatternFindings(p, direction, stream[d..], d, from - d, n)
  {
    if n == 0 {
      NoFindingsBefore(p, direction, stream, 0, from, d);
    } else {
      WindowPattern(p, direction, stream, from, d, n - 1);
      OccursInWindow(stream, p.bytes, d, n - 1);
    }
  }

  lemma {:induction false} WindowFindings(
    patterns: seq<InspectionPattern>, direction: Direction, stream: Bytes, from: nat, d: nat)
    requires d <= from <= |stream|
    requires d == 0 || forall p | p in patterns :: d - 1 + |p.bytes| <= from
    ensures FindingsAfter(patterns, direction, stream, 0, from)
            == FindingsAfter(patterns, direction, stream[d..], d, from - d)
  {
    if patterns != [] {
      var last := patterns[|patterns| - 1];
      WindowFindings(patterns[..|patterns| - 1], direction, stream, from, d);
      assert last in patterns;
      WindowShare(last, direction, stream, from, d);
    }
  }

  lemma WindowShare(p: InspectionPattern, direction: Direction, stream: Bytes, from: nat, d: nat)
    requires d <= from <= |stream| && (d == 0 || d - 1 + |p.bytes| <= from)
    ensures PatternShare(p, direction, stream, 0, from) == PatternShare(p, direction, stream[d..], d, from - d)
  {
    if direction in p.directions {
      WindowPattern(p, direction, stream, from, d, |stream| - d);
    }
  }

  lemma {:induction false} NothingNewWithoutBytes(
    patterns: seq<InspectionPattern>, direction: Direction, stream: Bytes, base: nat)
    ensures FindingsAfter(patterns, direction, stream, base, |stream|) == []
  {
    if patterns != [] {
      var last := patterns[|patterns| - 1];
      NothingNewWithoutBytes(patterns[..|patterns| - 1], direction, stream, base);
      var found := PatternFindings(last, direction, stream, base, |stream|, |stream|);
      if found != [] {
        PatternFindingsExact(last, direction, stream, base, |stream|, |stream|, found[0]);
      }
    }
  }

  /** The state a scanner keeps after scanning `seen`: the carry and the saturating byte count. */
  predicate Retains(program: Program, seen: Bytes, carry: Bytes, processedBytes: nat) {
    && carry == Suffix(seen, SaturatingSub(program.maximumPatternBytes, 1))
    && processedBytes == Saturate(|seen|)
  }

  /** Per-flow matcher. `seen` is the whole stream scanned so far; only `carry` is retained of it. */
  class StreamScanner {
    const program: Program
    const direction: Direction
    var carry: Bytes
    var processedBytes: nat
    ghost var seen: Bytes

    ghost predicate Valid()
      reads this
    {
      Retains(program, seen, carry, processedBytes)
    }

    constructor (program: Program, direction: Direction)
      ensures Valid() && seen == [] && this.program == program && this.direction == direction
    {
      this.program, this.direction := program, direction;
      carry, processedBytes, seen := [], 0, [];
    }

    /** A scanner taken up again where an earlier one left off. */
    constructor Resume(
      program: Program, direction: Direction, carry: Bytes, processedBytes: nat, ghost seen: Bytes)
      requires Retains(program, seen, carry, processedBytes)
      ensures Valid() && this.program == program && this.direction == direction && this.seen == seen
    {
      this.program, this.direction := program, direction;
      this.carry, this.processedBytes, this.seen := carry, processedBytes, seen;
    }

    /** Scans one chunk and reports every match it completes, while stream offsets fit in 64 bits. */
    method Inspect(bytes: Bytes) returns (findings: seq<Finding>)
      requires Valid()
      modifies this
      ensures Valid() && seen == old(seen) + bytes
      ensures |old(seen)| <= U64_MAX ==> findings == NewFindings(program, direction, old(seen), bytes)
    {
      ghost var stream := seen + bytes;
      if bytes == [] || program.maximumPatternBytes == 0 {
        processedBytes := SaturatingAdd(processedBytes, |bytes|);
        findings := [];
        if bytes == [] {
          NothingNewWithoutBytes(program.patterns, direction, stream, 0);
        } else {
          PatternsAreNonEmpty(program);
        }
        seen := stream;
        return;
      }
      var carryLen := |carry|;
      var searchable := carry + bytes;
      var base := SaturatingSub(processedBytes, carryLen);
      ghost var d := |seen| - carryLen;
      assert searchable == stream[d..];
      findings := ScanWindow(searchable, base, carryLen);
      WindowFindings(program.patterns, direction, stream, |seen|, d);
      processedBytes := SaturatingAdd(processedBytes, |bytes|);
      var keep := SaturatingSub(program.maximumPatternBytes, 1);
      carry := searchable[SaturatingSub(|searchable|, keep)..];
      SuffixExtends(seen, bytes, keep);
      seen := stream;
    }

    /** The matches of one pattern in the window, in order of offset. */
    method ScanPattern(pattern: InspectionPattern, searchable: Bytes, base: nat, carryLen: nat)
      returns (findings: seq<Finding>)
      ensures findings == PatternFindings(pattern, direction, searchable, base, carryLen, |searchable|)
    {
      findings := [];
      for start := 0 to |searchable|
        invariant findings == PatternFindings(pattern, direction, searchable, base, carryLen, start)
      {
        var end := start + |pattern.bytes|;
        if end <= |searchable| && searchable[start..end] == pattern.bytes && end > carryLen {
          findings := findings + [FindingAt(pattern, direction, base, start)];
        }
      }
    }

    method ScanWindow(searchable: Bytes, base: nat, carryLen: nat) returns (findings: seq<Finding>)
      ensures findings == FindingsAfter(program.patterns, direction, searchable, base, carryLen)
    {
      findings := [];
      for i := 0 to |program.patterns|
        invariant findings == FindingsAfter(program.patterns[..i], direction, searchable, base, carryLen)
      {
        assert program.patterns[..i + 1][..i] == program.patterns[..i];
        if direction in program.patterns[i].directions {
          var more := ScanPattern(program.patterns[i], searchable, base, carryLen);
          findings := findings + more;
        }
      }
      assert program.patterns[..|program.patterns|] == program.patterns;
    }
  }
}
