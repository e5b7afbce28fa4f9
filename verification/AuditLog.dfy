/** The hash-chained audit segment: its records, the sink that owns chain continuity and the
    draining worker that interleaves signed checkpoints. SHA-256 over the canonical JSON of a
    record is the parameter `digest`; Ed25519 is `signature` and `verifies`. */
module AuditLog {
  import opened Common
  import opened Domain
  import opened Hosts
  import Acl
  import Inspection

  type Digest = b: Bytes | |b| == 32 witness seq(32, _ => 0)

  const CURRENT_VERSION: nat := 2

  datatype Context = Context(session: nat, transaction: Option<nat>, occurredAt: nat, generation: nat)

  datatype SignedCheckpoint = SignedCheckpoint(
    coversSequence: nat, recordHash: Digest, publicKey: Bytes, signature: Bytes)

  /** The input of one policy evaluation, recorded so that it can be evaluated again. */
  datatype ReplayFacts =
    | PolicyInput(facts: Acl.PolicyFacts)
    | FindingInput(finding: Inspection.Finding, protocol: Protocol)

  datatype Event =
    | Checkpoint(checkpoint: SignedCheckpoint)
    | FactsObserved(facts: ReplayFacts)
    | PayloadPrefixCaptured(direction: Direction, protocol: Protocol, bytes: Bytes)
    | HttpRepeatStarted(source: nat)
    | Observation(text: string)

  datatype Unsigned = Unsigned(
    version: nat, sequence: nat, context: Context, event: Event, previous: Option<Digest>)

  datatype Record = Record(unsigned: Unsigned, hash: Digest)

  datatype Envelope = Envelope(context: Context, event: Event)

  datatype Signer = Signer(publicKey: Bytes, signature: Bytes -> Bytes)

  datatype RawSchedule = Schedule(signer: Signer, interval: nat)

  type Schedule = s: RawSchedule | s.interval > 0
    witness RawSchedule.Schedule(Signer([], (m: Bytes) => []), 1)

  datatype AuditError = WriteFailed | SinkPoisoned | SequenceExhausted

  // ---- What a signature covers ----

  const CHECKPOINT_DOMAIN: string := "freja-audit-checkpoint-v1\0"

  function Ascii(text: string): Bytes {
    seq(|text|, i requires 0 <= i < |text| => text[i] as int % 256)
  }

  /** The `width` low-order bytes of `n`, most significant first. */
  function BigEndian(n: nat, width: nat): (r: Bytes)
    ensures |r| == width
  {
    if width == 0 then [] else BigEndian(n / 256, width - 1) + [n % 256]
  }

  function FromBigEndian(bytes: Bytes): nat {
    if bytes == [] then 0 else FromBigEndian(bytes[..|bytes| - 1]) * 256 + bytes[|bytes| - 1]
  }

  function Pow256(width: nat): nat {
    if width == 0 then 1 else 256 * Pow256(width - 1)
  }

  lemma {:induction false} BigEndianRoundTrip(n: nat, width: nat)
    requires n < Pow256(width)
    ensures FromBigEndian(BigEndian(n, width)) == n
  {
    if width > 0 {
      BigEndianRoundTrip(n / 256, width - 1);
      assert BigEndian(n, width)[..width - 1] == BigEndian(n / 256, width - 1);
    }
  }

  /** The signed bytes: a domain tag, the covered sequence as eight bytes, and the record hash. */
  function CheckpointMessage(sequence: nat, hash: Digest): Bytes {
    Ascii(CHECKPOINT_DOMAIN) + BigEndian(sequence, 8) + hash
  }

  /** A signature for one chain position cannot stand for another. */
  lemma CheckpointMessageInjective(s1: nat, h1: Digest, s2: nat, h2: Digest)
    requires s1 <= U64_MAX && s2 <= U64_MAX
    requires CheckpointMessage(s1, h1) == CheckpointMessage(s2, h2)
    ensures s1 == s2 && h1 == h2
  {
    var tag := Ascii(CHECKPOINT_DOMAIN);
    var m1, m2 := CheckpointMessage(s1, h1), CheckpointMessage(s2, h2);
    assert m1[|tag|..|tag| + 8] == BigEndian(s1, 8) && m2[|tag|..|tag| + 8] == BigEndian(s2, 8);
    assert m1[|tag| + 8..] == h1 && m2[|tag| + 8..] == h2;
    EightBytes();
    BigEndianRoundTrip(s1, 8);
    BigEndianRoundTrip(s2, 8);
  }

  lemma EightBytes()
    ensures Pow256(8) == U64_MAX + 1
  {
  }

  function SignCheckpoint(signer: Signer, sequence: nat, hash: Digest): SignedCheckpoint {
    SignedCheckpoint(sequence, hash, signer.publicKey, signer.signature(CheckpointMessage(sequence, hash)))
  }

  // ---- The chain ----

  function LastHash(records: seq<Record>): Option<Digest> {
    if records == [] then None else Some(records[|records| - 1].hash)
  }

  /** How redaction rewrites the text of observations and the target of an HTTP request. */
  datatype Redactor = Redactor(text: string -> string, target: string -> string)

  const REDACTED := "[REDACTED]"

  predicate SecretHeader(name: string) {
    Lower(name) in {"authorization", "proxy-authorization", "cookie", "set-cookie"}
  }

  function RedactedHeaders(headers: Acl.SanitizedHeaders): Acl.SanitizedHeaders {
    map name | name in headers :: if SecretHeader(name) then [REDACTED] else headers[name]
  }

  function RedactedFacts(redactor: Redactor, facts: Acl.PolicyFacts): Acl.PolicyFacts {
    match facts
    case HttpRequest(target, verb, path, headers) =>
      Acl.HttpRequest(target, verb, redactor.target(path), RedactedHeaders(headers))
    case HttpResponse(target, code, headers) => Acl.HttpResponse(target, code, RedactedHeaders(headers))
    case _ => facts
  }

  /** Redaction rewrites observations and HTTP facts; captured bytes, checkpoints, findings and facts
      about destinations stay as they are. */
  function Redact(redactor: Redactor, event: Event): Event {
    match event
    case Observation(text) => Observation(redactor.text(text))
    case FactsObserved(PolicyInput(facts)) => FactsObserved(PolicyInput(RedactedFacts(redactor, facts)))
    case _ => event
  }

  /** The record that continues a chain. */
  function NextRecord(digest: Unsigned -> Digest, records: seq<Record>, context: Context, event: Event): Record {
    var unsigned := Unsigned(CURRENT_VERSION, |records| + 1, context, event, LastHash(records));
    Record(unsigned, digest(unsigned))
  }

  datatype Drain = Drain(digest: Unsigned -> Digest, redactor: Redactor, schedule: Option<Schedule>)

  predicate CheckpointDue(drain: Drain, ordinary: nat) {
    drain.schedule.Some? && ordinary % drain.schedule.value.interval == 0
  }

  function CheckpointEvent(drain: Drain, records: seq<Record>): Event
    requires drain.schedule.Some? && records != []
  {
    var last := records[|records| - 1];
    Checkpoint(SignCheckpoint(drain.schedule.value.signer, last.unsigned.sequence, last.hash))
  }

  function AppendOrdinary(drain: Drain, records: seq<Record>, envelope: Envelope): seq<Record> {
    records + [NextRecord(drain.digest, records, envelope.context, Redact(drain.redactor, envelope.event))]
  }

  function AppendCheckpoint(drain: Drain, records: seq<Record>, context: Context): seq<Record>
    requires drain.schedule.Some? && records != []
  {
    records + [NextRecord(drain.digest, records, context, CheckpointEvent(drain, records))]
  }

  /** The records after the `ordinal`-th envelope, counting from one. */
  function DrainStep(drain: Drain, records: seq<Record>, envelope: Envelope, ordinal: nat): (r: seq<Record>)
    ensures |records| < |r|
    ensures records < r
  {
    var ordinary := AppendOrdinary(drain, records, envelope);
    if CheckpointDue(drain, ordinal) then AppendCheckpoint(drain, ordinary, envelope.context) else ordinary
  }

  /** The segment owed for a run of envelopes: a checkpoint follows every `interval` of them. */
  function Drained(drain: Drain, envelopes: seq<Envelope>): (r: seq<Record>)
    ensures |r| >= |envelopes|
  {
    if envelopes == [] then []
    else
      var k := |envelopes| - 1;
      DrainStep(drain, Drained(drain, envelopes[..k]), envelopes[k], |envelopes|)
  }

  /** How a drain of `full` records ends when the writer fails after `budget` operations. Each
      record costs a write and a flush. */
  predicate DrainOutcome(full: seq<Record>, budget: nat, records: seq<Record>, r: Result<(), AuditError>) {
    && records == full[..Min(Min(|full|, U64_MAX), (budget + 1) / 2)]
    && r == (if |full| <= U64_MAX && 2 * |full| <= budget then Success(())
             else if 2 * U64_MAX <= budget then Failure(SequenceExhausted)
             else Failure(WriteFailed))
  }

  /** A JSONL segment writer. `records` is what its output holds; `budget` is how many more writer
      operations succeed before the writer fails. */
  class JsonlAuditSink {
    const drain: Drain
    var nextSequence: Option<nat>
    var previousHash: Option<Digest>
    var poisoned: bool
    var records: seq<Record>
    var budget: nat

    ghost predicate Valid()
      reads this
    {
      && |records| <= U64_MAX
      && nextSequence == (if |records| < U64_MAX then Some(|records| + 1) else None)
      && previousHash == LastHash(records)
    }

    constructor (drain: Drain, budget: nat)
      ensures Valid() && !poisoned && records == [] && this.drain == drain && this.budget == budget
    {
      this.drain, this.budget := drain, budget;
      nextSequence, previousHash, poisoned, records := Some(1), None, false, [];
    }

    /** Appends exactly one record, or appends nothing and says why. */
    method WriteEvent(context: Context, event: Event) returns (r: Result<Record, AuditError>)
      requires Valid()
      modifies this
      ensures Valid()
      ensures old(poisoned) ==> r == Failure(SinkPoisoned)
      ensures !old(poisoned) && |old(records)| == U64_MAX ==> r == Failure(SequenceExhausted)
      ensures !old(poisoned) && |old(records)| < U64_MAX && old(budget) == 0 ==> r == Failure(WriteFailed)
      ensures r.Failure? ==> records == old(records) && budget == old(budget)
      ensures poisoned == (old(poisoned) || r == Failure(WriteFailed))
      ensures !old(poisoned) && |old(records)| < U64_MAX && old(budget) > 0 ==>
                && r == Success(NextRecord(drain.digest, old(records), context, Redact(drain.redactor, event)))
                && records == old(records) + [r.value]
                && budget == old(budget) - 1
    {
      if poisoned {
        return Failure(SinkPoisoned);
      }
      var redacted := Redact(drain.redactor, event);
      if nextSequence.None? {
        return Failure(SequenceExhausted);
      }
      var sequence := nextSequence.value;
      var unsigned := Unsigned(CURRENT_VERSION, sequence, context, redacted, previousHash);
      var record := Record(unsigned, drain.digest(unsigned));
      if budget == 0 {
        poisoned := true;
        return Failure(WriteFailed);
      }
      budget, records := budget - 1, records + [record];
      previousHash := Some(record.hash);
      nextSequence := if sequence < U64_MAX then Some(sequence + 1) else None;
      r := Success(record);
    }

    /** A failed flush is reported without poisoning the sink. */
    method Flush() returns (r: Result<(), AuditError>)
      requires Valid()
      modifies this`budget
      ensures r == if poisoned then Failure(SinkPoisoned)
                   else if old(budget) == 0 then Failure(WriteFailed) else Success(())
      ensures budget == if r.Success? then old(budget) - 1 else old(budget)
    {
      if poisoned {
        return Failure(SinkPoisoned);
      }
      if budget == 0 {
        return Failure(WriteFailed);
      }
      budget := budget - 1;
      r := Success(());
    }

    /** A write and the flush that follows it. */
    method Put(context: Context, event: Event) returns (r: Result<Record, AuditError>)
      requires Valid() && !poisoned
      modifies this
      ensures Valid()
      ensures var next := NextRecord(drain.digest, old(records), context, Redact(drain.redactor, event));
              && (r == if |old(records)| == U64_MAX then Failure(SequenceExhausted)
                       else if old(budget) < 2 then Failure(WriteFailed) else Success(next))
              && records == (if |old(records)| == U64_MAX || old(budget) == 0 then old(records)
                             else old(records) + [next])
      ensures r.Success? ==> !poisoned && budget == old(budget) - 2
    {
      var written := WriteEvent(context, event);
      if written.Failure? {
        return Failure(written.error);
      }
      var flushed := Flush();
      if flushed.Failure? {
        return Failure(flushed.error);
      }
      r := written;
    }

    /** Signs the last record and appends the checkpoint. */
    method PutCheckpoint(context: Context, record: Record, ghost full: seq<Record>, ghost total: nat)
      returns (r: Result<Record, AuditError>)
      requires Valid() && !poisoned && drain.schedule.Some?
      requires records != [] && record == records[|records| - 1]
      requires AppendCheckpoint(drain, records, context) <= full && total == budget + 2 * |records|
      modifies this
      ensures Valid()
      ensures r.Failure? ==> DrainOutcome(full, total, records, Failure(r.error))
      ensures r.Success? ==>
                && !poisoned && records == AppendCheckpoint(drain, old(records), context)
                && total == budget + 2 * |records|
    {
      var checkpoint := SignCheckpoint(drain.schedule.value.signer, record.unsigned.sequence, record.hash);
      ghost var next := NextRecord(drain.digest, records, context, Checkpoint(checkpoint));
      r := Put(context, Checkpoint(checkpoint));
      if r.Failure? {
        PutFails(full, old(records), next, old(budget), total, records, r.error);
      }
    }

    /** One envelope of a drain: its record, then a checkpoint over that record when one is due. */
    method DrainEnvelope(envelope: Envelope, ordinary: nat, ghost full: seq<Record>, ghost total: nat)
      returns (r: Result<nat, AuditError>)
      requires Valid() && !poisoned && ordinary <= |records|
      requires DrainStep(drain, records, envelope, ordinary + 1) <= full && total == budget + 2 * |records|
      modifies this
      ensures Valid()
      ensures r.Failure? ==> DrainOutcome(full, total, records, Failure(r.error))
      ensures r.Success? ==>
                && r.value == ordinary + 1
                && !poisoned && records == DrainStep(drain, old(records), envelope, ordinary + 1)
                && total == budget + 2 * |records|
    {
      ghost var next := NextRecord(drain.digest, records, envelope.context, Redact(drain.redactor, envelope.event));
      var written := Put(envelope.context, envelope.event);
      if written.Failure? {
        PutFails(full, old(records), next, old(budget), total, records, written.error);
        return Failure(written.error);
      }
      var count := SaturatingAdd(ordinary, 1);
      if CheckpointDue(drain, count) {
        var signed := PutCheckpoint(envelope.context, written.value, full, total);
        if signed.Failure? {
          return Failure(signed.error);
        }
      }
      r := Success(count);
    }
  }

  lemma {:induction false} DrainedExtends(drain: Drain, envelopes: seq<Envelope>, n: nat)
    requires n <= |envelopes|
    ensures Drained(drain, envelopes[..n]) <= Drained(drain, envelopes)
  {
    if n == |envelopes| {
      assert envelopes[..n] == envelopes;
    } else {
      var front := envelopes[..|envelopes| - 1];
      DrainedExtends(drain, front, n);
      assert front[..n] == envelopes[..n];
    }
  }

  /** A record that cannot be put leaves exactly the promised prefix of the segment behind. */
  lemma PutFails(
    full: seq<Record>, before: seq<Record>, next: Record, budget: nat, total: nat,
    records: seq<Record>, error: AuditError)
    requires total == budget + 2 * |before|
    requires before + [next] <= full && |before| <= U64_MAX
    requires |before| == U64_MAX || budget < 2
    requires error == if |before| == U64_MAX then SequenceExhausted else WriteFailed
    requires records == if |before| == U64_MAX || budget == 0 then before else before + [next]
    ensures DrainOutcome(full, total, records, Failure(error))
  {
  }

  /** Drains every envelope into one segment, stopping at the first failure. */
  method DrainJsonl(drain: Drain, envelopes: seq<Envelope>, budget: nat)
    returns (records: seq<Record>, r: Result<(), AuditError>)
    ensures DrainOutcome(Drained(drain, envelopes), budget, records, r)
  {
    var sink := new JsonlAuditSink(drain, budget);
    ghost var full := Drained(drain, envelopes);
    var ordinary := 0;
    for i := 0 to |envelopes|
      invariant sink.Valid() && !sink.poisoned && sink.drain == drain
      invariant sink.records == Drained(drain, envelopes[..i])
      invariant budget == sink.budget + 2 * |sink.records|
      invariant ordinary == i
    {
      assert envelopes[..i + 1][..i] == envelopes[..i];
      DrainedExtends(drain, envelopes, i + 1);
      var step := sink.DrainEnvelope(envelopes[i], ordinary, full, budget);
      if step.Failure? {
        return sink.records, Failure(step.error);
      }
      ordinary := step.value;
    }
    assert envelopes[..|envelopes|] == envelopes;
    return sink.records, Success(());
  }
}
