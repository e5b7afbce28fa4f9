/** What offline replay demands of each record of a segment, and what a segment that passes is
    worth: drained segments pass, checkpoints sit where the schedule puts them, and equal hashes
    mean equal histories unless the digest collides. */
module AuditReplay {
  import opened Common
  import opened AuditLog

  datatype Verifier = Verifier(
    digest: Unsigned -> Digest,
    verifies: (Bytes, Bytes, Bytes) -> bool,
    expectedKey: Option<Bytes>,
    bodyPrefixBytes: nat)

  datatype Fault = UnsupportedSchema | EventSchema | Integrity | CheckpointRefused | CaptureTooLong

  predicate SupportedVersion(version: nat) {
    version == 1 || version == 2
  }

  predicate CheckpointVerifies(v: Verifier, c: SignedCheckpoint) {
    v.verifies(c.publicKey, CheckpointMessage(c.coversSequence, c.recordHash), c.signature)
  }

  /** `record` continues a chain that expects `sequence` after a record hashed `previous`. */
  predicate Links(v: Verifier, sequence: nat, previous: Option<Digest>, record: Record) {
    && record.unsigned.sequence == sequence
    && record.unsigned.previous == previous
    && v.digest(record.unsigned) == record.hash
  }

  predicate CheckpointHolds(v: Verifier, sequence: nat, previous: Option<Digest>, c: SignedCheckpoint) {
    && CheckpointVerifies(v, c)
    && (v.expectedKey.Some? ==> c.publicKey == v.expectedKey.value)
    && previous.Some? && c.coversSequence == SaturatingSub(sequence, 1) && c.recordHash == previous.value
  }

  /** The first objection to a record, in the order replay raises them. */
  function RecordFault(v: Verifier, sequence: nat, previous: Option<Digest>, record: Record): Option<Fault> {
    if !SupportedVersion(record.unsigned.version) then Some(UnsupportedSchema)
    else if record.unsigned.version == 1 && record.unsigned.event.HttpRepeatStarted? then Some(EventSchema)
    else if !Links(v, sequence, previous, record) then Some(Integrity)
    else if record.unsigned.event.Checkpoint? && !CheckpointHolds(v, sequence, previous, record.unsigned.event.checkpoint)
      then Some(CheckpointRefused)
    else if record.unsigned.event.PayloadPrefixCaptured? && |record.unsigned.event.bytes| > v.bodyPrefixBytes
      then Some(CaptureTooLong)
    else None
  }

  /** Record `i` is faultless where it stands. */
  predicate Sound(v: Verifier, records: seq<Record>, i: nat)
    requires i < |records|
  {
    RecordFault(v, Saturate(i + 1), LastHash(records[..i]), records[i]).None?
  }

  predicate Intact(v: Verifier, records: seq<Record>) {
    forall i | 0 <= i < |records| :: Sound(v, records, i)
  }

  predicate HoldsCheckpoint(records: seq<Record>) {
    exists i | 0 <= i < |records| :: records[i].unsigned.event.Checkpoint?
  }

  /** A segment replay accepts: every record is faultless, and a required key signed something. */
  predicate Accepted(v: Verifier, records: seq<Record>) {
    Intact(v, records) && (v.expectedKey.Some? ==> HoldsCheckpoint(records))
  }

  lemma IntactPrefix(v: Verifier, records: seq<Record>, n: nat)
    requires n <= |records| && Intact(v, records)
    ensures Intact(v, records[..n])
  {
    forall i | 0 <= i < n ensures Sound(v, records[..n], i) {
      assert Sound(v, records, i);
      assert records[..n][..i] == records[..i];
    }
  }

  lemma IntactAppend(v: Verifier, records: seq<Record>, record: Record)
    requires Intact(v, records)
    ensures Intact(v, records + [record])
            <==> RecordFault(v, Saturate(|records| + 1), LastHash(records), record).None?
  {
    var all := records + [record];
    assert all[..|records|] == records;
    forall i | 0 <= i < |records| ensures Sound(v, all, i) {
      assert Sound(v, records, i);
      assert all[..i] == records[..i];
    }
    if Intact(v, all) {
      assert Sound(v, all, |records|);
    }
  }

  // ---- Drained segments are accepted ----

  /** The verifier hashes as the drain does, its limit admits what was captured, and Ed25519 holds:
      the signer's signatures verify under the signer's key. */
  ghost predicate Agrees(v: Verifier, drain: Drain) {
    && v.digest == drain.digest
    && (drain.schedule.Some? ==>
          var signer := drain.schedule.value.signer;
          forall m: Bytes :: v.verifies(signer.publicKey, m, signer.signature(m)))
    && (v.expectedKey.Some? && drain.schedule.Some? ==>
          v.expectedKey.value == drain.schedule.value.signer.publicKey)
  }

  /** Producers publish no checkpoints of their own and no capture beyond the limit. */
  predicate Ordinary(v: Verifier, event: Event) {
    !event.Checkpoint? && (event.PayloadPrefixCaptured? ==> |event.bytes| <= v.bodyPrefixBytes)
  }

  predicate AllOrdinary(v: Verifier, envelopes: seq<Envelope>) {
    forall e | e in envelopes :: Ordinary(v, e.event)
  }

  lemma OrdinaryIsSound(v: Verifier, drain: Drain, records: seq<Record>, envelope: Envelope)
    requires Agrees(v, drain) && Ordinary(v, envelope.event)
    requires Intact(v, records) && |records| < U64_MAX
    ensures Intact(v, AppendOrdinary(drain, records, envelope))
  {
    var next := NextRecord(drain.digest, records, envelope.context, Redact(drain.redactor, envelope.event));
    IntactAppend(v, records, next);
  }

  lemma CheckpointIsSound(v: Verifier, drain: Drain, records: seq<Record>, context: Context)
    requires Agrees(v, drain) && drain.schedule.Some? && records != []
    requires records[|records| - 1].unsigned.sequence == |records|
    requires Intact(v, records) && |records| < U64_MAX
    ensures Intact(v, AppendCheckpoint(drain, records, context))
  {
    var event := CheckpointEvent(drain, records);
    var next := NextRecord(drain.digest, records, context, event);
    var c := event.checkpoint;
    assert CheckpointVerifies(v, c);
    assert CheckpointHolds(v, |records| + 1, LastHash(records), c);
    IntactAppend(v, records, next);
  }

  lemma {:induction false} DrainedIsIntact(v: Verifier, drain: Drain, envelopes: seq<Envelope>)
    requires Agrees(v, drain) && AllOrdinary(v, envelopes) && |Drained(drain, envelopes)| <= U64_MAX
    ensures Intact(v, Drained(drain, envelopes))
  {
    if envelopes != [] {
      var k := |envelopes| - 1;
      var before := Drained(drain, envelopes[..k]);
      DrainedIsIntact(v, drain, envelopes[..k]);
      assert envelopes[k] in envelopes;
      OrdinaryIsSound(v, drain, before, envelopes[k]);
      if CheckpointDue(drain, |envelopes|) {
        CheckpointIsSound(v, drain, AppendOrdinary(drain, before, envelopes[k]), envelopes[k].context);
      }
    }
  }

  // ---- Where checkpoints stand ----

  /** `n` ordinary events under a schedule of interval `k` make `n + n / k` records. */
  function RecordCount(drain: Drain, n: nat): nat {
    if drain.schedule.None? then n else n + n / drain.schedule.value.interval
  }

  lemma DivStep(n: nat, k: nat)
    requires k > 0
    ensures (n + 1) / k == n / k + if (n + 1) % k == 0 then 1 else 0
  {
    var q, r := n / k, n % k;
    if r + 1 < k {
      Quotient(n + 1, k, q, r + 1);
    } else {
      assert n + 1 == (q + 1) * k;
      Quotient(n + 1, k, q + 1, 0);
    }
  }

  lemma Quotient(n: nat, k: nat, q: nat, r: nat)
    requires k > 0 && r < k && n == q * k + r
    ensures n / k == q && n % k == r
  {
    var p := n / k;
    if p < q {
      ProductGrows(p, q, k);
    } else if q < p {
      ProductGrows(q, p, k);
    }
  }

  lemma {:induction false} ProductGrows(p: nat, q: nat, k: nat)
    requires p < q
    ensures p * k + k <= q * k
    decreases q - p
  {
    assert (q - 1) * k + k == q * k;
    if p + 1 < q {
      ProductGrows(p, q - 1, k);
    }
  }

  lemma {:induction false} DrainedLength(drain: Drain, envelopes: seq<Envelope>)
    ensures |Drained(drain, envelopes)| == RecordCount(drain, |envelopes|)
  {
    if envelopes != [] {
      DrainedLength(drain, envelopes[..|envelopes| - 1]);
      if drain.schedule.Some? {
        DivStep(|envelopes| - 1, drain.schedule.value.interval);
      }
    }
  }

  /** Envelope `j` is recorded, redacted and in order, at its place among the checkpoints. */
  lemma {:induction false} OrdinaryPosition(drain: Drain, envelopes: seq<Envelope>, j: nat)
    requires j < |envelopes|
    ensures var records := Drained(drain, envelopes);
            var at := RecordCount(drain, j);
            && at < |records|
            && records[at].unsigned.event == Redact(drain.redactor, envelopes[j].event)
            && records[at].unsigned.context == envelopes[j].context
  {
    DrainedLength(drain, envelopes[..j]);
    assert envelopes[..j + 1][..j] == envelopes[..j];
    DrainedExtends(drain, envelopes, j + 1);
  }

  /** The checkpoint after envelope `j` covers that envelope's record, its sequence and its hash. */
  lemma {:induction false} CheckpointPosition(drain: Drain, envelopes: seq<Envelope>, j: nat)
    requires j < |envelopes| && CheckpointDue(drain, j + 1)
    ensures var records := Drained(drain, envelopes);
            var at := RecordCount(drain, j);
            && at + 1 < |records|
            && records[at + 1].unsigned.event
               == Checkpoint(SignCheckpoint(drain.schedule.value.signer, at + 1, records[at].hash))
  {
    DrainedLength(drain, envelopes[..j]);
    assert envelopes[..j + 1][..j] == envelopes[..j];
    DrainedExtends(drain, envelopes, j + 1);
  }

  /** A record of a drained segment is a checkpoint exactly when it closes an interval. */
  predicate CheckpointAt(drain: Drain, i: nat) {
    drain.schedule.Some? && (i + 1) % (drain.schedule.value.interval + 1) == 0
  }

  /** Record numbers of the `n`-th ordinary event and of the checkpoint closing its interval. */
  lemma PositionModulo(n: nat, k: nat)
    requires k > 0
    ensures (n + n / k + 1) % (k + 1) != 0
    ensures (n + 1) % k == 0 ==> (n + n / k + 2) % (k + 1) == 0
  {
    var q, r := n / k, n % k;
    assert n == q * k + r;
    assert n + q + 1 == q * (k + 1) + (r + 1);
    if r + 1 < k {
      Quotient(n + q + 1, k + 1, q, r + 1);
      Quotient(n + 1, k, q, r + 1);
    } else {
      Quotient(n + q + 1, k + 1, q, k);
      assert n + q + 2 == (q + 1) * (k + 1);
      Quotient(n + q + 2, k + 1, q + 1, 0);
    }
  }

  lemma {:induction false} CheckpointsCloseIntervals(v: Verifier, drain: Drain, envelopes: seq<Envelope>, i: nat)
    requires AllOrdinary(v, envelopes) && i < |Drained(drain, envelopes)|
    ensures Drained(drain, envelopes)[i].unsigned.event.Checkpoint? <==> CheckpointAt(drain, i)
  {
    var k := |envelopes| - 1;
    var before := Drained(drain, envelopes[..k]);
    if i < |before| {
      CheckpointsCloseIntervals(v, drain, envelopes[..k], i);
    } else {
      DrainedLength(drain, envelopes[..k]);
      assert envelopes[k] in envelopes;
      if drain.schedule.Some? {
        PositionModulo(k, drain.schedule.value.interval);
      }
    }
  }

  lemma HoldsAt(records: seq<Record>, i: nat)
    requires i < |records| && records[i].unsigned.event.Checkpoint?
    ensures HoldsCheckpoint(records)
  {
  }

  lemma HoldsAfterInterval(drain: Drain, envelopes: seq<Envelope>)
    requires drain.schedule.Some? && |envelopes| >= drain.schedule.value.interval
    ensures HoldsCheckpoint(Drained(drain, envelopes))
  {
    var j := drain.schedule.value.interval - 1;
    Quotient(j + 1, j + 1, 1, 0);
    CheckpointPosition(drain, envelopes, j);
    HoldsAt(Drained(drain, envelopes), RecordCount(drain, j) + 1);
  }

  lemma HoldsNoneBeforeInterval(v: Verifier, drain: Drain, envelopes: seq<Envelope>, records: seq<Record>)
    requires AllOrdinary(v, envelopes) && records == Drained(drain, envelopes)
    requires drain.schedule.Some? ==> |envelopes| < drain.schedule.value.interval
    ensures !HoldsCheckpoint(records)
  {
    DrainedLength(drain, envelopes);
    forall i | 0 <= i < |records| ensures !records[i].unsigned.event.Checkpoint? {
      CheckpointsCloseIntervals(v, drain, envelopes, i);
      NoneBeforeInterval(drain, envelopes, i);
    }
  }

  /** Replay accepts a whole drained segment; a required key additionally needs one full interval. */
  lemma DrainedIsAccepted(v: Verifier, drain: Drain, envelopes: seq<Envelope>)
    requires Agrees(v, drain) && AllOrdinary(v, envelopes) && RecordCount(drain, |envelopes|) <= U64_MAX
    ensures Accepted(v, Drained(drain, envelopes))
            <==> v.expectedKey.None?
                 || (drain.schedule.Some? && |envelopes| >= drain.schedule.value.interval)
  {
    DrainedLength(drain, envelopes);
    DrainedIsIntact(v, drain, envelopes);
    if drain.schedule.Some? && |envelopes| >= drain.schedule.value.interval {
      HoldsAfterInterval(drain, envelopes);
    } else {
      HoldsNoneBeforeInterval(v, drain, envelopes, Drained(drain, envelopes));
    }
  }

  lemma NoneBeforeInterval(drain: Drain, envelopes: seq<Envelope>, i: nat)
    requires drain.schedule.Some? ==> |envelopes| < drain.schedule.value.interval
    requires i < RecordCount(drain, |envelopes|)
    ensures !CheckpointAt(drain, i)
  {
  }

  /** A segment cut short by a failing writer still replays, up to where it stops. */
  lemma FailedDrainIsIntact(
    v: Verifier, drain: Drain, envelopes: seq<Envelope>, budget: nat, records: seq<Record>, r: Result<(), AuditError>)
    requires Agrees(v, drain) && AllOrdinary(v, envelopes)
    requires DrainOutcome(Drained(drain, envelopes), budget, records, r)
    ensures Intact(v, records)
  {
    BoundedDrainIsIntact(v, drain, envelopes, |records|);
  }

  lemma {:induction false} BoundedDrainIsIntact(v: Verifier, drain: Drain, envelopes: seq<Envelope>, n: nat)
    requires Agrees(v, drain) && AllOrdinary(v, envelopes)
    requires n <= |Drained(drain, envelopes)| && n <= U64_MAX
    ensures Intact(v, Drained(drain, envelopes)[..n])
  {
    var full := Drained(drain, envelopes);
    if |full| <= U64_MAX {
      DrainedIsIntact(v, drain, envelopes);
      IntactPrefix(v, full, n);
    } else {
      var k := |envelopes| - 1;
      var before := Drained(drain, envelopes[..k]);
      if n <= |before| {
        BoundedDrainIsIntact(v, drain, envelopes[..k], n);
        assert full[..n] == before[..n];
      } else {
        DrainedIsIntact(v, drain, envelopes[..k]);
        assert envelopes[k] in envelopes;
        OrdinaryIsSound(v, drain, before, envelopes[k]);
        assert full[..n] == AppendOrdinary(drain, before, envelopes[k]);
      }
    }
  }

  // ---- What equal hashes commit to ----

  predicate Collide(digest: Unsigned -> Digest, x: Unsigned, y: Unsigned) {
    x != y && digest(x) == digest(y)
  }

  /** Two records, one from each segment, on which the digest collides. */
  predicate Collision(digest: Unsigned -> Digest, a: seq<Record>, b: seq<Record>) {
    exists i, j | 0 <= i < |a| && 0 <= j < |b| :: Collide(digest, a[i].unsigned, b[j].unsigned)
  }

  lemma CollisionGrows(digest: Unsigned -> Digest, a: seq<Record>, b: seq<Record>, m: nat, n: nat)
    requires m <= |a| && n <= |b| && Collision(digest, a[..m], b[..n])
    ensures Collision(digest, a, b)
  {
  }

  lemma LastIsLinked(v: Verifier, records: seq<Record>)
    requires Intact(v, records) && records != []
    ensures var last := records[|records| - 1];
            && v.digest(last.unsigned) == last.hash
            && last.unsigned.previous == LastHash(records[..|records| - 1])
  {
    assert Sound(v, records, |records| - 1);
  }

  /** Intact segments of any lengths that end in the same hash are the same segment, or the digest
      collides on records they hold. Altering, dropping, inserting or reordering records therefore
      changes the last hash. */
  lemma {:induction false} LastHashCommits(v: Verifier, a: seq<Record>, b: seq<Record>)
    requires Intact(v, a) && Intact(v, b)
    requires LastHash(a) == LastHash(b)
    ensures a == b || Collision(v.digest, a, b)
    decreases |a|
  {
    if a != [] && b != [] {
      var m, n := |a| - 1, |b| - 1;
      LastIsLinked(v, a);
      LastIsLinked(v, b);
      if a[m].unsigned != b[n].unsigned {
        assert Collide(v.digest, a[m].unsigned, b[n].unsigned);
      } else {
        IntactPrefix(v, a, m);
        IntactPrefix(v, b, n);
        LastHashCommits(v, a[..m], b[..n]);
        if a[..m] == b[..n] {
          assert a == a[..m] + [a[m]] && b == b[..n] + [b[n]];
        } else {
          CollisionGrows(v.digest, a, b, m, n);
        }
      }
    }
  }

  /** What one signature is worth: two intact segments holding checkpoints over the same signed
      message agree on every record before those checkpoints, or the digest collides. */
  lemma CheckpointFixesHistory(v: Verifier, a: seq<Record>, b: seq<Record>, i: nat, j: nat)
    requires Intact(v, a) && Intact(v, b) && i < |a| && j < |b|
    requires a[i].unsigned.event.Checkpoint? && b[j].unsigned.event.Checkpoint?
    requires var x := a[i].unsigned.event.checkpoint;
             var y := b[j].unsigned.event.checkpoint;
             CheckpointMessage(x.coversSequence, x.recordHash) == CheckpointMessage(y.coversSequence, y.recordHash)
    ensures a[..i] == b[..j] || Collision(v.digest, a, b)
  {
    var x, y := a[i].unsigned.event.checkpoint, b[j].unsigned.event.checkpoint;
    assert Sound(v, a, i) && Sound(v, b, j);
    CheckpointMessageInjective(x.coversSequence, x.recordHash, y.coversSequence, y.recordHash);
    IntactPrefix(v, a, i);
    IntactPrefix(v, b, j);
    LastHashCommits(v, a[..i], b[..j]);
    if a[..i] != b[..j] {
      CollisionGrows(v.digest, a, b, i, j);
    }
  }
}
