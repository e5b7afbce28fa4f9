/** The bounded queue between the data plane and the audit writer, as publishers experience it. */
module AuditQueue {
  import opened Common

  /** Fail-closed publishing waits for room and so delivers everything until the consumer goes away,
      here after `sends` more records; then it fails the flow. Fail-open publishing never waits and
      never fails: `accepts` says which of the coming attempts find room, and the others are dropped.
      Attempts beyond the list find room. */
  datatype Queue = FailClosed(sends: nat) | FailOpen(accepts: seq<bool>)

  /** Publishing `n` records ends in an error. */
  predicate Refuses(q: Queue, n: nat) {
    q.FailClosed? && q.sends < n
  }

  predicate Accepts(accepts: seq<bool>, i: nat) {
    i >= |accepts| || accepts[i]
  }

  function Surviving<T>(accepts: seq<bool>, owed: seq<T>): (r: seq<T>)
    ensures |r| <= |owed|
  {
    if owed == [] then []
    else
      var k := |owed| - 1;
      if Accepts(accepts, k) then Surviving(accepts, owed[..k]) + [owed[k]] else Surviving(accepts, owed[..k])
  }

  /** What reaches the writer of the records a publisher owes. */
  function Delivered<T>(q: Queue, owed: seq<T>): seq<T> {
    match q
    case FailClosed(sends) => owed[..Min(sends, |owed|)]
    case FailOpen(accepts) => Surviving(accepts, owed)
  }

  function After(q: Queue, n: nat): Queue {
    match q
    case FailClosed(sends) => FailClosed(SaturatingSub(sends, n))
    case FailOpen(accepts) => FailOpen(accepts[Min(n, |accepts|)..])
  }

  /** Nothing is dropped, though publishing may yet fail. */
  predicate Lossless(q: Queue) {
    q.FailOpen? ==> forall i | 0 <= i < |q.accepts| :: q.accepts[i]
  }

  lemma AcceptsShift(accepts: seq<bool>, n: nat, i: nat)
    ensures Accepts(accepts[Min(n, |accepts|)..], i) == Accepts(accepts, n + i)
  {
  }

  lemma {:induction false} SurvivingConcat<T>(accepts: seq<bool>, a: seq<T>, b: seq<T>)
    ensures Surviving(accepts, a + b) == Surviving(accepts, a) + Surviving(accepts[Min(|a|, |accepts|)..], b)
  {
    if b == [] {
      assert a + b == a;
    } else {
      var k := |b| - 1;
      SurvivingConcat(accepts, a, b[..k]);
      AcceptsShift(accepts, |a|, k);
      ConcatFront(a, b);
    }
  }

  /** Publishing in two parts delivers what publishing at once does. */
  lemma DeliveredConcat<T>(q: Queue, a: seq<T>, b: seq<T>)
    ensures Refuses(q, |a|) ==> Delivered(q, a + b) == Delivered(q, a)
    ensures !Refuses(q, |a|) ==> Delivered(q, a + b) == Delivered(q, a) + Delivered(After(q, |a|), b)
    ensures !Refuses(q, |a|) ==> (Refuses(q, |a + b|) <==> Refuses(After(q, |a|), |b|))
    ensures Refuses(q, |a|) ==> Refuses(q, |a + b|) && After(q, |a + b|) == After(q, |a|)
    ensures !Refuses(q, |a|) ==> After(q, |a + b|) == After(After(q, |a|), |b|)
  {
    if q.FailOpen? {
      SurvivingConcat(q.accepts, a, b);
    }
  }

  /** Everything still owed is delivered, refused and queued as `rest` says, after `records`. */
  ghost predicate Remains<T>(queue: Queue, owed: seq<T>, records: seq<T>, left: Queue, rest: seq<T>) {
    && Delivered(queue, owed) == records + Delivered(left, rest)
    && (Refuses(queue, |owed|) <==> Refuses(left, |rest|))
  }

  lemma RemainsStep<T>(queue: Queue, owed: seq<T>, records: seq<T>, left: Queue, next: seq<T>, rest: seq<T>)
    requires Remains(queue, owed, records, left, next + rest)
    ensures Refuses(left, |next|) ==>
              Delivered(queue, owed) == records + Delivered(left, next) && Refuses(queue, |owed|)
    ensures !Refuses(left, |next|) ==>
              Remains(queue, owed, records + Delivered(left, next), After(left, |next|), rest)
  {
    DeliveredConcat(left, next, rest);
    Regrouped(records, Delivered(left, next), Delivered(After(left, |next|), rest));
  }

  lemma {:induction false} SurvivingAll<T>(accepts: seq<bool>, owed: seq<T>)
    requires forall i | 0 <= i < |accepts| :: accepts[i]
    ensures Surviving(accepts, owed) == owed
  {
    if owed != [] {
      SurvivingAll(accepts, owed[..|owed| - 1]);
    }
  }

  /** A lossless queue that does not refuse delivers everything. */
  lemma LosslessDelivers<T>(q: Queue, owed: seq<T>)
    requires Lossless(q) && !Refuses(q, |owed|)
    ensures Delivered(q, owed) == owed
  {
    if q.FailOpen? {
      SurvivingAll(q.accepts, owed);
    }
  }

  /** `part` is what is left of `whole` after dropping elements, in the same order. */
  predicate Subsequence<T(==)>(part: seq<T>, whole: seq<T>)
    decreases |whole|
  {
    part == [] ||
    (whole != [] &&
     var front, last := whole[..|whole| - 1], whole[|whole| - 1];
     || (part[|part| - 1] == last && Subsequence(part[..|part| - 1], front))
     || Subsequence(part, front))
  }

  lemma {:induction false} SurvivingInOrder<T>(accepts: seq<bool>, owed: seq<T>)
    ensures Subsequence(Surviving(accepts, owed), owed)
  {
    if owed != [] {
      var k := |owed| - 1;
      var before := Surviving(accepts, owed[..k]);
      SurvivingInOrder(accepts, owed[..k]);
      assert (before + [owed[k]])[..|before|] == before;
    }
  }

  lemma {:induction false} PrefixInOrder<T>(part: seq<T>, whole: seq<T>)
    requires part <= whole
    ensures Subsequence(part, whole)
    decreases |whole|
  {
    if part != [] {
      var front := whole[..|whole| - 1];
      if |part| == |whole| {
        PrefixInOrder(part[..|part| - 1], front);
      } else {
        PrefixInOrder(part, front);
      }
    }
  }

  /** Under either policy the writer gets the owed records, less some, in the order they were owed. */
  lemma DeliveredInOrder<T>(q: Queue, owed: seq<T>)
    ensures Subsequence(Delivered(q, owed), owed)
  {
    match q
    case FailClosed(sends) => PrefixInOrder(owed[..Min(sends, |owed|)], owed);
    case FailOpen(accepts) => SurvivingInOrder(accepts, owed);
  }
}
