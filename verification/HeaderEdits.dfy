/** Typed HTTP header edits: the diff an operator's edit becomes, its application to the
    request, and the framing rebuilt around the body. */
module HeaderEdits {
  import opened Common
  import opened Decimals

  /** A lower-case header name. */
  datatype HeaderName = HeaderName(text: string)

  const CONTENT_LENGTH := HeaderName("content-length")
  const TRANSFER_ENCODING := HeaderName("transfer-encoding")
  const TRAILER := HeaderName("trailer")

  type RawHeaders = map<HeaderName, seq<Bytes>>

  /** Header values by name; a present name has at least one value. */
  type Headers = h: RawHeaders | forall n | n in h :: h[n] != [] witness map[]

  function Values(h: Headers, name: HeaderName): seq<Bytes> {
    if name in h then h[name] else []
  }

  /** Header maps are equal when they agree on every name. */
  lemma SameValues(a: Headers, b: Headers)
    requires forall n: HeaderName :: Values(a, n) == Values(b, n)
    ensures a == b
  {
    forall n: HeaderName
      ensures n in a <==> n in b
      ensures n in a && n in b ==> a[n] == b[n]
    {
      assert Values(a, n) == Values(b, n);
    }
    assert a.Keys == b.Keys;
  }

  /** Replaces the values of a name, dropping it when there are none. */
  function With(h: Headers, name: HeaderName, values: seq<Bytes>): Headers {
    if values == [] then map n | n in h && n != name :: h[n] else h[name := values]
  }

  lemma WithValues(h: Headers, name: HeaderName, values: seq<Bytes>, n: HeaderName)
    ensures Values(With(h, name, values), n) == if n == name then values else Values(h, n)
  {
  }

  /** Names that steer the connection or frame the message; only the proxy sets them. */
  const PROTECTED: seq<string> := [
    "connection", "host", "keep-alive", "proxy-authenticate", "proxy-authorization", "proxy-connection",
    "content-length", "te", "trailer", "transfer-encoding", "upgrade"]

  predicate Listed(name: string, names: seq<string>) {
    names != [] && (name == names[0] || Listed(name, names[1..]))
  }

  predicate Protected(name: HeaderName) {
    Listed(name.text, PROTECTED)
  }

  datatype HeaderMutation =
    | Set(name: HeaderName, value: Bytes)
    | Append(name: HeaderName, value: Bytes)
    | Remove(name: HeaderName)

  datatype MutationError =
    | ProtectedHeader(name: HeaderName)
    | BodyTooLarge(actual: nat, maximum: nat)

  datatype BodyPlan = Keep | Replace(bytes: Bytes)

  // ---- Applying a plan ----

  function Mutate(h: Headers, m: HeaderMutation): Headers {
    match m
    case Set(name, value) => With(h, name, [value])
    case Append(name, value) => With(h, name, Values(h, name) + [value])
    case Remove(name) => With(h, name, [])
  }

  /** A plan's effect when nothing in it is refused. */
  function Patched(h: Headers, plan: seq<HeaderMutation>): Headers {
    if plan == [] then h else Mutate(Patched(h, plan[..|plan| - 1]), plan[|plan| - 1])
  }

  predicate Refused(m: HeaderMutation) {
    Protected(m.name)
  }

  /** How much of a plan is applied before a protected name stops it. */
  function Applicable(plan: seq<HeaderMutation>): (n: nat)
    ensures n <= |plan| && (n < |plan| ==> Refused(plan[n])) && forall i | 0 <= i < n :: !Refused(plan[i])
  {
    if plan == [] then 0
    else
      var n := Applicable(plan[..|plan| - 1]);
      if n < |plan| - 1 || Refused(plan[|plan| - 1]) then n else |plan|
  }

  /** The headers of one request or response, changed in place. */
  class HeaderTable {
    var entries: Headers

    constructor (entries: Headers)
      ensures this.entries == entries
    {
      this.entries := entries;
    }

    method Insert(name: HeaderName, value: Bytes)
      modifies this
      ensures entries == With(old(entries), name, [value])
    {
      entries := entries[name := [value]];
    }

    method AppendValue(name: HeaderName, value: Bytes)
      modifies this
      ensures entries == With(old(entries), name, Values(old(entries), name) + [value])
    {
      entries := entries[name := (if name in entries then entries[name] else []) + [value]];
    }

    method RemoveName(name: HeaderName)
      modifies this
      ensures entries == With(old(entries), name, [])
    {
      entries := map n | n in entries && n != name :: entries[n];
    }

    method RemoveNames(names: seq<HeaderName>)
      modifies this
      ensures entries == Without(old(entries), names)
    {
      WithoutNone(entries);
      for i := 0 to |names|
        invariant entries == Without(old(entries), names[..i])
      {
        WithoutStep(old(entries), names[..i], names[i]);
        assert names[..i + 1] == names[..i] + [names[i]];
        RemoveName(names[i]);
      }
      assert names[..|names|] == names;
    }

    /** Applies a plan up to the first protected name, which it reports; what came before stays applied. */
    method ApplyHeadMutation(plan: seq<HeaderMutation>) returns (r: Result<(), MutationError>)
      modifies this
      ensures var n := Applicable(plan);
              && entries == Patched(old(entries), plan[..n])
              && r == if n == |plan| then Success(()) else Failure(ProtectedHeader(plan[n].name))
    {
      assert plan[..0] == [];
      for i := 0 to |plan|
        invariant entries == Patched(old(entries), plan[..i]) && i <= Applicable(plan)
      {
        var m := plan[i];
        if Protected(m.name) {
          return Failure(ProtectedHeader(m.name));
        }
        assert plan[..i + 1][..i] == plan[..i];
        match m {
          case Set(name, value) => Insert(name, value);
          case Append(name, value) => AppendValue(name, value);
          case Remove(name) => RemoveName(name);
        }
      }
      r := Success(());
    }

    /** Drops metadata that described the body before it was replaced. */
    method NormalizeReplacedBodyHeaders()
      modifies this
      ensures entries == Without(old(entries), REPRESENTATION)
    {
      RemoveNames(REPRESENTATION);
    }

    /** Applies a plan and rebuilds framing for the body that results. */
    method ApplyHttpMutation(body: Bytes, head: seq<HeaderMutation>, plan: BodyPlan, maximum: nat)
      returns (r: Result<Bytes, MutationError>)
      modifies this
      ensures r == HttpMutation(old(entries), body, head, plan, maximum).0
      ensures entries == HttpMutation(old(entries), body, head, plan, maximum).1
    {
      var applied := ApplyHeadMutation(head);
      if applied.Failure? {
        return Failure(applied.error);
      }
      assert head[..|head|] == head;
      r := ApplyBodyMutation(body, plan, maximum);
      if r.Failure? {
        return;
      }
      if plan.Replace? {
        NormalizeReplacedBodyHeaders();
      }
      RemoveName(TRANSFER_ENCODING);
      RemoveName(TRAILER);
      Insert(CONTENT_LENGTH, ToDecimal(|r.value|));
    }
  }

  const REPRESENTATION: seq<HeaderName> := [
    HeaderName("content-encoding"), HeaderName("content-range"), HeaderName("etag"),
    HeaderName("content-md5"), HeaderName("digest")]

  function Without(h: Headers, names: seq<HeaderName>): Headers {
    map n | n in h && n !in names :: h[n]
  }

  lemma WithoutNone(h: Headers)
    ensures Without(h, []) == h
  {
  }

  lemma WithoutStep(h: Headers, names: seq<HeaderName>, name: HeaderName)
    ensures With(Without(h, names), name, []) == Without(h, names + [name])
  {
  }

  /** An unchanged body of any size is allowed; a replacement is bounded. */
  function ApplyBodyMutation(body: Bytes, plan: BodyPlan, maximum: nat): Result<Bytes, MutationError> {
    match plan
    case Keep => Success(body)
    case Replace(bytes) => if |bytes| > maximum then Failure(BodyTooLarge(|bytes|, maximum)) else Success(bytes)
  }

  /** Headers framed for a body of `length` bytes. */
  function Framed(h: Headers, replaced: bool, length: nat): Headers {
    var described := if replaced then Without(h, REPRESENTATION) else h;
    With(With(With(described, TRANSFER_ENCODING, []), TRAILER, []), CONTENT_LENGTH, [ToDecimal(length)])
  }

  /** What applying a whole mutation returns, and the headers it leaves. */
  function HttpMutation(h: Headers, body: Bytes, head: seq<HeaderMutation>, plan: BodyPlan, maximum: nat)
    : (Result<Bytes, MutationError>, Headers)
  {
    var n := Applicable(head);
    var output := ApplyBodyMutation(body, plan, maximum);
    if n < |head| then (Failure(ProtectedHeader(head[n].name)), Patched(h, head[..n]))
    else if output.Failure? then (output, Patched(h, head))
    else (output, Framed(Patched(h, head), plan.Replace?, |output.value|))
  }

  // ---- The diff of an edit ----

  predicate Differs(original: Headers, desired: Headers, name: HeaderName) {
    Values(original, name) != Values(desired, name)
  }

  function Appends(name: HeaderName, values: seq<Bytes>): seq<HeaderMutation> {
    if values == [] then [] else Appends(name, values[..|values| - 1]) + [Append(name, values[|values| - 1])]
  }

  /** Removes a changed name and appends the values wanted for it. */
  function NameDiff(original: Headers, desired: Headers, name: HeaderName): seq<HeaderMutation> {
    if Differs(original, desired, name) then [Remove(name)] + Appends(name, Values(desired, name)) else []
  }

  function Diff(original: Headers, desired: Headers, names: seq<HeaderName>): seq<HeaderMutation> {
    if names == [] then []
    else
      var k := |names| - 1;
      Diff(original, desired, names[..k]) + NameDiff(original, desired, names[k])
  }

  /** `keys` lists the names of a header map once each, in whatever order it iterates. */
  predicate Lists(keys: seq<HeaderName>, h: Headers) {
    (set n | n in keys) == h.Keys && |keys| == |h|
  }

  /** Names of both maps, each once, in the order first met. */
  function MergedNames(keys: seq<HeaderName>): seq<HeaderName> {
    if keys == [] then []
    else
      var k := |keys| - 1;
      var before := MergedNames(keys[..k]);
      if keys[k] in keys[..k] then before else before + [keys[k]]
  }

  lemma {:induction false} MergedNamesExact(keys: seq<HeaderName>, name: HeaderName)
    ensures name in MergedNames(keys) <==> name in keys
  {
    if keys != [] {
      var k := |keys| - 1;
      MergedNamesExact(keys[..k], name);
      assert keys == keys[..k] + [keys[k]];
    }
  }

  method CollectNames(keys: seq<HeaderName>) returns (names: seq<HeaderName>)
    ensures names == MergedNames(keys)
  {
    var seen: set<HeaderName> := {};
    names := [];
    for i := 0 to |keys|
      invariant seen == set n | n in keys[..i]
      invariant names == MergedNames(keys[..i])
    {
      assert keys[..i + 1][..i] == keys[..i];
      assert keys[i] in seen <==> keys[i] in keys[..i];
      if keys[i] !in seen {
        names := names + [keys[i]];
        seen := seen + {keys[i]};
      }
    }
    assert keys[..|keys|] == keys;
  }

  lemma DiffAppend(original: Headers, desired: Headers, names: seq<HeaderName>, i: nat)
    requires i < |names|
    ensures Diff(original, desired, names[..i + 1])
            == Diff(original, desired, names[..i]) + NameDiff(original, desired, names[i])
  {
    assert names[..i + 1][..i] == names[..i];
  }

  /** Turns an edit into replacements of the names it changed. */
  method HeaderDiff(original: Headers, desired: Headers, originalKeys: seq<HeaderName>, desiredKeys: seq<HeaderName>)
    returns (plan: seq<HeaderMutation>)
    ensures plan == Diff(original, desired, MergedNames(originalKeys + desiredKeys))
  {
    var names := CollectNames(originalKeys + desiredKeys);
    plan := [];
    for i := 0 to |names|
      invariant plan == Diff(original, desired, names[..i])
    {
      DiffAppend(original, desired, names, i);
      plan := plan + NameDiff(original, desired, names[i]);
    }
    assert names[..|names|] == names;
  }

  // ---- Diff and patch are inverse ----

  lemma PatchedAppend(h: Headers, plan: seq<HeaderMutation>, m: HeaderMutation)
    ensures Patched(h, plan + [m]) == Mutate(Patched(h, plan), m)
  {
  }

  lemma {:induction false} PatchedConcat(h: Headers, a: seq<HeaderMutation>, b: seq<HeaderMutation>)
    ensures Patched(h, a + b) == Patched(Patched(h, a), b)
    decreases |b|
  {
    if b == [] {
      assert a + b == a;
    } else {
      var front, last := b[..|b| - 1], b[|b| - 1];
      PatchedConcat(h, a, front);
      PatchedAppend(h, a + front, last);
      PatchedAppend(Patched(h, a), front, last);
      ConcatLast(a, b);
    }
  }

  lemma WithTwice(h: Headers, name: HeaderName, first: seq<Bytes>, second: seq<Bytes>)
    ensures With(With(h, name, first), name, second) == With(h, name, second)
  {
  }

  lemma {:induction false} AppendsFill(h: Headers, name: HeaderName, values: seq<Bytes>)
    requires Values(h, name) == []
    ensures Patched(h, Appends(name, values)) == With(h, name, values)
  {
    if values == [] {
      SameValues(h, With(h, name, []));
    } else {
      var k := |values| - 1;
      AppendsFill(h, name, values[..k]);
      var before := Appends(name, values[..k]);
      assert (before + [Append(name, values[k])])[..|before|] == before;
      assert values == values[..k] + [values[k]];
      WithTwice(h, name, values[..k], values);
    }
  }

  lemma NameDiffPatches(h: Headers, original: Headers, desired: Headers, name: HeaderName)
    requires Values(h, name) == Values(original, name) || Values(h, name) == Values(desired, name)
    ensures Patched(h, NameDiff(original, desired, name)) == With(h, name, Values(desired, name))
  {
    if Differs(original, desired, name) {
      var removal := [Remove(name)];
      PatchedConcat(h, removal, Appends(name, Values(desired, name)));
      assert removal[..0] == [];
      assert Patched(h, removal) == With(h, name, []);
      AppendsFill(With(h, name, []), name, Values(desired, name));
      WithTwice(h, name, [], Values(desired, name));
    } else {
      SameValues(h, With(h, name, Values(desired, name)));
    }
  }

  lemma NameDiffValues(h: Headers, original: Headers, desired: Headers, name: HeaderName, n: HeaderName)
    requires Values(h, name) == Values(original, name) || Values(h, name) == Values(desired, name)
    ensures Values(Patched(h, NameDiff(original, desired, name)), n)
            == if n == name then Values(desired, n) else Values(h, n)
  {
    NameDiffPatches(h, original, desired, name);
    WithValues(h, name, Values(desired, name), n);
  }

  /** Patching with the diff over some names makes exactly those names as desired. */
  lemma {:induction false} DiffPatches(original: Headers, desired: Headers, names: seq<HeaderName>, n: HeaderName)
    ensures Values(Patched(original, Diff(original, desired, names)), n)
            == if n in names then Values(desired, n) else Values(original, n)
  {
    if names != [] {
      var front, last := names[..|names| - 1], names[|names| - 1];
      var plan := Diff(original, desired, front);
      DiffPatches(original, desired, front, n);
      DiffPatches(original, desired, front, last);
      PatchedConcat(original, plan, NameDiff(original, desired, last));
      NameDiffValues(Patched(original, plan), original, desired, last, n);
      ConcatLast([], names);
      assert n in names <==> n in front || n == last;
    }
  }

  /** Applying the diff of an edit to what was edited gives what was wanted. */
  lemma DiffRoundTrip(original: Headers, desired: Headers, originalKeys: seq<HeaderName>, desiredKeys: seq<HeaderName>)
    requires Lists(originalKeys, original) && Lists(desiredKeys, desired)
    ensures Patched(original, Diff(original, desired, MergedNames(originalKeys + desiredKeys))) == desired
  {
    var names := MergedNames(originalKeys + desiredKeys);
    var patched := Patched(original, Diff(original, desired, names));
    forall n: HeaderName ensures Values(patched, n) == Values(desired, n) {
      DiffPatches(original, desired, names, n);
      MergedNamesExact(originalKeys + desiredKeys, n);
    }
    SameValues(patched, desired);
  }

  lemma {:induction false} AppendsNamed(name: HeaderName, values: seq<Bytes>, m: HeaderMutation)
    requires m in Appends(name, values)
    ensures m.name == name
  {
    if m in Appends(name, values[..|values| - 1]) {
      AppendsNamed(name, values[..|values| - 1], m);
    }
  }

  lemma NameDiffNamed(original: Headers, desired: Headers, name: HeaderName, m: HeaderMutation)
    requires m in NameDiff(original, desired, name)
    ensures m.name == name && Differs(original, desired, name)
  {
    if m in Appends(name, Values(desired, name)) {
      AppendsNamed(name, Values(desired, name), m);
    }
  }

  /** A plan touches only names whose values change. */
  lemma {:induction false} DiffTouchesChanges(
    original: Headers, desired: Headers, names: seq<HeaderName>, m: HeaderMutation)
    requires m in Diff(original, desired, names)
    ensures m.name in names && Differs(original, desired, m.name)
  {
    var k := |names| - 1;
    if m in Diff(original, desired, names[..k]) {
      DiffTouchesChanges(original, desired, names[..k], m);
    } else {
      NameDiffNamed(original, desired, names[k], m);
    }
  }

  /** Nothing to apply exactly when nothing changed. */
  lemma DiffEmptyIffEqual(original: Headers, desired: Headers, originalKeys: seq<HeaderName>, desiredKeys: seq<HeaderName>)
    requires Lists(originalKeys, original) && Lists(desiredKeys, desired)
    ensures Diff(original, desired, MergedNames(originalKeys + desiredKeys)) == [] <==> original == desired
  {
    var names := MergedNames(originalKeys + desiredKeys);
    if original == desired {
      var plan := Diff(original, desired, names);
      if plan != [] {
        assert plan[0] in plan;
        DiffTouchesChanges(original, desired, names, plan[0]);
      }
    } else {
      DiffRoundTrip(original, desired, originalKeys, desiredKeys);
    }
  }

  // ---- When the diff is refused ----

  /** The first changed name the proxy controls. */
  function FirstRefused(original: Headers, desired: Headers, names: seq<HeaderName>): Option<HeaderName> {
    if names == [] then None
    else
      var k := |names| - 1;
      var before := FirstRefused(original, desired, names[..k]);
      if before.Some? then before
      else if Differs(original, desired, names[k]) && Protected(names[k]) then Some(names[k])
      else None
  }

  lemma ApplicableConcat(a: seq<HeaderMutation>, b: seq<HeaderMutation>)
    ensures Applicable(a + b) == if Applicable(a) < |a| then Applicable(a) else |a| + Applicable(b)
  {
    var s, n := a + b, Applicable(a + b);
    var m := if Applicable(a) < |a| then Applicable(a) else |a| + Applicable(b);
    assert m < |s| ==> Refused(s[m]);
    assert forall i | 0 <= i < m :: !Refused(s[i]);
    assert n < |s| ==> Refused(s[n]);
  }

  lemma UniformApplicable(plan: seq<HeaderMutation>, name: HeaderName)
    requires forall i | 0 <= i < |plan| :: plan[i].name == name
    ensures Applicable(plan) == if Protected(name) then 0 else |plan|
  {
    var n := Applicable(plan);
    if 0 < n {
      assert !Refused(plan[0]);
    }
  }

  lemma NameDiffApplicable(original: Headers, desired: Headers, name: HeaderName)
    ensures var plan := NameDiff(original, desired, name);
            Applicable(plan) == if Protected(name) then 0 else |plan|
  {
    var plan := NameDiff(original, desired, name);
    forall i | 0 <= i < |plan| ensures plan[i].name == name {
      if i > 0 {
        AppendsNamed(name, Values(desired, name), plan[i]);
      }
    }
    UniformApplicable(plan, name);
  }

  /** The refusal names the first protected header that would change, and there is one exactly
      when some protected header would. */
  lemma {:induction false} DiffRefusal(original: Headers, desired: Headers, names: seq<HeaderName>)
    ensures var plan := Diff(original, desired, names);
            FirstRefused(original, desired, names)
            == if Applicable(plan) == |plan| then None else Some(plan[Applicable(plan)].name)
  {
    if names != [] {
      var k := |names| - 1;
      DiffRefusal(original, desired, names[..k]);
      ApplicableConcat(Diff(original, desired, names[..k]), NameDiff(original, desired, names[k]));
      NameDiffApplicable(original, desired, names[k]);
    }
  }

  lemma {:induction false} FirstRefusedExact(original: Headers, desired: Headers, names: seq<HeaderName>)
    ensures FirstRefused(original, desired, names).None?
            <==> forall n | n in names && Protected(n) :: !Differs(original, desired, n)
  {
    if names != [] {
      var k := |names| - 1;
      FirstRefusedExact(original, desired, names[..k]);
      assert names == names[..k] + [names[k]];
    }
  }

  /** No header the proxy controls would change. */
  ghost predicate LeavesProtected(original: Headers, desired: Headers) {
    forall n: HeaderName | Protected(n) :: !Differs(original, desired, n)
  }

  /** An edit can be applied exactly when it leaves every protected header alone. */
  lemma EditAllowedIff(original: Headers, desired: Headers, originalKeys: seq<HeaderName>, desiredKeys: seq<HeaderName>)
    requires Lists(originalKeys, original) && Lists(desiredKeys, desired)
    ensures var plan := Diff(original, desired, MergedNames(originalKeys + desiredKeys));
            Applicable(plan) == |plan| <==> LeavesProtected(original, desired)
  {
    var names := MergedNames(originalKeys + desiredKeys);
    DiffRefusal(original, desired, names);
    FirstRefusedExact(original, desired, names);
    forall n: HeaderName | Differs(original, desired, n) ensures n in names {
      MergedNamesExact(originalKeys + desiredKeys, n);
    }
  }

  // ---- Submitting an edited request ----

  function ValueBytes(name: HeaderName, values: seq<Bytes>): nat {
    if values == [] then 0
    else ValueBytes(name, values[..|values| - 1]) + |name.text| + |values[|values| - 1]| + 4
  }

  function TotalBytes(h: Headers, keys: seq<HeaderName>): nat {
    if keys == [] then 0
    else TotalBytes(h, keys[..|keys| - 1]) + ValueBytes(keys[|keys| - 1], Values(h, keys[|keys| - 1]))
  }

  /** The order in which header maps iterate. */
  type Iteration = Headers -> seq<HeaderName>

  ghost predicate Enumerates(order: Iteration) {
    forall h: Headers :: Lists(order(h), h)
  }

  /** Names, values and separators, as a saturating machine count. */
  function HeaderSize(h: Headers, order: Iteration): nat {
    Saturate(TotalBytes(h, order(h)))
  }

  datatype RequestEditError =
    | EditBodyTooLarge(actual: nat, maximum: nat)
    | HeadTooLarge(actual: nat, maximum: nat)
    | Mutation(error: MutationError)

  datatype InteractiveDecision = Continue | ModifyRequest(head: seq<HeaderMutation>, body: BodyPlan)

  datatype Submission = Submission(decision: InteractiveDecision, headers: Headers, body: Bytes)

  datatype Limits = Limits(body: nat, head: nat)

  function EditedNames(original: Headers, desired: Headers, order: Iteration): seq<HeaderName> {
    MergedNames(order(original) + order(desired))
  }

  /** What the submission method relies on about the diff it computes. */
  lemma SubmittedDiff(original: Headers, desired: Headers, order: Iteration)
    requires Enumerates(order)
    ensures var names := EditedNames(original, desired, order);
            var plan := Diff(original, desired, names);
            && Patched(original, plan) == desired
            && FirstRefused(original, desired, names)
               == (if Applicable(plan) == |plan| then None else Some(plan[Applicable(plan)].name))
  {
    DiffRefusal(original, desired, EditedNames(original, desired, order));
    DiffRoundTrip(original, desired, order(original), order(desired));
  }

  /** The plan of an edit, or the refusal of the first protected name it would change. */
  function PlannedEdit(original: Headers, desired: Headers, order: Iteration)
    : Result<seq<HeaderMutation>, MutationError>
  {
    var names := EditedNames(original, desired, order);
    var refused := FirstRefused(original, desired, names);
    if refused.Some? then Failure(ProtectedHeader(refused.value)) else Success(Diff(original, desired, names))
  }

  /** Diffs an edit and tries the result out on a copy of the original headers. */
  method PlanEdit(original: Headers, desired: Headers, order: Iteration)
    returns (r: Result<seq<HeaderMutation>, MutationError>)
    requires Enumerates(order)
    ensures r == PlannedEdit(original, desired, order)
  {
    var head := HeaderDiff(original, desired, order(original), order(desired));
    SubmittedDiff(original, desired, order);
    var validated := new HeaderTable(original);
    var applied := validated.ApplyHeadMutation(head);
    r := if applied.Failure? then Failure(applied.error) else Success(head);
  }

  function BodyPlanFor(originalBody: Bytes, body: Bytes): BodyPlan {
    if body == originalBody then Keep else Replace(body)
  }

  function DecisionFor(head: seq<HeaderMutation>, plan: BodyPlan): InteractiveDecision {
    if head == [] && plan == Keep then Continue else ModifyRequest(head, plan)
  }

  /** What a submission comes to, from what was found out about the edit. */
  function SubmitOutcome(
    length: nat, wanted: nat, head: Result<seq<HeaderMutation>, MutationError>, shown: nat, limits: Limits,
    plan: BodyPlan, display: Headers, body: Bytes): Result<Submission, RequestEditError>
  {
    if length > limits.body then Failure(EditBodyTooLarge(length, limits.body))
    else if wanted > limits.head then Failure(HeadTooLarge(wanted, limits.head))
    else if head.Failure? then Failure(Mutation(head.error))
    else if shown > limits.head then Failure(HeadTooLarge(shown, limits.head))
    else Success(Submission(DecisionFor(head.value, plan), display, body))
  }

  /** The whole submission of an edited request. */
  function Submitted(
    original: Headers, originalBody: Bytes, desired: Headers, body: Bytes, limits: Limits, order: Iteration)
    : Result<Submission, RequestEditError>
  {
    var plan := BodyPlanFor(originalBody, body);
    var display := Framed(desired, plan.Replace?, |body|);
    SubmitOutcome(
      |body|, HeaderSize(desired, order), PlannedEdit(original, desired, order),
      HeaderSize(display, order), limits, plan, display, body)
  }

  /** Checks an edited request and turns it into a decision and what the operator is shown. */
  method Submit(
    original: Headers, originalBody: Bytes, desired: Headers, body: Bytes, limits: Limits, order: Iteration)
    returns (r: Result<Submission, RequestEditError>)
    requires Enumerates(order)
    ensures r == Submitted(original, originalBody, desired, body, limits, order)
  {
    if |body| > limits.body {
      return Failure(EditBodyTooLarge(|body|, limits.body));
    }
    var wanted := HeaderSize(desired, order);
    if wanted > limits.head {
      return Failure(HeadTooLarge(wanted, limits.head));
    }
    var head := PlanEdit(original, desired, order);
    if head.Failure? {
      return Failure(Mutation(head.error));
    }
    var plan := BodyPlanFor(originalBody, body);
    var display := Framed(desired, plan.Replace?, |body|);
    var shown := HeaderSize(display, order);
    if shown > limits.head {
      return Failure(HeadTooLarge(shown, limits.head));
    }
    r := Success(Submission(DecisionFor(head.value, plan), display, body));
  }

  /** An edit can be planned exactly when it leaves every protected header alone. */
  lemma PlannedIff(original: Headers, desired: Headers, order: Iteration)
    requires Enumerates(order)
    ensures PlannedEdit(original, desired, order).Success? <==> LeavesProtected(original, desired)
  {
    SubmittedDiff(original, desired, order);
    EditAllowedIff(original, desired, order(original), order(desired));
  }

  /** An edit is accepted exactly when it fits its limits and leaves every protected header alone. */
  lemma SubmitAcceptedIff(
    original: Headers, originalBody: Bytes, desired: Headers, body: Bytes, limits: Limits, order: Iteration)
    requires Enumerates(order)
    ensures Submitted(original, originalBody, desired, body, limits, order).Success? <==>
            && |body| <= limits.body && HeaderSize(desired, order) <= limits.head
            && HeaderSize(Framed(desired, body != originalBody, |body|), order) <= limits.head
            && LeavesProtected(original, desired)
  {
    PlannedIff(original, desired, order);
    assert BodyPlanFor(originalBody, body).Replace? == (body != originalBody);
  }

  /** The request continues unmodified exactly when neither its headers nor its body were changed. */
  lemma ContinueIffUnchanged(
    original: Headers, originalBody: Bytes, desired: Headers, body: Bytes, limits: Limits, order: Iteration)
    requires Enumerates(order) && Submitted(original, originalBody, desired, body, limits, order).Success?
    ensures Submitted(original, originalBody, desired, body, limits, order).value.decision.Continue?
            <==> original == desired && body == originalBody
  {
    DiffEmptyIffEqual(original, desired, order(original), order(desired));
  }

  /** A mutation with nothing to refuse patches the headers and frames the resulting body. */
  lemma AppliedCleanly(
    h: Headers, head: seq<HeaderMutation>, patched: Headers, wire: Bytes, plan: BodyPlan, body: Bytes, maximum: nat)
    requires Applicable(head) == |head| && Patched(h, head) == patched
    requires ApplyBodyMutation(wire, plan, maximum) == Success(body)
    ensures HttpMutation(h, wire, head, plan, maximum) == (Success(body), Framed(patched, plan.Replace?, |body|))
  {
  }

  lemma NothingRefused(original: Headers, desired: Headers, order: Iteration)
    requires Enumerates(order) && PlannedEdit(original, desired, order).Success?
    ensures var head := PlannedEdit(original, desired, order).value;
            Applicable(head) == |head| && Patched(original, head) == desired
  {
    SubmittedDiff(original, desired, order);
  }

  /** What the operator was shown is what the proxy sends: applying a submitted modification to the
      original request gives exactly the displayed headers and body. */
  lemma SubmissionIsApplied(
    original: Headers, originalBody: Bytes, desired: Headers, body: Bytes, limits: Limits, order: Iteration,
    maximum: nat)
    requires Enumerates(order) && limits.body <= maximum
    requires Submitted(original, originalBody, desired, body, limits, order).Success?
    ensures var s := Submitted(original, originalBody, desired, body, limits, order).value;
            s.decision.ModifyRequest? ==>
              HttpMutation(original, originalBody, s.decision.head, s.decision.body, maximum)
              == (Success(s.body), s.headers)
  {
    NothingRefused(original, desired, order);
    var head := PlannedEdit(original, desired, order).value;
    AppliedCleanly(original, head, desired, originalBody, BodyPlanFor(originalBody, body), body, maximum);
  }
}
