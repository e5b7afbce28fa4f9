/** Validated DNS hostnames and label-boundary host patterns. */
module Hosts {
  import opened Common
  import opened Domain
  import opened Splitting

  const MAXIMUM_DNS_NAME_BYTES: nat := 253
  const MAXIMUM_DNS_LABEL_BYTES: nat := 63

  // ---- Host patterns ----

  predicate IsSuffix<T(==)>(suffix: seq<T>, whole: seq<T>) {
    |suffix| <= |whole| && whole[|whole| - |suffix|..] == suffix
  }

  datatype HostPattern = Exact(name: string) | Suffix(name: string)

  /** The test made on the text: equal, or ending in the suffix right after a dot. */
  predicate TextSuffix(candidate: string, suffix: string) {
    candidate == suffix ||
    (IsSuffix(suffix, candidate) && |suffix| < |candidate| && candidate[|candidate| - |suffix| - 1] == '.')
  }

  predicate MatchesTarget(pattern: HostPattern, target: TargetHost) {
    target.Name? &&
    match pattern
    case Exact(expected) => target.name == expected
    case Suffix(suffix) => TextSuffix(target.name, suffix)
  }

  /** The text test holds exactly when the pattern's labels end the candidate's labels. */
  lemma SuffixIsLabelSuffix(candidate: string, suffix: string)
    ensures TextSuffix(candidate, suffix) <==> IsSuffix(Split(suffix, '.'), Split(candidate, '.'))
  {
    if TextSuffix(candidate, suffix) && candidate != suffix {
      var rest := candidate[..|candidate| - |suffix| - 1];
      assert candidate == rest + ['.'] + suffix;
      SplitConcat(rest, suffix, '.');
      assert Split(candidate, '.') == Split(rest, '.') + Split(suffix, '.');
    }
    if IsSuffix(Split(suffix, '.'), Split(candidate, '.')) {
      LabelsGiveText(candidate, suffix);
    }
  }

  lemma SuffixOfSnoc<T>(a: seq<T>, x: T, b: seq<T>, y: T)
    requires IsSuffix(a + [x], b + [y])
    ensures x == y && |a| <= |b| && b == b[..|b| - |a|] + a
  {
    var d := |b| - |a|;
    assert (b + [y])[d..] == a + [x];
    assert (b + [y])[d..][|a|] == y;
    assert forall i | 0 <= i < |a| :: b[d + i] == (b + [y])[d..][i] == a[i];
  }

  lemma LabelsGiveText(candidate: string, suffix: string)
    requires IsSuffix(Split(suffix, '.'), Split(candidate, '.'))
    ensures TextSuffix(candidate, suffix)
  {
    var front, last := FrontPieces(candidate, '.'), LastPiece(candidate, '.');
    var ending := FrontPieces(suffix, '.');
    SuffixOfSnoc(ending, LastPiece(suffix, '.'), front, last);
    var more := front[..|front| - |ending|];
    Reassemble(candidate, '.');
    Reassemble(suffix, '.');
    ClosedConcat(more, ending, '.');
    assert candidate == Closed(more, '.') + suffix;
    if more == [] {
      assert candidate == suffix;
    } else {
      assert Closed(more, '.')[|Closed(more, '.')| - 1] == '.';
    }
  }

  // ---- Hostname validation ----

  datatype EndpointError =
    | EmptyHost
    | HostTooLong
    | EmptyLabel
    | LabelTooLong(text: string)
    | InvalidHostCharacter(character: char)
    | InvalidLabelBoundary(text: string)

  function LowerChar(c: char): char {
    if 'A' <= c <= 'Z' then (c as int + 32) as char else c
  }

  function Lower(s: string): (r: string)
    ensures |r| == |s|
    ensures forall i | 0 <= i < |s| :: r[i] == LowerChar(s[i])
  {
    seq(|s|, i requires 0 <= i < |s| => LowerChar(s[i]))
  }

  function Utf8Len(s: string): nat {
    if s == [] then 0
    else
      var c := s[|s| - 1] as int;
      Utf8Len(s[..|s| - 1]) + if c < 0x80 then 1 else if c < 0x800 then 2 else if c < 0x10000 then 3 else 4
  }

  predicate HostChar(c: char) {
    'a' <= c <= 'z' || 'A' <= c <= 'Z' || '0' <= c <= '9' || c == '-'
  }

  predicate ValidLabel(s: string) {
    && s != [] && Utf8Len(s) <= MAXIMUM_DNS_LABEL_BYTES
    && s[0] != '-' && s[|s| - 1] != '-'
    && forall c | c in s :: HostChar(c)
  }

  /** Lower case, within the length limit, and made of valid labels: what validation yields. */
  predicate ValidHost(s: string) {
    && 0 < Utf8Len(s) <= MAXIMUM_DNS_NAME_BYTES
    && Lower(s) == s
    && forall l | l in Split(s, '.') :: ValidLabel(l)
  }

  /** The text actually validated: one final root dot dropped, ASCII lower-cased. */
  function Normalized(value: string): string {
    Lower(if value != [] && value[|value| - 1] == '.' then value[..|value| - 1] else value)
  }

  function FirstInvalid(s: string): Option<char> {
    if s == [] then None
    else if !HostChar(s[0]) then Some(s[0])
    else FirstInvalid(s[1..])
  }

  /** The defect reported for one label, checked in this order. */
  function LabelError(s: string): (e: Option<EndpointError>)
    ensures e.None? <==> ValidLabel(s)
  {
    FirstInvalidExact(s);
    if s == [] then Some(EmptyLabel)
    else if Utf8Len(s) > MAXIMUM_DNS_LABEL_BYTES then Some(LabelTooLong(s))
    else if s[0] == '-' || s[|s| - 1] == '-' then Some(InvalidLabelBoundary(s))
    else if FirstInvalid(s).Some? then Some(InvalidHostCharacter(FirstInvalid(s).value))
    else None
  }

  lemma {:induction false} FirstInvalidExact(s: string)
    ensures FirstInvalid(s).None? <==> forall c | c in s :: HostChar(c)
  {
    if s != [] {
      FirstInvalidExact(s[1..]);
      assert s == [s[0]] + s[1..];
    }
  }

  /** Label `i` is the first invalid one and `error` says why. */
  predicate FirstDefect(labels: seq<string>, i: int, error: EndpointError) {
    0 <= i < |labels| && LabelError(labels[i]) == Some(error) && forall j | 0 <= j < i :: ValidLabel(labels[j])
  }

  /** Validates a hostname; every accepted name is valid and every valid name is accepted. */
  method NewHostName(value: string) returns (r: Result<string, EndpointError>)
    ensures r.Success? <==> ValidHost(Normalized(value))
    ensures r.Success? ==> r.value == Normalized(value)
    ensures r == Failure(EmptyHost) <==> Utf8Len(Normalized(value)) == 0
    ensures r == Failure(HostTooLong) <==> Utf8Len(Normalized(value)) > MAXIMUM_DNS_NAME_BYTES
    ensures r.Failure? && 0 < Utf8Len(Normalized(value)) <= MAXIMUM_DNS_NAME_BYTES ==>
              exists i :: FirstDefect(Split(Normalized(value), '.'), i, r.error)
  {
    var normalized := Normalized(value);
    NormalizedIsLower(value);
    if Utf8Len(normalized) == 0 {
      return Failure(EmptyHost);
    }
    if Utf8Len(normalized) > MAXIMUM_DNS_NAME_BYTES {
      return Failure(HostTooLong);
    }
    var labels := Split(normalized, '.');
    for i := 0 to |labels|
      invariant forall j | 0 <= j < i :: ValidLabel(labels[j])
    {
      var error := LabelError(labels[i]);
      if error.Some? {
        assert labels[i] in labels && !ValidLabel(labels[i]);
        assert FirstDefect(labels, i, error.value);
        return Failure(error.value);
      }
    }
    return Success(normalized);
  }

  lemma NormalizedIsLower(value: string)
    ensures Lower(Normalized(value)) == Normalized(value)
  {
  }

  lemma TrailingDotInvalid(host: string)
    requires host != [] && host[|host| - 1] == '.'
    ensures !ValidHost(host)
  {
    var labels := Split(host, '.');
    assert labels[|labels| - 1] == [] && labels[|labels| - 1] in labels;
  }

  /** A valid name does not end in a dot, so validating it again changes nothing. */
  lemma ValidationIdempotent(value: string)
    requires ValidHost(Normalized(value))
    ensures Normalized(Normalized(value)) == Normalized(value)
  {
    var host := Normalized(value);
    NormalizedIsLower(value);
    if host != [] && host[|host| - 1] == '.' {
      TrailingDotInvalid(host);
    }
  }
}
