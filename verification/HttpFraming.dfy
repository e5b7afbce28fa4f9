/** Header checks at the proxy boundary: list tokens, the Content-Length and Transfer-Encoding
    rules, the framing validator, and removal of hop-by-hop headers. */
module HttpFraming {
  import opened Common
  import opened Decimals
  import opened HeaderEdits
  import opened Splitting

  datatype HeaderError =
    | BudgetExceeded(observed: nat, maximum: nat)
    | TransferEncodingWithContentLength
    | UnsupportedTransferEncoding
    | InvalidContentLength
    | ConflictingContentLength
    | InvalidConnectionToken

  const COMMA: Byte := 44

  // ---- Tokens of list-valued headers ----

  predicate IsSpace(b: Byte) {
    b == 32 || b == 9 || b == 10 || b == 12 || b == 13
  }

  predicate AllSpace(s: Bytes) {
    forall i | 0 <= i < |s| :: IsSpace(s[i])
  }

  /** `t` is `s` without its leading and trailing white space. */
  predicate Trims(s: Bytes, t: Bytes) {
    exists i, j | 0 <= i <= j <= |s| :: TrimsAt(s, t, i, j)
  }

  predicate TrimsAt(s: Bytes, t: Bytes, i: nat, j: nat)
    requires i <= j <= |s|
  {
    && t == s[i..j] && AllSpace(s[..i]) && AllSpace(s[j..])
    && (t != [] ==> !IsSpace(t[0]) && !IsSpace(t[|t| - 1]))
  }

  function TrimStart(s: Bytes): Bytes {
    if s != [] && IsSpace(s[0]) then TrimStart(s[1..]) else s
  }

  function TrimEnd(s: Bytes): Bytes {
    if s != [] && IsSpace(s[|s| - 1]) then TrimEnd(s[..|s| - 1]) else s
  }

  function Trim(s: Bytes): Bytes {
    TrimEnd(TrimStart(s))
  }

  /** How much leading white space there is. */
  method LeadingSpace(value: Bytes) returns (i: nat)
    ensures i <= |value| && AllSpace(value[..i]) && (i < |value| ==> !IsSpace(value[i]))
    ensures TrimStart(value) == value[i..]
  {
    i := 0;
    while i < |value| && IsSpace(value[i])
      invariant i <= |value| && AllSpace(value[..i])
      invariant TrimStart(value[i..]) == TrimStart(value)
    {
      assert value[i..][1..] == value[i + 1..];
      i := i + 1;
    }
  }

  /** Where the text before trailing white space ends. */
  method TextEnd(value: Bytes) returns (j: nat)
    ensures j <= |value| && AllSpace(value[j..]) && (j > 0 ==> !IsSpace(value[j - 1]))
    ensures TrimEnd(value) == value[..j]
  {
    j := |value|;
    assert value[..j] == value;
    while j > 0 && IsSpace(value[j - 1])
      invariant j <= |value| && AllSpace(value[j..])
      invariant TrimEnd(value[..j]) == TrimEnd(value)
    {
      assert value[..j][..j - 1] == value[..j - 1];
      j := j - 1;
    }
  }

  method TrimAscii(value: Bytes) returns (t: Bytes)
    ensures t == Trim(value) && Trims(value, t)
  {
    var i := LeadingSpace(value);
    var text := value[i..];
    var j := TextEnd(text);
    t := text[..j];
    assert t == value[i..i + j] && value[i + j..] == text[j..];
    assert TrimsAt(value, t, i, i + j);
  }

  function TrimAll(parts: seq<Bytes>): seq<Bytes> {
    if parts == [] then [] else TrimAll(parts[..|parts| - 1]) + [Trim(parts[|parts| - 1])]
  }

  /** The comma-separated tokens of every value of a header, trimmed. */
  function Tokens(values: seq<Bytes>): seq<Bytes> {
    if values == [] then []
    else Tokens(values[..|values| - 1]) + TrimAll(Split(values[|values| - 1], COMMA))
  }

  function NonEmpty(tokens: seq<Bytes>): seq<Bytes> {
    if tokens == [] then []
    else
      var last := tokens[|tokens| - 1];
      if last == [] then NonEmpty(tokens[..|tokens| - 1]) else NonEmpty(tokens[..|tokens| - 1]) + [last]
  }

  // ---- Content-Length ----

  predicate AllAgree(tokens: seq<Bytes>, length: nat) {
    forall i | 0 <= i < |tokens| :: ParseU64(tokens[i]) == Some(length)
  }

  ghost predicate Agreed(tokens: seq<Bytes>) {
    exists n: nat :: AllAgree(tokens, n)
  }

  /** The verdict on the tokens read so far and the length they agree on. */
  function LengthVerdict(tokens: seq<Bytes>): Result<Option<nat>, HeaderError> {
    if tokens == [] then Success(None)
    else
      var before := LengthVerdict(tokens[..|tokens| - 1]);
      var parsed := ParseU64(tokens[|tokens| - 1]);
      if before.Failure? then before
      else if parsed.None? then Failure(InvalidContentLength)
      else if before.value.Some? && before.value != parsed then Failure(ConflictingContentLength)
      else Success(parsed)
  }

  /** Accepted exactly when every token is a 64-bit digit string and all of them are equal. */
  lemma {:induction false} ContentLengthExact(tokens: seq<Bytes>)
    ensures LengthVerdict(tokens).Success? <==> Agreed(tokens)
    ensures LengthVerdict(tokens).Success? && tokens != [] ==>
              LengthVerdict(tokens).value.Some? && AllAgree(tokens, LengthVerdict(tokens).value.value)
  {
    if tokens == [] {
      assert AllAgree(tokens, 0);
    } else {
      var k := |tokens| - 1;
      var front := tokens[..k];
      ContentLengthExact(front);
      forall n: nat ensures AllAgree(tokens, n) <==> AllAgree(front, n) && ParseU64(tokens[k]) == Some(n) {
        AgreeAppend(tokens, n);
      }
      if k > 0 && LengthVerdict(front).Success? {
        assert ParseU64(front[0]) == LengthVerdict(front).value;
      } else if k == 0 && ParseU64(tokens[k]).Some? {
        assert AllAgree(front, ParseU64(tokens[k]).value);
      }
    }
  }

  lemma AgreeAppend(tokens: seq<Bytes>, n: nat)
    requires tokens != []
    ensures AllAgree(tokens, n) <==> AllAgree(tokens[..|tokens| - 1], n) && ParseU64(tokens[|tokens| - 1]) == Some(n)
  {
  }

  method ValidateContentLength(values: seq<Bytes>) returns (r: Result<(), HeaderError>)
    ensures var verdict := LengthVerdict(Tokens(values));
            r == if verdict.Failure? then Failure(verdict.error) else Success(())
  {
    var tokens := Tokens(values);
    var expected := None;
    for i := 0 to |tokens|
      invariant LengthVerdict(tokens[..i]) == Success(expected)
    {
      assert tokens[..i + 1][..i] == tokens[..i];
      LengthVerdictStops(tokens, i + 1);
      var parsed := ParseU64(tokens[i]);
      if parsed.None? {
        return Failure(InvalidContentLength);
      }
      if expected.Some? && expected != parsed {
        return Failure(ConflictingContentLength);
      }
      expected := parsed;
    }
    assert tokens[..|tokens|] == tokens;
    r := Success(());
  }

  /** A verdict against some of the tokens is the verdict on all of them. */
  lemma {:induction false} LengthVerdictStops(tokens: seq<Bytes>, n: nat)
    requires n <= |tokens|
    ensures LengthVerdict(tokens[..n]).Failure? ==> LengthVerdict(tokens) == LengthVerdict(tokens[..n])
  {
    if n == |tokens| {
      assert tokens[..n] == tokens;
    } else {
      var front := tokens[..|tokens| - 1];
      LengthVerdictStops(front, n);
      assert front[..n] == tokens[..n];
    }
  }

  // ---- The framing validator ----

  const CHUNKED: Bytes := [99, 104, 117, 110, 107, 101, 100]

  function LowerByte(b: Byte): Byte {
    if 65 <= b <= 90 then b + 32 else b
  }

  predicate EqualIgnoringCase(a: Bytes, b: Bytes) {
    |a| == |b| && forall i | 0 <= i < |a| :: LowerByte(a[i]) == LowerByte(b[i])
  }

  predicate SingleChunked(values: seq<Bytes>) {
    var tokens := NonEmpty(Tokens(values));
    |tokens| == 1 && EqualIgnoringCase(tokens[0], CHUNKED)
  }

  function Validate(h: Headers, order: Iteration, maximum: nat): Result<(), HeaderError> {
    var observed := HeaderSize(h, order);
    var encoded, measured := TRANSFER_ENCODING in h, CONTENT_LENGTH in h;
    if observed > maximum then Failure(BudgetExceeded(observed, maximum))
    else if encoded && measured then Failure(TransferEncodingWithContentLength)
    else if encoded && !SingleChunked(h[TRANSFER_ENCODING]) then Failure(UnsupportedTransferEncoding)
    else if measured then
      var verdict := LengthVerdict(Tokens(h[CONTENT_LENGTH]));
      if verdict.Failure? then Failure(verdict.error) else Success(())
    else Success(())
  }

  /** The message framing of accepted headers is unambiguous: chunked, one length, or neither. */
  lemma ValidatedFraming(h: Headers, order: Iteration, maximum: nat)
    ensures Validate(h, order, maximum).Success? <==>
            && HeaderSize(h, order) <= maximum
            && !(TRANSFER_ENCODING in h && CONTENT_LENGTH in h)
            && (TRANSFER_ENCODING in h ==> SingleChunked(h[TRANSFER_ENCODING]))
            && (CONTENT_LENGTH in h ==> Agreed(Tokens(h[CONTENT_LENGTH])))
  {
    if CONTENT_LENGTH in h {
      ContentLengthExact(Tokens(h[CONTENT_LENGTH]));
    }
  }

  // ---- Mutated messages pass the validator ----

  lemma {:induction false} TrimDigits(text: Bytes)
    requires AllDigits(text)
    ensures Trim(text) == text
  {
  }

  lemma DigitsAreOneToken(text: Bytes)
    requires AllDigits(text)
    ensures Tokens([text]) == [text]
  {
    forall i | 0 <= i < |text| ensures text[i] != COMMA {
      assert IsDigit(text[i]);
    }
    SplitSingle(text, COMMA);
    TrimDigits(text);
    var one: seq<Bytes> := [text];
    assert Split(text, COMMA) == one && one[..0] == [];
    assert TrimAll(one) == one;
  }

  lemma DecimalIsAccepted(n: nat)
    requires n <= U64_MAX
    ensures LengthVerdict(Tokens([ToDecimal(n)])) == Success(Some(n))
  {
    DigitsAreOneToken(ToDecimal(n));
    DecimalRoundTrip(n);
    var one: seq<Bytes> := [ToDecimal(n)];
    assert one[..0] == [];
    assert ParseU64(ToDecimal(n)) == Some(n);
  }

  lemma FramedValues(h: Headers, replaced: bool, length: nat)
    ensures var framed := Framed(h, replaced, length);
            && Values(framed, CONTENT_LENGTH) == [ToDecimal(length)]
            && Values(framed, TRANSFER_ENCODING) == [] && Values(framed, TRAILER) == []
  {
  }

  /** Whatever headers went in, a successful mutation leaves one Content-Length that parses to the
      length of the body sent and no other framing, so only the size budget can object to it. */
  lemma MutationIsWellFramed(
    h: Headers, wire: Bytes, head: seq<HeaderMutation>, plan: BodyPlan, maximum: nat, order: Iteration, budget: nat)
    requires HttpMutation(h, wire, head, plan, maximum).0.Success?
    requires |HttpMutation(h, wire, head, plan, maximum).0.value| <= U64_MAX
    ensures var (output, headers) := HttpMutation(h, wire, head, plan, maximum);
            && CONTENT_LENGTH in headers && |headers[CONTENT_LENGTH]| == 1
            && LengthVerdict(Tokens(headers[CONTENT_LENGTH])) == Success(Some(|output.value|))
            && TRANSFER_ENCODING !in headers && TRAILER !in headers
            && Validate(headers, order, budget)
               == if HeaderSize(headers, order) > budget
                  then Failure(BudgetExceeded(HeaderSize(headers, order), budget)) else Success(())
  {
    var (output, headers) := HttpMutation(h, wire, head, plan, maximum);
    FramedValues(Patched(h, head), plan.Replace?, |output.value|);
    DecimalIsAccepted(|output.value|);
  }

  // ---- Hop-by-hop headers ----

  const CONNECTION := HeaderName("connection")

  const HOP_BY_HOP: seq<HeaderName> := [
    CONNECTION, HeaderName("keep-alive"), HeaderName("proxy-authenticate"), HeaderName("proxy-authorization"),
    HeaderName("proxy-connection"), HeaderName("te"), TRAILER, TRANSFER_ENCODING, HeaderName("upgrade")]

  /** Reads a token as a lower-case header name; `None` where it is not one. */
  type NameParser = Bytes -> Option<HeaderName>

  /** The names the Connection header nominates, unless one of its tokens is no header name. */
  function Nominated(tokens: seq<Bytes>, parse: NameParser): Option<seq<HeaderName>> {
    if tokens == [] then Some([])
    else
      var before := Nominated(tokens[..|tokens| - 1], parse);
      var name := parse(tokens[|tokens| - 1]);
      if before.Some? && name.Some? then Some(before.value + [name.value]) else None
  }

  function ConnectionTokens(h: Headers): seq<Bytes> {
    NonEmpty(Tokens(Values(h, CONNECTION)))
  }

  /** The headers that travel past this hop. */
  function EndToEnd(h: Headers, nominated: seq<HeaderName>): Headers {
    Without(Without(h, nominated), HOP_BY_HOP)
  }

  /** Removes nominated and hop-by-hop headers, or leaves every header and reports a bad token. */
  method StripHopByHop(table: HeaderTable, parse: NameParser) returns (r: Result<(), HeaderError>)
    modifies table
    ensures var nominated := Nominated(ConnectionTokens(old(table.entries)), parse);
            if nominated.None? then r == Failure(InvalidConnectionToken) && table.entries == old(table.entries)
            else r == Success(()) && table.entries == EndToEnd(old(table.entries), nominated.value)
  {
    var nominated := Nominated(ConnectionTokens(table.entries), parse);
    if nominated.None? {
      return Failure(InvalidConnectionToken);
    }
    table.RemoveNames(nominated.value);
    table.RemoveNames(HOP_BY_HOP);
    r := Success(());
  }

  /** Exactly the nominated and the hop-by-hop names go, with all their values. */
  lemma EndToEndExact(h: Headers, nominated: seq<HeaderName>, n: HeaderName)
    ensures Values(EndToEnd(h, nominated), n)
            == if n in nominated || n in HOP_BY_HOP then [] else Values(h, n)
  {
  }

  /** Stripping twice changes nothing more, and what is left carries no Transfer-Encoding. */
  lemma StripIsIdempotent(h: Headers, nominated: seq<HeaderName>, parse: NameParser)
    ensures var stripped := EndToEnd(h, nominated);
            && Nominated(ConnectionTokens(stripped), parse) == Some([])
            && EndToEnd(stripped, []) == stripped
            && TRANSFER_ENCODING !in stripped
  {
    var stripped := EndToEnd(h, nominated);
    assert HOP_BY_HOP[0] == CONNECTION && HOP_BY_HOP[7] == TRANSFER_ENCODING;
    EndToEndExact(h, nominated, CONNECTION);
    EndToEndExact(h, nominated, TRANSFER_ENCODING);
    forall n: HeaderName ensures Values(EndToEnd(stripped, []), n) == Values(stripped, n) {
      EndToEndExact(h, nominated, n);
      EndToEndExact(stripped, [], n);
    }
    SameValues(EndToEnd(stripped, []), stripped);
  }
}
