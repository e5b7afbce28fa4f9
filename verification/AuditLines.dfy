/** Reading a segment line by line through a bounded window. */
module AuditLines {
  import opened Common

  const LF: Byte := 10
  const CR: Byte := 13

  datatype LineError = LineTooLong(maximum: nat)

  datatype Line = Line(text: Bytes, rest: Bytes)

  /** Where the first line feed is, or the length when there is none. */
  function FirstLineFeed(s: Bytes): (n: nat)
    ensures n <= |s| && (n < |s| ==> s[n] == LF) && forall i | 0 <= i < n :: s[i] != LF
  {
    if s == [] then 0
    else
      var n := FirstLineFeed(s[..|s| - 1]);
      if n < |s| - 1 || s[|s| - 1] == LF then n else |s|
  }

  function StripReturn(s: Bytes): Bytes {
    if s != [] && s[|s| - 1] == CR then s[..|s| - 1] else s
  }

  /** The next line without its terminator: a line feed, or a carriage return and a line feed. */
  function NextLine(stream: Bytes): Line {
    var n := FirstLineFeed(stream);
    if n < |stream| then Line(StripReturn(stream[..n]), stream[n + 1..]) else Line(stream, [])
  }

  /** Reads at most two bytes more than a line may hold, and rejects what is still too long. */
  method ReadBoundedLine(stream: Bytes, maximum: nat) returns (r: Result<Option<Line>, LineError>)
    requires maximum + 2 <= U64_MAX
    ensures stream == [] ==> r == Success(None)
    ensures stream != [] ==>
              var line := NextLine(stream);
              r == if |line.text| <= maximum then Success(Some(line)) else Failure(LineTooLong(maximum))
  {
    var window := stream[..Min(SaturatingAdd(maximum, 2), |stream|)];
    var count := 0;
    while count < |window| && window[count] != LF
      invariant count <= |window| && forall i | 0 <= i < count :: window[i] != LF
    {
      count := count + 1;
    }
    assert count < |window| ==> FirstLineFeed(stream) == count;
    assert count == |window| ==> FirstLineFeed(stream) >= count;
    assert window[..count] == stream[..count];
    if window == [] {
      return Success(None);
    }
    var bytes, rest := window[..count], stream[count..];
    if count < |window| {
      bytes, rest := StripReturn(bytes), stream[count + 1..];
    }
    assert count == |window| < |stream| ==> |NextLine(stream).text| > maximum;
    assert count == |stream| ==> NextLine(stream) == Line(bytes, rest);
    if |bytes| > maximum {
      return Failure(LineTooLong(maximum));
    }
    r := Success(Some(Line(bytes, rest)));
  }

  // ---- Written lines read back ----

  /** Lines as the sink writes them, each closed by a line feed. */
  function Written(lines: seq<Bytes>): Bytes {
    if lines == [] then [] else lines[0] + [LF] + Written(lines[1..])
  }

  function ReadAll(stream: Bytes, maximum: nat): Option<seq<Bytes>>
    decreases |stream|
  {
    if stream == [] then Some([])
    else
      var line := NextLine(stream);
      if |line.text| > maximum then None
      else
        var rest := ReadAll(line.rest, maximum);
        if rest.None? then None else Some([line.text] + rest.value)
  }

  /** A record line never holds a line feed nor ends in a carriage return. */
  predicate Encodable(line: Bytes) {
    (forall i | 0 <= i < |line| :: line[i] != LF) && (line == [] || line[|line| - 1] != CR)
  }

  lemma LineReadsBack(line: Bytes, rest: Bytes)
    requires Encodable(line)
    ensures NextLine(line + [LF] + rest) == Line(line, rest)
  {
    var stream := line + [LF] + rest;
    assert stream[|line|] == LF;
    assert FirstLineFeed(stream) == |line|;
    assert stream[..|line|] == line && stream[|line| + 1..] == rest;
  }

  /** A written segment reads back line for line exactly when no line exceeds the limit. */
  lemma {:induction false} WrittenReadsBack(lines: seq<Bytes>, maximum: nat)
    requires forall i | 0 <= i < |lines| :: Encodable(lines[i])
    ensures ReadAll(Written(lines), maximum)
            == if forall i | 0 <= i < |lines| :: |lines[i]| <= maximum then Some(lines) else None
  {
    if lines != [] {
      var tail := lines[1..];
      WrittenReadsBack(tail, maximum);
      LineReadsBack(lines[0], Written(tail));
      assert lines == [lines[0]] + tail;
      if forall i | 0 <= i < |tail| :: |tail[i]| <= maximum {
        assert forall i | 0 < i < |lines| :: lines[i] == tail[i - 1];
      } else {
        var i :| 0 <= i < |tail| && |tail[i]| > maximum;
        assert |lines[i + 1]| > maximum;
      }
    }
  }

  lemma CutLineReadsBack(line: Bytes, maximum: nat)
    requires line != [] && |line| <= maximum && forall i | 0 <= i < |line| :: line[i] != LF
    ensures ReadAll(line, maximum) == Some([line])
  {
    var one: seq<Bytes> := [line];
    assert NextLine(line) == Line(line, []) && one + [] == one;
    assert ReadAll([], maximum) == Some([]);
  }

  lemma ReadAllStep(line: Bytes, rest: Bytes, lines: seq<Bytes>, maximum: nat)
    requires Encodable(line) && |line| <= maximum && ReadAll(rest, maximum) == Some(lines)
    ensures ReadAll(line + [LF] + rest, maximum) == Some([line] + lines)
  {
    LineReadsBack(line, rest);
  }

  /** Complete lines and a last one without its line feed read back one for one. */
  lemma {:induction false} CutLinesReadBack(lines: seq<Bytes>, last: Bytes, maximum: nat)
    requires forall i | 0 <= i < |lines| :: Encodable(lines[i]) && |lines[i]| <= maximum
    requires last != [] && |last| <= maximum && forall i | 0 <= i < |last| :: last[i] != LF
    ensures ReadAll(Written(lines) + last, maximum) == Some(lines + [last])
  {
    if lines == [] {
      CutLineReadsBack(last, maximum);
      assert Written(lines) + last == last && lines + [last] == [last];
    } else {
      var first, tail := lines[0], lines[1..];
      CutLinesReadBack(tail, last, maximum);
      ReadAllStep(first, Written(tail) + last, tail + [last], maximum);
      Regrouped(first + [LF], Written(tail), last);
      ConcatFirst(lines, [last]);
    }
  }
}
