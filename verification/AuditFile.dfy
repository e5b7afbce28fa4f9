/** A segment as the bytes of a file: records encoded one per line, and what a failing writer leaves
    behind. JSON is a pair of functions. */
module AuditFile {
  import opened Common
  import opened AuditLines
  import opened AuditLog
  import opened AuditReplay

  datatype Codec = Codec(encode: Record -> Bytes, decode: Bytes -> Option<Record>)

  /** The record's encoding is one line that decodes to it, and no cut-off part of it decodes. */
  predicate Decodable(codec: Codec, r: Record) {
    var text := codec.encode(r);
    && text != [] && Encodable(text) && codec.decode(text) == Some(r)
    && forall n | 0 < n < |text| :: codec.decode(text[..n]).None?
  }

  /** The codec serves every record of this list. Nothing is asked of it for other records, so the
      list's encodings can all be short even though no limit suits every record there is. */
  predicate Encodes(codec: Codec, records: seq<Record>) {
    forall i | 0 <= i < |records| :: Decodable(codec, records[i])
  }

  /** No line of this list exceeds the limit. */
  predicate LinesFit(codec: Codec, records: seq<Record>, maximum: nat) {
    forall i | 0 <= i < |records| :: |codec.encode(records[i])| <= maximum
  }

  function Encoded(codec: Codec, records: seq<Record>): (r: seq<Bytes>)
    ensures |r| == |records|
  {
    if records == [] then []
    else Encoded(codec, records[..|records| - 1]) + [codec.encode(records[|records| - 1])]
  }

  /** The records before the first line that is no record, and the number of that line. */
  datatype Parsed = Parsed(records: seq<Record>, bad: Option<nat>)

  function Parse(codec: Codec, lines: seq<Bytes>): Parsed {
    if lines == [] then Parsed([], None)
    else
      var before := Parse(codec, lines[..|lines| - 1]);
      var record := codec.decode(lines[|lines| - 1]);
      if before.bad.Some? then before
      else if record.None? then before.(bad := Some(|lines|))
      else before.(records := before.records + [record.value])
  }

  /** The file after `records` when only the first `n` bytes of the next line got out. */
  function FileBytes(codec: Codec, records: seq<Record>, next: Record, n: nat): Bytes {
    Written(Encoded(codec, records)) + (codec.encode(next) + [LF])[..Min(n, |codec.encode(next)| + 1)]
  }

  lemma {:induction false} EncodedAt(codec: Codec, records: seq<Record>, i: nat)
    requires i < |records|
    ensures Encoded(codec, records)[i] == codec.encode(records[i])
  {
    if i < |records| - 1 {
      EncodedAt(codec, records[..|records| - 1], i);
    }
  }

  lemma {:induction false} EncodedParses(codec: Codec, records: seq<Record>)
    requires Encodes(codec, records)
    ensures Parse(codec, Encoded(codec, records)) == Parsed(records, None)
  {
    if records != [] {
      var front, last := records[..|records| - 1], records[|records| - 1];
      assert forall i | 0 <= i < |front| :: front[i] == records[i];
      EncodedParses(codec, front);
      ParseAppend(codec, Encoded(codec, front), codec.encode(last));
      ConcatLast([], records);
    }
  }

  predicate ShortLines(lines: seq<Bytes>, maximum: nat) {
    forall i | 0 <= i < |lines| :: |lines[i]| <= maximum
  }

  lemma EncodedLines(codec: Codec, records: seq<Record>, maximum: nat)
    requires Encodes(codec, records)
    ensures forall i | 0 <= i < |records| :: Encodable(Encoded(codec, records)[i])
    ensures ShortLines(Encoded(codec, records), maximum) <==> LinesFit(codec, records, maximum)
  {
    var lines := Encoded(codec, records);
    forall i | 0 <= i < |records| ensures lines[i] == codec.encode(records[i]) && Encodable(lines[i]) {
      EncodedAt(codec, records, i);
      assert Decodable(codec, records[i]);
    }
    if ShortLines(lines, maximum) {
      forall i | 0 <= i < |records| ensures |codec.encode(records[i])| <= maximum {
        assert |lines[i]| <= maximum;
      }
    }
  }

  lemma ParseAppend(codec: Codec, lines: seq<Bytes>, line: Bytes)
    ensures Parse(codec, lines + [line])
            == (var before := Parse(codec, lines);
                if before.bad.Some? then before
                else if codec.decode(line).None? then before.(bad := Some(|lines| + 1))
                else before.(records := before.records + [codec.decode(line).value]))
  {
    assert (lines + [line])[..|lines|] == lines;
  }

  // ---- A complete file ----

  /** A whole segment reads and parses back to its records exactly when no line exceeds the limit. */
  lemma FileReadsBack(codec: Codec, records: seq<Record>, maximum: nat)
    requires Encodes(codec, records)
    ensures var lines := ReadAll(Written(Encoded(codec, records)), maximum);
            && (lines.Some? <==> LinesFit(codec, records, maximum))
            && (lines.Some? ==> Parse(codec, lines.value) == Parsed(records, None))
  {
    EncodedLines(codec, records, maximum);
    WrittenReadsBack(Encoded(codec, records), maximum);
    EncodedParses(codec, records);
  }

  /** From drain to replay in bytes: the file of a complete drain reads back to the drained segment
      exactly when no line is too long, and replay then accepts it, with a required key if and only if
      an interval was completed. */
  lemma DrainedFileIsAccepted(
    v: Verifier, drain: Drain, envelopes: seq<Envelope>, codec: Codec, maximum: nat)
    requires Agrees(v, drain) && AllOrdinary(v, envelopes) && RecordCount(drain, |envelopes|) <= U64_MAX
    requires Encodes(codec, Drained(drain, envelopes))
    ensures var lines := ReadAll(Written(Encoded(codec, Drained(drain, envelopes))), maximum);
            && (lines.Some? <==> LinesFit(codec, Drained(drain, envelopes), maximum))
            && (lines.Some? ==>
                  var parsed := Parse(codec, lines.value);
                  && parsed == Parsed(Drained(drain, envelopes), None)
                  && (Accepted(v, parsed.records) <==>
                      v.expectedKey.None?
                      || (drain.schedule.Some? && |envelopes| >= drain.schedule.value.interval)))
  {
    FileReadsBack(codec, Drained(drain, envelopes), maximum);
    DrainedIsAccepted(v, drain, envelopes);
  }

  // ---- A file cut off by a failing writer ----

  /** What parsing finds in a file that was cut off while `next` was being written after `records`. */
  predicate FoundIn(parsed: Parsed, records: seq<Record>, next: Record, n: nat, length: nat) {
    && parsed.records == (if n < length then records else records + [next])
    && parsed.bad == if 0 < n < length then Some(|records| + 1) else None
  }

  lemma FileBytesOf(codec: Codec, records: seq<Record>, next: Record, n: nat)
    requires n <= |codec.encode(next)|
    ensures FileBytes(codec, records, next, n) == Written(Encoded(codec, records)) + codec.encode(next)[..n]
  {
    assert (codec.encode(next) + [LF])[..n] == codec.encode(next)[..n];
  }

  /** Reading a file that ends in an unfinished line gives that line as well, unless it is empty. */
  lemma CutReads(codec: Codec, records: seq<Record>, text: Bytes, n: nat, maximum: nat)
    requires Encodes(codec, records) && LinesFit(codec, records, maximum)
    requires Encodable(text) && n <= |text| <= maximum
    ensures ReadAll(Written(Encoded(codec, records)) + text[..n], maximum)
            == Some(if n == 0 then Encoded(codec, records) else Encoded(codec, records) + [text[..n]])
  {
    var lines := Encoded(codec, records);
    EncodedLines(codec, records, maximum);
    if n == 0 {
      WrittenReadsBack(lines, maximum);
      assert Written(lines) + text[..0] == Written(lines);
    } else {
      CutLinesReadBack(lines, text[..n], maximum);
    }
  }

  lemma CutParses(codec: Codec, records: seq<Record>, next: Record, n: nat)
    requires Encodes(codec, records) && Decodable(codec, next) && 0 < n <= |codec.encode(next)|
    ensures FoundIn(
              Parse(codec, Encoded(codec, records) + [codec.encode(next)[..n]]), records, next, n,
              |codec.encode(next)|)
  {
    var text := codec.encode(next);
    EncodedParses(codec, records);
    ParseAppend(codec, Encoded(codec, records), text[..n]);
    if n == |text| {
      assert text[..n] == text;
    }
  }

  /** What is read from a file whose last line was cut off. A cut inside the line is reported at that
      line after every complete record; a line missing only its line feed still counts. */
  lemma CutFile(codec: Codec, records: seq<Record>, next: Record, n: nat, maximum: nat)
    requires Encodes(codec, records) && Decodable(codec, next)
    requires LinesFit(codec, records, maximum) && |codec.encode(next)| <= maximum
    requires n <= |codec.encode(next)|
    ensures var lines := ReadAll(FileBytes(codec, records, next, n), maximum);
            lines.Some? && FoundIn(Parse(codec, lines.value), records, next, n, |codec.encode(next)|)
  {
    FileBytesOf(codec, records, next, n);
    CutReads(codec, records, codec.encode(next), n, maximum);
    if n == 0 {
      EncodedParses(codec, records);
    } else {
      CutParses(codec, records, next, n);
    }
  }

  /** After a failed write, whatever part of the line got out, replay finds every record written before
      it intact, and nothing else that it would accept but the very record that was being written. */
  lemma FailedDrainReplays(
    v: Verifier, drain: Drain, envelopes: seq<Envelope>, budget: nat, records: seq<Record>, codec: Codec, n: nat,
    maximum: nat)
    requires Agrees(v, drain) && AllOrdinary(v, envelopes)
    requires DrainOutcome(Drained(drain, envelopes), budget, records, Failure(WriteFailed))
    requires |records| < |Drained(drain, envelopes)| && |records| < U64_MAX
    requires var next := Drained(drain, envelopes)[|records|];
             && Encodes(codec, records + [next]) && LinesFit(codec, records + [next], maximum)
             && n <= |codec.encode(next)|
    ensures var next := Drained(drain, envelopes)[|records|];
            var lines := ReadAll(FileBytes(codec, records, next, n), maximum);
            && lines.Some? && FoundIn(Parse(codec, lines.value), records, next, n, |codec.encode(next)|)
            && Intact(v, Parse(codec, lines.value).records)
  {
    var full := Drained(drain, envelopes);
    FrontEncoded(codec, records, full[|records|], maximum);
    CutFile(codec, records, full[|records|], n, maximum);
    NextIsIntact(v, drain, envelopes, full, |records|);
    assert records == full[..|records|];
  }

  lemma FrontEncoded(codec: Codec, records: seq<Record>, next: Record, maximum: nat)
    requires Encodes(codec, records + [next]) && LinesFit(codec, records + [next], maximum)
    ensures Encodes(codec, records) && LinesFit(codec, records, maximum)
    ensures Decodable(codec, next) && |codec.encode(next)| <= maximum
  {
    var all := records + [next];
    assert all[|records|] == next && forall i | 0 <= i < |records| :: all[i] == records[i];
  }

  lemma NextIsIntact(v: Verifier, drain: Drain, envelopes: seq<Envelope>, full: seq<Record>, k: nat)
    requires Agrees(v, drain) && AllOrdinary(v, envelopes) && full == Drained(drain, envelopes)
    requires k < |full| && k < U64_MAX
    ensures Intact(v, full[..k]) && Intact(v, full[..k] + [full[k]])
  {
    BoundedDrainIsIntact(v, drain, envelopes, k);
    BoundedDrainIsIntact(v, drain, envelopes, k + 1);
    TakeNext(full, k);
  }

  // ---- Codecs for any list exist ----

  function Repeated(n: nat): (r: Bytes)
    ensures |r| == n && forall i | 0 <= i < n :: r[i] == 97
  {
    seq(n, _ => 97)
  }

  /** The number `n` in unary, with an end mark. */
  function Unary(n: nat): (r: Bytes)
    ensures |r| == n + 1 && r[n] == 98 && forall i | 0 <= i < n :: r[i] == 97
  {
    Repeated(n) + [98]
  }

  function IndexIn(records: seq<Record>, r: Record): (i: nat)
    ensures r in records ==> i < |records| && records[i] == r
  {
    if records == [] then 0
    else if records[|records| - 1] == r then |records| - 1
    else IndexIn(records[..|records| - 1], r)
  }

  function FromUnary(records: seq<Record>, text: Bytes): Option<Record> {
    if 0 < |text| <= |records| && text == Unary(|text| - 1) then Some(records[|text| - 1]) else None
  }

  /** Numbers the records of a list. */
  function Numbering(records: seq<Record>): Codec {
    Codec((r: Record) => Unary(IndexIn(records, r)), (text: Bytes) => FromUnary(records, text))
  }

  /** For every list of records there is a codec that serves it within a limit, so the results above
      are about every segment. */
  lemma CodecExists(records: seq<Record>)
    ensures Encodes(Numbering(records), records) && LinesFit(Numbering(records), records, |records|)
  {
    forall i | 0 <= i < |records|
      ensures Decodable(Numbering(records), records[i]) && |Numbering(records).encode(records[i])| <= |records|
    {
      assert records[i] in records;
      var k := IndexIn(records, records[i]);
      var text := Unary(k);
      assert Numbering(records).encode(records[i]) == text;
      assert FromUnary(records, text) == Some(records[k]);
      forall n | 0 < n < |text| ensures FromUnary(records, text[..n]).None? {
        assert text[..n][n - 1] == 97 && Unary(n - 1)[n - 1] == 98;
      }
    }
  }
}
