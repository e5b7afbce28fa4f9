/** Splitting a sequence at separators, and putting it back together. */
module Splitting {
  import opened Common

  /** What follows the last separator. */
  function LastPiece<T(==)>(s: seq<T>, separator: T): seq<T> {
    if s == [] then []
    else
      var k := |s| - 1;
      if s[k] == separator then [] else LastPiece(s[..k], separator) + [s[k]]
  }

  /** The pieces that end in a separator, without it. */
  function FrontPieces<T(==)>(s: seq<T>, separator: T): seq<seq<T>> {
    if s == [] then []
    else
      var k := |s| - 1;
      var before := FrontPieces(s[..k], separator);
      if s[k] == separator then before + [LastPiece(s[..k], separator)] else before
  }

  /** The pieces of `s` between separators; never empty. */
  function Split<T(==)>(s: seq<T>, separator: T): (pieces: seq<seq<T>>)
    ensures |pieces| > 0
  {
    FrontPieces(s, separator) + [LastPiece(s, separator)]
  }

  /** Pieces, each followed by the separator. */
  function Closed<T>(pieces: seq<seq<T>>, separator: T): seq<T> {
    if pieces == [] then []
    else Closed(pieces[..|pieces| - 1], separator) + pieces[|pieces| - 1] + [separator]
  }

  lemma ClosedAppend<T>(pieces: seq<seq<T>>, piece: seq<T>, separator: T)
    ensures Closed(pieces + [piece], separator) == Closed(pieces, separator) + piece + [separator]
  {
  }

  lemma {:induction false} ClosedConcat<T>(a: seq<seq<T>>, b: seq<seq<T>>, separator: T)
    ensures Closed(a + b, separator) == Closed(a, separator) + Closed(b, separator)
  {
    if b == [] {
      assert a + b == a;
    } else {
      var front, last := b[..|b| - 1], b[|b| - 1];
      ClosedConcat(a, front, separator);
      ClosedAppend(front, last, separator);
      ClosedAppend(a + front, last, separator);
      ConcatLast(a, b);
    }
  }

  /** The pieces determine the sequence. */
  lemma {:induction false} Reassemble<T>(s: seq<T>, separator: T)
    ensures Closed(FrontPieces(s, separator), separator) + LastPiece(s, separator) == s
  {
    if s != [] {
      var front, last := s[..|s| - 1], s[|s| - 1];
      var pieces, rest := FrontPieces(front, separator), LastPiece(front, separator);
      Reassemble(front, separator);
      ConcatLast([], s);
      if last == separator {
        ClosedAppend(pieces, rest, separator);
        assert s + [] == s;
      } else {
        Regrouped(Closed(pieces, separator), rest, [last]);
      }
    }
  }

  /** Splitting distributes over a separator. */
  lemma {:induction false} SplitConcat<T>(a: seq<T>, b: seq<T>, separator: T)
    ensures var s := a + [separator] + b;
            && FrontPieces(s, separator) == Split(a, separator) + FrontPieces(b, separator)
            && LastPiece(s, separator) == LastPiece(b, separator)
  {
    var s := a + [separator] + b;
    var k := |s| - 1;
    if b == [] {
      assert s[..k] == a;
    } else {
      SplitConcat(a, b[..|b| - 1], separator);
      assert s[..k] == a + [separator] + b[..|b| - 1] && s[k] == b[|b| - 1];
    }
  }

  /** A sequence without separators is its own only piece. */
  lemma {:induction false} SplitSingle<T>(s: seq<T>, separator: T)
    requires separator !in s
    ensures FrontPieces(s, separator) == [] && LastPiece(s, separator) == s
  {
    if s != [] {
      var k := |s| - 1;
      assert forall x | x in s[..k] :: x in s;
      SplitSingle(s[..k], separator);
      assert s[k] in s && s == s[..k] + [s[k]];
    }
  }
}
