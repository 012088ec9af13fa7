/** Splitting a URL pattern or path into its '/'-separated segments, with the
    semantics of Go's strings.Split for a one-character separator: a string
    with n slashes has n + 1 pieces, and the empty string has the single
    piece "". Go strings are byte strings; a `char` here stands for a byte. */
module Segments {

  const Slash: char := '/'

  /** strings.Split(s, "/"). */
  function Split(s: string): (pieces: seq<string>)
    ensures |pieces| >= 1
    decreases |s|
  {
    if s == [] then [""]
    else if s[0] == Slash then [""] + Split(s[1..])
    else
      var rest := Split(s[1..]);
      [[s[0]] + rest[0]] + rest[1..]
  }

  /** Number of times `c` occurs in `s`. */
  function Occurrences(s: string, c: char): nat
    decreases |s|
  {
    if s == [] then 0
    else (if s[0] == c then 1 else 0) + Occurrences(s[1..], c)
  }

  /** strings.Join(pieces, "/"), the inverse of Split. */
  function Join(pieces: seq<string>): string
    requires |pieces| >= 1
    decreases |pieces|
  {
    if |pieces| == 1 then pieces[0] else pieces[0] + [Slash] + Join(pieces[1..])
  }

  /** A segment never contains the separator. */
  predicate IsSegment(piece: string)
  {
    Slash !in piece
  }

  /** A string with n slashes splits into n + 1 segments. */
  lemma {:induction false} SplitCount(s: string)
    ensures |Split(s)| == Occurrences(s, Slash) + 1
    decreases |s|
  {
    if s != [] {
      SplitCount(s[1..]);
    }
  }

  /** Every piece of a split is a segment. */
  lemma {:induction false} SplitSegments(s: string)
    ensures forall i :: 0 <= i < |Split(s)| ==> IsSegment(Split(s)[i])
    decreases |s|
  {
    if s != [] {
      SplitSegments(s[1..]);
      var rest := Split(s[1..]);
      if s[0] != Slash {
        assert IsSegment(rest[0]);
        assert Split(s)[0] == [s[0]] + rest[0];
        forall i | 1 <= i < |Split(s)|
          ensures IsSegment(Split(s)[i])
        {
          assert Split(s)[i] == rest[i];
        }
      }
    }
  }

  /** Splitting loses nothing: joining the pieces gives the string back. */
  lemma {:induction false} JoinSplit(s: string)
    ensures Join(Split(s)) == s
    decreases |s|
  {
    if s != [] {
      JoinSplit(s[1..]);
      var rest := Split(s[1..]);
      if s[0] == Slash {
        assert Split(s)[1..] == rest;
        assert s == [s[0]] + s[1..];
      } else {
        var pieces := Split(s);
        assert pieces[1..] == rest[1..];
        if |rest| == 1 {
          assert s == [s[0]] + rest[0];
        } else {
          assert Join(rest) == rest[0] + [Slash] + Join(rest[1..]);
          assert s == [s[0]] + s[1..];
        }
      }
    }
  }

  /** Splitting a slash-free prefix onto `t` extends Split(t)'s first piece. */
  lemma {:induction false} SplitPrefix(a: string, t: string)
    requires IsSegment(a)
    ensures Split(a + t) == [a + Split(t)[0]] + Split(t)[1..]
    decreases |a|
  {
    if a != [] {
      SplitPrefix(a[1..], t);
      assert (a + t)[0] == a[0];
      assert (a + t)[1..] == a[1..] + t;
      assert [a[0]] + (a[1..] + Split(t)[0]) == a + Split(t)[0];
    } else {
      assert a + t == t;
      assert a + Split(t)[0] == Split(t)[0];
      assert Split(t) == [Split(t)[0]] + Split(t)[1..];
    }
  }

  /** Joining segments and splitting again gives the segments back. */
  lemma {:induction false} SplitJoin(pieces: seq<string>)
    requires |pieces| >= 1
    requires forall i :: 0 <= i < |pieces| ==> IsSegment(pieces[i])
    ensures Split(Join(pieces)) == pieces
    decreases |pieces|
  {
    if |pieces| == 1 {
      SplitPrefix(pieces[0], "");
      assert pieces[0] + "" == pieces[0];
    } else {
      var tail := pieces[1..];
      SplitJoin(tail);
      var t := [Slash] + Join(tail);
      assert Split(t) == [""] + Split(Join(tail)) by {
        assert t[0] == Slash && t[1..] == Join(tail);
      }
      SplitPrefix(pieces[0], t);
      assert pieces[0] + [Slash] + Join(tail) == pieces[0] + t;
      assert Split(t)[0] == "" && Split(t)[1..] == tail;
      assert pieces[0] + "" == pieces[0];
      assert pieces == [pieces[0]] + tail;
    }
  }
}
