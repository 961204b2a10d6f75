/**
 Python's `str.split(sep)` for a single separator character: every occurrence of
 the separator cuts the text, so two separators in a row give an empty piece,
 and splitting the empty string gives one empty piece.
 */
module Words {

  /** The inverse of Split: the pieces glued back together with the separator between them. */
  function Join(parts: seq<string>, sep: char): string
    requires |parts| >= 1
  {
    if |parts| == 1 then parts[0] else parts[0] + [sep] + Join(parts[1..], sep)
  }

  function Split(s: string, sep: char): (parts: seq<string>)
    ensures |parts| >= 1
  {
    if |s| == 0 then [""]
    else
      var rest := Split(s[1..], sep);
      if s[0] == sep then [""] + rest
      else [[s[0]] + rest[0]] + rest[1..]
  }

  /** The pieces hold no separator, and joining them gives the text back. */
  lemma {:induction false} JoinSplit(s: string, sep: char)
    ensures forall i :: 0 <= i < |Split(s, sep)| ==> sep !in Split(s, sep)[i]
    ensures Join(Split(s, sep), sep) == s
    decreases |s|
  {
    if |s| > 0 {
      var rest := Split(s[1..], sep);
      JoinSplit(s[1..], sep);
      var parts := Split(s, sep);
      if s[0] == sep {
        assert parts[1..] == rest;
      } else {
        assert |rest| > 1 ==> Join(rest, sep) == rest[0] + [sep] + Join(rest[1..], sep);
        assert |parts| > 1 ==> parts[1..] == rest[1..];
        assert s == [s[0]] + s[1..];
      }
    }
  }

  /** Text without the separator, followed by more text, starts the first piece. */
  lemma {:induction false} SplitPrefix(p: string, r: string, sep: char)
    requires sep !in p
    ensures Split(p + r, sep) == [p + Split(r, sep)[0]] + Split(r, sep)[1..]
    decreases |p|
  {
    if |p| > 0 {
      assert (p + r)[1..] == p[1..] + r;
      assert (p + r)[0] == p[0];
      SplitPrefix(p[1..], r, sep);
      assert [p[0]] + (p[1..] + Split(r, sep)[0]) == p + Split(r, sep)[0];
    } else {
      var q := Split(r, sep);
      assert p + r == r;
      assert p + q[0] == q[0];
      assert q == [q[0]] + q[1..];
    }
  }

  /** Splitting a join of separator-free pieces gives the pieces back. */
  lemma {:induction false} SplitJoin(parts: seq<string>, sep: char)
    requires |parts| >= 1
    requires forall i :: 0 <= i < |parts| ==> sep !in parts[i]
    ensures Split(Join(parts, sep), sep) == parts
    decreases |parts|
  {
    if |parts| == 1 {
      SplitPrefix(parts[0], "", sep);
      assert parts[0] + "" == parts[0];
    } else {
      var tail := Join(parts[1..], sep);
      var r := [sep] + tail;
      assert Join(parts, sep) == parts[0] + r;
      SplitJoin(parts[1..], sep);
      assert Split(r, sep) == [""] + parts[1..] by {
        assert r[0] == sep && r[1..] == tail;
      }
      SplitPrefix(parts[0], r, sep);
      assert parts[0] + "" == parts[0];
      assert parts == [parts[0]] + parts[1..];
    }
  }

  /** A separator-free word followed by the separator is split off as the first piece. */
  lemma SplitWord(w: string, rest: string, sep: char)
    requires sep !in w
    ensures Split(w + [sep] + rest, sep) == [w] + Split(rest, sep)
  {
    var r := [sep] + rest;
    assert w + [sep] + rest == w + r;
    assert r[0] == sep && r[1..] == rest;
    SplitPrefix(w, r, sep);
    assert w + "" == w;
  }

  /** A separator-free text is a single piece. */
  lemma SplitWhole(w: string, sep: char)
    requires sep !in w
    ensures Split(w, sep) == [w]
  {
    SplitPrefix(w, "", sep);
    assert w + "" == w;
  }

  /** Two separator-free words, each followed by the separator, are the first two pieces. */
  lemma SplitTwoWords(w0: string, w1: string, rest: string, sep: char)
    requires sep !in w0 && sep !in w1
    ensures Split(w0 + [sep] + w1 + [sep] + rest, sep) == [w0, w1] + Split(rest, sep)
  {
    var r1 := w1 + [sep] + rest;
    SplitWord(w1, rest, sep);
    SplitWord(w0, r1, sep);
    assert w0 + [sep] + w1 + [sep] + rest == w0 + [sep] + r1;
  }
}
