/**
 * The pieces of Go's `strings` package the core relies on, and the count of
 * `?` placeholders in a piece of SQL text.
 */
module Text {

  /** strings.Join: the parts in order, with `sep` between neighbours. */
  function Join(parts: seq<string>, sep: string): string
    decreases |parts|
  {
    if |parts| == 0 then ""
    else if |parts| == 1 then parts[0]
    else Join(parts[..|parts| - 1], sep) + sep + parts[|parts| - 1]
  }

  /** n copies of s. */
  function Repeat(s: string, n: nat): (r: seq<string>)
    ensures |r| == n
    ensures forall i :: 0 <= i < n ==> r[i] == s
  {
    if n == 0 then [] else Repeat(s, n - 1) + [s]
  }

  /** The number of times `c` occurs in `s`. */
  function Occurrences(c: char, s: string): nat
    decreases |s|
  {
    if |s| == 0 then 0
    else Occurrences(c, s[..|s| - 1]) + (if s[|s| - 1] == c then 1 else 0)
  }

  /** The number of `?` placeholders in a piece of SQL text. */
  function Marks(s: string): nat {
    Occurrences('?', s)
  }

  /** The total of `Marks` over a list of parts. */
  function SumMarks(parts: seq<string>): nat
    decreases |parts|
  {
    if |parts| == 0 then 0 else SumMarks(parts[..|parts| - 1]) + Marks(parts[|parts| - 1])
  }

  lemma {:induction false} OccurrencesConcat(c: char, a: string, b: string)
    ensures Occurrences(c, a + b) == Occurrences(c, a) + Occurrences(c, b)
    decreases |b|
  {
    if |b| == 0 {
      assert a + b == a;
    } else {
      var ab := a + b;
      assert ab[..|ab| - 1] == a + b[..|b| - 1];
      assert ab[|ab| - 1] == b[|b| - 1];
      OccurrencesConcat(c, a, b[..|b| - 1]);
    }
  }

  lemma MarksConcat(a: string, b: string)
    ensures Marks(a + b) == Marks(a) + Marks(b)
  {
    OccurrencesConcat('?', a, b);
  }

  /** Joining with a separator that holds no placeholder keeps exactly the parts' placeholders. */
  lemma {:induction false} MarksJoin(parts: seq<string>, sep: string)
    requires Marks(sep) == 0
    ensures Marks(Join(parts, sep)) == SumMarks(parts)
    decreases |parts|
  {
    if |parts| == 1 {
      assert SumMarks(parts) == SumMarks(parts[..0]) + Marks(parts[0]);
    } else if |parts| > 1 {
      var init := parts[..|parts| - 1];
      MarksJoin(init, sep);
      MarksConcat(Join(init, sep), sep);
      MarksConcat(Join(init, sep) + sep, parts[|parts| - 1]);
    }
  }

  /** Joining one more part appends the separator and the part (strings.Join grows at the end). */
  lemma JoinSnoc(parts: seq<string>, p: string, sep: string)
    ensures Join(parts + [p], sep) == if |parts| == 0 then p else Join(parts, sep) + sep + p
  {
    assert (parts + [p])[..|parts|] == parts;
  }

  lemma Assoc<T>(a: seq<T>, b: seq<T>, c: seq<T>)
    ensures a + (b + c) == (a + b) + c
  {
  }

  /** Text without a `?` holds no placeholder. */
  lemma {:induction false} NoMarks(s: string)
    requires '?' !in s
    ensures Marks(s) == 0
    decreases |s|
  {
    if |s| > 0 {
      assert forall x :: x in s[..|s| - 1] ==> x in s;
      NoMarks(s[..|s| - 1]);
    }
  }

  lemma OneMark()
    ensures Marks("?") == 1
  {
    assert "?"[..0] == "";
  }

  /** Every part that occurs in the list is placeholder-free, so the whole list is. */
  lemma {:induction false} SumMarksZero(parts: seq<string>)
    requires forall i :: 0 <= i < |parts| ==> Marks(parts[i]) == 0
    ensures SumMarks(parts) == 0
    decreases |parts|
  {
    if |parts| > 0 {
      SumMarksZero(parts[..|parts| - 1]);
    }
  }
}
