/** Splitting a sequence at a separator, and joining with one. */
module Splitting {
  /** The stretches between separators; n separators give n + 1 stretches, empty ones included. */
  function Split<T(==)>(s: seq<T>, sep: T): (parts: seq<seq<T>>)
    ensures parts != []
  {
    if s == [] then [[]]
    else
      var rest := Split(s[1..], sep);
      if s[0] == sep then [[]] + rest else [[s[0]] + rest[0]] + rest[1..]
  }

  function Join<T>(parts: seq<seq<T>>, sep: seq<T>): seq<T> {
    if parts == [] then []
    else if |parts| == 1 then parts[0]
    else parts[0] + sep + Join(parts[1..], sep)
  }

  lemma {:induction false} SplitAtSeparator<T>(a: seq<T>, sep: T, b: seq<T>)
    ensures Split(a + [sep] + b, sep) == Split(a, sep) + Split(b, sep)
  {
    if a == [] {
      assert a + [sep] + b == [sep] + b;
    } else {
      assert (a + [sep] + b)[1..] == a[1..] + [sep] + b;
      SplitAtSeparator(a[1..], sep, b);
    }
  }

  lemma {:induction false} SplitWithoutSeparator<T>(a: seq<T>, sep: T)
    requires sep !in a
    ensures Split(a, sep) == [a]
  {
    if a != [] {
      SplitWithoutSeparator(a[1..], sep);
      assert [a[0]] + a[1..] == a;
    }
  }

  /** Every part followed by an end mark. */
  function Broken<T>(parts: seq<seq<T>>, end: T): seq<T> {
    if parts == [] then [] else parts[0] + [end] + Broken(parts[1..], end)
  }

  lemma {:induction false} BrokenConcat<T>(a: seq<seq<T>>, b: seq<seq<T>>, end: T)
    ensures Broken(a + b, end) == Broken(a, end) + Broken(b, end)
  {
    if a == [] {
      assert a + b == b;
    } else {
      BrokenConcat(a[1..], b, end);
      assert (a + b)[1..] == a[1..] + b;
    }
  }

  lemma {:induction false} JoinIsBroken<T>(parts: seq<seq<T>>, end: T)
    ensures Broken(parts, end) == if parts == [] then [] else Join(parts, [end]) + [end]
  {
    if |parts| > 1 {
      JoinIsBroken(parts[1..], end);
    } else if |parts| == 1 {
      assert Broken(parts, end) == parts[0] + [end] + Broken([], end);
    }
  }

  lemma {:induction false} SplitBroken<T>(parts: seq<seq<T>>, end: T)
    requires forall i :: 0 <= i < |parts| ==> end !in parts[i]
    ensures Split(Broken(parts, end), end) == parts + [[]]
  {
    if parts != [] {
      SplitBroken(parts[1..], end);
      SplitAtSeparator(parts[0], end, Broken(parts[1..], end));
      SplitWithoutSeparator(parts[0], end);
      assert [parts[0]] + (parts[1..] + [[]]) == parts + [[]];
    }
  }
}
