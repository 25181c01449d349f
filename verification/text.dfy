/**
 * Splitting text at a separator character, the way Python's `str.split(sep)`
 * does, and the inverse construction used to state round trips: a first word
 * followed by `sep + word` for every further word.
 */
module Text {

  /** The pieces of `s` between occurrences of `sep`; never empty. */
  function Split(s: string, sep: char): (r: seq<string>)
    ensures |r| >= 1
    ensures sep !in s ==> r == [s]
    decreases |s|
  {
    if s == [] then [[]]
    else
      var rest := Split(s[1..], sep);
      assert [s[0]] + s[1..] == s;
      if s[0] == sep then [[]] + rest
      else [[s[0]] + rest[0]] + rest[1..]
  }

  /** `sep + ts[0] + sep + ts[1] + ...`: the text that follows a first word. */
  function Prefixed(ts: seq<string>, sep: char): string
  {
    if ts == [] then [] else [sep] + ts[0] + Prefixed(ts[1..], sep)
  }

  predicate FreeOf(ts: seq<string>, sep: char)
  {
    forall i :: 0 <= i < |ts| ==> sep !in ts[i]
  }

  lemma {:induction false} SplitCons(a: string, sep: char, rest: string)
    requires sep !in a
    ensures Split(a + [sep] + rest, sep) == [a] + Split(rest, sep)
    decreases |a|
  {
    if a == [] {
      assert a + [sep] + rest == [sep] + rest;
      assert ([sep] + rest)[1..] == rest;
    } else {
      SplitCons(a[1..], sep, rest);
      assert (a + [sep] + rest)[1..] == a[1..] + [sep] + rest;
      assert [a[0]] + a[1..] == a;
    }
  }

  lemma {:induction false} PrefixedAppend(a: seq<string>, b: seq<string>, sep: char)
    ensures Prefixed(a + b, sep) == Prefixed(a, sep) + Prefixed(b, sep)
    decreases |a|
  {
    if a == [] {
      assert a + b == b;
    } else {
      PrefixedAppend(a[1..], b, sep);
      assert (a + b)[1..] == a[1..] + b;
    }
  }

  /** Splitting a first word followed by `Prefixed(ts)` gives back the words. */
  lemma {:induction false} SplitPrefixed(first: string, ts: seq<string>, sep: char)
    requires sep !in first && FreeOf(ts, sep)
    ensures Split(first + Prefixed(ts, sep), sep) == [first] + ts
    decreases |ts|
  {
    if ts == [] {
      assert first + Prefixed(ts, sep) == first;
    } else {
      SplitPrefixed(ts[0], ts[1..], sep);
      assert first + Prefixed(ts, sep) == first + [sep] + (ts[0] + Prefixed(ts[1..], sep));
      SplitCons(first, sep, ts[0] + Prefixed(ts[1..], sep));
      assert [ts[0]] + ts[1..] == ts;
    }
  }

  lemma PrefixedSnoc(ts: seq<string>, t: string, sep: char)
    ensures Prefixed(ts + [t], sep) == Prefixed(ts, sep) + [sep] + t
  {
    PrefixedAppend(ts, [t], sep);
    assert [t][1..] == [];
  }

  /** Moving a separator-terminated word inside a separator-terminated text. */
  lemma Regroup(head: string, p: string, t: string, sep: char)
    ensures (head + p + [sep]) + (t + [sep]) == head + (p + [sep] + t) + [sep]
  {
  }

  lemma PrefixedPair(a: string, b: string, sep: char)
    ensures Prefixed([a, b], sep) == [sep] + a + [sep] + b
  {
    assert [a, b][1..] == [b];
    assert [b][1..] == [];
    assert Prefixed([b], sep) == [sep] + b;
    assert Prefixed([a, b], sep) == [sep] + a + ([sep] + b);
  }

  /** A non-empty sequence is its front followed by its last element. */
  lemma InitLast<T>(s: seq<T>)
    requires |s| > 0
    ensures s[..|s| - 1] + [s[|s| - 1]] == s
  {
  }
}
