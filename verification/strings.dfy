/**
 The handful of Python `str` operations the cache code relies on:
 `split` and `join` on a one-character separator, `endswith`, and
 `replace(pat, '')`, each with the laws the rest of the model needs.
 */
module Strings {

  predicate EndsWith(s: string, suffix: string) {
    |suffix| <= |s| && s[|s| - |suffix|..] == suffix
  }

  /** Python's `s.split(sep)` for a one-character separator: never empty,
      and no piece contains the separator. */
  function Split(s: string, sep: char): (r: seq<string>)
    ensures |r| >= 1
    ensures forall i :: 0 <= i < |r| ==> sep !in r[i]
    decreases |s|
  {
    if |s| == 0 then [""]
    else if s[0] == sep then [""] + Split(s[1..], sep)
    else
      var t := Split(s[1..], sep);
      [[s[0]] + t[0]] + t[1..]
  }

  /** Python's `sep.join(xs)`. */
  function Join(xs: seq<string>, sep: char): string
  {
    if |xs| == 0 then ""
    else if |xs| == 1 then xs[0]
    else xs[0] + [sep] + Join(xs[1..], sep)
  }

  /** Python's `s.replace(pat, '')`: removes the non-overlapping occurrences
      of `pat`, scanning left to right. */
  function RemoveAll(s: string, pat: string): string
    requires |pat| > 0
    decreases |s|
  {
    if |s| < |pat| then s
    else if s[..|pat|] == pat then RemoveAll(s[|pat|..], pat)
    else [s[0]] + RemoveAll(s[1..], pat)
  }

  lemma {:induction false} SplitNoSep(s: string, sep: char)
    requires sep !in s
    ensures Split(s, sep) == [s]
    decreases |s|
  {
    if |s| > 0 {
      SplitNoSep(s[1..], sep);
      assert [s[0]] + s[1..] == s;
    }
  }

  /** Splitting `a + sep + rest` peels `a` off as the first piece. */
  lemma {:induction false} SplitCons(a: string, sep: char, rest: string)
    requires sep !in a
    ensures Split(a + [sep] + rest, sep) == [a] + Split(rest, sep)
    decreases |a|
  {
    var s := a + [sep] + rest;
    if |a| == 0 {
      assert s[1..] == rest;
    } else {
      assert s[1..] == a[1..] + [sep] + rest;
      SplitCons(a[1..], sep, rest);
      assert [a[0]] + a[1..] == a;
    }
  }

  /** Appending a separator-free tail extends only the last piece. */
  lemma {:induction false} SplitAppend(s: string, sep: char, x: string)
    requires sep !in x
    ensures var t := Split(s, sep);
            Split(s + x, sep) == t[..|t| - 1] + [t[|t| - 1] + x]
    decreases |s|
  {
    if |s| == 0 {
      SplitNoSep(x, sep);
      assert s + x == x;
    } else {
      assert (s + x)[1..] == s[1..] + x;
      SplitAppend(s[1..], sep, x);
      var t' := Split(s[1..], sep);
      if s[0] != sep && |t'| == 1 {
        assert [s[0]] + (t'[0] + x) == ([s[0]] + t'[0]) + x;
      } else if s[0] != sep {
        assert [s[0]] + t'[0] + x == [s[0]] + (t'[0] + x);
      }
    }
  }

  /** `split` undoes `join` when the pieces are separator-free. */
  lemma {:induction false} SplitJoin(xs: seq<string>, sep: char)
    requires |xs| >= 1
    requires forall i :: 0 <= i < |xs| ==> sep !in xs[i]
    ensures Split(Join(xs, sep), sep) == xs
    decreases |xs|
  {
    if |xs| == 1 {
      SplitNoSep(xs[0], sep);
    } else {
      SplitJoin(xs[1..], sep);
      SplitCons(xs[0], sep, Join(xs[1..], sep));
      assert [xs[0]] + xs[1..] == xs;
    }
  }

  /** `join` undoes `split` on every string. */
  lemma {:induction false} JoinSplit(s: string, sep: char)
    ensures Join(Split(s, sep), sep) == s
    decreases |s|
  {
    if |s| > 0 {
      JoinSplit(s[1..], sep);
      var t := Split(s[1..], sep);
      if s[0] == sep {
        assert ([""] + t)[1..] == t;
        assert s == [sep] + s[1..];
      } else if |t| > 1 {
        var r := [[s[0]] + t[0]] + t[1..];
        assert r[1..] == t[1..];
        assert Join(t, sep) == t[0] + [sep] + Join(t[1..], sep);
        assert s == [s[0]] + s[1..];
      } else {
        assert s == [s[0]] + s[1..];
      }
    }
  }

  /** A string splits into more than one piece exactly when it contains
      the separator. */
  lemma SplitManyIff(s: string, sep: char)
    ensures |Split(s, sep)| > 1 <==> sep in s
  {
    if sep in s {
      if |Split(s, sep)| == 1 {
        JoinSplit(s, sep);
        assert false;
      }
    } else {
      SplitNoSep(s, sep);
    }
  }

  /** A string with exactly one separator splits into its two sides. */
  lemma SplitTwo(a: string, sep: char, b: string)
    requires sep !in a && sep !in b
    ensures Split(a + [sep] + b, sep) == [a, b]
  {
    SplitCons(a, sep, b);
    SplitNoSep(b, sep);
  }

  /** A tail that cannot complete an occurrence of `pat` passes through
      `replace` unchanged. */
  lemma {:induction false} RemoveAllAppend(u: string, v: string, pat: string)
    requires |pat| > 0 && pat[|pat| - 1] !in v
    ensures RemoveAll(u + v, pat) == RemoveAll(u, pat) + v
    decreases |u|
  {
    var s := u + v;
    if |s| < |pat| {
      RemoveAllShort(u, pat);
    } else if s[..|pat|] == pat {
      if |u| < |pat| {
        assert false;
      }
      RemoveAllAppend(u[|pat|..], v, pat);
      RemoveAllMatchStep(u, v, pat);
    } else if |u| == 0 {
      assert s == v;
      RemoveAllAbsent(v, pat);
    } else {
      RemoveAllAppend(u[1..], v, pat);
      RemoveAllSkipStep(u, v, pat);
    }
  }

  /** One step of `RemoveAllAppend` where `u` starts with `pat`. */
  lemma RemoveAllMatchStep(u: string, v: string, pat: string)
    requires 0 < |pat| <= |u| && u[..|pat|] == pat
    requires RemoveAll(u[|pat|..] + v, pat) == RemoveAll(u[|pat|..], pat) + v
    ensures RemoveAll(u + v, pat) == RemoveAll(u, pat) + v
  {
    var s := u + v;
    assert s[..|pat|] == pat;
    assert s[|pat|..] == u[|pat|..] + v;
  }

  /** One step of `RemoveAllAppend` where `u + v` does not start with
      `pat`: its first character is kept. */
  lemma RemoveAllSkipStep(u: string, v: string, pat: string)
    requires 0 < |pat| <= |u + v| && |u| > 0 && (u + v)[..|pat|] != pat
    requires RemoveAll(u[1..] + v, pat) == RemoveAll(u[1..], pat) + v
    ensures RemoveAll(u + v, pat) == RemoveAll(u, pat) + v
  {
    var s := u + v;
    var x := RemoveAll(u[1..], pat);
    assert s[1..] == u[1..] + v;
    assert RemoveAll(s, pat) == [u[0]] + (x + v);
    if |u| >= |pat| {
      assert u[..|pat|] == s[..|pat|];
    }
    SkipFirst(u, pat);
    assert [u[0]] + (x + v) == ([u[0]] + x) + v;
  }

  /** `replace` keeps the first character of a string too short to hold
      `pat`, or of one that does not start with it. */
  lemma SkipFirst(u: string, pat: string)
    requires |pat| > 0 && |u| > 0
    requires |u| >= |pat| ==> u[..|pat|] != pat
    ensures RemoveAll(u, pat) == [u[0]] + RemoveAll(u[1..], pat)
  {
    if |u| < |pat| {
      RemoveAllShort(u, pat);
      RemoveAllShort(u[1..], pat);
      assert u == [u[0]] + u[1..];
    }
  }

  /** `replace` leaves a string alone when it lacks the last character of
      `pat`. */
  lemma {:induction false} RemoveAllAbsent(s: string, pat: string)
    requires |pat| > 0 && pat[|pat| - 1] !in s
    ensures RemoveAll(s, pat) == s
    decreases |s|
  {
    if |s| >= |pat| {
      assert s[|pat| - 1] == s[..|pat|][|pat| - 1];
      RemoveAllAbsent(s[1..], pat);
      assert s == [s[0]] + s[1..];
    }
  }

  lemma RemoveAllShort(s: string, pat: string)
    requires |pat| > 0 && |s| < |pat|
    ensures RemoveAll(s, pat) == s
  {
  }
}
