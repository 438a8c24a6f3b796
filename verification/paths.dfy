/**
 POSIX path helpers with the semantics of Python 2's `posixpath`:
 `join`, `dirname`, `basename`, plus the normalisation under which
 `a/b/` and `a/b` name the same directory.
 */
module Paths {
  import opened Strings

  /** `os.path.join(a, b)` for two components. */
  function JoinStep(a: string, b: string): (r: string)
    ensures '/' !in b && (a == "" || EndsWith(a, "/")) ==> r == a + b
    ensures '/' !in b && a != "" && !EndsWith(a, "/") ==> r == a + "/" + b
  {
    if |b| > 0 && b[0] == '/' then b
    else if a == "" || EndsWith(a, "/") then a + b
    else a + "/" + b
  }

  /** `os.path.join(*segs)`: a left fold of `JoinStep`. */
  function PathJoin(segs: seq<string>): string
    requires |segs| >= 1
  {
    if |segs| == 1 then segs[0]
    else JoinStep(PathJoin(segs[..|segs| - 1]), segs[|segs| - 1])
  }

  function NonEmpty(segs: seq<string>): (r: seq<string>)
    ensures forall i :: 0 <= i < |r| ==> r[i] != "" && r[i] in segs
  {
    if |segs| == 0 then []
    else if segs[|segs| - 1] == "" then NonEmpty(segs[..|segs| - 1])
    else NonEmpty(segs[..|segs| - 1]) + [segs[|segs| - 1]]
  }

  predicate NoSlash(segs: seq<string>) {
    forall i :: 0 <= i < |segs| ==> '/' !in segs[i]
  }

  /** The pieces `https://host/api` splits into. */
  lemma SchemeSegments(host: string, api: string)
    requires '/' !in host && '/' !in api
    ensures NoSlash(["https:", "", host, api])
  {
    assert "https:" == ['h', 't', 't', 'p', 's', ':'];
  }

  lemma NoSlashAppend(a: seq<string>, b: seq<string>)
    requires NoSlash(a) && NoSlash(b)
    ensures NoSlash(a + b)
  {
    forall i | 0 <= i < |a + b|
      ensures '/' !in (a + b)[i]
    {
      if i >= |a| {
        assert (a + b)[i] == b[i - |a|];
      }
    }
  }

  /** Index just past the last '/' of `p` (0 when there is none). */
  function SlashEnd(p: string): (i: nat)
    ensures i <= |p|
    ensures '/' !in p[i..]
    ensures i == 0 || p[i - 1] == '/'
  {
    if |p| == 0 then 0
    else if p[|p| - 1] == '/' then |p|
    else
      var i := SlashEnd(p[..|p| - 1]);
      assert p[i..] == p[..|p| - 1][i..] + [p[|p| - 1]];
      i
  }

  predicate AllSlashes(s: string) {
    forall i :: 0 <= i < |s| ==> s[i] == '/'
  }

  /** `s.rstrip('/')`. */
  function RStrip(s: string): (r: string)
    ensures r <= s
    ensures r == "" || r[|r| - 1] != '/'
    ensures AllSlashes(s[|r|..])
  {
    if |s| == 0 || s[|s| - 1] != '/' then s
    else
      var r := RStrip(s[..|s| - 1]);
      assert s[|r|..] == s[..|s| - 1][|r|..] + ['/'];
      r
  }

  /** `os.path.dirname(p)`. */
  function Dirname(p: string): (r: string)
    ensures r <= p
  {
    var head := p[..SlashEnd(p)];
    if head != "" && !AllSlashes(head) then RStrip(head) else head
  }

  /** `os.path.basename(p)`. */
  function Basename(p: string): (r: string)
    ensures '/' !in r
  {
    p[SlashEnd(p)..]
  }

  /** The key under which the filesystem model stores a directory: trailing
      slashes do not change which directory a path names. */
  function Norm(p: string): (r: string)
    ensures r <= p
    ensures r == "" <==> p == ""
  {
    var s := RStrip(p);
    if s == "" && p != "" then "/" else s
  }

  lemma NormIdempotent(p: string)
    ensures Norm(Norm(p)) == Norm(p)
  {
  }

  /** Joining a non-empty component keeps that component's last character
      at the end. */
  lemma JoinStepLast(a: string, b: string)
    requires b != ""
    ensures var r := JoinStep(a, b);
            r != "" && r[|r| - 1] == b[|b| - 1]
  {
  }

  /** A path whose last character is not a slash is its own normal form
      and has a strictly shorter directory part. */
  lemma NoTrailingSlash(p: string)
    requires p != "" && p[|p| - 1] != '/'
    ensures !EndsWith(p, "/") && Norm(p) == p && |Dirname(p)| < |p|
  {
    assert SlashEnd(p) < |p|;
  }

  /** Appending a slash-free name to "" or to a path ending in '/' makes
      that name the basename and the original path the directory part. */
  lemma {:induction false} SlashEndAppend(a: string, b: string)
    requires '/' !in b
    requires a == "" || a[|a| - 1] == '/'
    ensures SlashEnd(a + b) == |a|
    decreases |b|
  {
    if |b| > 0 {
      var s := a + b;
      assert s[..|s| - 1] == a + b[..|b| - 1];
      assert b[|b| - 1] in b;
      SlashEndAppend(a, b[..|b| - 1]);
    } else {
      assert a + b == a;
    }
  }

  lemma {:induction false} JoinSnoc(xs: seq<string>, b: string, sep: char)
    requires |xs| >= 1
    ensures Join(xs + [b], sep) == Join(xs, sep) + [sep] + b
    decreases |xs|
  {
    if |xs| > 1 {
      assert (xs + [b])[1..] == xs[1..] + [b];
      JoinSnoc(xs[1..], b, sep);
    }
  }

  lemma {:induction false} JoinEndsWithLast(xs: seq<string>, sep: char)
    requires |xs| >= 1
    ensures EndsWith(Join(xs, sep), xs[|xs| - 1])
    decreases |xs|
  {
    if |xs| > 1 {
      JoinEndsWithLast(xs[1..], sep);
    }
  }

  /** `os.path.join` of slash-free components is a relative path: it
      never starts with '/'. */
  lemma {:induction false} PathJoinRelative(segs: seq<string>)
    requires |segs| >= 1 && NoSlash(segs)
    ensures PathJoin(segs) == "" || PathJoin(segs)[0] != '/'
    decreases |segs|
  {
    if |segs| > 1 {
      var init := segs[..|segs| - 1];
      assert NoSlash(init);
      assert '/' !in segs[|segs| - 1];
      PathJoinRelative(init);
    } else {
      assert '/' !in segs[0];
    }
  }

  /** Joining onto the same base, two relative components give the same
      path only when they are the same component. */
  lemma JoinStepInjective(a: string, b1: string, b2: string)
    requires b1 != "" && b1[0] != '/' && b2 != "" && b2[0] != '/'
    ensures JoinStep(a, b1) == JoinStep(a, b2) ==> b1 == b2
  {
    var pre := if a == "" || EndsWith(a, "/") then a else a + "/";
    assert JoinStep(a, b1) == pre + b1 && JoinStep(a, b2) == pre + b2;
    assert (pre + b1)[|pre|..] == b1 && (pre + b2)[|pre|..] == b2;
  }

  /** With slash-free components whose last one is non-empty,
      `os.path.join` keeps the non-empty components and puts one '/'
      between neighbours: empty components vanish. */
  lemma PathJoinNonEmpty(segs: seq<string>)
    requires |segs| >= 1 && NoSlash(segs) && segs[|segs| - 1] != ""
    ensures PathJoin(segs) == Join(NonEmpty(segs), '/')
  {
    PathJoinShape(segs);
  }

  lemma {:induction false} PathJoinShape(segs: seq<string>)
    requires |segs| >= 1 && NoSlash(segs)
    ensures var ne := NonEmpty(segs);
            PathJoin(segs) ==
              if ne == [] then ""
              else Join(ne, '/') + (if segs[|segs| - 1] == "" then "/" else "")
    decreases |segs|
  {
    if |segs| > 1 {
      var init := segs[..|segs| - 1];
      var b := segs[|segs| - 1];
      assert NoSlash(init);
      assert '/' !in b;
      PathJoinShape(init);
      var ne := NonEmpty(init);
      var p := PathJoin(init);
      assert PathJoin(segs) == JoinStep(p, b);
      assert NonEmpty(segs) == if b == "" then ne else ne + [b];
      if ne == [] {
        assert p == "";
        assert JoinStep(p, b) == b;
        if b != "" {
          assert Join([b], '/') == b;
        }
      } else {
        var j := Join(ne, '/');
        JoinEndsWithLast(ne, '/');
        var last := ne[|ne| - 1];
        assert last != "" && last in init;
        assert '/' !in last;
        assert j[|j| - 1] == last[|last| - 1];
        assert last[|last| - 1] in last;
        assert j != "" && !EndsWith(j, "/");
        if b != "" {
          JoinSnoc(ne, b, '/');
        }
        if init[|init| - 1] == "" {
          assert p == j + "/";
          assert JoinStep(p, b) == j + "/" + b;
        } else {
          assert p == j;
          assert JoinStep(p, b) == j + "/" + b;
        }
        if b == "" {
          assert j + "/" + b == j + "/";
        }
      }
    }
  }
}
