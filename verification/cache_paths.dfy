/**
 Cache-path derivation for the completion cache
 (`RemoteCompletion.CachePath`): a resource self-link such as
 `https://www.googleapis.com/compute/v1/projects/p/zones/z/instances/vm1`
 is split into the cache file that holds the names of all its siblings,
 `www.googleapis.com/compute/v1/projects/p/zones/z/instances/_names_`,
 and its own leaf name, `vm1`.
 */
module CachePaths {
  import opened Strings
  import opened Paths

  /** The file name that holds one level's sibling names. */
  const NamesFile: string := "_names_"

  const Scheme: string := "https://"

  /** A cache file path (relative to the cache directory) and a leaf name. */
  datatype CacheKey = CacheKey(dir: string, name: string)

  /** The self-link with every `https://` removed, as the cache sees it. */
  function Ref(link: string): string {
    RemoveAll(link, Scheme)
  }

  /** The last segment of the scheme-less link is the name; the segments
      before it, joined as `os.path.join` does, followed by the names file,
      are the cache file. */
  function CachePath(link: string): CacheKey {
    var lst := Split(Ref(link), '/');
    CacheKey(PathJoin(lst[..|lst| - 1] + [NamesFile]), lst[|lst| - 1])
  }

  /** The name is the slash-free tail of the link after its last '/', and
      the cache file's last component is the names file. */
  lemma CachePathShape(link: string)
    ensures var k := CachePath(link);
            && '/' !in k.name
            && EndsWith(Ref(link), k.name)
            && (var cut := |Ref(link)| - |k.name|; cut == 0 || Ref(link)[cut - 1] == '/')
            && (k.dir == NamesFile || EndsWith(k.dir, "/" + NamesFile))
            && Basename(k.dir) == NamesFile
  {
    var ref := Ref(link);
    var lst := Split(ref, '/');
    var k := CachePath(link);
    assert k == CacheKey(PathJoin(lst[..|lst| - 1] + [NamesFile]), lst[|lst| - 1]);
    NameIsLastSegment(ref);
    DirEndsWithNamesFile(lst[..|lst| - 1]);
  }

  lemma NameIsLastSegment(ref: string)
    ensures var t := Split(ref, '/');
            var name := t[|t| - 1];
            var cut := |ref| - |name|;
            EndsWith(ref, name) && (cut == 0 || ref[cut - 1] == '/')
  {
    var t := Split(ref, '/');
    JoinSplit(ref, '/');
    if |t| > 1 {
      JoinSnoc(t[..|t| - 1], t[|t| - 1], '/');
      assert t[..|t| - 1] + [t[|t| - 1]] == t;
    }
  }

  lemma DirEndsWithNamesFile(init: seq<string>)
    ensures var dir := PathJoin(init + [NamesFile]);
            (dir == NamesFile || EndsWith(dir, "/" + NamesFile)) && Basename(dir) == NamesFile
  {
    var segs := init + [NamesFile];
    if |init| == 0 {
      assert segs == [NamesFile];
      JoinStepName("", NamesFile);
    } else {
      assert segs[..|segs| - 1] == init;
      JoinStepName(PathJoin(init), NamesFile);
    }
  }

  /** Joining a non-empty, slash-free name makes it the last component. */
  lemma JoinStepName(p: string, b: string)
    requires '/' !in b && b != ""
    ensures var r := JoinStep(p, b);
            (r == b || EndsWith(r, "/" + b)) && Basename(r) == b
  {
    if p == "" {
      SlashEndAppend("", b);
      assert "" + b == b;
    } else if EndsWith(p, "/") {
      SlashEndAppend(p, b);
      var q := p[..|p| - 1];
      assert p == q + "/";
      assert p + b == q + ("/" + b);
    } else {
      SlashEndAppend(p + "/", b);
      assert p + "/" + b == p + ("/" + b);
    }
  }

  /** Two self-links that differ only in their last segment share a cache
      file, and their names differ exactly by that segment. */
  lemma SiblingsShareCacheFile(parent: string, x: string, y: string)
    requires '/' !in x && '/' !in y
    ensures CachePath(parent + "/" + x).dir == CachePath(parent + "/" + y).dir
    ensures CachePath(parent + "/" + x).name == CachePath(parent + "/").name + x
    ensures CachePath(parent + "/" + y).name == CachePath(parent + "/").name + y
  {
    var base := parent + "/";
    RemoveAllAppend(base, x, Scheme);
    RemoveAllAppend(base, y, Scheme);
    var r := Ref(base);
    SplitAppend(r, '/', x);
    SplitAppend(r, '/', y);
    assert parent + "/" + x == base + x;
    assert parent + "/" + y == base + y;
  }

  /** Empty segments (from `//` in the link) vanish from the cache path:
      the directory is the non-empty segments before the name, joined by
      single slashes, followed by the names file. */
  lemma CacheDirSegments(link: string)
    ensures var t := Split(Ref(link), '/');
            CachePath(link).dir == Join(NonEmpty(t[..|t| - 1]) + [NamesFile], '/')
  {
    var t := Split(Ref(link), '/');
    var segs := t[..|t| - 1] + [NamesFile];
    assert CachePath(link).dir == PathJoin(segs);
    assert NoSlash(segs) by {
      forall i | 0 <= i < |segs|
        ensures '/' !in segs[i]
      {
        if i < |t| - 1 {
          assert segs[i] == t[i];
        }
      }
    }
    PathJoinNonEmpty(segs);
    assert segs[..|segs| - 1] == t[..|t| - 1];
  }

  /** The cache file of a link is a non-empty relative path, so joining
      it onto the cache directory never discards the directory. */
  lemma CacheDirRelative(link: string)
    ensures CachePath(link).dir != "" && CachePath(link).dir[0] != '/'
  {
    var t := Split(Ref(link), '/');
    var segs := t[..|t| - 1] + [NamesFile];
    assert CachePath(link).dir == PathJoin(segs);
    assert NoSlash(segs) by {
      forall i | 0 <= i < |segs|
        ensures '/' !in segs[i]
      {
        if i < |t| - 1 {
          assert segs[i] == t[i];
        }
      }
    }
    PathJoinRelative(segs);
    CachePathShape(link);
  }

  /** When the link has no empty segment, the cache path is reversible:
      replacing the names file by the name gives back the link (less its
      scheme). */
  lemma CachePathReversible(link: string)
    requires var t := Split(Ref(link), '/'); forall i :: 0 <= i < |t| - 1 ==> t[i] != ""
    ensures var k := CachePath(link);
            Ref(link) == k.dir[..|k.dir| - |NamesFile|] + k.name
  {
    var ref := Ref(link);
    var t := Split(ref, '/');
    var init := t[..|t| - 1];
    assert t == init + [t[|t| - 1]];
    var k := CachePath(link);
    assert k.name == t[|t| - 1];
    CacheDirSegments(link);
    JoinSplit(ref, '/');
    ReversibleSegments(init, k.dir, k.name);
  }

  lemma ReversibleSegments(init: seq<string>, dir: string, name: string)
    requires forall i :: 0 <= i < |init| ==> init[i] != ""
    requires dir == Join(NonEmpty(init) + [NamesFile], '/')
    ensures |dir| >= |NamesFile| && Join(init + [name], '/') == dir[..|dir| - |NamesFile|] + name
  {
    NonEmptyId(init);
    ReversibleJoin(init, NamesFile, name);
  }

  lemma ReversibleJoin(init: seq<string>, a: string, b: string)
    ensures var dir := Join(init + [a], '/');
            |dir| >= |a| && Join(init + [b], '/') == dir[..|dir| - |a|] + b
  {
    if |init| == 0 {
      assert init + [a] == [a];
      assert init + [b] == [b];
    } else {
      JoinSnoc(init, a, '/');
      JoinSnoc(init, b, '/');
      SwapLast(Join(init, '/'), a, b);
    }
  }

  lemma SwapLast(j: string, a: string, b: string)
    ensures var d := j + "/" + a;
            d[..|d| - |a|] + b == j + "/" + b
  {
    var d := j + "/" + a;
    assert d[..|d| - |a|] == j + "/";
  }

  lemma {:induction false} NonEmptyId(segs: seq<string>)
    requires forall i :: 0 <= i < |segs| ==> segs[i] != ""
    ensures NonEmpty(segs) == segs
    decreases |segs|
  {
    if |segs| > 0 {
      NonEmptyId(segs[..|segs| - 1]);
      assert segs[..|segs| - 1] + [segs[|segs| - 1]] == segs;
    }
  }
}
