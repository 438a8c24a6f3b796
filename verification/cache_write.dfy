/**
 The write path of the completion cache: populating it from a list of
 self-links (`RemoteCompletion.StoreInCache`) and adding or removing one
 name (`AddToCache`, `DeleteFromCache`). Names are grouped by cache file;
 a group's file is written only when its directory does not exist yet,
 and its expiry is then set to `now` plus the collection's timeout.
 Incremental changes rewrite the file and put the old expiry back.
 */
module CacheWrite {
  import opened Wrappers
  import opened Strings
  import opened Paths
  import opened FileSystem
  import opened CachePaths
  import opened CacheRead

  /** Seconds a record stays fresh, per collection. */
  const Timeouts: map<string, int> := map[
    "sql.instances" := 600,
    "compute.instances" := 600,
    "compute.regions" := 3600 * 10,
    "compute.zones" := 3600 * 10
  ]

  const DefaultTimeout: int := 300

  /** `_TIMEOUTS.get(collection, 300)`. */
  function TimeoutFor(collection: string): (t: int)
    ensures t > 0
    ensures collection in Timeouts ==> t == Timeouts[collection]
    ensures collection !in Timeouts ==> t == DefaultTimeout
  {
    if collection in Timeouts then Timeouts[collection] else DefaultTimeout
  }

  /** The collection guessed from a raw self-link when the resource parser
      rejects it: the API name and the last collection segment,
      `compute.instances` for `https://host/compute/v1/.../instances/vm`. */
  function CollectionFromLink(link: string): (r: Result<string>)
    ensures r.Ok? ==> r.value != ""
    ensures r.Err? <==> |Split(link, '/')| < 4
  {
    var lst := Split(link, '/');
    if |lst| < 4 then Err(IndexError)
    else Ok(lst[3] + "." + lst[|lst| - 2])
  }

  /** A self-link `https://host/api/<segments>/collection/name` guesses
      the collection `api.collection`, whatever segments lie between:
      `compute.instances` for host `www.googleapis.com`, API `compute`,
      segments `v1/projects/p/zones/z`, collection `instances`. */
  lemma CollectionOfSelfLink(host: string, api: string, mid: seq<string>, coll: string, name: string)
    requires '/' !in host && '/' !in api && '/' !in coll && '/' !in name
    requires forall i :: 0 <= i < |mid| ==> '/' !in mid[i]
    ensures CollectionFromLink(Join(["https:", "", host, api] + mid + [coll, name], '/')) == Ok(api + "." + coll)
  {
    var segs := ["https:", "", host, api] + mid + [coll, name];
    SelfLinkSegments(host, api, mid, coll, name);
    SplitJoin(segs, '/');
  }

  lemma SelfLinkSegments(host: string, api: string, mid: seq<string>, coll: string, name: string)
    requires '/' !in host && '/' !in api && '/' !in coll && '/' !in name
    requires forall i :: 0 <= i < |mid| ==> '/' !in mid[i]
    ensures var segs := ["https:", "", host, api] + mid + [coll, name];
            NoSlash(segs) && |segs| >= 4 && segs[3] == api && segs[|segs| - 2] == coll
  {
    var front := ["https:", "", host, api];
    SchemeSegments(host, api);
    NoSlashAppend(front, mid);
    NoSlashAppend(front + mid, [coll, name]);
  }




  /** The collection of the first link that yields a non-empty one, either
      from the injected resource parser (`None` when it rejects the link)
      or from the link itself; "" when there is none. */
  function Collection(links: seq<string>, parse: string -> Option<string>, current: string): (r: Result<string>)
    ensures |links| == 0 ==> r == Ok(current)
    ensures current != "" ==> r == Ok(current)
  {
    if |links| == 0 || current != "" then Ok(current)
    else
      var c := match parse(links[0])
        case Some(c) => Ok(c)
        case None => CollectionFromLink(links[0]);
      match c
      case Err(e) => Err(e)
      case Ok(c) => Collection(links[1..], parse, c)
  }

  /** The names bound for one cache file. */
  datatype Group = Group(path: string, names: seq<string>)

  /** `paths[path].append(name)` or `paths[path] = [name]`, keeping groups
      in first-insertion order. */
  function AddToGroups(groups: seq<Group>, path: string, name: string): (r: seq<Group>)
    ensures |r| == |groups| || |r| == |groups| + 1
  {
    if |groups| == 0 then [Group(path, [name])]
    else if groups[0].path == path then [groups[0].(names := groups[0].names + [name])] + groups[1..]
    else [groups[0]] + AddToGroups(groups[1..], path, name)
  }

  /** The grouping loop of `StoreInCache`, over the links in order. */
  function GroupByPath(links: seq<string>): seq<Group>
  {
    if |links| == 0 then []
    else
      var k := CachePath(links[|links| - 1]);
      AddToGroups(GroupByPath(links[..|links| - 1]), k.dir, k.name)
  }

  /** Reference for one group: the names of the links whose cache file is
      `path`, in input order. */
  function NamesUnder(links: seq<string>, path: string): seq<string>
  {
    if |links| == 0 then []
    else
      var k := CachePath(links[|links| - 1]);
      NamesUnder(links[..|links| - 1], path) + (if k.dir == path then [k.name] else [])
  }

  function GroupPaths(groups: seq<Group>): seq<string> {
    seq(|groups|, i requires 0 <= i < |groups| => groups[i].path)
  }

  /** The write step of the store loop: the file is written, after
      creating its directory, only when that directory is missing. */
  function WriteIfNoDir(fs: Fs, abs: string, content: string, now: int): Io {
    var dirname := Dirname(abs);
    if IsDir(fs, dirname) then Io(fs, None)
    else if dirname == "" then Io(fs, Some(OSError))
    else
      var made := MakeDirs(fs, dirname);
      if made.error.Some? then made
      else WriteFile(made.fs, abs, content, now)
  }

  /** One iteration of the store loop: write the file only if its directory
      is missing, then stamp the expiry whether or not it was written. */
  function StoreGroup(fs: Fs, now: int, cacheDir: string, g: Group, timeout: int): Io {
    var abs := JoinStep(cacheDir, g.path);
    var written := WriteIfNoDir(fs, abs, Join(g.names, '\n'), now);
    if written.error.Some? then written
    else SetMtime(written.fs, abs, now + timeout)
  }

  /** The store loop: the state it leaves and the exception of the first
      failing group, which ends it (and which `StoreInCache` swallows). */
  function StoreGroups(fs: Fs, now: int, cacheDir: string, groups: seq<Group>, timeout: int): Io
    decreases |groups|
  {
    if |groups| == 0 then Io(fs, None)
    else
      var io := StoreGroup(fs, now, cacheDir, groups[0], timeout);
      if io.error.Some? then io
      else StoreGroups(io.fs, now, cacheDir, groups[1..], timeout)
  }

  /** `StoreInCache(self_links)`. Only the collection guess can raise;
      nothing is stored when no collection is found. */
  function StoreInCache(fs: Fs, now: int, cacheDir: string, links: seq<string>,
                        parse: string -> Option<string>): (io: Io)
    ensures io.error.Some? ==> io.fs == fs
    ensures Collection(links, parse, "") == Ok("") ==> io == Io(fs, None)
  {
    match Collection(links, parse, "")
    case Err(e) => Io(fs, Some(e))
    case Ok(c) =>
      if c == "" then Io(fs, None)
      else Io(StoreGroups(fs, now, cacheDir, GroupByPath(links), TimeoutFor(c)).fs, None)
  }

  /** `list.remove(x)`: drops the first occurrence. */
  function RemoveFirst(xs: seq<string>, x: string): (r: seq<string>)
    requires x in xs
    ensures |r| == |xs| - 1
    ensures multiset(r) == multiset(xs) - multiset{x}
    ensures forall y :: y in r ==> y in xs
    ensures forall i :: 0 <= i < |xs| && xs[i] == x && x !in xs[..i] ==> r == xs[..i] + xs[i + 1..]
  {
    var i := IndexOf(xs, x).value;
    assert xs == xs[..i] + [x] + xs[i + 1..];
    xs[..i] + xs[i + 1..]
  }

  /** Rewrites an existing record with `names` and puts `mtime` back. */
  function Rewrite(fs: Fs, now: int, cacheDir: string, link: string, abs: string,
                   names: seq<string>, mtime: int, delete: bool,
                   parse: string -> Option<string>): Io
  {
    var w := WriteFile(fs, abs, Join(names, '\n'), now);
    if w.error.Some? then w
    else
      var s := SetMtime(w.fs, abs, mtime);
      if s.error == None then s
      else if delete then Io(s.fs, None)
      else StoreInCache(s.fs, now, cacheDir, [link], parse)
  }

  /** `AddToCache(self_link, delete)`. A missing record is created by
      `StoreInCache` on add and ignored on delete; a name that is not there
      is ignored on delete; removing the last name removes the file. */
  function AddToCache(fs: Fs, now: int, cacheDir: string, link: string, delete: bool,
                      parse: string -> Option<string>): Io
  {
    var k := CachePath(link);
    var abs := CacheFile(cacheDir, link);
    if abs == "" || abs !in fs.files then
      if IsDir(fs, abs) then Io(fs, Some(IOError))
      else if delete then Io(fs, None)
      else StoreInCache(fs, now, cacheDir, [link], parse)
    else
      var mtime := fs.files[abs].mtime;
      var options := Split(fs.files[abs].content, '\n');
      if !delete then Rewrite(fs, now, cacheDir, link, abs, options + [k.name], mtime, delete, parse)
      else if k.name !in options then Io(fs, None)
      else
        var rest := RemoveFirst(options, k.name);
        if |rest| == 0 then Io(RemoveFile(fs, abs).fs, None)
        else Rewrite(fs, now, cacheDir, link, abs, rest, mtime, delete, parse)
  }

  /** `DeleteFromCache(self_link)`. */
  function DeleteFromCache(fs: Fs, now: int, cacheDir: string, link: string,
                           parse: string -> Option<string>): Io
  {
    AddToCache(fs, now, cacheDir, link, true, parse)
  }

  /** The names `groups` holds for `path`, or none. */
  function NamesIn(groups: seq<Group>, path: string): seq<string>
  {
    if |groups| == 0 then []
    else if groups[0].path == path then groups[0].names
    else NamesIn(groups[1..], path)
  }

  ghost predicate DistinctPaths(groups: seq<Group>) {
    forall i, j :: 0 <= i < j < |groups| ==> groups[i].path != groups[j].path
  }

  lemma {:induction false} AddToGroupsNames(groups: seq<Group>, path: string, name: string)
    requires DistinctPaths(groups)
    requires forall i :: 0 <= i < |groups| ==> |groups[i].names| > 0
    ensures var r := AddToGroups(groups, path, name);
            && DistinctPaths(r)
            && (forall i :: 0 <= i < |r| ==> |r[i].names| > 0)
            && (forall q :: NamesIn(r, q) == NamesIn(groups, q) + (if q == path then [name] else []))
    decreases |groups|
  {
    var r := AddToGroups(groups, path, name);
    if |groups| > 0 && groups[0].path != path {
      var tl := groups[1..];
      assert DistinctPaths(tl) by {
        forall i, j | 0 <= i < j < |tl|
          ensures tl[i].path != tl[j].path
        {
          assert tl[i] == groups[i + 1] && tl[j] == groups[j + 1];
        }
      }
      AddToGroupsNames(tl, path, name);
      var rt := AddToGroups(tl, path, name);
      assert r == [groups[0]] + rt;
      forall q
        ensures NamesIn(r, q) == NamesIn(groups, q) + (if q == path then [name] else [])
      {
        if q == groups[0].path {
          assert NamesIn(tl, q) == [] by {
            NamesInAbsent(tl, q);
          }
        }
      }
      assert DistinctPaths(r) by {
        forall i, j | 0 <= i < j < |r|
          ensures r[i].path != r[j].path
        {
          if i == 0 {
            assert r[j] == rt[j - 1];
            if rt[j - 1].path == groups[0].path {
              PathsOfAddToGroups(tl, path, name, j - 1);
            }
          }
        }
      }
    } else if |groups| > 0 {
      var tl := groups[1..];
      forall q
        ensures NamesIn(r, q) == NamesIn(groups, q) + (if q == path then [name] else [])
      {
      }
      assert DistinctPaths(r) by {
        forall i, j | 0 <= i < j < |r|
          ensures r[i].path != r[j].path
        {
          assert r[j] == groups[j];
          if i > 0 { assert r[i] == groups[i]; }
        }
      }
    }
  }

  lemma {:induction false} NamesInAbsent(groups: seq<Group>, q: string)
    requires forall i :: 0 <= i < |groups| ==> groups[i].path != q
    ensures NamesIn(groups, q) == []
    decreases |groups|
  {
    if |groups| > 0 {
      NamesInAbsent(groups[1..], q);
    }
  }

  lemma {:induction false} PathsOfAddToGroups(groups: seq<Group>, path: string, name: string, j: nat)
    requires j < |AddToGroups(groups, path, name)|
    ensures var r := AddToGroups(groups, path, name);
            r[j].path == path || exists i :: 0 <= i < |groups| && groups[i].path == r[j].path
    decreases |groups|
  {
    if |groups| > 0 && groups[0].path != path && j > 0 {
      PathsOfAddToGroups(groups[1..], path, name, j - 1);
      var r := AddToGroups(groups, path, name);
      var rt := AddToGroups(groups[1..], path, name);
      assert r[j] == rt[j - 1];
      if rt[j - 1].path != path {
        var i :| 0 <= i < |groups[1..]| && groups[1..][i].path == rt[j - 1].path;
        assert groups[i + 1].path == r[j].path;
      }
    } else if |groups| > 0 && j > 0 {
      assert AddToGroups(groups, path, name)[j] == groups[j];
    }
  }

  /** The grouping of `StoreInCache`: one group per cache file, holding the
      names of exactly the links that map to it, in input order. */
  lemma {:induction false} GroupByPathSpec(links: seq<string>)
    ensures var gs := GroupByPath(links);
            && DistinctPaths(gs)
            && (forall i :: 0 <= i < |gs| ==> |gs[i].names| > 0)
            && (forall q :: NamesIn(gs, q) == NamesUnder(links, q))
    decreases |links|
  {
    if |links| == 0 {
      assert GroupByPath(links) == [];
      assert forall q :: NamesUnder(links, q) == [];
    } else {
      var init := links[..|links| - 1];
      var k := CachePath(links[|links| - 1]);
      GroupByPathStep(links, init, k);
      GroupByPathSpec(init);
      var prev := GroupByPath(init);
      AddToGroupsNames(prev, k.dir, k.name);
      var gs := GroupByPath(links);
      forall q
        ensures NamesIn(gs, q) == NamesUnder(links, q)
      {
        var extra := if k.dir == q then [k.name] else [];
        assert NamesIn(gs, q) == NamesIn(prev, q) + extra;
        assert NamesIn(prev, q) == NamesUnder(init, q);
        assert NamesUnder(links, q) == NamesUnder(init, q) + extra;
      }
    }
  }

  lemma GroupByPathStep(links: seq<string>, init: seq<string>, k: CacheKey)
    requires |links| > 0 && init == links[..|links| - 1] && k == CachePath(links[|links| - 1])
    ensures GroupByPath(links) == AddToGroups(GroupByPath(init), k.dir, k.name)
    ensures forall q :: NamesUnder(links, q) == NamesUnder(init, q) + (if k.dir == q then [k.name] else [])
  {
  }

  /** Every group of the grouping is the reference group of its path. */
  lemma GroupsMatchReference(links: seq<string>)
    ensures var gs := GroupByPath(links);
            && (forall i :: 0 <= i < |gs| ==> gs[i].names == NamesUnder(links, gs[i].path))
            && (forall q :: q in GroupPaths(gs) <==> |NamesUnder(links, q)| > 0)
  {
    var gs := GroupByPath(links);
    GroupByPathSpec(links);
    assert forall q :: NamesIn(gs, q) == NamesUnder(links, q);
    forall i | 0 <= i < |gs|
      ensures gs[i].names == NamesUnder(links, gs[i].path)
    {
      NamesInAt(gs, i);
    }
    forall q
      ensures q in GroupPaths(gs) <==> |NamesUnder(links, q)| > 0
    {
      if q in GroupPaths(gs) {
        var i :| 0 <= i < |gs| && GroupPaths(gs)[i] == q;
        NamesInAt(gs, i);
        assert NamesIn(gs, q) == gs[i].names;
      } else {
        assert forall i :: 0 <= i < |gs| ==> gs[i].path != q by {
          forall i | 0 <= i < |gs|
            ensures gs[i].path != q
          {
            assert GroupPaths(gs)[i] == gs[i].path;
          }
        }
        NamesInAbsent(gs, q);
      }
    }
  }

  lemma {:induction false} NamesInAt(groups: seq<Group>, i: nat)
    requires i < |groups| && DistinctPaths(groups)
    ensures NamesIn(groups, groups[i].path) == groups[i].names
    decreases i
  {
    if i > 0 {
      var tl := groups[1..];
      assert DistinctPaths(tl) by {
        forall a, b | 0 <= a < b < |tl|
          ensures tl[a].path != tl[b].path
        {
          assert tl[a] == groups[a + 1] && tl[b] == groups[b + 1];
        }
      }
      NamesInAt(tl, i - 1);
    }
  }

  /** The shape of every absolute cache file: it ends in the names file,
      so it is non-empty, has no trailing slash, is its own normal form,
      and its directory part is strictly shorter. */
  lemma CacheFileShape(cacheDir: string, link: string)
    ensures var abs := CacheFile(cacheDir, link);
            && abs != ""
            && !EndsWith(abs, "/")
            && Norm(abs) == abs
            && |Dirname(abs)| < |abs|
  {
    CacheFileNonEmpty(cacheDir, link);
    NoTrailingSlash(CacheFile(cacheDir, link));
  }

  /** Nothing stands where the record for `abs` would go: its directory
      does not exist, nor a directory at its own path, and no regular file
      occupies the directory's path or a prefix of it. */
  ghost predicate Unpopulated(fs: Fs, abs: string) {
    var dirname := Dirname(abs);
    && dirname != ""
    && !IsDir(fs, dirname)
    && Norm(abs) !in fs.dirs
    && NoFileOnPath(fs, Norm(dirname))
  }

  lemma SingleGroup(link: string)
    ensures GroupByPath([link]) == [Group(CachePath(link).dir, [CachePath(link).name])]
  {
    assert [link][..0] == [];
  }

  /** Storing one link where nothing exists yet creates its record holding
      exactly its name, expiring after the collection's timeout. */
  lemma StoreCreatesRecord(fs: Fs, now: int, cacheDir: string, link: string,
                           parse: string -> Option<string>)
    requires Collection([link], parse, "").Ok? && Collection([link], parse, "").value != ""
    requires Unpopulated(fs, CacheFile(cacheDir, link))
    ensures var c := Collection([link], parse, "").value;
            var stored := StoreInCache(fs, now, cacheDir, [link], parse);
            var abs := CacheFile(cacheDir, link);
            && stored.error == None
            && abs in stored.fs.files
            && stored.fs.files[abs] == Record(CachePath(link).name, now + TimeoutFor(c))
  {
    var c := Collection([link], parse, "").value;
    var k := CachePath(link);
    var abs := CacheFile(cacheDir, link);
    var dirname := Dirname(abs);
    CacheFileShape(cacheDir, link);
    SingleGroup(link);
    var g := Group(k.dir, [k.name]);
    var io := StoreGroup(fs, now, cacheDir, g, TimeoutFor(c));
    StoreGroupCreates(fs, now, cacheDir, g, TimeoutFor(c));
    assert Join([k.name], '\n') == k.name;
    assert StoreGroups(fs, now, cacheDir, [g], TimeoutFor(c)).fs == io.fs;
  }

  lemma StoreGroupCreates(fs: Fs, now: int, cacheDir: string, g: Group, timeout: int)
    requires var abs := JoinStep(cacheDir, g.path);
             && abs != "" && !EndsWith(abs, "/") && Norm(abs) == abs && |Dirname(abs)| < |abs|
             && Unpopulated(fs, abs)
    ensures var abs := JoinStep(cacheDir, g.path);
            var io := StoreGroup(fs, now, cacheDir, g, timeout);
            io.error == None && abs in io.fs.files && io.fs.files[abs] == Record(Join(g.names, '\n'), now + timeout)
  {
    var abs := JoinStep(cacheDir, g.path);
    var dirname := Dirname(abs);
    MakeDirsSucceeds(fs, dirname);
    var made := MakeDirs(fs, dirname);
    assert |Norm(dirname)| < |abs|;
    assert Norm(abs) !in made.fs.dirs;
    var w := WriteFile(made.fs, abs, Join(g.names, '\n'), now);
    assert w.error == None;
  }

  /** Storing one link where nothing exists yet and reading it back: the
      read sees exactly that name until the collection's timeout has
      elapsed, and misses from then on. */
  lemma StoreThenRead(fs: Fs, now: int, later: int, cacheDir: string, link: string,
                      parse: string -> Option<string>, stats: Stats)
    requires Collection([link], parse, "").Ok? && Collection([link], parse, "").value != ""
    requires Unpopulated(fs, CacheFile(cacheDir, link))
    requires '*' !in CacheFile(cacheDir, link) && '\n' !in CachePath(link).name
    ensures var c := Collection([link], parse, "").value;
            var stored := StoreInCache(fs, now, cacheDir, [link], parse);
            var r := GetFromCache(stored.fs, later, cacheDir, link, "", "", stats);
            && stored.error == None
            && r.outcome == (if later < now + TimeoutFor(c) then Returned(Some([CachePath(link).name]))
                             else Returned(None))
  {
    var c := Collection([link], parse, "").value;
    StoreCreatesRecord(fs, now, cacheDir, link, parse);
    var stored := StoreInCache(fs, now, cacheDir, [link], parse);
    ReadSingleName(stored.fs, later, cacheDir, link, CachePath(link).name, "", stats, now + TimeoutFor(c));
  }

  /** Reading a record that holds one name: a hit with that name (when it
      matches `prefix`) before the expiry, a miss from then on. */
  lemma ReadSingleName(fs: Fs, later: int, cacheDir: string, link: string, name: string,
                       prefix: string, stats: Stats, expiry: int)
    requires var abs := CacheFile(cacheDir, link);
             && abs in fs.files && fs.files[abs] == Record(name, expiry)
             && '*' !in abs && '\n' !in name
    ensures GetFromCache(fs, later, cacheDir, link, prefix, "", stats).outcome ==
              if later < expiry then Returned(Some(if Matches(name, prefix) then [name] else []))
              else Returned(None)
  {
    var abs := CacheFile(cacheDir, link);
    CacheFileNonEmpty(cacheDir, link);
    SplitNoSep(name, '\n');
    assert Lines(fs, abs) == [name];
    assert AnnotatedMatches([name], prefix, "") == (if Matches(name, prefix) then [name] else []) by {
      assert name + "" == name;
    }
  }

  /** A group whose directory already exists is not written: an existing
      record keeps its names, however stale, and only gets a new expiry; a
      missing record stays missing. */
  lemma StoreIntoExistingDir(fs: Fs, now: int, cacheDir: string, link: string,
                             parse: string -> Option<string>)
    requires Collection([link], parse, "").Ok? && Collection([link], parse, "").value != ""
    requires IsDir(fs, Dirname(CacheFile(cacheDir, link)))
    ensures var c := Collection([link], parse, "").value;
            var abs := CacheFile(cacheDir, link);
            var r := StoreInCache(fs, now, cacheDir, [link], parse);
            && r.error == None
            && (abs in fs.files ==>
                  r.fs == fs.(files := fs.files[abs := fs.files[abs].(mtime := now + TimeoutFor(c))]))
            && (abs !in fs.files ==> r.fs == fs)
  {
    var c := Collection([link], parse, "").value;
    var k := CachePath(link);
    StoreSingle(fs, now, cacheDir, link, parse);
    StoreGroupExistingDir(fs, now, cacheDir, Group(k.dir, [k.name]), TimeoutFor(c));
  }

  /** Storing one link is storing its one-name group. */
  lemma StoreSingle(fs: Fs, now: int, cacheDir: string, link: string,
                    parse: string -> Option<string>)
    requires Collection([link], parse, "").Ok? && Collection([link], parse, "").value != ""
    ensures var c := Collection([link], parse, "").value;
            var k := CachePath(link);
            StoreInCache(fs, now, cacheDir, [link], parse) ==
              Io(StoreGroup(fs, now, cacheDir, Group(k.dir, [k.name]), TimeoutFor(c)).fs, None)
  {
    var c := Collection([link], parse, "").value;
    var k := CachePath(link);
    SingleGroup(link);
    var g := Group(k.dir, [k.name]);
    assert StoreGroups(fs, now, cacheDir, [g], TimeoutFor(c)).fs == StoreGroup(fs, now, cacheDir, g, TimeoutFor(c)).fs;
  }

  /** A group whose directory exists only gets its expiry stamped. */
  lemma StoreGroupExistingDir(fs: Fs, now: int, cacheDir: string, g: Group, timeout: int)
    requires IsDir(fs, Dirname(JoinStep(cacheDir, g.path)))
    ensures var abs := JoinStep(cacheDir, g.path);
            var io := StoreGroup(fs, now, cacheDir, g, timeout);
            && (abs in fs.files ==> io == Io(fs.(files := fs.files[abs := fs.files[abs].(mtime := now + timeout)]), None))
            && (abs !in fs.files ==> io.fs == fs && (io.error == None <==> IsDir(fs, abs)))
  {
  }

  /** The files a list of groups may touch. */
  function Targets(cacheDir: string, groups: seq<Group>): set<string>
    decreases |groups|
  {
    if |groups| == 0 then {}
    else {JoinStep(cacheDir, groups[0].path)} + Targets(cacheDir, groups[1..])
  }

  lemma {:induction false} TargetsAt(cacheDir: string, groups: seq<Group>, t: string)
    requires t in Targets(cacheDir, groups)
    ensures exists i :: 0 <= i < |groups| && t == JoinStep(cacheDir, groups[i].path)
    decreases |groups|
  {
    if t != JoinStep(cacheDir, groups[0].path) {
      TargetsAt(cacheDir, groups[1..], t);
      var i :| 0 <= i < |groups[1..]| && t == JoinStep(cacheDir, groups[1..][i].path);
      assert groups[1..][i] == groups[i + 1];
    }
  }

  /** What one store leaves alone: no file disappears, files other than
      `touched` keep their records, a new file can only be `touched`, and
      no directory disappears. */
  ghost predicate Frame(fs: Fs, r: Fs, touched: set<string>) {
    && fs.files.Keys <= r.files.Keys
    && (forall p :: p in fs.files && p !in touched ==> r.files[p] == fs.files[p])
    && (forall p :: p in r.files && p !in fs.files ==> p in touched)
    && fs.dirs.Keys <= r.dirs.Keys
  }

  lemma MakeDirsFrame(fs: Fs, d: string)
    requires d != ""
    ensures Frame(fs, MakeDirs(fs, d).fs, {})
  {
  }

  lemma WriteFileFrame(fs: Fs, p: string, content: string, now: int)
    ensures Frame(fs, WriteFile(fs, p, content, now).fs, {p})
  {
  }

  lemma SetMtimeFrame(fs: Fs, p: string, t: int)
    ensures Frame(fs, SetMtime(fs, p, t).fs, {p})
  {
  }

  lemma WriteIfNoDirFrame(fs: Fs, abs: string, content: string, now: int)
    ensures Frame(fs, WriteIfNoDir(fs, abs, content, now).fs, {abs})
  {
    var dirname := Dirname(abs);
    if !IsDir(fs, dirname) && dirname != "" {
      var made := MakeDirs(fs, dirname);
      MakeDirsFrame(fs, dirname);
      WriteFileFrame(made.fs, abs, content, now);
      FrameTrans(fs, made.fs, WriteFile(made.fs, abs, content, now).fs, {}, {abs});
      assert {} + {abs} == {abs};
    }
  }

  lemma StoreGroupFrame(fs: Fs, now: int, cacheDir: string, g: Group, timeout: int)
    ensures Frame(fs, StoreGroup(fs, now, cacheDir, g, timeout).fs, {JoinStep(cacheDir, g.path)})
  {
    var abs := JoinStep(cacheDir, g.path);
    var written := WriteIfNoDir(fs, abs, Join(g.names, '\n'), now);
    WriteIfNoDirFrame(fs, abs, Join(g.names, '\n'), now);
    if written.error == None {
      SetMtimeFrame(written.fs, abs, now + timeout);
      FrameTrans(fs, written.fs, SetMtime(written.fs, abs, now + timeout).fs, {abs}, {abs});
      assert {abs} + {abs} == {abs};
    }
  }

  lemma FrameTrans(a: Fs, b: Fs, c: Fs, s: set<string>, t: set<string>)
    requires Frame(a, b, s) && Frame(b, c, t)
    ensures Frame(a, c, s + t)
  {
  }

  lemma {:induction false} StoreGroupsFrame(fs: Fs, now: int, cacheDir: string, groups: seq<Group>, timeout: int)
    ensures Frame(fs, StoreGroups(fs, now, cacheDir, groups, timeout).fs, Targets(cacheDir, groups))
    decreases |groups|
  {
    if |groups| > 0 {
      var io := StoreGroup(fs, now, cacheDir, groups[0], timeout);
      var abs := JoinStep(cacheDir, groups[0].path);
      StoreGroupFrame(fs, now, cacheDir, groups[0], timeout);
      if io.error == None {
        StoreGroupsFrame(io.fs, now, cacheDir, groups[1..], timeout);
        FrameTrans(fs, io.fs, StoreGroups(io.fs, now, cacheDir, groups[1..], timeout).fs,
                   {abs}, Targets(cacheDir, groups[1..]));
      }
    }
  }

  /** Storing `a + b` is storing `a` and then, unless a group of `a`
      failed, storing `b` on the state it left. */
  lemma {:induction false} StoreGroupsAppend(fs: Fs, now: int, cacheDir: string, a: seq<Group>, b: seq<Group>,
                                             timeout: int)
    ensures StoreGroups(fs, now, cacheDir, a + b, timeout) ==
              var x := StoreGroups(fs, now, cacheDir, a, timeout);
              if x.error.Some? then x else StoreGroups(x.fs, now, cacheDir, b, timeout)
    decreases |a|
  {
    if |a| == 0 {
      assert a + b == b;
    } else {
      var io := StoreGroup(fs, now, cacheDir, a[0], timeout);
      assert (a + b)[0] == a[0];
      assert (a + b)[1..] == a[1..] + b;
      if io.error == None {
        StoreGroupsAppend(io.fs, now, cacheDir, a[1..], b, timeout);
      }
    }
  }

  /** Group `i` of the store loop. If a group before it failed, the loop
      ended there and neither it nor any later group is stored; if it
      fails itself, the loop ends with its exception; otherwise the record
      it leaves at its file survives to the end, as no later group targets
      that file. */
  lemma StoreGroupsEach(fs: Fs, now: int, cacheDir: string, groups: seq<Group>, timeout: int, i: nat)
    requires i < |groups|
    requires forall k :: i < k < |groups| ==>
               JoinStep(cacheDir, groups[k].path) != JoinStep(cacheDir, groups[i].path)
    ensures var before := StoreGroups(fs, now, cacheDir, groups[..i], timeout);
            var step := StoreGroup(before.fs, now, cacheDir, groups[i], timeout);
            var r := StoreGroups(fs, now, cacheDir, groups, timeout);
            var abs := JoinStep(cacheDir, groups[i].path);
            && (before.error.Some? ==> r == before)
            && (before.error == None && step.error.Some? ==> r == step)
            && (before.error == None && step.error == None && abs in step.fs.files ==>
                  abs in r.fs.files && r.fs.files[abs] == step.fs.files[abs])
  {
    var before := StoreGroups(fs, now, cacheDir, groups[..i], timeout);
    var step := StoreGroup(before.fs, now, cacheDir, groups[i], timeout);
    var rest := groups[i + 1..];
    StoreGroupsAt(fs, now, cacheDir, groups, timeout, i);
    if before.error == None && step.error == None {
      forall k | 0 <= k < |rest|
        ensures JoinStep(cacheDir, rest[k].path) != JoinStep(cacheDir, groups[i].path)
      {
        assert rest[k] == groups[i + 1 + k];
      }
      StoreGroupsSpare(step.fs, now, cacheDir, rest, timeout, JoinStep(cacheDir, groups[i].path));
    }
  }

  /** The loop cut at group `i`: the groups before it, then it, then the
      rest, each part run only when the one before it succeeded. */
  lemma StoreGroupsAt(fs: Fs, now: int, cacheDir: string, groups: seq<Group>, timeout: int, i: nat)
    requires i < |groups|
    ensures var before := StoreGroups(fs, now, cacheDir, groups[..i], timeout);
            var step := StoreGroup(before.fs, now, cacheDir, groups[i], timeout);
            StoreGroups(fs, now, cacheDir, groups, timeout) ==
              if before.error.Some? then before
              else if step.error.Some? then step
              else StoreGroups(step.fs, now, cacheDir, groups[i + 1..], timeout)
  {
    var a := groups[..i];
    var b := groups[i..];
    assert a + b == groups;
    StoreGroupsAppend(fs, now, cacheDir, a, b, timeout);
    var before := StoreGroups(fs, now, cacheDir, a, timeout);
    StoreGroupsCons(before.fs, now, cacheDir, b, timeout);
    assert b[0] == groups[i] && b[1..] == groups[i + 1..];
  }

  lemma StoreGroupsCons(fs: Fs, now: int, cacheDir: string, groups: seq<Group>, timeout: int)
    requires |groups| > 0
    ensures var io := StoreGroup(fs, now, cacheDir, groups[0], timeout);
            StoreGroups(fs, now, cacheDir, groups, timeout) ==
              if io.error.Some? then io else StoreGroups(io.fs, now, cacheDir, groups[1..], timeout)
  {
  }

  /** A file that no group targets keeps its record through the loop. */
  lemma StoreGroupsSpare(fs: Fs, now: int, cacheDir: string, groups: seq<Group>, timeout: int, abs: string)
    requires forall k :: 0 <= k < |groups| ==> JoinStep(cacheDir, groups[k].path) != abs
    ensures var r := StoreGroups(fs, now, cacheDir, groups, timeout);
            abs in fs.files ==> abs in r.fs.files && r.fs.files[abs] == fs.files[abs]
  {
    StoreGroupsFrame(fs, now, cacheDir, groups, timeout);
    if abs in Targets(cacheDir, groups) {
      TargetsAt(cacheDir, groups, abs);
    }
  }

  /** Storing a list of links, seen from the group of one cache file
      `q` (the `i`-th in first-appearance order), with `before` the state
      the groups ahead of it leave. The store never raises. If an earlier
      group failed, the loop stopped there and nothing from `q` on is
      stored. Otherwise, where nothing stands yet, `q`'s record is created
      holding the names of exactly the links under `q`, in input order,
      one per line, and expires after the collection's timeout; where the
      directory exists and the record too, the record keeps its names and
      only gets the new expiry; where the directory exists but the record
      does not, the stamp fails and the loop stops without storing `q` or
      any group after it. */
  lemma StoreInCacheEach(fs: Fs, now: int, cacheDir: string, links: seq<string>,
                         parse: string -> Option<string>, i: nat)
    requires Collection(links, parse, "").Ok? && Collection(links, parse, "").value != ""
    requires i < |GroupByPath(links)|
    ensures var t := TimeoutFor(Collection(links, parse, "").value);
            var gs := GroupByPath(links);
            var q := gs[i].path;
            var abs := JoinStep(cacheDir, q);
            var before := StoreGroups(fs, now, cacheDir, gs[..i], t);
            var r := StoreInCache(fs, now, cacheDir, links, parse);
            && r.error == None
            && |NamesUnder(links, q)| > 0
            && (before.error.Some? ==> r.fs == before.fs)
            && (before.error == None && Unpopulated(before.fs, abs) ==>
                  abs in r.fs.files && r.fs.files[abs] == Record(Join(NamesUnder(links, q), '\n'), now + t))
            && (before.error == None && IsDir(before.fs, Dirname(abs)) && abs in before.fs.files ==>
                  abs in r.fs.files && r.fs.files[abs] == before.fs.files[abs].(mtime := now + t))
            && ((before.error == None && IsDir(before.fs, Dirname(abs)) &&
                 abs !in before.fs.files && !IsDir(before.fs, abs)) ==> r.fs == before.fs)
  {
    var t := TimeoutFor(Collection(links, parse, "").value);
    var gs := GroupByPath(links);
    var abs := JoinStep(cacheDir, gs[i].path);
    var before := StoreGroups(fs, now, cacheDir, gs[..i], t);
    GroupsMatchReference(links);
    GroupByPathSpec(links);
    GroupTargetsDistinct(cacheDir, links, i);
    StoreGroupsEach(fs, now, cacheDir, gs, t, i);
    if before.error == None {
      if Unpopulated(before.fs, abs) {
        GroupOfLink(links, i);
        var l :| l in links && CachePath(l).dir == gs[i].path;
        CacheFileShape(cacheDir, l);
        StoreGroupCreates(before.fs, now, cacheDir, gs[i], t);
      }
      if IsDir(before.fs, Dirname(abs)) {
        StoreGroupExistingDir(before.fs, now, cacheDir, gs[i], t);
      }
    }
  }

  /** Each group's cache file is the cache file of some link. */
  lemma GroupOfLink(links: seq<string>, i: nat)
    requires i < |GroupByPath(links)|
    ensures exists l :: l in links && CachePath(l).dir == GroupByPath(links)[i].path
  {
    var gs := GroupByPath(links);
    GroupByPathSpec(links);
    GroupsMatchReference(links);
    NamesUnderWitness(links, gs[i].path);
  }

  /** No two groups target the same file: their paths differ and are
      relative, so they stay apart once joined onto the cache directory. */
  lemma GroupTargetsDistinct(cacheDir: string, links: seq<string>, i: nat)
    requires i < |GroupByPath(links)|
    ensures var gs := GroupByPath(links);
            forall k :: i < k < |gs| ==> JoinStep(cacheDir, gs[k].path) != JoinStep(cacheDir, gs[i].path)
  {
    var gs := GroupByPath(links);
    GroupByPathSpec(links);
    GroupOfLink(links, i);
    var l :| l in links && CachePath(l).dir == gs[i].path;
    CacheDirRelative(l);
    forall k | i < k < |gs|
      ensures JoinStep(cacheDir, gs[k].path) != JoinStep(cacheDir, gs[i].path)
    {
      GroupOfLink(links, k);
      var m :| m in links && CachePath(m).dir == gs[k].path;
      CacheDirRelative(m);
      JoinStepInjective(cacheDir, gs[k].path, gs[i].path);
    }
  }

  lemma {:induction false} NamesUnderWitness(links: seq<string>, q: string)
    requires |NamesUnder(links, q)| > 0
    ensures exists l :: l in links && CachePath(l).dir == q
    decreases |links|
  {
    var init := links[..|links| - 1];
    if CachePath(links[|links| - 1]).dir != q {
      NamesUnderWitness(init, q);
      var l :| l in init && CachePath(l).dir == q;
      assert l in links;
    }
  }

  /** `StoreInCache` touches only the cache files of the links it is given:
      every other file keeps its record, and nothing is deleted. */
  lemma StoreTouchesOnlyItsFiles(fs: Fs, now: int, cacheDir: string, links: seq<string>,
                                 parse: string -> Option<string>)
    ensures Frame(fs, StoreInCache(fs, now, cacheDir, links, parse).fs,
                  set l | l in links :: CacheFile(cacheDir, l))
  {
    var gs := GroupByPath(links);
    var all := set l | l in links :: CacheFile(cacheDir, l);
    GroupsMatchReference(links);
    assert Targets(cacheDir, gs) <= all by {
      forall t | t in Targets(cacheDir, gs)
        ensures t in all
      {
        TargetsAt(cacheDir, gs, t);
        var i :| 0 <= i < |gs| && t == JoinStep(cacheDir, gs[i].path);
        assert GroupPaths(gs)[i] == gs[i].path;
        NamesUnderWitness(links, gs[i].path);
        var l :| l in links && CachePath(l).dir == gs[i].path;
        assert t == CacheFile(cacheDir, l);
      }
    }
    match Collection(links, parse, "")
    case Err(_) =>
    case Ok(c) =>
      if c != "" {
        StoreGroupsFrame(fs, now, cacheDir, gs, TimeoutFor(c));
      }
  }

  /** With no record at the cache file, an add falls back to
      `StoreInCache` for the one link and a delete does nothing; a
      directory in the file's place makes `open` raise `IOError`. */
  lemma MissingRecord(fs: Fs, now: int, cacheDir: string, link: string, delete: bool,
                      parse: string -> Option<string>)
    requires CacheFile(cacheDir, link) !in fs.files
    ensures var r := AddToCache(fs, now, cacheDir, link, delete, parse);
            if IsDir(fs, CacheFile(cacheDir, link)) then r == Io(fs, Some(IOError))
            else if delete then r == Io(fs, None)
            else r == StoreInCache(fs, now, cacheDir, [link], parse)
  {
  }

  /** Rewriting a well-formed record succeeds, keeps every other file and
      the record's expiry, and the record then holds exactly `names`. */
  lemma RewriteKeepsExpiry(fs: Fs, now: int, cacheDir: string, link: string, abs: string,
                           names: seq<string>, delete: bool, parse: string -> Option<string>)
    requires Wf(fs) && abs in fs.files
    requires |names| >= 1 && forall i :: 0 <= i < |names| ==> '\n' !in names[i]
    ensures var r := Rewrite(fs, now, cacheDir, link, abs, names, fs.files[abs].mtime, delete, parse);
            && r.error == None
            && r.fs.files.Keys == fs.files.Keys
            && r.fs.files[abs].mtime == fs.files[abs].mtime
            && Lines(r.fs, abs) == names
            && (forall p :: p in fs.files && p != abs ==> r.fs.files[p] == fs.files[p])
  {
    var w := WriteFile(fs, abs, Join(names, '\n'), now);
    assert w.error == None;
    SplitJoin(names, '\n');
  }

  /** Adding a name to an existing record appends it as the last line and
      leaves the record's expiry and every other file unchanged. */
  lemma AddAppendsKeepingExpiry(fs: Fs, now: int, cacheDir: string, link: string,
                                parse: string -> Option<string>)
    requires Wf(fs)
    requires CacheFile(cacheDir, link) in fs.files
    requires '\n' !in CachePath(link).name
    ensures var abs := CacheFile(cacheDir, link);
            var r := AddToCache(fs, now, cacheDir, link, false, parse);
            && r.error == None
            && r.fs.files.Keys == fs.files.Keys
            && r.fs.files[abs].mtime == fs.files[abs].mtime
            && Lines(r.fs, abs) == Lines(fs, abs) + [CachePath(link).name]
            && (forall p :: p in fs.files && p != abs ==> r.fs.files[p] == fs.files[p])
  {
    var abs := CacheFile(cacheDir, link);
    var names := Lines(fs, abs) + [CachePath(link).name];
    assert forall i :: 0 <= i < |names| ==> '\n' !in names[i] by {
      forall i | 0 <= i < |names|
        ensures '\n' !in names[i]
      {
        if i < |Lines(fs, abs)| {
          assert names[i] == Lines(fs, abs)[i];
        }
      }
    }
    RewriteKeepsExpiry(fs, now, cacheDir, link, abs, names, false, parse);
  }

  /** Deleting a name from an existing record: an absent name changes
      nothing; the last name removes the file; otherwise its first
      occurrence is dropped and the expiry is kept. */
  lemma DeleteRemovesFirstOccurrence(fs: Fs, now: int, cacheDir: string, link: string,
                                     parse: string -> Option<string>)
    requires Wf(fs)
    requires CacheFile(cacheDir, link) in fs.files
    ensures var abs := CacheFile(cacheDir, link);
            var name := CachePath(link).name;
            var lines := Lines(fs, abs);
            var r := DeleteFromCache(fs, now, cacheDir, link, parse);
            && r.error == None
            && (name !in lines ==> r.fs == fs)
            && (name in lines && |lines| == 1 ==> r.fs.files == fs.files - {abs})
            && (name in lines && |lines| > 1 ==>
                  && r.fs.files.Keys == fs.files.Keys
                  && r.fs.files[abs].mtime == fs.files[abs].mtime
                  && Lines(r.fs, abs) == RemoveFirst(lines, name)
                  && (forall p :: p in fs.files && p != abs ==> r.fs.files[p] == fs.files[p]))
  {
    var abs := CacheFile(cacheDir, link);
    var name := CachePath(link).name;
    var lines := Lines(fs, abs);
    if name in lines && |lines| > 1 {
      var rest := RemoveFirst(lines, name);
      assert forall i :: 0 <= i < |rest| ==> '\n' !in rest[i] by {
        forall i | 0 <= i < |rest|
          ensures '\n' !in rest[i]
        {
          assert rest[i] in lines;
        }
      }
      RewriteKeepsExpiry(fs, now, cacheDir, link, abs, rest, true, parse);
    }
  }

  /** Deleting the last name removes the record but keeps its directory,
      so a later add of the same link is lost: its fallback store finds
      the directory, writes nothing, and fails to stamp the missing file.
      Reads of the link keep missing. */
  lemma AddAfterDeletingLastIsLost(fs: Fs, now: int, later: int, cacheDir: string, link: string,
                                   parse: string -> Option<string>, stats: Stats)
    requires Wf(fs)
    requires CacheFile(cacheDir, link) in fs.files
    requires Lines(fs, CacheFile(cacheDir, link)) == [CachePath(link).name]
    requires '*' !in CacheFile(cacheDir, link)
    ensures var abs := CacheFile(cacheDir, link);
            var deleted := DeleteFromCache(fs, now, cacheDir, link, parse).fs;
            var added := AddToCache(deleted, later, cacheDir, link, false, parse);
            && abs !in deleted.files
            && added.fs == deleted
            && GetFromCache(added.fs, later, cacheDir, link, "", "", stats).outcome == Returned(None)
  {
    var abs := CacheFile(cacheDir, link);
    DeleteLastRemovesFile(fs, now, cacheDir, link, parse);
    var deleted := DeleteFromCache(fs, now, cacheDir, link, parse).fs;
    assert !IsDir(deleted, abs);
    MissingRecord(deleted, later, cacheDir, link, false, parse);
    match Collection([link], parse, "")
    case Err(_) =>
    case Ok(c) =>
      if c != "" {
        var dirname := Dirname(abs);
        if dirname != "" {
          StoreIntoExistingDir(deleted, later, cacheDir, link, parse);
        } else {
          SingleGroup(link);
          var k := CachePath(link);
          var g := Group(k.dir, [k.name]);
          assert StoreGroups(deleted, later, cacheDir, [g], TimeoutFor(c)).fs == deleted;
        }
      }
  }

  /** Deleting the only name removes the file and no directory. */
  lemma DeleteLastRemovesFile(fs: Fs, now: int, cacheDir: string, link: string,
                              parse: string -> Option<string>)
    requires CacheFile(cacheDir, link) in fs.files
    requires Lines(fs, CacheFile(cacheDir, link)) == [CachePath(link).name]
    ensures var r := DeleteFromCache(fs, now, cacheDir, link, parse);
            && r.error == None
            && r.fs.files == fs.files - {CacheFile(cacheDir, link)}
            && r.fs.dirs.Keys == fs.dirs.Keys
  {
    var name := CachePath(link).name;
    CacheFileNonEmpty(cacheDir, link);
    assert RemoveFirst([name], name) == [];
  }
}
