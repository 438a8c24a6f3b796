/**
 The read path of the completion cache (`RemoteCompletion.GetFromCache`
 and `GetAllMatchesFromCache`). A cache file path may hold `*` wildcards
 for hierarchy levels the user has not fixed yet (zone, region, ...); the
 read then enumerates the cached directories at that level, reads every
 fresh branch, and annotates each name with the flag that selects the
 branch (` --zone us-central1-a`). A record is fresh while its expiry,
 kept in the file's modification time, lies after `now`.
 */
module CacheRead {
  import opened Wrappers
  import opened Strings
  import opened Paths
  import opened FileSystem
  import opened CachePaths

  /** Flag prefix per `<api>.<hierarchy level>`, used to annotate names
      found below a wildcard at that level. */
  const ResourceFlags: map<string, string> := map[
    "compute.projects" := " --project ",
    "compute.regions" := " --region ",
    "compute.zones" := " --zone ",
    "sql.projects" := " --project "
  ]

  /** The directory component the cache root is expected to contain. */
  const CacheRootName: string := "completion_cache"

  /** How many nested reads the interpreter's recursion limit leaves room
      for; only a directory entry containing `*` ever uses more than one. */
  const MaxNesting: nat := 1000

  /** The process-wide `CACHE_TRIES` and `CACHE_HITS` counters. */
  datatype Stats = Stats(tries: int, hits: int)

  /** What a read returned (`None` is a miss) or the exception it raised. */
  datatype Outcome = Returned(options: Option<seq<string>>) | Raised(error: PyError)

  /** The state a read threads through: the instance's pending flag
      annotation and the hit counter. */
  datatype ReadState = ReadState(flags: string, hits: int)

  datatype Read = Read(state: ReadState, outcome: Outcome)

  /** The result of one top-level read, with the updated counters and the
      flag annotation left on the cache instance. */
  datatype Lookup = Lookup(outcome: Outcome, flags: string, stats: Stats)

  /** The absolute cache file for a self-link; the single definition that
      both the read and the write path use. */
  function CacheFile(cacheDir: string, link: string): string {
    JoinStep(cacheDir, CachePath(link).dir)
  }

  /** Every cache file ends with the names file, so it is never the empty
      path. */
  lemma CacheFileNonEmpty(cacheDir: string, link: string)
    ensures var abs := CacheFile(cacheDir, link);
            abs != "" && abs[|abs| - 1] == NamesFile[|NamesFile| - 1]
  {
    var dir := CachePath(link).dir;
    CachePathShape(link);
    assert dir[|dir| - 1] == NamesFile[|NamesFile| - 1];
    JoinStepLast(cacheDir, dir);
  }

  /** `not prefix or item.startswith(prefix)`. */
  predicate Matches(item: string, prefix: string) {
    prefix == "" || prefix <= item
  }

  /** The lines of a record that match `prefix`, in file order, each with
      the pending flag annotation appended. */
  function AnnotatedMatches(lines: seq<string>, prefix: string, flags: string): (r: seq<string>)
    ensures |r| <= |lines|
    ensures forall x :: x in r <==> exists l :: l in lines && Matches(l, prefix) && x == l + flags
  {
    if |lines| == 0 then []
    else
      var rest := AnnotatedMatches(lines[1..], prefix, flags);
      assert forall l :: l in lines <==> l == lines[0] || l in lines[1..];
      (if Matches(lines[0], prefix) then [lines[0] + flags] else []) + rest
  }

  /** `if not options: options = []` followed by appending `found`. */
  function Extend(options: Option<seq<string>>, found: seq<string>): seq<string> {
    if options.Some? then options.value + found else found
  }

  /** The names stored in a cache file, one per line. */
  function Lines(fs: Fs, p: string): seq<string>
    requires p in fs.files
  {
    Split(fs.files[p].content, '\n')
  }

  function IndexOf(items: seq<string>, x: string): (r: Option<nat>)
    ensures r.Some? ==> r.value < |items| && items[r.value] == x
    ensures r.Some? ==> forall j :: 0 <= j < r.value ==> items[j] != x
    ensures r.None? ==> x !in items
  {
    if |items| == 0 then None
    else if items[0] == x then Some(0)
    else match IndexOf(items[1..], x)
      case None => None
      case Some(i) => Some(i + 1)
  }

  /** The flag for the level below a wildcard: the API name two components
      below the first cache-root component and the next-to-last component
      select an entry of `ResourceFlags`. `list.index` raises `ValueError`
      without a cache root, indexing past the end raises `IndexError`, and
      a key outside the table raises `KeyError`. */
  function FlagName(items: seq<string>): (r: Result<string>)
    ensures r.Ok? ==> r.value in ResourceFlags.Values
    ensures CacheRootName !in items ==> r == Err(ValueError)
    ensures forall i :: 0 <= i < |items| && items[i] == CacheRootName && CacheRootName !in items[..i] ==>
              if i + 2 >= |items| then r == Err(IndexError)
              else
                var key := items[i + 2] + "." + items[|items| - 2];
                (key in ResourceFlags ==> r == Ok(ResourceFlags[key])) &&
                (key !in ResourceFlags ==> r == Err(KeyError))
  {
    match IndexOf(items, CacheRootName)
    case None => Err(ValueError)
    case Some(i) =>
      if i + 2 >= |items| then Err(IndexError)
      else
        var key := items[i + 2] + "." + items[|items| - 2];
        if key in ResourceFlags then Ok(ResourceFlags[key]) else Err(KeyError)
  }

  /** The `global` sibling read in addition when the wildcard stands for a
      region. */
  function GlobalSibling(head: string, tail: string): string
    requires EndsWith(head, "regions/")
  {
    head[..|head| - |"regions/"|] + "global" + tail
  }

  /** `GetAllMatchesFromCache(prefix, fpath, options)` with the instance's
      flag annotation and the hit counter threaded through. */
  function GetAllMatches(fs: Fs, now: int, prefix: string, fpath: string,
                         options: Option<seq<string>>, st: ReadState, fuel: nat): (r: Read)
    ensures r.state.hits >= st.hits
    ensures options.None? && r.outcome.Returned? && r.outcome.options.Some? ==> r.state.hits > st.hits
    decreases fuel, 1, 0
  {
    var lst := Split(fpath, '*');
    if |lst| > 1 then
      var head := lst[0];
      if !IsDir(fs, head) then Read(st, Returned(None))
      else match FlagName(Split(head, '/'))
        case Err(e) => Read(st, Raised(e))
        case Ok(flagname) =>
          var r1 := Branches(fs, now, prefix, head, lst[1], flagname, ListDir(fs, head), options, st, fuel);
          if r1.outcome.Raised? || !EndsWith(head, "regions/") then r1
          else
            var g := GlobalSibling(head, lst[1]);
            var st2 := r1.state.(flags := " --global");
            if !IsFresh(fs, g, now) then r1
            else if fuel == 0 then Read(st2, Raised(RecursionLimit))
            else GetAllMatches(fs, now, prefix, g, r1.outcome.options, st2, fuel - 1)
    else if fpath == "" || !IsFresh(fs, fpath, now) then Read(st, Returned(None))
    else
      var found := AnnotatedMatches(Lines(fs, fpath), prefix, st.flags);
      Read(ReadState("", st.hits + 1), Returned(Some(Extend(options, found))))
  }

  /** The loop over the entries of the directory before the wildcard. */
  function Branches(fs: Fs, now: int, prefix: string, head: string, tail: string,
                    flagname: string, names: seq<string>,
                    options: Option<seq<string>>, st: ReadState, fuel: nat): (r: Read)
    ensures r.state.hits >= st.hits
    ensures options.None? && r.outcome.Returned? && r.outcome.options.Some? ==> r.state.hits > st.hits
    decreases fuel, 0, |names|
  {
    if |names| == 0 then Read(st, Returned(options))
    else
      var st1 := st.(flags := flagname + names[0]);
      var fpath := head + names[0] + tail;
      if !IsFresh(fs, fpath, now) then
        Branches(fs, now, prefix, head, tail, flagname, names[1..], options, st1, fuel)
      else if fuel == 0 then Read(st1, Raised(RecursionLimit))
      else
        var r := GetAllMatches(fs, now, prefix, fpath, options, st1, fuel - 1);
        if r.outcome.Raised? then r
        else Branches(fs, now, prefix, head, tail, flagname, names[1..], r.outcome.options, r.state, fuel)
  }

  /** `GetFromCache(self_link, prefix)` on a cache instance whose pending
      annotation is `flags`. One try is counted per call, whatever the
      fan-out; a wildcard-free read is a hit exactly when its record is
      fresh, and then yields the matching names with the annotation. */
  function GetFromCache(fs: Fs, now: int, cacheDir: string, link: string, prefix: string,
                        flags: string, stats: Stats): (r: Lookup)
    ensures r.stats.tries == stats.tries + 1
    ensures r.stats.hits >= stats.hits
    ensures r.outcome.Returned? && r.outcome.options.Some? ==> r.stats.hits > stats.hits
    ensures var f := CacheFile(cacheDir, link);
            '*' !in f ==>
              && (r.outcome == Returned(None) <==> !IsFresh(fs, f, now))
              && (IsFresh(fs, f, now) ==>
                    && r.outcome == Returned(Some(AnnotatedMatches(Lines(fs, f), prefix, flags)))
                    && r.stats.hits == stats.hits + 1
                    && r.flags == "")
              && (!IsFresh(fs, f, now) ==> r.stats.hits == stats.hits && r.flags == flags)
  {
    var f := CacheFile(cacheDir, link);
    SplitManyIff(f, '*');
    var rd := GetAllMatches(fs, now, prefix, f, None, ReadState(flags, stats.hits), MaxNesting);
    Lookup(rd.outcome, rd.state.flags, Stats(stats.tries + 1, rd.state.hits))
  }

  /** The directory entries whose branch file is fresh. */
  function FreshNames(fs: Fs, now: int, head: string, tail: string, names: seq<string>): (r: seq<string>)
    ensures |r| <= |names|
    ensures forall n :: n in r <==> n in names && IsFresh(fs, head + n + tail, now)
  {
    if |names| == 0 then []
    else
      var rest := FreshNames(fs, now, head, tail, names[1..]);
      assert forall n :: n in names <==> n == names[0] || n in names[1..];
      (if IsFresh(fs, head + names[0] + tail, now) then [names[0]] else []) + rest
  }

  /** Reference for a wildcard level: the matches of every fresh branch in
      listing order, each annotated with the flag naming its branch. */
  function BranchUnion(fs: Fs, now: int, prefix: string, head: string, tail: string,
                       flagname: string, names: seq<string>): seq<string>
  {
    if |names| == 0 then []
    else
      var f := head + names[0] + tail;
      (if IsFresh(fs, f, now) then AnnotatedMatches(Lines(fs, f), prefix, flagname + names[0]) else [])
      + BranchUnion(fs, now, prefix, head, tail, flagname, names[1..])
  }

  /** A wildcard-free path is read as a single record. */
  lemma LeafRead(fs: Fs, now: int, prefix: string, fpath: string,
                 options: Option<seq<string>>, st: ReadState, fuel: nat)
    requires '*' !in fpath
    ensures var r := GetAllMatches(fs, now, prefix, fpath, options, st, fuel);
            if IsFresh(fs, fpath, now) then
              r == Read(ReadState("", st.hits + 1),
                        Returned(Some(Extend(options, AnnotatedMatches(Lines(fs, fpath), prefix, st.flags)))))
            else r == Read(st, Returned(None))
  {
    SplitNoSep(fpath, '*');
  }

  /** The loop over one wildcard level reads exactly the fresh branches,
      counts one hit for each, and leaves `options` alone when none is
      fresh. */
  lemma {:induction false} BranchesRead(fs: Fs, now: int, prefix: string, head: string, tail: string,
                                        flagname: string, names: seq<string>,
                                        options: Option<seq<string>>, st: ReadState, fuel: nat)
    requires '*' !in head && '*' !in tail
    requires forall i :: 0 <= i < |names| ==> '*' !in names[i]
    requires fuel >= 1
    ensures var r := Branches(fs, now, prefix, head, tail, flagname, names, options, st, fuel);
            var hitNames := FreshNames(fs, now, head, tail, names);
            var union := BranchUnion(fs, now, prefix, head, tail, flagname, names);
            && r.outcome == Returned(if |hitNames| == 0 then options else Some(Extend(options, union)))
            && r.state.hits == st.hits + |hitNames|
    decreases |names|
  {
    if |names| > 0 {
      var n := names[0];
      var f := head + n + tail;
      var st1 := st.(flags := flagname + n);
      var rest := names[1..];
      assert '*' !in f;
      if IsFresh(fs, f, now) {
        var found := AnnotatedMatches(Lines(fs, f), prefix, flagname + n);
        LeafRead(fs, now, prefix, f, options, st1, fuel - 1);
        var o1 := Some(Extend(options, found));
        BranchesRead(fs, now, prefix, head, tail, flagname, rest, o1, ReadState("", st.hits + 1), fuel);
        var ur := BranchUnion(fs, now, prefix, head, tail, flagname, rest);
        if |FreshNames(fs, now, head, tail, rest)| == 0 {
          EmptyUnion(fs, now, prefix, head, tail, flagname, rest);
          assert found + ur == found;
        } else {
          if options.Some? {
            assert options.value + found + ur == options.value + (found + ur);
          }
        }
      } else {
        BranchesRead(fs, now, prefix, head, tail, flagname, rest, options, st1, fuel);
        var ur := BranchUnion(fs, now, prefix, head, tail, flagname, rest);
        assert BranchUnion(fs, now, prefix, head, tail, flagname, names) == [] + ur;
        assert FreshNames(fs, now, head, tail, names) == [] + FreshNames(fs, now, head, tail, rest);
        assert Branches(fs, now, prefix, head, tail, flagname, names, options, st, fuel)
            == Branches(fs, now, prefix, head, tail, flagname, rest, options, st1, fuel);
        assert [] + ur == ur;
        assert [] + FreshNames(fs, now, head, tail, rest) == FreshNames(fs, now, head, tail, rest);
      }
    }
  }

  lemma {:induction false} EmptyUnion(fs: Fs, now: int, prefix: string, head: string, tail: string,
                                      flagname: string, names: seq<string>)
    requires |FreshNames(fs, now, head, tail, names)| == 0
    ensures BranchUnion(fs, now, prefix, head, tail, flagname, names) == []
    decreases |names|
  {
    if |names| > 0 {
      EmptyUnion(fs, now, prefix, head, tail, flagname, names[1..]);
    }
  }

  /** A wildcard read: `head` is the text before the first `*` and `tail`
      the text between the first and the second, so whatever follows a
      second `*` is dropped. The read is a miss when `head` is not a cached
      directory; otherwise it is the union of the fresh branches
      `head + entry + tail`, followed, below `regions/`, by the fresh
      `global` sibling annotated ` --global`, and still a miss when nothing
      along the way was fresh. One hit is counted per record read. */
  lemma WildcardRead(fs: Fs, now: int, prefix: string, fpath: string, st: ReadState, fuel: nat)
    requires '*' in fpath
    requires var head := Split(fpath, '*')[0];
             IsDir(fs, head) ==> forall i :: 0 <= i < |ListDir(fs, head)| ==> '*' !in ListDir(fs, head)[i]
    requires fuel >= 2
    ensures |Split(fpath, '*')| > 1
    ensures var lst := Split(fpath, '*');
            var head := lst[0];
            var tail := lst[1];
            var r := GetAllMatches(fs, now, prefix, fpath, None, st, fuel);
            && (!IsDir(fs, head) ==> r == Read(st, Returned(None)))
            && (IsDir(fs, head) && FlagName(Split(head, '/')).Err? ==>
                  r == Read(st, Raised(FlagName(Split(head, '/')).error)))
            && (IsDir(fs, head) && FlagName(Split(head, '/')).Ok? ==>
                  (var flagname := FlagName(Split(head, '/')).value;
                  var names := ListDir(fs, head);
                  var hitNames := FreshNames(fs, now, head, tail, names);
                  var union := BranchUnion(fs, now, prefix, head, tail, flagname, names);
                  var global := EndsWith(head, "regions/") && IsFresh(fs, GlobalSibling(head, tail), now);
                  var extra := if global then AnnotatedMatches(Lines(fs, GlobalSibling(head, tail)), prefix, " --global") else [];
                  && r.outcome == Returned(if |hitNames| == 0 && !global then None else Some(union + extra))
                  && r.state.hits == st.hits + |hitNames| + (if global then 1 else 0)))
  {
    SplitManyIff(fpath, '*');
    var lst := Split(fpath, '*');
    var head := lst[0];
    var tail := lst[1];
    if IsDir(fs, head) && FlagName(Split(head, '/')).Ok? {
      var flagname := FlagName(Split(head, '/')).value;
      var names := ListDir(fs, head);
      BranchesRead(fs, now, prefix, head, tail, flagname, names, None, st, fuel);
      var r1 := Branches(fs, now, prefix, head, tail, flagname, names, None, st, fuel);
      if EndsWith(head, "regions/") {
        var g := GlobalSibling(head, tail);
        assert '*' !in "global";
        assert '*' !in g;
        LeafRead(fs, now, prefix, g, r1.outcome.options, r1.state.(flags := " --global"), fuel - 1);
        var union := BranchUnion(fs, now, prefix, head, tail, flagname, names);
        if |FreshNames(fs, now, head, tail, names)| == 0 {
          EmptyUnion(fs, now, prefix, head, tail, flagname, names);
        }
        if IsFresh(fs, g, now) {
          var extra := AnnotatedMatches(Lines(fs, g), prefix, " --global");
          assert [] + extra == extra;
        } else {
          assert union + [] == union;
        }
      } else {
        assert BranchUnion(fs, now, prefix, head, tail, flagname, names) + [] ==
               BranchUnion(fs, now, prefix, head, tail, flagname, names);
      }
    }
  }
}
