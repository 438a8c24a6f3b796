/**
 The completer a command line registers for a resource argument
 (`GetCompleterForResource(...).RemoteCompleter`): it takes the word being
 completed from the end of the shell's command line, asks the cache, and
 on a miss runs the resource's list command, answers from its result and
 stores the self-links it returned. A link with a wildcard is read back
 from the cache after storing, and that re-read is not counted as a hit.
 Any exception yields no completions.
 */
module Completer {
  import opened Wrappers
  import opened Strings
  import opened FileSystem
  import opened CachePaths
  import opened CacheRead
  import opened CacheWrite

  predicate IsBlank(c: char) {
    c == ' ' || c == '\t'
  }

  /** The word under the cursor: the longest blank-free tail of the
      command line (`COMP_LINE`); nothing when the line is unset or empty. */
  function Prefix(line: Option<string>): (p: string)
    ensures line.None? ==> p == ""
    ensures line.Some? ==> EndsWith(line.value, p)
    ensures ' ' !in p && '\t' !in p
    ensures line.Some? && p != line.value ==> IsBlank(line.value[|line.value| - |p| - 1])
  {
    if line.None? then "" else TrailingWord(line.value)
  }

  function TrailingWord(s: string): (p: string)
    ensures EndsWith(s, p)
    ensures ' ' !in p && '\t' !in p
    ensures p != s ==> IsBlank(s[|s| - |p| - 1])
  {
    if |s| == 0 || IsBlank(s[|s| - 1]) then ""
    else
      var w := TrailingWord(s[..|s| - 1]);
      assert s[|s| - |w| - 1..] == s[..|s| - 1][|s| - 1 - |w|..] + [s[|s| - 1]];
      w + [s[|s| - 1]]
  }

  /** The scan of `RemoteCompleter` from the last character backwards,
      stopping at the first blank. */
  method CompletionPrefix(line: Option<string>) returns (prefix: string)
    ensures prefix == Prefix(line)
  {
    prefix := "";
    if line.Some? && line.value != "" {
      var s := line.value;
      var i := |s| - 1;
      while i >= 0 && !IsBlank(s[i])
        invariant -1 <= i < |s|
        invariant prefix == s[i + 1..]
        invariant ' ' !in prefix && '\t' !in prefix
        decreases i
      {
        prefix := [s[i]] + prefix;
        i := i - 1;
      }
      TrailingWordUnique(s, prefix);
    }
  }

  /** The trailing word is the only blank-free tail of `s` that is either
      all of `s` or preceded by a blank. */
  lemma {:induction false} TrailingWordUnique(s: string, p: string)
    requires EndsWith(s, p) && ' ' !in p && '\t' !in p
    requires p == s || IsBlank(s[|s| - |p| - 1])
    ensures p == TrailingWord(s)
    decreases |s|
  {
    if |s| > 0 && !IsBlank(s[|s| - 1]) {
      var t := s[..|s| - 1];
      var q := p[..|p| - 1];
      assert s[|s| - |p|..] == p;
      assert t[|t| - |q|..] == q;
      assert q == t || IsBlank(t[|t| - |q| - 1]);
      TrailingWordUnique(t, q);
      assert p == q + [s[|s| - 1]];
    }
  }

  /** The name of a fetched self-link: its last path segment. */
  function LastSegment(link: string): (name: string)
    ensures '/' !in name && EndsWith(link, name)
  {
    var lst := Split(link, '/');
    NameIsLastSegment(link);
    lst[|lst| - 1]
  }

  /** The names of the fetched self-links that match `prefix`, in order. */
  function FetchedNames(links: seq<string>, prefix: string): (r: seq<string>)
    ensures |r| <= |links|
    ensures forall x :: x in r <==> exists l :: l in links && Matches(LastSegment(l), prefix) && x == LastSegment(l)
  {
    if |links| == 0 then []
    else
      var rest := FetchedNames(links[1..], prefix);
      assert forall l :: l in links <==> l == links[0] || l in links[1..];
      (if Matches(LastSegment(links[0]), prefix) then [LastSegment(links[0])] else []) + rest
  }

  /** The options handed back to the shell, the cache state afterwards and
      the class-wide counters. */
  datatype Completion = Completion(options: seq<string>, fs: Fs, stats: Stats)

  /** Whether the completion went past the first read: a miss whose list
      command returned self-links that were stored without an exception,
      for a link that has a wildcard. */
  predicate Rereads(first: Outcome, fetched: Result<seq<string>>, stored: Option<PyError>, link: string) {
    && first == Returned(None)
    && fetched.Ok? && |fetched.value| > 0
    && stored.None?
    && '*' in link
  }

  /** One run of `RemoteCompleter`. `link` is the resource's weak
      self-link (or the exception building it raised); `fetched` is the
      self-links of the items the list command returned (or the exception
      it raised). Both are computed by code outside this model and are
      only consulted as shown: `fetched` only on a miss. */
  function Complete(fs: Fs, now: int, cacheDir: string, stats: Stats,
                    compLine: Option<string>, link: Result<string>,
                    fetched: Result<seq<string>>, parse: string -> Option<string>): (c: Completion)
    ensures link.Err? ==> c == Completion([], fs, stats)
    ensures c.stats.hits >= stats.hits
    ensures link.Ok? ==>
              var first := GetFromCache(fs, now, cacheDir, link.value, Prefix(compLine), "", stats);
              var stored := if fetched.Ok? then StoreInCache(fs, now, cacheDir, fetched.value, parse)
                            else Io(fs, None);
              && (c.stats.tries == stats.tries + 2 <==> Rereads(first.outcome, fetched, stored.error, link.value))
              && (c.stats.tries == stats.tries + 1 <==> !Rereads(first.outcome, fetched, stored.error, link.value))
              && (first.outcome != Returned(None) ==> c.fs == fs)
              && ((first.outcome.Raised? || (first.outcome == Returned(None) && fetched.Err?)) ==>
                    c.options == [])
              && (first.outcome.Returned? && first.outcome.options.Some? ==>
                    c.options == first.outcome.options.value && c.stats == first.stats)
              && ((first.outcome == Returned(None) && fetched.Ok? && |fetched.value| > 0 &&
                   stored.error.Some?) ==> c == Completion([], fs, first.stats))
              && ((first.outcome == Returned(None) && fetched.Ok? && stored.error == None &&
                   !Rereads(first.outcome, fetched, stored.error, link.value)) ==>
                    c == Completion(FetchedNames(fetched.value, Prefix(compLine)), stored.fs, first.stats))
              && (Rereads(first.outcome, fetched, stored.error, link.value) ==>
                    var again := GetFromCache(stored.fs, now, cacheDir, link.value, Prefix(compLine),
                                              first.flags, first.stats);
                    && c.fs == stored.fs
                    && c.options == (if again.outcome.Returned? && again.outcome.options.Some?
                                     then again.outcome.options.value else [])
                    && c.stats == again.stats.(hits := again.stats.hits - (if c.options != [] then 1 else 0)))
  {
    match link
    case Err(_) => Completion([], fs, stats)
    case Ok(link) =>
      var prefix := Prefix(compLine);
      var first := GetFromCache(fs, now, cacheDir, link, prefix, "", stats);
      match first.outcome
      case Raised(_) => Completion([], fs, first.stats)
      case Returned(Some(options)) => Completion(options, fs, first.stats)
      case Returned(None) =>
        match fetched
        case Err(_) => Completion([], fs, first.stats)
        case Ok(links) =>
          var options := FetchedNames(links, prefix);
          if |links| == 0 then Completion(options, fs, first.stats)
          else
            var stored := StoreInCache(fs, now, cacheDir, links, parse);
            if stored.error.Some? then Completion([], stored.fs, first.stats)
            else if '*' !in link then Completion(options, stored.fs, first.stats)
            else
              var again := GetFromCache(stored.fs, now, cacheDir, link, prefix, first.flags, first.stats);
              match again.outcome
              case Returned(Some(found)) =>
                if |found| > 0 then Completion(found, stored.fs, again.stats.(hits := again.stats.hits - 1))
                else Completion([], stored.fs, again.stats)
              case _ => Completion([], stored.fs, again.stats)
  }

  /** A wildcard completion on a cache that has nothing under the
      wildcard's directory yet: the first read misses, the fetched links
      are stored, and the answer is what the re-read finds in the state
      the store left, the union over the directory's fresh branches (plus
      the `--global` sibling under `regions/`). The re-read's own hits
      are counted except the one taken back when it answered. */
  lemma CompleteRereadsWildcard(fs: Fs, now: int, cacheDir: string, stats: Stats, compLine: Option<string>,
                                link: string, links: seq<string>, parse: string -> Option<string>)
    requires '*' in link && '*' in CacheFile(cacheDir, link)
    requires !IsDir(fs, Split(CacheFile(cacheDir, link), '*')[0])
    requires |links| > 0 && StoreInCache(fs, now, cacheDir, links, parse).error == None
    requires var stored := StoreInCache(fs, now, cacheDir, links, parse).fs;
             var head := Split(CacheFile(cacheDir, link), '*')[0];
             IsDir(stored, head) ==> forall i :: 0 <= i < |ListDir(stored, head)| ==> '*' !in ListDir(stored, head)[i]
    ensures |Split(CacheFile(cacheDir, link), '*')| > 1
    ensures var c := Complete(fs, now, cacheDir, stats, compLine, Ok(link), Ok(links), parse);
            var stored := StoreInCache(fs, now, cacheDir, links, parse).fs;
            var lst := Split(CacheFile(cacheDir, link), '*');
            var head := lst[0];
            var tail := lst[1];
            var prefix := Prefix(compLine);
            && c.fs == stored
            && c.stats.tries == stats.tries + 2
            && (!IsDir(stored, head) || FlagName(Split(head, '/')).Err? ==>
                  c.options == [] && c.stats.hits == stats.hits)
            && (IsDir(stored, head) && FlagName(Split(head, '/')).Ok? ==>
                  (var flagname := FlagName(Split(head, '/')).value;
                  var names := ListDir(stored, head);
                  var hitNames := FreshNames(stored, now, head, tail, names);
                  var global := EndsWith(head, "regions/") && IsFresh(stored, GlobalSibling(head, tail), now);
                  var extra := if global then AnnotatedMatches(Lines(stored, GlobalSibling(head, tail)), prefix, " --global")
                               else [];
                  && c.options == (if |hitNames| == 0 && !global then []
                                   else BranchUnion(stored, now, prefix, head, tail, flagname, names) + extra)
                  && c.stats.hits == stats.hits + |hitNames| + (if global then 1 else 0)
                                     - (if c.options != [] then 1 else 0)))
  {
    var f := CacheFile(cacheDir, link);
    var st := ReadState("", stats.hits);
    var stored := StoreInCache(fs, now, cacheDir, links, parse).fs;
    WildcardRead(fs, now, Prefix(compLine), f, st, MaxNesting);
    WildcardRead(stored, now, Prefix(compLine), f, st, MaxNesting);
  }

  /** A fresh record answers the completion: its matching names come back,
      one hit is counted, nothing is fetched or stored. */
  lemma CompleteFromCache(fs: Fs, now: int, cacheDir: string, stats: Stats, compLine: Option<string>,
                          link: string, fetched: Result<seq<string>>, parse: string -> Option<string>)
    requires '*' !in CacheFile(cacheDir, link)
    requires IsFresh(fs, CacheFile(cacheDir, link), now)
    ensures var c := Complete(fs, now, cacheDir, stats, compLine, Ok(link), fetched, parse);
            var abs := CacheFile(cacheDir, link);
            && c.options == AnnotatedMatches(Lines(fs, abs), Prefix(compLine), "")
            && c.fs == fs
            && c.stats == Stats(stats.tries + 1, stats.hits + 1)
  {
  }

  /** A stale record without a wildcard: the completion is the fetched
      names that match, no hit is counted, and the fetched links are
      stored. */
  lemma CompleteOnMiss(fs: Fs, now: int, cacheDir: string, stats: Stats, compLine: Option<string>,
                       link: string, links: seq<string>, parse: string -> Option<string>)
    requires '*' !in link && '*' !in CacheFile(cacheDir, link)
    requires !IsFresh(fs, CacheFile(cacheDir, link), now)
    requires Collection(links, parse, "").Ok?
    ensures var c := Complete(fs, now, cacheDir, stats, compLine, Ok(link), Ok(links), parse);
            && c.options == FetchedNames(links, Prefix(compLine))
            && c.fs == StoreInCache(fs, now, cacheDir, links, parse).fs
            && c.stats == Stats(stats.tries + 1, stats.hits)
  {
  }

  /** A completion that missed and stored its single fetched link is
      answered from the cache by the next completion before the
      collection's timeout: nothing is fetched again, and the cache is left
      as the first completion left it. */
  lemma CompleteThenCached(fs: Fs, now: int, later: int, cacheDir: string, stats: Stats,
                           compLine: Option<string>, link: string, self: string,
                           refetched: Result<seq<string>>, parse: string -> Option<string>)
    requires '*' !in link && '*' !in CacheFile(cacheDir, link)
    requires CacheFile(cacheDir, self) == CacheFile(cacheDir, link)
    requires !IsFresh(fs, CacheFile(cacheDir, link), now)
    requires Collection([self], parse, "").Ok? && Collection([self], parse, "").value != ""
    requires Unpopulated(fs, CacheFile(cacheDir, self))
    requires '\n' !in CachePath(self).name
    requires now <= later < now + TimeoutFor(Collection([self], parse, "").value)
    ensures var c1 := Complete(fs, now, cacheDir, stats, compLine, Ok(link), Ok([self]), parse);
            var c2 := Complete(c1.fs, later, cacheDir, c1.stats, compLine, Ok(link), refetched, parse);
            var name := CachePath(self).name;
            && c2.options == (if Matches(name, Prefix(compLine)) then [name] else [])
            && c2.fs == c1.fs
            && c2.stats == Stats(stats.tries + 2, stats.hits + 1)
  {
    var c := Collection([self], parse, "").value;
    var name := CachePath(self).name;
    MissStoresRecord(fs, now, cacheDir, stats, compLine, link, self, parse);
    var c1 := Complete(fs, now, cacheDir, stats, compLine, Ok(link), Ok([self]), parse);
    CompleteFromSingleName(c1.fs, later, cacheDir, c1.stats, compLine, link, name,
                           now + TimeoutFor(c), refetched, parse);
  }

  /** A miss whose list command returns the one link, where nothing is
      stored yet, counts no hit and leaves the record of that link. */
  lemma MissStoresRecord(fs: Fs, now: int, cacheDir: string, stats: Stats,
                         compLine: Option<string>, link: string, self: string,
                         parse: string -> Option<string>)
    requires '*' !in link && '*' !in CacheFile(cacheDir, link)
    requires CacheFile(cacheDir, self) == CacheFile(cacheDir, link)
    requires !IsFresh(fs, CacheFile(cacheDir, link), now)
    requires Collection([self], parse, "").Ok? && Collection([self], parse, "").value != ""
    requires Unpopulated(fs, CacheFile(cacheDir, self))
    ensures var c1 := Complete(fs, now, cacheDir, stats, compLine, Ok(link), Ok([self]), parse);
            var abs := CacheFile(cacheDir, link);
            && abs in c1.fs.files
            && c1.fs.files[abs] == Record(CachePath(self).name, now + TimeoutFor(Collection([self], parse, "").value))
            && c1.stats == Stats(stats.tries + 1, stats.hits)
  {
    CompleteOnMiss(fs, now, cacheDir, stats, compLine, link, [self], parse);
    StoreCreatesRecord(fs, now, cacheDir, self, parse);
  }

  /** A fresh record holding one name answers with that name when it
      matches. */
  lemma CompleteFromSingleName(fs: Fs, now: int, cacheDir: string, stats: Stats,
                               compLine: Option<string>, link: string, name: string, expiry: int,
                               fetched: Result<seq<string>>, parse: string -> Option<string>)
    requires var abs := CacheFile(cacheDir, link);
             && abs in fs.files && fs.files[abs] == Record(name, expiry)
             && '*' !in abs && '\n' !in name && now < expiry
    ensures Complete(fs, now, cacheDir, stats, compLine, Ok(link), fetched, parse) ==
              Completion(if Matches(name, Prefix(compLine)) then [name] else [], fs,
                         Stats(stats.tries + 1, stats.hits + 1))
  {
    var abs := CacheFile(cacheDir, link);
    CacheFileNonEmpty(cacheDir, link);
    ReadSingleName(fs, now, cacheDir, link, name, Prefix(compLine), stats, expiry);
    CompleteFromCache(fs, now, cacheDir, stats, compLine, link, fetched, parse);
  }
}
