/**
 An abstract local filesystem: regular files holding text and a
 modification time, and directories holding an ordered listing. The
 operations are the few calls the completion cache makes (`isfile`,
 `isdir`, `listdir`, `open` for writing, `os.utime`, `os.remove`,
 `os.makedirs`), each returning the new state together with the exception
 it raised, if any, so that effects made before a failure survive it.
 */
module FileSystem {
  import opened Wrappers
  import opened Strings
  import opened Paths

  /** A regular file; the cache stores a record's expiry instant in `mtime`. */
  datatype Record = Record(content: string, mtime: int)

  /** `dirs` is keyed by the normalised directory path (see `Paths.Norm`). */
  datatype Fs = Fs(files: map<string, Record>, dirs: map<string, seq<string>>)

  /** The outcome of a call with side effects: the new state and the
      exception that escaped, if any. */
  datatype Io = Io(fs: Fs, error: Option<PyError>)

  predicate IsFile(fs: Fs, p: string) {
    p in fs.files
  }

  predicate IsDir(fs: Fs, p: string) {
    p != "" && Norm(p) in fs.dirs
  }

  /** `os.path.isfile(p) and os.path.getmtime(p) > now`; the empty path
      names no file. */
  predicate IsFresh(fs: Fs, p: string, now: int) {
    p != "" && p in fs.files && fs.files[p].mtime > now
  }

  function ListDir(fs: Fs, p: string): seq<string>
    requires IsDir(fs, p)
  {
    fs.dirs[Norm(p)]
  }

  /** Records `name` in the listing of directory `dir` (the current
      directory, "", is not tracked). */
  function AddEntry(fs: Fs, dir: string, name: string): (r: Fs)
    ensures r.files == fs.files && r.dirs.Keys == fs.dirs.Keys
  {
    var k := Norm(dir);
    if dir != "" && k in fs.dirs && name !in fs.dirs[k] then
      fs.(dirs := fs.dirs[k := fs.dirs[k] + [name]])
    else fs
  }

  function DropEntry(fs: Fs, dir: string, name: string): (r: Fs)
    ensures r.files == fs.files && r.dirs.Keys == fs.dirs.Keys
  {
    var k := Norm(dir);
    if dir != "" && k in fs.dirs then
      fs.(dirs := fs.dirs[k := Without(fs.dirs[k], name)])
    else fs
  }

  function Without(xs: seq<string>, x: string): (r: seq<string>)
    ensures x !in r
    ensures forall y :: y in xs && y != x ==> y in r
  {
    if |xs| == 0 then []
    else if xs[0] == x then Without(xs[1..], x)
    else [xs[0]] + Without(xs[1..], x)
  }

  /** `os.makedirs(d)` as wrapped by the SDK's `files.MakeDir`: an existing
      directory is accepted, missing ancestors are created first, and a
      regular file in the way raises `OSError`. Directories created before
      the failure stay. */
  function MakeDirs(fs: Fs, d: string): (io: Io)
    requires d != ""
    ensures io.fs.files == fs.files
    ensures fs.dirs.Keys <= io.fs.dirs.Keys
    ensures io.error == None ==> IsDir(io.fs, d)
    ensures forall k :: k in io.fs.dirs && k !in fs.dirs ==> |k| <= |Norm(d)|
    decreases |Norm(d)|
  {
    var n := Norm(d);
    if n in fs.dirs then Io(fs, None)
    else if n in fs.files then Io(fs, Some(OSError))
    else
      var parent := Dirname(n);
      var pk := Norm(parent);
      var up :=
        if parent != "" && pk != n && pk !in fs.dirs && parent !in fs.files
        then MakeDirs(fs, parent)
        else Io(fs, None);
      if up.error.Some? then up
      else if parent != "" && pk != n && pk !in up.fs.dirs then Io(up.fs, Some(OSError))
      else
        var fs1 := up.fs.(dirs := up.fs.dirs[n := []]);
        Io(AddEntry(fs1, parent, Basename(n)), None)
  }

  /** `open(p, 'w').write(content)`: creates or truncates a regular file,
      stamping it with the current time. */
  function WriteFile(fs: Fs, p: string, content: string, now: int): (io: Io)
    ensures io.error == None ==>
              io.fs.files == fs.files[p := Record(content, now)] &&
              io.fs.dirs.Keys == fs.dirs.Keys
    ensures io.error.Some? ==> io.fs == fs
  {
    if p == "" || EndsWith(p, "/") || Norm(p) in fs.dirs then Io(fs, Some(IOError))
    else
      var parent := Dirname(p);
      if parent != "" && Norm(parent) !in fs.dirs then Io(fs, Some(IOError))
      else Io(AddEntry(fs.(files := fs.files[p := Record(content, now)]), parent, Basename(p)), None)
  }

  /** `os.utime(p, (atime, t))`: only the modification time is modelled;
      a directory has none in this model. */
  function SetMtime(fs: Fs, p: string, t: int): (io: Io)
    ensures io.error == None <==> p in fs.files || IsDir(fs, p)
    ensures p in fs.files ==> io.fs.files == fs.files[p := fs.files[p].(mtime := t)]
    ensures p !in fs.files ==> io.fs == fs
    ensures io.fs.dirs == fs.dirs
  {
    if p in fs.files then Io(fs.(files := fs.files[p := fs.files[p].(mtime := t)]), None)
    else if IsDir(fs, p) then Io(fs, None)
    else Io(fs, Some(OSError))
  }

  /** `os.remove(p)`. */
  function RemoveFile(fs: Fs, p: string): (io: Io)
    ensures io.error == None <==> p in fs.files
    ensures io.error == None ==> io.fs.files == fs.files - {p}
    ensures io.fs.dirs.Keys == fs.dirs.Keys
  {
    if p in fs.files then
      Io(DropEntry(fs.(files := fs.files - {p}), Dirname(p), Basename(p)), None)
    else Io(fs, Some(OSError))
  }

  /** The shape assumed of the starting state by the lemmas that need it:
      directory keys are normalised, every file and directory sits in an
      existing directory (or the current one), and no path is both. */
  ghost predicate Wf(fs: Fs) {
    && (forall k :: k in fs.dirs ==> k != "" && Norm(k) == k)
    && (forall k :: k in fs.dirs ==> ParentOk(fs, k))
    && (forall p :: p in fs.files ==> p != "" && !EndsWith(p, "/") && Norm(p) !in fs.dirs)
    && (forall p :: p in fs.files ==> Dirname(p) == "" || Norm(Dirname(p)) in fs.dirs)
  }

  ghost predicate ParentOk(fs: Fs, p: string) {
    var parent := Dirname(p);
    parent == "" || Norm(parent) == Norm(p) || Norm(parent) in fs.dirs
  }

  /** No regular file occupies `n` or a path that is a prefix of it. */
  ghost predicate NoFileOnPath(fs: Fs, n: string) {
    forall p :: p in fs.files ==> !(p <= n)
  }

  /** `os.makedirs` cannot fail when no regular file stands in its way. */
  lemma {:induction false} MakeDirsSucceeds(fs: Fs, d: string)
    requires d != "" && NoFileOnPath(fs, Norm(d))
    ensures MakeDirs(fs, d).error == None
    decreases |Norm(d)|
  {
    var n := Norm(d);
    if n !in fs.dirs {
      var parent := Dirname(n);
      var pk := Norm(parent);
      if parent != "" && pk != n && pk !in fs.dirs {
        assert pk <= parent <= n;
        MakeDirsSucceeds(fs, parent);
      }
    }
  }
}
