/** The two directory scans that `bundle/contents.go` and `plainimage/contents.go` both run
    before a push (the two files hold identical copies of `findImgpkgDirs` and
    `checkRepeatedPaths`): finding `.imgpkg` directories and finding paths that would land on
    the same place in the image. `filepath.Walk`, `filepath.Abs` and `filepath.Rel` are
    inputs: a walk is the list of paths it visits, each with what `Rel` gives for it. */
module Walks {
  import opened Failures
  import opened Texts
  import opened LockConfig

  /** `lf.BundleDir`. */
  const BundleDir := ".imgpkg"

  /** One path a walk visits: the full path, `filepath.Rel(root, path)`, and whether it is a
      directory. */
  datatype Entry = Entry(path: string, rel: Result<string>, isDir: bool)

  /** A walk of one root: the paths visited, in order, then the error it stops with, if any. */
  datatype Walk = Walk(entries: seq<Entry>, failure: Option<Error>)

  /** The file system as the core sees it: walking a root, `filepath.Abs`, and reading a lock
      file. */
  datatype FileSystem = FileSystem(
    walk: string -> Walk,
    abs: string -> Result<string>,
    readLock: string -> LockFile)

  predicate IsBundleDir(e: Entry) {
    Base(e.path) == BundleDir
  }

  // ---------------------------------------------------------------------------------------
  // findImgpkgDirs

  /** The absolute paths of the `.imgpkg` entries of one walk, in walk order; the first failing
      `Abs` stops it. */
  function DirsIn(entries: seq<Entry>, fs: FileSystem): Result<seq<string>> {
    CollectPresent(AbsSteps(entries, fs))
  }

  /** What the walk callback does with each entry: nothing for an entry other than `.imgpkg`,
      otherwise its absolute path or the error computing it. */
  function AbsSteps(entries: seq<Entry>, fs: FileSystem): seq<Option<Result<string>>> {
    seq(|entries|, i requires 0 <= i < |entries| =>
      if IsBundleDir(entries[i]) then Some(fs.abs(entries[i].path)) else None)
  }

  /** The walk succeeds iff every `.imgpkg` entry has an absolute path, and then it lists the
      absolute path of every `.imgpkg` entry and nothing else. */
  lemma DirsInMeaning(entries: seq<Entry>, fs: FileSystem)
    ensures DirsIn(entries, fs).Ok? <==>
              forall i | 0 <= i < |entries| :: IsBundleDir(entries[i]) ==> fs.abs(entries[i].path).Ok?
    ensures DirsIn(entries, fs).Ok? ==> forall d | d in DirsIn(entries, fs).value ::
              exists i | 0 <= i < |entries| :: IsBundleDir(entries[i]) && fs.abs(entries[i].path) == Ok(d)
    ensures DirsIn(entries, fs).Ok? ==> forall i | 0 <= i < |entries| ::
              IsBundleDir(entries[i]) ==> fs.abs(entries[i].path).value in DirsIn(entries, fs).value
  {
    var steps := AbsSteps(entries, fs);
    CollectPresentOkIff(steps);
    CollectPresentListsOnly(steps);
    CollectPresentListsEvery(steps);
    assert forall i | 0 <= i < |entries| ::
             steps[i] == if IsBundleDir(entries[i]) then Some(fs.abs(entries[i].path)) else None;
  }

  /** What `findImgpkgDirs` answers for the input paths `roots`. */
  function ImgpkgDirs(roots: seq<string>, fs: FileSystem): (r: Result<seq<string>>)
    ensures r.Ok? ==> forall i | 0 <= i < |roots| ::
              fs.walk(roots[i]).failure.None? && DirsIn(fs.walk(roots[i]).entries, fs).Ok?
  {
    if roots == [] then Ok([])
    else
      var init := roots[..|roots| - 1];
      var w := fs.walk(roots[|roots| - 1]);
      assert forall i | 0 <= i < |roots| - 1 :: init[i] == roots[i];
      match ImgpkgDirs(init, fs)
      case Err(err) => Err(err)
      case Ok(dirs) =>
        match DirsIn(w.entries, fs)
        case Err(err) => Err(err)
        case Ok(more) =>
          if w.failure.Some? then Err(w.failure.value) else Ok(dirs + more)
  }

  /** One more input path: the outcome for `roots[..i + 1]` from that for `roots[..i]`. */
  lemma ImgpkgDirsStep(roots: seq<string>, i: nat, fs: FileSystem, dirs: seq<string>)
    requires i < |roots| && ImgpkgDirs(roots[..i], fs) == Ok(dirs)
    ensures DirsIn(fs.walk(roots[i]).entries, fs).Err? ==>
              ImgpkgDirs(roots[..i + 1], fs) == Err(DirsIn(fs.walk(roots[i]).entries, fs).error)
    ensures DirsIn(fs.walk(roots[i]).entries, fs).Ok? && fs.walk(roots[i]).failure.Some? ==>
              ImgpkgDirs(roots[..i + 1], fs) == Err(fs.walk(roots[i]).failure.value)
    ensures DirsIn(fs.walk(roots[i]).entries, fs).Ok? && fs.walk(roots[i]).failure.None? ==>
              ImgpkgDirs(roots[..i + 1], fs) == Ok(dirs + DirsIn(fs.walk(roots[i]).entries, fs).value)
  {
    assert roots[..i + 1][..i] == roots[..i];
  }

  lemma {:induction false} ImgpkgDirsStopsEarly(roots: seq<string>, k: nat, fs: FileSystem)
    requires k <= |roots| && ImgpkgDirs(roots[..k], fs).Err?
    ensures ImgpkgDirs(roots, fs) == ImgpkgDirs(roots[..k], fs)
  {
    if k < |roots| {
      assert roots[..|roots| - 1][..k] == roots[..k];
      ImgpkgDirsStopsEarly(roots[..|roots| - 1], k, fs);
    } else {
      assert roots[..k] == roots;
    }
  }

  /** The directories of several inputs are those of each input, in input order. */
  lemma {:induction false} ImgpkgDirsConcat(roots: seq<string>, root: string, fs: FileSystem)
    requires ImgpkgDirs(roots + [root], fs).Ok?
    ensures ImgpkgDirs(roots, fs).Ok? && DirsIn(fs.walk(root).entries, fs).Ok?
    ensures ImgpkgDirs(roots + [root], fs).value ==
              ImgpkgDirs(roots, fs).value + DirsIn(fs.walk(root).entries, fs).value
  {
    assert (roots + [root])[..|roots|] == roots;
  }

  /** The walk callback of `findImgpkgDirs` over one walk: the `.imgpkg` paths it appends. */
  method CollectDirs(entries: seq<Entry>, fs: FileSystem) returns (dirs: seq<string>, err: Option<Error>)
    ensures err.None? <==> DirsIn(entries, fs).Ok?
    ensures err.None? ==> dirs == DirsIn(entries, fs).value
    ensures err.Some? ==> err.value == DirsIn(entries, fs).error
  {
    dirs := [];
    ghost var steps := AbsSteps(entries, fs);
    var j := 0;
    while j < |entries|
      invariant 0 <= j <= |entries|
      invariant CollectPresent(steps[..j]) == Ok(dirs)
    {
      var e := entries[j];
      CollectPresentStep(steps, j, dirs);
      if IsBundleDir(e) {
        var a := fs.abs(e.path);
        if a.Err? {
          CollectPresentStopsEarly(steps, j + 1);
          return [], Some(a.error);
        }
        dirs := dirs + [a.value];
      }
      j := j + 1;
    }
    assert steps[..j] == steps;
    return dirs, None;
  }

  /** The directories found in one input are among those found across all inputs. */
  lemma {:induction false} DirsContained(roots: seq<string>, r: nat, fs: FileSystem)
    requires r < |roots| && ImgpkgDirs(roots, fs).Ok?
    ensures forall d | d in DirsIn(fs.walk(roots[r]).entries, fs).value :: d in ImgpkgDirs(roots, fs).value
  {
    var init := roots[..|roots| - 1];
    assert roots == init + [roots[|roots| - 1]];
    ImgpkgDirsConcat(init, roots[|roots| - 1], fs);
    if r < |roots| - 1 {
      assert init[r] == roots[r];
      DirsContained(init, r, fs);
    }
  }

  /** `findImgpkgDirs`: on any error the list is dropped. */
  method FindImgpkgDirs(roots: seq<string>, fs: FileSystem) returns (bundlePaths: seq<string>, err: Option<Error>)
    ensures err.None? <==> ImgpkgDirs(roots, fs).Ok?
    ensures err.None? ==> bundlePaths == ImgpkgDirs(roots, fs).value
    ensures err.Some? ==> bundlePaths == [] && err.value == ImgpkgDirs(roots, fs).error
  {
    bundlePaths := [];
    var i := 0;
    while i < |roots|
      invariant 0 <= i <= |roots|
      invariant ImgpkgDirs(roots[..i], fs) == Ok(bundlePaths)
    {
      var w := fs.walk(roots[i]);
      var found, walkErr := CollectDirs(w.entries, fs);
      ImgpkgDirsStep(roots, i, fs, bundlePaths);
      if walkErr.Some? {
        ImgpkgDirsStopsEarly(roots, i + 1, fs);
        return [], walkErr;
      }
      if w.failure.Some? {
        ImgpkgDirsStopsEarly(roots, i + 1, fs);
        return [], w.failure;
      }
      bundlePaths := bundlePaths + found;
      i := i + 1;
    }
    assert roots[..i] == roots;
    err := None;
  }

  // ---------------------------------------------------------------------------------------
  // checkRepeatedPaths

  /** Paths grouped by where they land in the image. */
  type Groups = map<string, seq<string>>

  /** The key an entry of the walk of `root` is filed under: its path relative to the root; the
      root itself is skipped when it is a directory and filed under its base name when it is a
      file. */
  function RootKey(root: string, e: Entry, rel: string): (k: Option<string>)
    ensures rel != "." ==> k == Some(rel)
    ensures rel == "." && e.isDir ==> k.None?
    ensures rel == "." && !e.isDir ==> k == Some(Base(root))
  {
    if rel == "." then (if e.isDir then None else Some(Base(root))) else Some(rel)
  }

  function AddPath(m: Groups, key: string, path: string): (r: Groups)
    ensures r.Keys == m.Keys + {key}
    ensures r[key] == (if key in m then m[key] else []) + [path]
    ensures forall k | k in m && k != key :: r[k] == m[k]
  {
    m[key := (if key in m then m[key] else []) + [path]]
  }

  /** `m` with the entries of one walk of `root` filed in; a failing `Rel` stops it. */
  function GroupEntries(m: Groups, root: string, entries: seq<Entry>): (r: Result<Groups>)
    ensures r.Ok? ==> m.Keys <= r.value.Keys
  {
    if entries == [] then Ok(m)
    else
      var e := entries[|entries| - 1];
      match GroupEntries(m, root, entries[..|entries| - 1])
      case Err(err) => Err(err)
      case Ok(m') =>
        match e.rel
        case Err(err) => Err(err)
        case Ok(rel) =>
          match RootKey(root, e, rel)
          case None => Ok(m')
          case Some(k) => Ok(AddPath(m', k, e.path))
  }

  /** One more entry: the grouping of `entries[..j + 1]` from that of `entries[..j]`. */
  lemma GroupEntriesStep(m: Groups, root: string, entries: seq<Entry>, j: nat, m': Groups)
    requires j < |entries| && GroupEntries(m, root, entries[..j]) == Ok(m')
    ensures entries[j].rel.Err? ==> GroupEntries(m, root, entries[..j + 1]) == Err(entries[j].rel.error)
    ensures entries[j].rel.Ok? && RootKey(root, entries[j], entries[j].rel.value).None? ==>
              GroupEntries(m, root, entries[..j + 1]) == Ok(m')
    ensures entries[j].rel.Ok? && RootKey(root, entries[j], entries[j].rel.value).Some? ==>
              GroupEntries(m, root, entries[..j + 1]) ==
                Ok(AddPath(m', RootKey(root, entries[j], entries[j].rel.value).value, entries[j].path))
  {
    assert entries[..j + 1][..j] == entries[..j];
  }

  lemma {:induction false} GroupEntriesStopsEarly(m: Groups, root: string, entries: seq<Entry>, k: nat)
    requires k <= |entries| && GroupEntries(m, root, entries[..k]).Err?
    ensures GroupEntries(m, root, entries) == GroupEntries(m, root, entries[..k])
  {
    if k < |entries| {
      assert entries[..|entries| - 1][..k] == entries[..k];
      GroupEntriesStopsEarly(m, root, entries[..|entries| - 1], k);
    } else {
      assert entries[..k] == entries;
    }
  }

  /** The grouping `checkRepeatedPaths` builds over the walks of all `roots`. */
  function GroupAll(roots: seq<string>, fs: FileSystem): Result<Groups> {
    if roots == [] then Ok(map[])
    else
      var root := roots[|roots| - 1];
      var w := fs.walk(root);
      match GroupAll(roots[..|roots| - 1], fs)
      case Err(err) => Err(err)
      case Ok(m) =>
        match GroupEntries(m, root, w.entries)
        case Err(err) => Err(err)
        case Ok(m') => if w.failure.Some? then Err(w.failure.value) else Ok(m')
  }

  /** One more input path: the grouping of `roots[..i + 1]` from that of `roots[..i]`. */
  lemma GroupAllStep(roots: seq<string>, i: nat, fs: FileSystem, m: Groups)
    requires i < |roots| && GroupAll(roots[..i], fs) == Ok(m)
    ensures GroupEntries(m, roots[i], fs.walk(roots[i]).entries).Err? ==>
              GroupAll(roots[..i + 1], fs) == Err(GroupEntries(m, roots[i], fs.walk(roots[i]).entries).error)
    ensures GroupEntries(m, roots[i], fs.walk(roots[i]).entries).Ok? && fs.walk(roots[i]).failure.Some? ==>
              GroupAll(roots[..i + 1], fs) == Err(fs.walk(roots[i]).failure.value)
    ensures GroupEntries(m, roots[i], fs.walk(roots[i]).entries).Ok? && fs.walk(roots[i]).failure.None? ==>
              GroupAll(roots[..i + 1], fs) == GroupEntries(m, roots[i], fs.walk(roots[i]).entries)
  {
    assert roots[..i + 1][..i] == roots[..i];
  }

  lemma {:induction false} GroupAllStopsEarly(roots: seq<string>, k: nat, fs: FileSystem)
    requires k <= |roots| && GroupAll(roots[..k], fs).Err?
    ensures GroupAll(roots, fs) == GroupAll(roots[..k], fs)
  {
    if k < |roots| {
      assert roots[..|roots| - 1][..k] == roots[..k];
      GroupAllStopsEarly(roots[..|roots| - 1], k, fs);
    } else {
      assert roots[..k] == roots;
    }
  }

  /** The key an entry is filed under, if any: none for a failing `Rel` or for a root that is
      itself a directory. */
  function KeyOf(root: string, e: Entry): Option<string> {
    if e.rel.Ok? then RootKey(root, e, e.rel.value) else None
  }

  /** The paths of the entries of one walk filed under `k`, in walk order. */
  function PathsUnder(root: string, entries: seq<Entry>, k: string): seq<string> {
    if entries == [] then []
    else
      var e := entries[|entries| - 1];
      PathsUnder(root, entries[..|entries| - 1], k) + (if KeyOf(root, e) == Some(k) then [e.path] else [])
  }

  /** The paths of the walks of all `roots` filed under `k`, root by root, in walk order. */
  function AllPathsUnder(roots: seq<string>, fs: FileSystem, k: string): seq<string> {
    if roots == [] then []
    else
      var root := roots[|roots| - 1];
      AllPathsUnder(roots[..|roots| - 1], fs, k) + PathsUnder(root, fs.walk(root).entries, k)
  }

  /** Every walk of `roots` ends without an error and `Rel` succeeds on every path it visits. */
  ghost predicate WalksClean(roots: seq<string>, fs: FileSystem) {
    forall i | 0 <= i < |roots| ::
      && fs.walk(roots[i]).failure.None?
      && forall j | 0 <= j < |fs.walk(roots[i]).entries| :: fs.walk(roots[i]).entries[j].rel.Ok?
  }

  /** Grouping one walk succeeds exactly when every `Rel` does, and fails with one of their
      errors otherwise. */
  lemma {:induction false} GroupEntriesOkIff(m: Groups, root: string, entries: seq<Entry>)
    ensures GroupEntries(m, root, entries).Ok? <==> forall j | 0 <= j < |entries| :: entries[j].rel.Ok?
    ensures GroupEntries(m, root, entries).Err? ==>
              exists j | 0 <= j < |entries| :: entries[j].rel == Err(GroupEntries(m, root, entries).error)
  {
    if entries != [] {
      var init := entries[..|entries| - 1];
      GroupEntriesOkIff(m, root, init);
      assert forall j | 0 <= j < |init| :: init[j] == entries[j];
      if GroupEntries(m, root, init).Err? {
        var j :| 0 <= j < |init| && init[j].rel == Err(GroupEntries(m, root, init).error);
        assert entries[j].rel == Err(GroupEntries(m, root, init).error);
      }
    }
  }

  /** Grouping one walk appends to each key's list the paths of the entries filed under it, in
      walk order; a key appears exactly when it was there before or gains a path. */
  lemma {:induction false} GroupEntriesMeaning(m: Groups, root: string, entries: seq<Entry>)
    ensures GroupEntries(m, root, entries).Ok? ==>
              forall k :: k in GroupEntries(m, root, entries).value <==> k in m || PathsUnder(root, entries, k) != []
    ensures GroupEntries(m, root, entries).Ok? ==>
              forall k | k in GroupEntries(m, root, entries).value ::
                GroupEntries(m, root, entries).value[k] == (if k in m then m[k] else []) + PathsUnder(root, entries, k)
  {
    if entries != [] {
      var init := entries[..|entries| - 1];
      GroupEntriesMeaning(m, root, init);
      if GroupEntries(m, root, init).Ok? && entries[|entries| - 1].rel.Ok? {
        GroupEntriesFiles(m, root, entries, GroupEntries(m, root, init).value);
      }
    }
  }

  /** The last entry of a walk filed in, given what the grouping of the others holds. */
  lemma GroupEntriesFiles(m: Groups, root: string, entries: seq<Entry>, m': Groups)
    requires entries != [] && entries[|entries| - 1].rel.Ok?
    requires GroupEntries(m, root, entries[..|entries| - 1]) == Ok(m')
    requires forall k :: k in m' <==> k in m || PathsUnder(root, entries[..|entries| - 1], k) != []
    requires forall k | k in m' :: m'[k] == (if k in m then m[k] else []) + PathsUnder(root, entries[..|entries| - 1], k)
    ensures GroupEntries(m, root, entries).Ok?
    ensures forall k :: k in GroupEntries(m, root, entries).value <==> k in m || PathsUnder(root, entries, k) != []
    ensures forall k | k in GroupEntries(m, root, entries).value ::
              GroupEntries(m, root, entries).value[k] == (if k in m then m[k] else []) + PathsUnder(root, entries, k)
  {
    var init := entries[..|entries| - 1];
    var e := entries[|entries| - 1];
    var key := KeyOf(root, e);
    var r := if key.None? then m' else AddPath(m', key.value, e.path);
    assert GroupEntries(m, root, entries) == Ok(r);
    assert forall k :: PathsUnder(root, entries, k) == PathsUnder(root, init, k) + (if key == Some(k) then [e.path] else []);
    FiledUnder(m, m', r, key, e.path, k => PathsUnder(root, init, k), k => PathsUnder(root, entries, k));
  }

  /** The map bookkeeping of filing one path under `key` (or nothing, for no key): `before`
      and `after` give the paths filed under each key without and with it. */
  lemma FiledUnder(m: Groups, m': Groups, r: Groups, key: Option<string>, path: string,
                   before: string -> seq<string>, after: string -> seq<string>)
    requires r == if key.None? then m' else AddPath(m', key.value, path)
    requires forall k :: after(k) == before(k) + (if key == Some(k) then [path] else [])
    requires forall k :: k in m' <==> k in m || before(k) != []
    requires forall k | k in m' :: m'[k] == (if k in m then m[k] else []) + before(k)
    ensures forall k :: k in r <==> k in m || after(k) != []
    ensures forall k | k in r :: r[k] == (if k in m then m[k] else []) + after(k)
  {
    forall k
      ensures k in r <==> k in m || after(k) != []
      ensures k in r ==> r[k] == (if k in m then m[k] else []) + after(k)
    {
      if key == Some(k) {
        assert r[k] == (if k in m' then m'[k] else []) + [path];
      }
    }
  }

  /** Grouping the walks of all `roots` succeeds exactly when every walk is clean. */
  lemma {:induction false} GroupAllOkIff(roots: seq<string>, fs: FileSystem)
    ensures GroupAll(roots, fs).Ok? <==> WalksClean(roots, fs)
  {
    if roots != [] {
      var n := |roots| - 1;
      var init := roots[..n];
      var w := fs.walk(roots[n]);
      GroupAllOkIff(init, fs);
      assert forall i | 0 <= i < n :: init[i] == roots[i];
      if GroupAll(init, fs).Ok? {
        var m := GroupAll(init, fs).value;
        GroupEntriesOkIff(m, roots[n], w.entries);
        if GroupEntries(m, roots[n], w.entries).Err? {
          var j :| 0 <= j < |w.entries| && w.entries[j].rel.Err?;
          assert fs.walk(roots[n]).entries[j].rel.Err?;
        }
      } else {
        assert !WalksClean(init, fs);
      }
    }
  }

  /** Once grouping the walks of `roots` succeeds, each key holds the paths of all walks filed
      under it, root by root in walk order, and a key appears exactly when some path is filed
      under it. */
  lemma {:induction false} GroupAllMeaning(roots: seq<string>, fs: FileSystem)
    ensures GroupAll(roots, fs).Ok? ==>
              forall k :: k in GroupAll(roots, fs).value <==> AllPathsUnder(roots, fs, k) != []
    ensures GroupAll(roots, fs).Ok? ==>
              forall k | k in GroupAll(roots, fs).value :: GroupAll(roots, fs).value[k] == AllPathsUnder(roots, fs, k)
  {
    if roots != [] {
      var n := |roots| - 1;
      var init := roots[..n];
      GroupAllMeaning(init, fs);
      if GroupAll(init, fs).Ok? {
        GroupEntriesMeaning(GroupAll(init, fs).value, roots[n], fs.walk(roots[n]).entries);
      }
    }
  }

  /** Entry `j` of the walk of `roots[i]` is filed under `k`. */
  ghost predicate KeyedAt(roots: seq<string>, fs: FileSystem, i: int, j: int, k: string) {
    && 0 <= i < |roots|
    && 0 <= j < |fs.walk(roots[i]).entries|
    && KeyOf(roots[i], fs.walk(roots[i]).entries[j]) == Some(k)
  }

  lemma {:induction false} PathsUnderFound(root: string, entries: seq<Entry>, k: string)
    ensures PathsUnder(root, entries, k) != [] <==>
              exists a | 0 <= a < |entries| :: KeyOf(root, entries[a]) == Some(k)
  {
    if entries != [] {
      var init := entries[..|entries| - 1];
      PathsUnderFound(root, init, k);
      assert forall a | 0 <= a < |init| :: init[a] == entries[a];
    }
  }

  /** A walk files two paths under `k` exactly when two of its entries are keyed to `k`. */
  lemma {:induction false} PathsUnderRepeated(root: string, entries: seq<Entry>, k: string)
    ensures |PathsUnder(root, entries, k)| > 1 <==>
              exists a, b | 0 <= a < |entries| && 0 <= b < |entries| && a != b ::
                KeyOf(root, entries[a]) == Some(k) && KeyOf(root, entries[b]) == Some(k)
  {
    if entries != [] {
      var n := |entries| - 1;
      var init := entries[..n];
      PathsUnderRepeated(root, init, k);
      PathsUnderFound(root, init, k);
      assert forall a | 0 <= a < |init| :: init[a] == entries[a];
      if exists a, b | 0 <= a < |entries| && 0 <= b < |entries| && a != b ::
           KeyOf(root, entries[a]) == Some(k) && KeyOf(root, entries[b]) == Some(k) {
        var a, b :| 0 <= a < |entries| && 0 <= b < |entries| && a != b &&
                    KeyOf(root, entries[a]) == Some(k) && KeyOf(root, entries[b]) == Some(k);
        if a == n {
          assert KeyOf(root, init[b]) == Some(k);
        } else if b == n {
          assert KeyOf(root, init[a]) == Some(k);
        } else {
          assert KeyOf(root, init[a]) == Some(k) && KeyOf(root, init[b]) == Some(k);
        }
      }
    }
  }

  lemma {:induction false} AllPathsUnderFound(roots: seq<string>, fs: FileSystem, k: string)
    ensures AllPathsUnder(roots, fs, k) != [] <==> exists i, j :: KeyedAt(roots, fs, i, j, k)
  {
    if roots != [] {
      var n := |roots| - 1;
      var init := roots[..n];
      var entries := fs.walk(roots[n]).entries;
      AllPathsUnderFound(init, fs, k);
      PathsUnderFound(roots[n], entries, k);
      assert forall i, j, k' :: KeyedAt(init, fs, i, j, k') <==> i < n && KeyedAt(roots, fs, i, j, k');
      if AllPathsUnder(roots, fs, k) != [] {
        if AllPathsUnder(init, fs, k) != [] {
          var i, j :| KeyedAt(init, fs, i, j, k);
          assert KeyedAt(roots, fs, i, j, k);
        } else {
          var a :| 0 <= a < |entries| && KeyOf(roots[n], entries[a]) == Some(k);
          assert KeyedAt(roots, fs, n, a, k);
        }
      }
      if exists i, j :: KeyedAt(roots, fs, i, j, k) {
        var i, j :| KeyedAt(roots, fs, i, j, k);
        if i < n {
          assert KeyedAt(init, fs, i, j, k);
        } else {
          assert KeyOf(roots[n], entries[j]) == Some(k);
        }
      }
    }
  }

  /** The walks of `roots` file two paths under `k` exactly when two distinct entries of them
      (the same walk or two walks) are keyed to `k`. */
  lemma {:induction false} AllPathsUnderRepeated(roots: seq<string>, fs: FileSystem, k: string)
    ensures |AllPathsUnder(roots, fs, k)| > 1 <==>
              exists i1, j1, i2, j2 | (i1, j1) != (i2, j2) :: KeyedAt(roots, fs, i1, j1, k) && KeyedAt(roots, fs, i2, j2, k)
  {
    if roots != [] {
      var n := |roots| - 1;
      var init := roots[..n];
      var entries := fs.walk(roots[n]).entries;
      AllPathsUnderRepeated(init, fs, k);
      AllPathsUnderFound(init, fs, k);
      PathsUnderRepeated(roots[n], entries, k);
      PathsUnderFound(roots[n], entries, k);
      assert forall i, j, k' :: KeyedAt(init, fs, i, j, k') <==> i < n && KeyedAt(roots, fs, i, j, k');
      if |AllPathsUnder(roots, fs, k)| > 1 {
        if |AllPathsUnder(init, fs, k)| > 1 {
        } else if |PathsUnder(roots[n], entries, k)| > 1 {
          var a, b :| 0 <= a < |entries| && 0 <= b < |entries| && a != b &&
                      KeyOf(roots[n], entries[a]) == Some(k) && KeyOf(roots[n], entries[b]) == Some(k);
          assert KeyedAt(roots, fs, n, a, k) && KeyedAt(roots, fs, n, b, k);
        } else {
          var i, j :| KeyedAt(init, fs, i, j, k);
          var b :| 0 <= b < |entries| && KeyOf(roots[n], entries[b]) == Some(k);
          assert KeyedAt(roots, fs, i, j, k) && KeyedAt(roots, fs, n, b, k);
        }
      }
      if exists i1, j1, i2, j2 | (i1, j1) != (i2, j2) :: KeyedAt(roots, fs, i1, j1, k) && KeyedAt(roots, fs, i2, j2, k) {
        var i1, j1, i2, j2 :| (i1, j1) != (i2, j2) && KeyedAt(roots, fs, i1, j1, k) && KeyedAt(roots, fs, i2, j2, k);
        if i1 < n && i2 < n {
          assert KeyedAt(init, fs, i1, j1, k) && KeyedAt(init, fs, i2, j2, k);
        } else if i1 == n && i2 == n {
          assert KeyOf(roots[n], entries[j1]) == Some(k) && KeyOf(roots[n], entries[j2]) == Some(k);
        } else if i1 < n {
          assert KeyedAt(init, fs, i1, j1, k);
          assert KeyOf(roots[n], entries[j2]) == Some(k);
        } else {
          assert KeyedAt(init, fs, i2, j2, k);
          assert KeyOf(roots[n], entries[j1]) == Some(k);
        }
      }
    }
  }

  /** The partner of `checkRepeatedPaths`: once every walk is clean, a key collects more than one
      path exactly when two distinct entries of the walks land on the same path in the image. */
  lemma RepeatsMeaning(roots: seq<string>, fs: FileSystem)
    requires WalksClean(roots, fs)
    ensures GroupAll(roots, fs).Ok?
    ensures HasRepeats(GroupAll(roots, fs).value) <==>
              exists k, i1, j1, i2, j2 | (i1, j1) != (i2, j2) :: KeyedAt(roots, fs, i1, j1, k) && KeyedAt(roots, fs, i2, j2, k)
  {
    GroupAllOkIff(roots, fs);
    GroupAllMeaning(roots, fs);
    var m := GroupAll(roots, fs).value;
    if HasRepeats(m) {
      var k :| k in m && |m[k]| > 1;
      AllPathsUnderRepeated(roots, fs, k);
    }
    if exists k, i1, j1, i2, j2 | (i1, j1) != (i2, j2) :: KeyedAt(roots, fs, i1, j1, k) && KeyedAt(roots, fs, i2, j2, k) {
      var k, i1, j1, i2, j2 :| (i1, j1) != (i2, j2) && KeyedAt(roots, fs, i1, j1, k) && KeyedAt(roots, fs, i2, j2, k);
      AllPathsUnderRepeated(roots, fs, k);
      assert k in m;
    }
  }

  /** Some key collects more than one path. */
  predicate HasRepeats(m: Groups) {
    exists k | k in m :: |m[k]| > 1
  }

  /** `rep` lists exactly the paths of the keys that collect more than one. */
  ghost predicate ListsRepeated(rep: seq<string>, m: Groups) {
    forall p :: p in rep <==> exists k | k in m && |m[k]| > 1 :: p in m[k]
  }

  function DuplicateError(rep: seq<string>): Error {
    Msg("Found duplicate paths: " + Join(rep, ", "))
  }

  /** What `checkRepeatedPaths` may answer: the walk or `Rel` error; otherwise nil exactly when
      no key collects two paths, and else the duplicate-paths error listing every path of such
      keys. The map is iterated in no fixed order, so the order of that list is left open. */
  ghost predicate RepeatCheckAnswers(roots: seq<string>, fs: FileSystem, err: Option<Error>) {
    && (GroupAll(roots, fs).Err? ==> err == Some(GroupAll(roots, fs).error))
    && (GroupAll(roots, fs).Ok? ==> (err.None? <==> !HasRepeats(GroupAll(roots, fs).value)))
    && (GroupAll(roots, fs).Ok? && err.Some? ==>
          exists rep | ListsRepeated(rep, GroupAll(roots, fs).value) :: err == Some(DuplicateError(rep)))
  }

  /** The walk callback of `checkRepeatedPaths` over one walk of `root`: files each entry in
      `m` under its key. */
  method GroupWalk(m: Groups, root: string, entries: seq<Entry>) returns (r: Groups, err: Option<Error>)
    ensures err.None? <==> GroupEntries(m, root, entries).Ok?
    ensures err.None? ==> r == GroupEntries(m, root, entries).value
    ensures err.Some? ==> err.value == GroupEntries(m, root, entries).error
  {
    r := m;
    var j := 0;
    while j < |entries|
      invariant 0 <= j <= |entries|
      invariant GroupEntries(m, root, entries[..j]) == Ok(r)
    {
      var e := entries[j];
      GroupEntriesStep(m, root, entries, j, r);
      if e.rel.Err? {
        GroupEntriesStopsEarly(m, root, entries, j + 1);
        return r, Some(e.rel.error);
      }
      var key := e.rel.value;
      if key == "." && e.isDir {
      } else {
        if key == "." {
          key := Base(root);
        }
        r := r[key := (if key in r then r[key] else []) + [e.path]];
      }
      j := j + 1;
    }
    assert entries[..j] == entries;
    err := None;
  }

  /** The second half of `checkRepeatedPaths`: every path of every key that collects more than
      one, gathered in whatever order the keys are visited. */
  method RepeatedPaths(m: Groups) returns (repeatedPaths: seq<string>)
    ensures ListsRepeated(repeatedPaths, m)
    ensures repeatedPaths == [] <==> !HasRepeats(m)
  {
    repeatedPaths := [];
    var remaining := m.Keys;
    while remaining != {}
      invariant remaining <= m.Keys
      invariant forall p :: p in repeatedPaths <==>
                  exists k | k in m && k !in remaining && |m[k]| > 1 :: p in m[k]
      invariant repeatedPaths == [] <==> forall k | k in m && k !in remaining :: |m[k]| <= 1
      decreases remaining
    {
      var k :| k in remaining;
      if |m[k]| > 1 {
        assert m[k][0] in m[k];
        repeatedPaths := repeatedPaths + m[k];
      }
      remaining := remaining - {k};
    }
  }

  /** `checkRepeatedPaths`. */
  method CheckRepeatedPaths(roots: seq<string>, fs: FileSystem) returns (err: Option<Error>)
    ensures GroupAll(roots, fs).Err? ==> err == Some(GroupAll(roots, fs).error)
    ensures GroupAll(roots, fs).Ok? ==> (err.None? <==> !HasRepeats(GroupAll(roots, fs).value))
    ensures RepeatCheckAnswers(roots, fs, err)
  {
    var imageRootPaths: Groups := map[];
    var i := 0;
    while i < |roots|
      invariant 0 <= i <= |roots|
      invariant GroupAll(roots[..i], fs) == Ok(imageRootPaths)
    {
      var w := fs.walk(roots[i]);
      var grouped, walkErr := GroupWalk(imageRootPaths, roots[i], w.entries);
      GroupAllStep(roots, i, fs, imageRootPaths);
      if walkErr.Some? {
        GroupAllStopsEarly(roots, i + 1, fs);
        return walkErr;
      }
      if w.failure.Some? {
        GroupAllStopsEarly(roots, i + 1, fs);
        return w.failure;
      }
      imageRootPaths := grouped;
      i := i + 1;
    }
    assert roots[..i] == roots;
    var repeatedPaths := RepeatedPaths(imageRootPaths);
    if |repeatedPaths| > 0 {
      return Some(DuplicateError(repeatedPaths));
    }
    return None;
  }

  /** Two inputs that are plain files with the same base name land on the same path. */
  lemma SameNamedRootFilesCollide(root1: string, root2: string, fs: FileSystem)
    requires Base(root1) == Base(root2)
    requires fs.walk(root1) == Walk([Entry(root1, Ok("."), false)], None)
    requires fs.walk(root2) == Walk([Entry(root2, Ok("."), false)], None)
    ensures GroupAll([root1, root2], fs).Ok?
    ensures GroupAll([root1, root2], fs).value[Base(root1)] == [root1, root2]
    ensures HasRepeats(GroupAll([root1, root2], fs).value)
  {
    var key := Base(root1);
    assert [root1, root2][..1] == [root1];
    assert [root1][..0] == [];
    assert fs.walk(root1).entries[..0] == [];
    assert fs.walk(root2).entries[..0] == [];
    assert RootKey(root1, fs.walk(root1).entries[0], ".") == Some(key);
    assert RootKey(root2, fs.walk(root2).entries[0], ".") == Some(key);
    assert GroupEntries(map[], root1, fs.walk(root1).entries[..0]) == Ok(map[]);
    assert [] + [root1] == [root1] && [root1] + [root2] == [root1, root2];
    assert AddPath(map[], key, root1) == map[key := [root1]];
    assert AddPath(map[key := [root1]], key, root2) == map[key := [root1, root2]];
    assert GroupEntries(map[], root1, fs.walk(root1).entries) == Ok(map[key := [root1]]);
    assert GroupAll([root1], fs) == Ok(map[key := [root1]]);
    assert GroupEntries(map[key := [root1]], root2, fs.walk(root2).entries) == Ok(map[key := [root1, root2]]);
  }

  /** A walk that visits only the root directory itself files nothing. */
  lemma RootDirectoryIgnored(root: string, fs: FileSystem)
    requires fs.walk(root) == Walk([Entry(root, Ok("."), true)], None)
    ensures GroupAll([root], fs) == Ok(map[])
  {
    assert [root][..0] == [];
    assert fs.walk(root).entries[..0] == [];
    assert GroupEntries(map[], root, fs.walk(root).entries) == Ok(map[]);
  }
}
