/** The archive and copy helpers of `pkg/utils/folder.go` over a lexical
    file system: a map from the elements of an absolute, cleaned path to
    what is stored there. The root directory is implicit. */
module Folder {
  import opened Wrappers
  import opened Text
  import opened Paths

  type Bytes = seq<bv8>

  datatype Entry = Dir | File(data: Bytes) | Symlink

  /** Absolute path elements to entries; also used, keyed by relative
      elements, for the source tree of `ZipFolder` and `CopyDir`. */
  type Fs = map<seq<string>, Entry>

  datatype FsError =
    | OpenArchiveFailed   // zip.OpenReader
    | NotADirectory       // MkdirAll through a non-directory
    | IsADirectory        // OpenFile on a directory
    | UnsupportedMethod   // f.Open on an unknown compression method
    | IllegalPath         // only the corrected extraction reports escapes

  datatype Method = Store | Deflate | Unsupported(id: int)

  /** A zip member: its name, whether its header marks a directory, its
      compression method and its uncompressed content. */
  datatype ZipEntry = ZipEntry(name: string, isDir: bool, compression: Method, data: Bytes)

  /** The file system after an operation and the error it returned; writes
      made before an error stay in place. */
  datatype Outcome = Outcome(fs: Fs, err: Option<FsError>)

  // ----- primitive file-system steps --------------------------------------

  function Prefixes(p: seq<string>): set<seq<string>> {
    set i | 1 <= i <= |p| :: p[..i]
  }

  /** No existing prefix of `p` (nor `p`) is anything but a directory. */
  predicate DirsAlong(fs: Fs, p: seq<string>) {
    forall i :: 1 <= i <= |p| && p[..i] in fs ==> fs[p[..i]] == Dir
  }

  /** `os.MkdirAll`: creates every missing prefix of `p` as a directory,
      and fails when an existing one is not a directory. A symbolic link
      counts as not a directory here; the operating system follows it
      instead (see `LinkFree`). */
  function MkdirAll(fs: Fs, p: seq<string>): (r: Result<Fs, FsError>)
    ensures r.Success? <==> DirsAlong(fs, p)
    ensures r.Success? ==> forall k :: k in fs ==> k in r.value && r.value[k] == fs[k]
    ensures r.Success? ==> forall i :: 1 <= i <= |p| ==> p[..i] in r.value && r.value[p[..i]] == Dir
    ensures r.Success? ==> forall k :: k in r.value && k !in fs ==> 0 < |k| <= |p| && p[..|k|] == k && r.value[k] == Dir
  {
    if DirsAlong(fs, p) then
      Success(map k | k in fs.Keys + Prefixes(p) :: if k in fs then fs[k] else Dir)
    else Failure(NotADirectory)
  }

  /** `filepath.Dir` on elements: the root is its own parent. */
  function Parent(t: seq<string>): seq<string> {
    if |t| == 0 then [] else t[..|t| - 1]
  }

  /** `os.OpenFile` with create and truncate, then the copy: fails on a
      directory, otherwise stores the content. On a symbolic link the
      entry is replaced here, where the operating system writes through
      the link (see `LinkFree`). */
  function CreateFile(fs: Fs, t: seq<string>, data: Bytes): (r: Result<Fs, FsError>)
    ensures r.Success? <==> |t| > 0 && !(t in fs && fs[t] == Dir)
    ensures r.Success? ==> r.value == fs[t := File(data)]
  {
    if |t| == 0 || (t in fs && fs[t] == Dir) then Failure(IsADirectory)
    else Success(fs[t := File(data)])
  }

  // ----- UnZipFile ----------------------------------------------------------

  /** Where an archive member lands: backslashes become separators, the
      name is joined under the destination and made absolute. */
  function Target(wd: string, destPath: string, name: string): string {
    Abs(wd, JoinPath(destPath, ReplaceAll(name, "\\", "/")))
  }

  /** One member that passed the guard, at elements `t`. */
  function Place(fs: Fs, t: seq<string>, f: ZipEntry): Outcome {
    if f.isDir then
      match MkdirAll(fs, t)
      case Failure(e) => Outcome(fs, Some(e))
      case Success(fs2) => Outcome(fs2, None)
    else
      match MkdirAll(fs, Parent(t))
      case Failure(e) => Outcome(fs, Some(e))
      case Success(fs2) =>
        if f.compression.Unsupported? then Outcome(fs2, Some(UnsupportedMethod))
        else
          match CreateFile(fs2, t, f.data)
          case Failure(e) => Outcome(fs2, Some(e))
          case Success(fs3) => Outcome(fs3, None)
  }

  /** The member loop. An escaping member ends the loop; the source then
      returns its `err` variable, which is nil at that point, and `strict`
      selects the corrected behaviour that reports `IllegalPath`. */
  function Extract(fs: Fs, wd: string, destPath: string, destAbs: string,
                   entries: seq<ZipEntry>, strict: bool): Outcome
    decreases |entries|
  {
    if |entries| == 0 then Outcome(fs, None)
    else
      var targetAbs := Target(wd, destPath, entries[0].name);
      if !Inside(targetAbs, destAbs) then Outcome(fs, if strict then Some(IllegalPath) else None)
      else
        var o := Place(fs, Key(targetAbs), entries[0]);
        if o.err.Some? then o
        else Extract(o.fs, wd, destPath, destAbs, entries[1..], strict)
  }

  function Unzip(fs: Fs, cwd: seq<string>, destPath: string, archive: Option<seq<ZipEntry>>,
                 strict: bool): Outcome
  {
    match archive
    case None => Outcome(fs, Some(OpenArchiveFailed))
    case Some(entries) =>
      match MkdirAll(fs, Resolve(cwd, destPath))
      case Failure(e) => Outcome(fs, Some(e))
      case Success(fs1) =>
        var wd := Render(true, cwd);
        Extract(fs1, wd, destPath, Abs(wd, destPath), entries, strict)
  }

  /** `UnZipFile` as written, run from the working directory `cwd`;
      `archive` is the member list, or None when the archive cannot be
      opened. */
  function UnZipFile(fs: Fs, cwd: seq<string>, destPath: string, archive: Option<seq<ZipEntry>>): Outcome {
    Unzip(fs, cwd, destPath, archive, false)
  }

  /** `UnZipFile` with the guard reporting an error. */
  function UnZipFileStrict(fs: Fs, cwd: seq<string>, destPath: string, archive: Option<seq<ZipEntry>>): Outcome {
    Unzip(fs, cwd, destPath, archive, true)
  }

  // ----- extraction stays inside the destination -------------------------

  /** No symbolic link lies along `d` or below it. The file system here
      is lexical and never follows a link, so what it says about where
      writes land holds for the operating system only away from links. */
  predicate LinkFree(fs: Fs, d: seq<string>) {
    forall k :: k in fs && fs[k] == Symlink ==> !IsPrefix(k, d) && !Below(d, k)
  }

  predicate DirsPresent(fs: Fs, d: seq<string>) {
    forall i :: 1 <= i <= |d| ==> d[..i] in fs && fs[d[..i]] == Dir
  }

  predicate Below(d: seq<string>, k: seq<string>) {
    |k| > |d| && k[..|d|] == d
  }

  /** `fs2` keeps every entry of `fs` except possibly entries below `d`,
      and adds entries only below `d`. */
  predicate ChangesBelow(fs: Fs, fs2: Fs, d: seq<string>) {
    (forall k :: k in fs ==> k in fs2) &&
    (forall k :: k in fs2 ==> (k in fs && fs2[k] == fs[k]) || Below(d, k))
  }

  lemma PlaceBelow(fs: Fs, d: seq<string>, t: seq<string>, f: ZipEntry)
    requires DirsPresent(fs, d) && IsPrefix(d, t) && (|d| == 0 ==> |t| == 0)
    ensures ChangesBelow(fs, Place(fs, t, f).fs, d)
  {
    var p := if f.isDir then t else Parent(t);
    assert IsPrefix(p, t);
    var m := MkdirAll(fs, p);
    if m.Success? {
      assert forall i :: 1 <= i <= |d| ==> t[..i] == d[..i];
      forall k | k in m.value && k !in fs
        ensures Below(d, k)
      {
        assert t[..|k|] == k;
      }
      assert ChangesBelow(fs, m.value, d);
      var c := CreateFile(m.value, t, f.data);
      if !f.isDir && !f.compression.Unsupported? && c.Success? {
        assert Below(d, t) by {
          if |d| > 0 {
            assert d[..|d|] == d;
            assert d in m.value && m.value[d] == Dir;
            assert t[..|d|] == d;
            assert t[..|t|] == t;
            assert |t| == |d| ==> t == d;
          }
        }
        assert Place(fs, t, f).fs == c.value;
      }
    }
  }

  lemma {:induction false} ExtractBelow(fs: Fs, wd: string, destPath: string, d: seq<string>,
                                        entries: seq<ZipEntry>, strict: bool)
    requires AllNames(d) && DirsPresent(fs, d)
    requires forall name :: AllNames(Key(Target(wd, destPath, name))) &&
                            Target(wd, destPath, name) == Render(true, Key(Target(wd, destPath, name)))
    ensures ChangesBelow(fs, Extract(fs, wd, destPath, Render(true, d), entries, strict).fs, d)
    decreases |entries|
  {
    if |entries| > 0 {
      var targetAbs := Target(wd, destPath, entries[0].name);
      var t := Key(targetAbs);
      if Inside(targetAbs, Render(true, d)) {
        InsideIffPrefix(t, d);
        PlaceBelow(fs, d, t, entries[0]);
        var o := Place(fs, t, entries[0]);
        if o.err.None? {
          assert DirsPresent(o.fs, d) by {
            forall i | 1 <= i <= |d|
              ensures d[..i] in o.fs && o.fs[d[..i]] == Dir
            {
              assert !Below(d, d[..i]);
            }
          }
          ExtractBelow(o.fs, wd, destPath, d, entries[1..], strict);
        }
      }
    }
  }

  /** Every member's target is rendered from its resolved elements. */
  lemma TargetsRendered(cwd: seq<string>, destPath: string)
    requires AllNames(cwd)
    ensures forall name :: AllNames(Key(Target(Render(true, cwd), destPath, name))) &&
                           Target(Render(true, cwd), destPath, name) ==
                           Render(true, Key(Target(Render(true, cwd), destPath, name)))
  {
    forall name | true
      ensures AllNames(Key(Target(Render(true, cwd), destPath, name))) &&
              Target(Render(true, cwd), destPath, name) ==
              Render(true, Key(Target(Render(true, cwd), destPath, name)))
    {
      AbsResolves(cwd, JoinPath(destPath, ReplaceAll(name, "\\", "/")));
    }
  }

  /** Extraction never writes outside the destination: every entry it
      adds or changes lies below the destination's elements, except the
      directories along the destination itself that creating it adds. This
      holds with and without the corrected guard, for a destination with no
      symbolic link along or below it: the guard is lexical. */
  lemma UnzipStaysInside(fs: Fs, cwd: seq<string>, destPath: string, archive: Option<seq<ZipEntry>>, strict: bool)
    requires AllNames(cwd) && LinkFree(fs, Resolve(cwd, destPath))
    ensures var d := Resolve(cwd, destPath);
            var r := Unzip(fs, cwd, destPath, archive, strict);
            (forall k :: k in fs ==> k in r.fs) &&
            (forall k :: k in r.fs ==> (k in fs && r.fs[k] == fs[k]) || Below(d, k) ||
                                       (IsPrefix(k, d) && r.fs[k] == Dir))
  {
    var d := Resolve(cwd, destPath);
    var wd := Render(true, cwd);
    if archive.Some? && MkdirAll(fs, d).Success? {
      var fs1 := MkdirAll(fs, d).value;
      AbsResolves(cwd, destPath);
      TargetsRendered(cwd, destPath);
      ExtractBelow(fs1, wd, destPath, d, archive.value, strict);
    }
  }

  // ----- the first escaping member ends extraction -------------------------

  /** One step of `Extract` on a member that lands inside. */
  lemma ExtractInside(fs: Fs, wd: string, destPath: string, destAbs: string,
                      entries: seq<ZipEntry>, strict: bool)
    requires |entries| > 0 && Inside(Target(wd, destPath, entries[0].name), destAbs)
    ensures var o := Place(fs, Key(Target(wd, destPath, entries[0].name)), entries[0]);
            Extract(fs, wd, destPath, destAbs, entries, strict) ==
            (if o.err.Some? then o else Extract(o.fs, wd, destPath, destAbs, entries[1..], strict))
  {
  }

  /** As written: members from the first escaping one on have no effect,
      and the escape is not reported, so the result is that of the archive
      cut short before it. */
  lemma {:induction false} EscapeEndsSilently(fs: Fs, wd: string, destPath: string, destAbs: string,
                                              entries: seq<ZipEntry>, j: nat)
    requires j < |entries| && !Inside(Target(wd, destPath, entries[j].name), destAbs)
    ensures Extract(fs, wd, destPath, destAbs, entries, false) ==
            Extract(fs, wd, destPath, destAbs, entries[..j], false)
    decreases j
  {
    if j == 0 {
      assert entries[..j] == [];
      assert Extract(fs, wd, destPath, destAbs, entries, false) == Outcome(fs, None);
    } else {
      var head := entries[..j];
      assert head[0] == entries[0] && head[1..] == entries[1..][..j - 1];
      var targetAbs := Target(wd, destPath, entries[0].name);
      if Inside(targetAbs, destAbs) {
        ExtractInside(fs, wd, destPath, destAbs, entries, false);
        ExtractInside(fs, wd, destPath, destAbs, head, false);
        var o := Place(fs, Key(targetAbs), entries[0]);
        if o.err.None? {
          var rest := entries[1..];
          EscapeEndsSilently(o.fs, wd, destPath, destAbs, rest, j - 1);
          assert Extract(o.fs, wd, destPath, destAbs, rest, false) ==
                 Extract(o.fs, wd, destPath, destAbs, head[1..], false);
        }
      } else {
        assert Extract(fs, wd, destPath, destAbs, entries, false) == Outcome(fs, None);
        assert Extract(fs, wd, destPath, destAbs, head, false) == Outcome(fs, None);
      }
    }
  }

  /** Corrected: the first escaping member stops extraction with
      `IllegalPath`, unless an earlier member already failed. */
  lemma {:induction false} EscapeReported(fs: Fs, wd: string, destPath: string, destAbs: string,
                                          entries: seq<ZipEntry>, j: nat)
    requires j < |entries| && !Inside(Target(wd, destPath, entries[j].name), destAbs)
    ensures var before := Extract(fs, wd, destPath, destAbs, entries[..j], true);
            Extract(fs, wd, destPath, destAbs, entries, true) ==
            (if before.err.None? then Outcome(before.fs, Some(IllegalPath)) else before)
    decreases j
  {
    if j == 0 {
      assert entries[..j] == [];
      assert Extract(fs, wd, destPath, destAbs, entries[..j], true) == Outcome(fs, None);
      assert Extract(fs, wd, destPath, destAbs, entries, true) == Outcome(fs, Some(IllegalPath));
    } else {
      var head := entries[..j];
      assert head[0] == entries[0] && head[1..] == entries[1..][..j - 1];
      var targetAbs := Target(wd, destPath, entries[0].name);
      if Inside(targetAbs, destAbs) {
        ExtractInside(fs, wd, destPath, destAbs, entries, true);
        ExtractInside(fs, wd, destPath, destAbs, head, true);
        var o := Place(fs, Key(targetAbs), entries[0]);
        if o.err.None? {
          var rest := entries[1..];
          EscapeReported(o.fs, wd, destPath, destAbs, rest, j - 1);
          assert Extract(o.fs, wd, destPath, destAbs, rest[..j - 1], true) ==
                 Extract(o.fs, wd, destPath, destAbs, head[1..], true);
        }
      } else {
        assert Extract(fs, wd, destPath, destAbs, head, true) == Outcome(fs, Some(IllegalPath));
      }
    }
  }

  lemma SplitDotDotEvil()
    ensures Split("../evil", '/') == ["..", "evil"]
  {
    assert "../evil" == ".." + ['/'] + "evil";
    SplitLine("..", "evil", '/');
    SplitSingle("evil", '/');
  }

  lemma SlipDest()
    ensures Resolve(["srv"], "out") == ["srv", "out"]
    ensures AllNames(["srv"]) && AllNames(["srv", "out"])
  {
    SplitSingle("out", '/');
    assert IsName("srv") && IsName("out");
  }

  lemma SlipName()
    ensures ReplaceAll("../evil", "\\", "/") == "../evil"
  {
    NotContainsChar("../evil", '\\');
    ReplaceAllAbsent("../evil", "\\", "/");
  }

  lemma SlipResolve()
    ensures Resolve(["srv"], JoinPath("out", "../evil")) == ["srv", "evil"]
  {
    SlipDest();
    assert !Rooted("../evil");
    ResolveJoin(["srv"], "out", "../evil");
    SplitDotDotEvil();
    FoldDotDotEvil();
  }

  lemma FoldDotDotEvil()
    ensures Fold(true, ["srv", "out"], ["..", "evil"]) == ["srv", "evil"]
  {
    var up := Step(true, ["srv", "out"], "..");
    assert up == ["srv"];
    assert Step(true, up, "evil") == ["srv", "evil"];
    var parts := ["..", "evil"];
    assert parts[1..] == ["evil"] && parts[1..][1..] == [];
  }

  lemma SlipTarget()
    ensures AllNames(["srv"])
    ensures Key(Target(Render(true, ["srv"]), "out", "../evil")) == ["srv", "evil"]
    ensures Target(Render(true, ["srv"]), "out", "../evil") == Render(true, ["srv", "evil"])
  {
    SlipDest();
    SlipName();
    SlipResolve();
    AbsResolves(["srv"], JoinPath("out", "../evil"));
  }

  lemma SlipEscapes()
    ensures !Inside(Target(Render(true, ["srv"]), "out", "../evil"), Abs(Render(true, ["srv"]), "out"))
  {
    SlipDestAbs();
    SlipTarget();
    SlipOutside();
  }

  lemma SlipDestAbs()
    ensures Abs(Render(true, ["srv"]), "out") == Render(true, ["srv", "out"])
  {
    SlipDest();
    AbsResolves(["srv"], "out");
  }

  lemma SlipOutside()
    ensures !Inside(Render(true, ["srv", "evil"]), Render(true, ["srv", "out"]))
  {
    var t := ["srv", "evil"];
    var d := ["srv", "out"];
    assert IsName("srv") && IsName("evil") && IsName("out");
    assert AllNames(t) && AllNames(d);
    InsideIffPrefix(t, d);
    assert t[1] != d[1];
    assert t[..|d|] != d;
  }

  lemma SlipMkdir()
    ensures MkdirAll(map[], ["srv", "out"]) == Success(map[["srv"] := Dir, ["srv", "out"] := Dir])
  {
    var d := ["srv", "out"];
    assert d[..1] == ["srv"] && d[..2] == d;
    assert Prefixes(d) == {["srv"], ["srv", "out"]};
    var r := MkdirAll(map[], d).value;
    assert r.Keys == {["srv"], ["srv", "out"]};
    assert r == map[["srv"] := Dir, ["srv", "out"] := Dir];
  }

  /** The input that shows the finding: a member "../evil" extracted into
      "out" from "/srv" escapes to "/srv/evil". As written nothing is
      written for it and no error is returned; corrected, `IllegalPath`. */
  lemma ZipSlipIsSilent()
    ensures var entries := [ZipEntry("../evil", false, Deflate, [])];
            var expected := map[["srv"] := Dir, ["srv", "out"] := Dir];
            UnZipFile(map[], ["srv"], "out", Some(entries)) == Outcome(expected, None) &&
            UnZipFileStrict(map[], ["srv"], "out", Some(entries)) == Outcome(expected, Some(IllegalPath))
  {
    SlipDest();
    SlipMkdir();
    SlipEscapes();
  }

  // ----- ZipFolder ----------------------------------------------------------

  predicate Junk(name: string) {
    name == ".DS_Store" || name == "Thumbs.db"
  }

  /** What the walk callback of `ZipFolder` drops: the root, entries whose
      base name is junk, and symlinks. `.git` is not dropped. */
  predicate ZipSkips(j: seq<string>, e: Entry) {
    |j| == 0 || Junk(j[|j| - 1]) || e == Symlink
  }

  /** The header `ZipFolder` writes: the relative path with '/' separators,
      a trailing '/' and stored for a directory, deflated for a file. */
  function Header(j: seq<string>, e: Entry): ZipEntry
    requires e != Symlink
  {
    match e
    case Dir => ZipEntry(Join(j, "/") + "/", true, Store, [])
    case File(data) => ZipEntry(Join(j, "/"), false, Deflate, data)
  }

  /** `ZipFolder` over the source tree (relative elements to entries, as
      `os.Lstat` sees them) visited in the order `walk`. */
  function ZipFolder(tree: Fs, walk: seq<seq<string>>): (r: seq<ZipEntry>)
    requires forall i :: 0 <= i < |walk| ==> walk[i] in tree
    ensures forall i :: 0 <= i < |walk| && !ZipSkips(walk[i], tree[walk[i]]) ==> Header(walk[i], tree[walk[i]]) in r
    ensures forall e :: e in r ==> exists i :: 0 <= i < |walk| && !ZipSkips(walk[i], tree[walk[i]]) &&
                                              e == Header(walk[i], tree[walk[i]])
    decreases |walk|
  {
    if |walk| == 0 then []
    else
      var j := walk[0];
      var rest := ZipFolder(tree, walk[1..]);
      if ZipSkips(j, tree[j]) then rest else [Header(j, tree[j])] + rest
  }

  /** Entry names follow section 4.4.17 of the PKWARE APPNOTE: a
      directory's name ends in '/', and only files are deflated. */
  lemma ZipFolderNames(tree: Fs, walk: seq<seq<string>>)
    requires forall i :: 0 <= i < |walk| ==> walk[i] in tree
    ensures forall e :: e in ZipFolder(tree, walk) ==>
              (e.isDir <==> e.compression == Store) && (e.isDir <==> e.compression != Deflate) &&
              (e.isDir ==> |e.name| > 0 && e.name[|e.name| - 1] == '/')
  {
  }

  // ----- the zip round trip -------------------------------------------------

  predicate NoBackslash(j: seq<string>) {
    forall k :: 0 <= k < |j| ==> '\\' !in j[k]
  }

  /** A source tree as `filepath.Walk` finds it: relative, non-empty keys
      of names without backslashes, whose ancestors are directories. */
  predicate WellFormed(tree: Fs) {
    forall j :: j in tree ==>
      |j| > 0 && AllNames(j) && NoBackslash(j) &&
      forall m :: 0 < m < |j| ==> j[..m] in tree && tree[j[..m]] == Dir
  }

  predicate NoGit(j: seq<string>) {
    forall k :: 0 <= k < |j| ==> j[k] != ".git"
  }

  /** What a copy may hold at relative `j`: directories, and files whose
      name is not junk; symlinks never. */
  predicate Kept(j: seq<string>, e: Entry) {
    e == Dir || (e.File? && |j| > 0 && !Junk(j[|j| - 1]))
  }

  /** The part of `fs` below `d` is a faithful partial copy of `tree`:
      `d`'s directories exist and every entry below `d` holds what `tree`
      holds at the same relative place (and no `.git` unless `withGit`). */
  predicate Mirrors(fs: Fs, d: seq<string>, tree: Fs, withGit: bool) {
    DirsPresent(fs, d) &&
    forall k :: k in fs && Below(d, k) ==>
      k[|d|..] in tree && fs[k] == tree[k[|d|..]] && Kept(k[|d|..], fs[k]) &&
      (withGit || NoGit(k[|d|..]))
  }

  /** Along `d + j`, for `j` empty or a tree directory, every existing
      entry is a directory, so creating them succeeds. */
  lemma MkdirSucceeds(fs: Fs, d: seq<string>, tree: Fs, withGit: bool, j: seq<string>)
    requires WellFormed(tree) && Mirrors(fs, d, tree, withGit)
    requires |j| == 0 || (j in tree && tree[j] == Dir)
    ensures DirsAlong(fs, d + j)
  {
    var p := d + j;
    forall i | 1 <= i <= |p| && p[..i] in fs
      ensures fs[p[..i]] == Dir
    {
      if i <= |d| {
        assert p[..i] == d[..i];
      } else {
        var k := p[..i];
        assert Below(d, k);
        assert k[|d|..] == j[..i - |d|];
        if i - |d| < |j| {
          assert j[..i - |d|] in tree && tree[j[..i - |d|]] == Dir;
        } else {
          assert j[..i - |d|] == j;
        }
      }
    }
  }

  /** Creating the directories along `d + j`, for `j` empty or a tree
      directory, keeps the mirror. */
  lemma MkdirMirrors(fs: Fs, d: seq<string>, tree: Fs, withGit: bool, j: seq<string>)
    requires WellFormed(tree) && Mirrors(fs, d, tree, withGit)
    requires |j| == 0 || (j in tree && tree[j] == Dir)
    requires withGit || NoGit(j)
    ensures MkdirAll(fs, d + j).Success?
    ensures Mirrors(MkdirAll(fs, d + j).value, d, tree, withGit)
  {
    var p := d + j;
    MkdirSucceeds(fs, d, tree, withGit, j);
    var fs2 := MkdirAll(fs, p).value;
    forall k | k in fs2 && Below(d, k)
      ensures k[|d|..] in tree && fs2[k] == tree[k[|d|..]] && Kept(k[|d|..], fs2[k]) &&
              (withGit || NoGit(k[|d|..]))
    {
      if k !in fs {
        var m := |k| - |d|;
        assert k == p[..|k|];
        assert k[|d|..] == j[..m];
        if m < |j| {
          assert j[..m] in tree && tree[j[..m]] == Dir;
        } else {
          assert j[..m] == j;
        }
      }
    }
    assert DirsPresent(fs2, d);
  }

  lemma ParentBelow(d: seq<string>, j: seq<string>)
    requires |j| > 0
    ensures Parent(d + j) == d + j[..|j| - 1]
  {
  }

  /** Writing a kept tree file at `d + j` keeps the mirror. */
  lemma WriteFileMirrors(fs: Fs, d: seq<string>, tree: Fs, withGit: bool, j: seq<string>)
    requires WellFormed(tree) && Mirrors(fs, d, tree, withGit)
    requires j in tree && tree[j].File? && !Junk(j[|j| - 1]) && (withGit || NoGit(j))
    ensures MkdirAll(fs, Parent(d + j)).Success?
    ensures CreateFile(MkdirAll(fs, Parent(d + j)).value, d + j, tree[j].data).Success?
    ensures Mirrors(CreateFile(MkdirAll(fs, Parent(d + j)).value, d + j, tree[j].data).value, d, tree, withGit)
  {
    var up := j[..|j| - 1];
    ParentBelow(d, j);
    if |up| > 0 {
      assert up in tree && tree[up] == Dir;
    }
    assert withGit || NoGit(up);
    MkdirMirrors(fs, d, tree, withGit, up);
    var fs2 := MkdirAll(fs, d + up).value;
    var t := d + j;
    assert Below(d, t) && t[|d|..] == j;
    var fs3 := fs2[t := tree[j]];
    assert CreateFile(fs2, t, tree[j].data).value == fs3;
    forall k | k in fs3 && Below(d, k)
      ensures k[|d|..] in tree && fs3[k] == tree[k[|d|..]] && Kept(k[|d|..], fs3[k]) &&
              (withGit || NoGit(k[|d|..]))
    {
    }
    assert DirsPresent(fs3, d) by {
      forall i | 1 <= i <= |d|
        ensures d[..i] in fs3 && fs3[d[..i]] == Dir
      {
        assert d[..i] != t;
      }
    }
  }

  lemma {:induction false} NotInJoin(parts: seq<string>, sep: string, c: char)
    requires c !in sep && forall k :: 0 <= k < |parts| ==> c !in parts[k]
    ensures c !in Join(parts, sep)
    decreases |parts|
  {
    if |parts| > 1 {
      NotInJoin(parts[1..], sep, c);
    }
  }

  lemma {:induction false} NotContainsChar(s: string, c: char)
    requires c !in s
    ensures !ContainsSub(s, [c])
    decreases |s|
  {
    if |s| > 0 {
      assert s[..1] == [s[0]];
      NotContainsChar(s[1..], c);
    }
  }

  /** The name `ZipFolder` writes for `j`: no backslash to rewrite, not
      rooted, and its elements are `j` (and an empty one after a
      directory's trailing '/'). */
  lemma HeaderName(j: seq<string>, e: Entry)
    requires |j| > 0 && AllNames(j) && NoBackslash(j) && e != Symlink
    ensures var name := Header(j, e).name;
            |name| > 0 && !Rooted(name) && ReplaceAll(name, "\\", "/") == name &&
            Split(name, '/') == (if e == Dir then j + [""] else j)
  {
    var base := Join(j, "/");
    var name := Header(j, e).name;
    assert name == base + (if e == Dir then "/" else "");
    NotInJoin(j, "/", '\\');
    assert '\\' !in name;
    NotContainsChar(name, '\\');
    ReplaceAllAbsent(name, "\\", "/");
    JoinStartsWithFirst(j, "/");
    SplitOfJoin(j, '/');
    if e == Dir {
      assert name == base + [('/')] + "";
      SplitAppend(base, "", '/');
      assert Split("", '/') == [""];
    }
  }

  /** The member `ZipFolder` writes for `j` lands at `d + j`, inside. */
  lemma HeaderTarget(cwd: seq<string>, destPath: string, j: seq<string>, e: Entry)
    requires AllNames(cwd) && |j| > 0 && AllNames(j) && NoBackslash(j) && e != Symlink
    requires |Resolve(cwd, destPath)| > 0
    ensures var d := Resolve(cwd, destPath);
            var wd := Render(true, cwd);
            var t := Target(wd, destPath, Header(j, e).name);
            Key(t) == d + j && Inside(t, Abs(wd, destPath))
  {
    var d := Resolve(cwd, destPath);
    var name := Header(j, e).name;
    HeaderName(j, e);
    ResolveJoin(cwd, destPath, name);
    FoldNames(true, d, j);
    if e == Dir {
      FoldAppend(true, d, j, [""]);
    }
    assert Resolve(cwd, JoinPath(destPath, name)) == d + j;
    AbsResolves(cwd, JoinPath(destPath, name));
    AbsResolves(cwd, destPath);
    InsideIffPrefix(d + j, d);
    assert (d + j)[..|d|] == d;
  }

  /** Placing the member `ZipFolder` writes for a kept `j` at `d + j`
      succeeds, keeps the mirror and adds `d + j`. */
  lemma ZipPlace(fs: Fs, d: seq<string>, tree: Fs, j: seq<string>)
    requires WellFormed(tree) && j in tree && !ZipSkips(j, tree[j])
    requires Mirrors(fs, d, tree, true)
    ensures var o := Place(fs, d + j, Header(j, tree[j]));
            o.err == None && Mirrors(o.fs, d, tree, true) && d + j in o.fs &&
            (forall k :: k in fs ==> k in o.fs)
  {
    var e := tree[j];
    var h := Header(j, e);
    if e == Dir {
      MkdirMirrors(fs, d, tree, true, j);
      assert d + j == (d + j)[..|d + j|];
      assert Place(fs, d + j, h) == Outcome(MkdirAll(fs, d + j).value, None);
    } else {
      WriteFileMirrors(fs, d, tree, true, j);
      assert Place(fs, d + j, h) ==
             Outcome(CreateFile(MkdirAll(fs, Parent(d + j)).value, d + j, e.data).value, None);
    }
  }

  /** Extracting the member `ZipFolder` writes for a kept `j` succeeds,
      keeps the mirror and adds `d + j`. */
  lemma ZipStep(fs: Fs, cwd: seq<string>, destPath: string, tree: Fs, j: seq<string>)
    requires AllNames(cwd) && |Resolve(cwd, destPath)| > 0
    requires WellFormed(tree) && j in tree && !ZipSkips(j, tree[j])
    requires Mirrors(fs, Resolve(cwd, destPath), tree, true)
    ensures var d := Resolve(cwd, destPath);
            var wd := Render(true, cwd);
            var h := Header(j, tree[j]);
            var targetAbs := Target(wd, destPath, h.name);
            var o := Place(fs, Key(targetAbs), h);
            Inside(targetAbs, Abs(wd, destPath)) &&
            o.err == None && Mirrors(o.fs, d, tree, true) && d + j in o.fs &&
            (forall k :: k in fs ==> k in o.fs)
  {
    HeaderTarget(cwd, destPath, j, tree[j]);
    ZipPlace(fs, Resolve(cwd, destPath), tree, j);
  }

  predicate Enumerates(tree: Fs, walk: seq<seq<string>>) {
    (forall i :: 0 <= i < |walk| ==> walk[i] in tree) &&
    (forall j :: j in tree ==> j in walk)
  }

  lemma {:induction false} ExtractZipped(fs: Fs, cwd: seq<string>, destPath: string,
                                         tree: Fs, walk: seq<seq<string>>)
    requires AllNames(cwd) && |Resolve(cwd, destPath)| > 0
    requires WellFormed(tree) && forall i :: 0 <= i < |walk| ==> walk[i] in tree
    requires Mirrors(fs, Resolve(cwd, destPath), tree, true)
    ensures var d := Resolve(cwd, destPath);
            var wd := Render(true, cwd);
            var r := Extract(fs, wd, destPath, Abs(wd, destPath), ZipFolder(tree, walk), false);
            r.err == None && Mirrors(r.fs, d, tree, true) && (forall k :: k in fs ==> k in r.fs) &&
            (forall i :: 0 <= i < |walk| && !ZipSkips(walk[i], tree[walk[i]]) ==> d + walk[i] in r.fs)
    decreases |walk|
  {
    var d := Resolve(cwd, destPath);
    var wd := Render(true, cwd);
    var destAbs := Abs(wd, destPath);
    if |walk| > 0 {
      var tail := walk[1..];
      assert forall i :: 0 <= i < |tail| ==> tail[i] in tree by {
        forall i | 0 <= i < |tail| ensures tail[i] in tree {
          assert tail[i] == walk[i + 1];
        }
      }
      var next := ExtractStep(fs, cwd, destPath, tree, walk);
      ExtractZipped(next, cwd, destPath, tree, tail);
      var r := Extract(next, wd, destPath, destAbs, ZipFolder(tree, tail), false);
      forall i | 0 <= i < |walk| && !ZipSkips(walk[i], tree[walk[i]])
        ensures d + walk[i] in r.fs
      {
        if i > 0 {
          assert walk[i] == tail[i - 1];
        }
      }
    }
  }

  /** Extracting the first member of the archive, if it was written,
      succeeds, keeps the mirror and adds its path. */
  lemma ExtractStep(fs: Fs, cwd: seq<string>, destPath: string, tree: Fs, walk: seq<seq<string>>)
    returns (next: Fs)
    requires AllNames(cwd) && |Resolve(cwd, destPath)| > 0
    requires WellFormed(tree) && |walk| > 0 && forall i :: 0 <= i < |walk| ==> walk[i] in tree
    requires Mirrors(fs, Resolve(cwd, destPath), tree, true)
    ensures var wd := Render(true, cwd);
            Extract(fs, wd, destPath, Abs(wd, destPath), ZipFolder(tree, walk), false) ==
            Extract(next, wd, destPath, Abs(wd, destPath), ZipFolder(tree, walk[1..]), false)
    ensures Mirrors(next, Resolve(cwd, destPath), tree, true) && (forall k :: k in fs ==> k in next)
    ensures !ZipSkips(walk[0], tree[walk[0]]) ==> Resolve(cwd, destPath) + walk[0] in next
  {
    var wd := Render(true, cwd);
    var j := walk[0];
    var rest := ZipFolder(tree, walk[1..]);
    next := fs;
    if !ZipSkips(j, tree[j]) {
      var h := Header(j, tree[j]);
      ZipStep(fs, cwd, destPath, tree, j);
      next := Place(fs, Key(Target(wd, destPath, h.name)), h).fs;
      assert ZipFolder(tree, walk) == [h] + rest;
      assert ([h] + rest)[0] == h && ([h] + rest)[1..] == rest;
    } else {
      assert ZipFolder(tree, walk) == rest;
    }
  }

  /** Unzipping `ZipFolder`'s archive into a destination with nothing
      below it reproduces the source tree without symlinks and junk-named
      files: every other entry comes back with its content, and nothing
      else appears below the destination. Junk-named directories come back
      only as the parents of members inside them. The destination must not
      resolve to "/", where the guard rejects every member. */
  lemma UnzipOfZipFolder(fs: Fs, cwd: seq<string>, destPath: string, tree: Fs, walk: seq<seq<string>>)
    requires AllNames(cwd) && |Resolve(cwd, destPath)| > 0
    requires WellFormed(tree) && Enumerates(tree, walk)
    requires DirsAlong(fs, Resolve(cwd, destPath))
    requires forall k :: k in fs ==> !Below(Resolve(cwd, destPath), k)
    ensures var d := Resolve(cwd, destPath);
            var r := UnZipFile(fs, cwd, destPath, Some(ZipFolder(tree, walk)));
            r.err == None &&
            (forall j :: j in tree && !ZipSkips(j, tree[j]) ==> d + j in r.fs && r.fs[d + j] == tree[j]) &&
            (forall k :: k in r.fs && Below(d, k) ==>
               k[|d|..] in tree && r.fs[k] == tree[k[|d|..]] && Kept(k[|d|..], tree[k[|d|..]]))
  {
    var d := Resolve(cwd, destPath);
    var fs1 := MkdirAll(fs, d).value;
    assert Mirrors(fs1, d, tree, true) by {
      forall k | k in fs1
        ensures !Below(d, k)
      {
        if k !in fs {
          assert |k| <= |d|;
        }
      }
    }
    ExtractZipped(fs1, cwd, destPath, tree, walk);
    var r := UnZipFile(fs, cwd, destPath, Some(ZipFolder(tree, walk)));
    forall j | j in tree && !ZipSkips(j, tree[j])
      ensures d + j in r.fs && r.fs[d + j] == tree[j]
    {
      var i :| 0 <= i < |walk| && walk[i] == j;
      assert Below(d, d + j) && (d + j)[|d|..] == j;
    }
  }

  // ----- CopyDir --------------------------------------------------------------

  /** What the walk callback of `CopyDir` drops: the root, anything named
      `.git` together with everything below it (the walk does not enter a
      skipped directory), junk names, and symlinks. */
  predicate CopySkips(j: seq<string>, e: Entry) {
    |j| == 0 || !NoGit(j) || Junk(j[|j| - 1]) || e == Symlink
  }

  function CopyWalk(fs: Fs, dst: seq<string>, tree: Fs, walk: seq<seq<string>>): Outcome
    requires forall i :: 0 <= i < |walk| ==> walk[i] in tree
    decreases |walk|
  {
    if |walk| == 0 then Outcome(fs, None)
    else
      var j := walk[0];
      var e := tree[j];
      if CopySkips(j, e) then CopyWalk(fs, dst, tree, walk[1..])
      else if e == Dir then
        match MkdirAll(fs, dst + j)
        case Failure(err) => Outcome(fs, Some(err))
        case Success(fs2) => CopyWalk(fs2, dst, tree, walk[1..])
      else
        match MkdirAll(fs, Parent(dst + j))
        case Failure(err) => Outcome(fs, Some(err))
        case Success(fs2) =>
          match CreateFile(fs2, dst + j, e.data)
          case Failure(err) => Outcome(fs2, Some(err))
          case Success(fs3) => CopyWalk(fs3, dst, tree, walk[1..])
  }

  /** `CopyDir` from the source tree to the directory with elements `dst`. */
  function CopyDir(fs: Fs, dst: seq<string>, tree: Fs, walk: seq<seq<string>>): Outcome
    requires forall i :: 0 <= i < |walk| ==> walk[i] in tree
  {
    match MkdirAll(fs, dst)
    case Failure(err) => Outcome(fs, Some(err))
    case Success(fs1) => CopyWalk(fs1, dst, tree, walk)
  }

  lemma {:induction false} CopyWalkMirrors(fs: Fs, dst: seq<string>, tree: Fs, walk: seq<seq<string>>)
    requires WellFormed(tree) && (forall i :: 0 <= i < |walk| ==> walk[i] in tree)
    requires Mirrors(fs, dst, tree, false)
    ensures var r := CopyWalk(fs, dst, tree, walk);
            r.err == None && Mirrors(r.fs, dst, tree, false) && (forall k :: k in fs ==> k in r.fs) &&
            (forall i :: 0 <= i < |walk| && !CopySkips(walk[i], tree[walk[i]]) ==> dst + walk[i] in r.fs)
    decreases |walk|
  {
    if |walk| > 0 {
      var tail := walk[1..];
      assert forall i :: 0 <= i < |tail| ==> tail[i] in tree by {
        forall i | 0 <= i < |tail| ensures tail[i] in tree {
          assert tail[i] == walk[i + 1];
        }
      }
      var next := fs;
      if !CopySkips(walk[0], tree[walk[0]]) {
        next := CopyStep(fs, dst, tree, walk);
      } else {
        assert CopyWalk(fs, dst, tree, walk) == CopyWalk(fs, dst, tree, tail);
      }
      CopyWalkMirrors(next, dst, tree, tail);
      var r := CopyWalk(next, dst, tree, tail);
      forall i | 0 <= i < |walk| && !CopySkips(walk[i], tree[walk[i]])
        ensures dst + walk[i] in r.fs
      {
        if i > 0 {
          assert walk[i] == walk[1..][i - 1];
        }
      }
    }
  }

  /** Copying one entry that is not skipped succeeds, keeps the mirror
      and adds the entry's path. */
  lemma CopyStep(fs: Fs, dst: seq<string>, tree: Fs, walk: seq<seq<string>>) returns (next: Fs)
    requires WellFormed(tree) && |walk| > 0 && (forall i :: 0 <= i < |walk| ==> walk[i] in tree)
    requires Mirrors(fs, dst, tree, false) && !CopySkips(walk[0], tree[walk[0]])
    ensures CopyWalk(fs, dst, tree, walk) == CopyWalk(next, dst, tree, walk[1..])
    ensures Mirrors(next, dst, tree, false) && dst + walk[0] in next && (forall k :: k in fs ==> k in next)
  {
    var j := walk[0];
    var e := tree[j];
    if e == Dir {
      MkdirMirrors(fs, dst, tree, false, j);
      next := MkdirAll(fs, dst + j).value;
      assert dst + j == (dst + j)[..|dst + j|];
    } else {
      WriteFileMirrors(fs, dst, tree, false, j);
      next := CreateFile(MkdirAll(fs, Parent(dst + j)).value, dst + j, e.data).value;
    }
  }

  /** `CopyDir` into a directory with nothing below it copies every entry
      it does not skip, with its content, and nothing else: no `.git`
      subtree, no symlink and no junk-named file appears below `dst`. */
  lemma CopyDirCopies(fs: Fs, dst: seq<string>, tree: Fs, walk: seq<seq<string>>)
    requires WellFormed(tree) && Enumerates(tree, walk)
    requires DirsAlong(fs, dst) && forall k :: k in fs ==> !Below(dst, k)
    ensures var r := CopyDir(fs, dst, tree, walk);
            r.err == None &&
            (forall j :: j in tree && !CopySkips(j, tree[j]) ==> dst + j in r.fs && r.fs[dst + j] == tree[j]) &&
            (forall k :: k in r.fs && Below(dst, k) ==>
               k[|dst|..] in tree && r.fs[k] == tree[k[|dst|..]] && Kept(k[|dst|..], tree[k[|dst|..]]) &&
               NoGit(k[|dst|..]))
  {
    var fs1 := MkdirAll(fs, dst).value;
    assert Mirrors(fs1, dst, tree, false) by {
      forall k | k in fs1
        ensures !Below(dst, k)
      {
        if k !in fs {
          assert |k| <= |dst|;
        }
      }
    }
    CopyWalkMirrors(fs1, dst, tree, walk);
    var r := CopyDir(fs, dst, tree, walk);
    forall j | j in tree && !CopySkips(j, tree[j])
      ensures dst + j in r.fs && r.fs[dst + j] == tree[j]
    {
      var i :| 0 <= i < |walk| && walk[i] == j;
      assert Below(dst, dst + j) && (dst + j)[|dst|..] == j;
    }
  }
}
