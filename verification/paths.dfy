/** Lexical path handling of Go's `path/filepath` on a Unix host, as
    `pkg/utils/folder.go` uses it: `Clean`, `Join`, `Abs`, and the prefix
    test that guards archive extraction ("zip slip").

    A path is read as its '/'-separated elements; cleaning folds the
    elements left to right onto a stack: empty elements and "." vanish,
    ".." pops the last name, and a ".." that finds nothing to pop is
    dropped under the root and kept in a relative path. */
module Paths {
  import opened Text

  /** An element that survives cleaning as a name. */
  predicate IsName(p: string) {
    p != "" && p != "." && p != ".." && '/' !in p
  }

  predicate AllNames(segs: seq<string>) {
    forall k :: 0 <= k < |segs| ==> IsName(segs[k])
  }

  /** Elements of a cleaned relative path: names and "..". */
  predicate CleanElems(segs: seq<string>) {
    forall k :: 0 <= k < |segs| ==> IsName(segs[k]) || segs[k] == ".."
  }

  predicate NoSlash(parts: seq<string>) {
    forall k :: 0 <= k < |parts| ==> '/' !in parts[k]
  }

  predicate IsPrefix<T(==)>(a: seq<T>, b: seq<T>) {
    |a| <= |b| && b[..|a|] == a
  }

  /** One element of the cleaning fold. */
  function Step(rooted: bool, stack: seq<string>, p: string): seq<string> {
    if p == "" || p == "." then stack
    else if p == ".." then
      if |stack| > 0 && stack[|stack| - 1] != ".." then stack[..|stack| - 1]
      else if rooted then stack
      else stack + [".."]
    else stack + [p]
  }

  /** The cleaning fold over a sequence of elements. */
  function Fold(rooted: bool, stack: seq<string>, parts: seq<string>): seq<string>
    decreases |parts|
  {
    if |parts| == 0 then stack else Fold(rooted, Step(rooted, stack, parts[0]), parts[1..])
  }

  predicate Rooted(s: string) {
    |s| > 0 && s[0] == '/'
  }

  /** The text of a cleaned path. */
  function Render(rooted: bool, segs: seq<string>): string {
    if rooted then "/" + Join(segs, "/")
    else if |segs| == 0 then "."
    else Join(segs, "/")
  }

  /** `filepath.Clean`. */
  function Clean(s: string): string {
    Render(Rooted(s), Fold(Rooted(s), [], Split(s, '/')))
  }

  /** `filepath.Join` of two elements: empty elements are ignored and the
      result is cleaned; two empty elements give "". */
  function JoinPath(a: string, b: string): string {
    if a != "" then Clean(a + "/" + b)
    else if b != "" then Clean(b)
    else ""
  }

  /** `filepath.Abs` with the working directory `wd` (an absolute path). */
  function Abs(wd: string, p: string): string {
    if Rooted(p) then Clean(p) else JoinPath(wd, p)
  }

  /** The elements of an absolute path, the key under which the model's
      file system stores it. */
  function Key(abs: string): seq<string> {
    Fold(true, [], Split(abs, '/'))
  }

  /** The elements `Abs` resolves `p` to, from the working directory `cwd`. */
  function Resolve(cwd: seq<string>, p: string): seq<string> {
    Fold(true, if Rooted(p) then [] else cwd, Split(p, '/'))
  }

  /** The extraction guard: `t` is `d` or lies below `d`. */
  predicate Inside(t: string, d: string) {
    HasPrefix(t, d + "/") || t == d
  }

  // ----- the fold -----------------------------------------------------------

  lemma {:induction false} FoldAppend(rooted: bool, stack: seq<string>, x: seq<string>, y: seq<string>)
    ensures Fold(rooted, stack, x + y) == Fold(rooted, Fold(rooted, stack, x), y)
    decreases |x|
  {
    if |x| > 0 {
      assert (x + y)[0] == x[0];
      assert (x + y)[1..] == x[1..] + y;
      FoldAppend(rooted, Step(rooted, stack, x[0]), x[1..], y);
    } else {
      assert x + y == y;
    }
  }

  /** Names are pushed as they are. */
  lemma {:induction false} FoldNames(rooted: bool, stack: seq<string>, names: seq<string>)
    requires AllNames(names)
    ensures Fold(rooted, stack, names) == stack + names
    decreases |names|
  {
    if |names| > 0 {
      FoldNames(rooted, stack + [names[0]], names[1..]);
      assert stack + [names[0]] + names[1..] == stack + names;
    }
  }

  /** A rooted fold from names keeps only names. */
  lemma {:induction false} FoldRootedNames(stack: seq<string>, parts: seq<string>)
    requires AllNames(stack) && NoSlash(parts)
    ensures AllNames(Fold(true, stack, parts))
    decreases |parts|
  {
    if |parts| > 0 {
      FoldRootedNames(Step(true, stack, parts[0]), parts[1..]);
    }
  }

  /** A relative fold keeps only names and "..". */
  lemma {:induction false} FoldRelativeElems(stack: seq<string>, parts: seq<string>)
    requires CleanElems(stack) && NoSlash(parts)
    ensures CleanElems(Fold(false, stack, parts))
    decreases |parts|
  {
    if |parts| > 0 {
      FoldRelativeElems(Step(false, stack, parts[0]), parts[1..]);
    }
  }

  /** Resolving after a relative step equals stepping the resolved stack. */
  lemma StepUnderResolve(start: seq<string>, acc: seq<string>, p: string)
    requires AllNames(start) && CleanElems(acc) && '/' !in p
    ensures Fold(true, start, Step(false, acc, p)) == Step(true, Fold(true, start, acc), p)
  {
    if p == "" || p == "." {
    } else if p == ".." && |acc| > 0 && acc[|acc| - 1] != ".." {
      var front := acc[..|acc| - 1];
      assert acc == front + [acc[|acc| - 1]];
      FoldAppend(true, start, front, [acc[|acc| - 1]]);
      FoldRootedNames(start, front);
    } else {
      FoldAppend(true, start, acc, [p]);
    }
  }

  /** Resolving a relatively cleaned path is resolving the raw elements. */
  lemma {:induction false} ResolveRelativeFold(start: seq<string>, acc: seq<string>, parts: seq<string>)
    requires AllNames(start) && CleanElems(acc) && NoSlash(parts)
    ensures Fold(true, start, Fold(false, acc, parts)) == Fold(true, Fold(true, start, acc), parts)
    decreases |parts|
  {
    if |parts| > 0 {
      var acc' := Step(false, acc, parts[0]);
      StepUnderResolve(start, acc, parts[0]);
      ResolveRelativeFold(start, acc', parts[1..]);
    }
  }

  // ----- rendering and splitting --------------------------------------------

  lemma {:induction false} JoinAppend(a: seq<string>, b: seq<string>, sep: string)
    requires |a| > 0 && |b| > 0
    ensures Join(a + b, sep) == Join(a, sep) + sep + Join(b, sep)
    decreases |a|
  {
    if |a| > 1 {
      assert (a + b)[1..] == a[1..] + b;
      JoinAppend(a[1..], b, sep);
    } else {
      assert (a + b)[1..] == b;
    }
  }

  lemma {:induction false} JoinStartsWithFirst(segs: seq<string>, sep: string)
    requires |segs| > 0 && |segs[0]| > 0
    ensures |Join(segs, sep)| > 0 && Join(segs, sep)[0] == segs[0][0]
  {
  }

  /** The elements of "/" followed by joined names. */
  lemma SplitRooted(segs: seq<string>)
    requires |segs| > 0 && NoSlash(segs)
    ensures Split("/" + Join(segs, "/"), '/') == [""] + segs
  {
    var j := Join(segs, "/");
    assert "/" + j == "" + ['/'] + j;
    SplitLine("", j, '/');
    SplitOfJoin(segs, '/');
  }

  lemma SplitShort()
    ensures Split("", '/') == [""]
    ensures Split(".", '/') == ["."]
    ensures Split("/", '/') == ["", ""]
  {
    SplitSingle(".", '/');
    assert "/" == "" + ['/'] + "";
    SplitLine("", "", '/');
  }

  /** Re-reading a rendered path gives back its elements. */
  lemma FoldOfRender(start: seq<string>, rooted: bool, segs: seq<string>)
    requires CleanElems(segs)
    ensures Fold(true, start, Split(Render(rooted, segs), '/')) == Fold(true, start, segs)
  {
    if |segs| == 0 {
      SplitShort();
      if rooted {
        assert Render(rooted, segs) == "/";
      } else {
        assert Render(rooted, segs) == ".";
      }
    } else if rooted {
      SplitRooted(segs);
      assert ([""] + segs)[1..] == segs;
    } else {
      SplitOfJoin(segs, '/');
    }
  }

  /** `Key` inverts rendering an absolute path. */
  lemma KeyOfRender(segs: seq<string>)
    requires AllNames(segs)
    ensures Key(Render(true, segs)) == segs
  {
    FoldOfRender([], true, segs);
    FoldNames(true, [], segs);
  }

  lemma RenderRooted(rooted: bool, segs: seq<string>)
    requires CleanElems(segs)
    ensures Rooted(Render(rooted, segs)) == rooted
  {
    if !rooted && |segs| > 0 {
      JoinStartsWithFirst(segs, "/");
    }
  }

  // ----- Abs ----------------------------------------------------------------

  lemma SplitNoSlash(s: string)
    ensures NoSlash(Split(s, '/'))
  {
    SplitPieces(s, '/');
  }

  /** `Clean` of a rooted path renders the resolved elements. */
  lemma CleanRooted(z: string)
    requires Rooted(z)
    ensures AllNames(Key(z))
    ensures Clean(z) == Render(true, Key(z))
  {
    SplitNoSlash(z);
    FoldRootedNames([], Split(z, '/'));
  }

  /** `Abs` renders the elements `Resolve` computes. */
  lemma AbsResolves(cwd: seq<string>, p: string)
    requires AllNames(cwd)
    ensures AllNames(Resolve(cwd, p))
    ensures Abs(Render(true, cwd), p) == Render(true, Resolve(cwd, p))
    ensures Key(Abs(Render(true, cwd), p)) == Resolve(cwd, p)
  {
    var wd := Render(true, cwd);
    if Rooted(p) {
      CleanRooted(p);
    } else {
      var z := wd + "/" + p;
      assert Rooted(z);
      CleanRooted(z);
      SplitAppend(wd, p, '/');
      assert Split(z, '/') == Split(wd, '/') + Split(p, '/');
      FoldAppend(true, [], Split(wd, '/'), Split(p, '/'));
      FoldOfRender([], true, cwd);
      FoldNames(true, [], cwd);
      assert Fold(true, [], Split(wd, '/')) == cwd;
      assert Key(z) == Resolve(cwd, p);
    }
    SplitNoSlash(p);
    FoldRootedNames(if Rooted(p) then [] else cwd, Split(p, '/'));
    KeyOfRender(Resolve(cwd, p));
  }

  /** Cleaning first does not change what a path resolves to. */
  lemma ResolveClean(cwd: seq<string>, x: string)
    requires AllNames(cwd)
    ensures Resolve(cwd, Clean(x)) == Resolve(cwd, x)
  {
    var r := Rooted(x);
    var c := Fold(r, [], Split(x, '/'));
    SplitNoSlash(x);
    if r {
      FoldRootedNames([], Split(x, '/'));
    } else {
      FoldRelativeElems([], Split(x, '/'));
    }
    RenderRooted(r, c);
    var start := if r then [] else cwd;
    FoldOfRender(start, r, c);
    if r {
      FoldNames(true, [], c);
    } else {
      ResolveRelativeFold(cwd, [], Split(x, '/'));
    }
  }

  /** Joining a relative `name` under `dest` and resolving it continues
      from the elements `dest` resolves to. */
  lemma ResolveJoin(cwd: seq<string>, dest: string, name: string)
    requires AllNames(cwd) && |name| > 0 && !Rooted(name)
    ensures Resolve(cwd, JoinPath(dest, name)) == Fold(true, Resolve(cwd, dest), Split(name, '/'))
  {
    if dest != "" {
      var y := dest + "/" + name;
      var start := if Rooted(dest) then [] else cwd;
      assert JoinPath(dest, name) == Clean(y);
      ResolveClean(cwd, y);
      assert y[0] == dest[0];
      assert Rooted(y) == Rooted(dest);
      assert y == dest + ['/'] + name;
      SplitAppend(dest, name, '/');
      FoldAppend(true, start, Split(dest, '/'), Split(name, '/'));
      assert Resolve(cwd, y) == Fold(true, start, Split(dest, '/') + Split(name, '/'));
    } else {
      ResolveClean(cwd, name);
      assert Split("", '/') == [""];
    }
  }

  // ----- the guard ----------------------------------------------------------

  /** Under the root destination "/" the guard's prefix is "//", which no
      rendered path starts with. */
  lemma NoDoubleSlash(t: seq<string>)
    requires AllNames(t)
    ensures !HasPrefix(Render(true, t), "//")
  {
    var ts := Render(true, t);
    if |t| > 0 {
      JoinStartsWithFirst(t, "/");
      assert ts[1] == t[0][0];
    } else {
      assert |ts| == 1;
    }
  }

  lemma SplitBelow(d: seq<string>, rest: string)
    requires |d| > 0 && NoSlash(d)
    ensures Split("/" + Join(d, "/") + "/" + rest, '/') == [""] + d + Split(rest, '/')
  {
    var ds := "/" + Join(d, "/");
    assert ds + "/" + rest == ds + [('/')] + rest;
    SplitAppend(ds, rest, '/');
    SplitRooted(d);
  }

  lemma BelowIsExtension(t: seq<string>, d: seq<string>)
    requires AllNames(t) && AllNames(d) && |d| > 0
    requires HasPrefix(Render(true, t), Render(true, d) + "/")
    ensures IsPrefix(d, t) && t != d
  {
    var ts := Render(true, t);
    var ds := Render(true, d);
    var rest := ts[|ds| + 1..];
    assert ts == ds + "/" + rest by {
      assert ts[..|ds| + 1] == ds + "/";
      assert ts == ts[..|ds| + 1] + rest;
    }
    SplitBelow(d, rest);
    var sr := Split(rest, '/');
    assert Split(ts, '/') == [""] + d + sr;
    assert Render(true, []) == "/";
    assert |t| > 0 by {
      assert |ts| > 1;
    }
    SplitRooted(t);
    ExtensionOfSplits(t, d, sr);
  }

  lemma ExtensionOfSplits(t: seq<string>, d: seq<string>, sr: seq<string>)
    requires [""] + t == [""] + d + sr && |sr| > 0
    ensures IsPrefix(d, t) && t != d
  {
    assert ([""] + t)[1..] == t;
    assert ([""] + d + sr)[1..] == d + sr;
  }

  lemma ExtensionIsBelow(t: seq<string>, d: seq<string>)
    requires AllNames(t) && AllNames(d) && |d| > 0
    requires IsPrefix(d, t) && t != d
    ensures HasPrefix(Render(true, t), Render(true, d) + "/")
  {
    var e := t[|d|..];
    assert t == d + e;
    JoinAppend(d, e, "/");
    var ds := Render(true, d);
    assert Render(true, t) == ds + "/" + Join(e, "/");
  }

  /** On absolute cleaned paths the guard accepts exactly the paths whose
      elements extend the destination's, except that under the root
      destination "/" only "/" itself passes. */
  lemma InsideIffPrefix(t: seq<string>, d: seq<string>)
    requires AllNames(t) && AllNames(d)
    ensures Inside(Render(true, t), Render(true, d)) <==> IsPrefix(d, t) && (|d| == 0 ==> |t| == 0)
  {
    KeyOfRender(t);
    KeyOfRender(d);
    assert Render(true, t) == Render(true, d) <==> t == d;
    if |d| == 0 {
      NoDoubleSlash(t);
      assert Render(true, d) + "/" == "//";
    } else {
      if HasPrefix(Render(true, t), Render(true, d) + "/") {
        BelowIsExtension(t, d);
      }
      if IsPrefix(d, t) && t != d {
        ExtensionIsBelow(t, d);
      }
    }
  }
}
