/**
 The files of a release bundle: a tree on disk, the limits it must keep, and the walk that
 collects it.
 */
module BundleFiles {
  import opened EvidenceFiles
  import opened Sorting
  import opened Utf16
  import opened Wrappers

  datatype DiskFile = DiskFile(contents: Bytes, mode: nat)

  type DiskFiles = map<Path, DiskFile>

  /** Regular files, directories, and whatever is neither: links, sockets and the like. */
  datatype Tree = Tree(files: DiskFiles, dirs: set<Path>, special: set<Path>)

  datatype Limits = Limits(maxFiles: nat, maxFileBytes: nat, maxTotalBytes: nat)

  datatype BundleFile = BundleFile(path: Text, bytes: nat, mode: nat, sha256: Text)

  const DIST: Name := [0x64, 0x69, 0x73, 0x74]
  const DRIZZLE: Name := [0x64, 0x72, 0x69, 0x7A, 0x7A, 0x6C, 0x65]

  const MODE_PLAIN := 420
  const MODE_EXECUTABLE := 493

  /** No name holds a slash or a NUL. */
  predicate PlainName(n: Name) {
    n != [] && SLASH !in n && 0 !in n
  }

  /** A directory tree: everything but the root lies in a directory and is of one kind. */
  ghost predicate ValidTree(t: Tree) {
    && [] in t.dirs
    && (forall p :: p in t.files || p in t.special ==> p != [] && p !in t.dirs)
    && (forall p :: p in t.files ==> p !in t.special)
    && (forall p :: (p in t.files || p in t.dirs || p in t.special) && p != [] ==>
          Parent(p) in t.dirs && PlainName(p[|p| - 1]))
  }

  // Paths as texts

  /** The portable form: names joined by slashes. */
  function PathText(p: Path): Text {
    if p == [] then [] else if |p| == 1 then p[0] else p[0] + [SLASH] + PathText(p[1..])
  }

  predicate NotSlash(c: CodeUnit) {
    c != SLASH
  }

  predicate PlainPath(p: Path) {
    forall n :: n in p ==> PlainName(n)
  }

  lemma FirstName(p: Path)
    requires PlainPath(p) && p != []
    ensures Span(NotSlash, PathText(p)) == |p[0]| <= |PathText(p)| && PathText(p)[..|p[0]|] == p[0]
    ensures |p| == 1 <==> |p[0]| == |PathText(p)|
    ensures |p| > 1 ==> PathText(p)[|p[0]| + 1..] == PathText(p[1..])
  {
    assert p[0] in p;
    var rest := if |p| == 1 then [] else [SLASH] + PathText(p[1..]);
    assert PathText(p) == p[0] + rest;
    SpanExact(NotSlash, p[0], rest);
  }

  /** Different paths print differently. */
  lemma {:induction false} PathTextInjective(p: Path, q: Path)
    requires PlainPath(p) && PlainPath(q) && PathText(p) == PathText(q)
    ensures p == q
    decreases |p|
  {
    if p != [] && q != [] {
      FirstName(p);
      FirstName(q);
      assert p[0] == q[0];
      if |p| > 1 {
        assert PlainPath(p[1..]) && PlainPath(q[1..]);
        PathTextInjective(p[1..], q[1..]);
      }
      assert p == [p[0]] + p[1..] && q == [q[0]] + q[1..];
    } else {
      NonemptyText(p);
      NonemptyText(q);
    }
  }

  lemma NonemptyText(p: Path)
    requires PlainPath(p)
    ensures PathText(p) == [] <==> p == []
  {
    if p != [] {
      assert p[0] in p;
    }
  }

  lemma {:induction false} TreePathPlain(t: Tree, p: Path)
    requires ValidTree(t) && (p in t.files || p in t.dirs)
    ensures PlainPath(p)
    decreases |p|
  {
    if p != [] {
      TreePathPlain(t, Parent(p));
      assert p == Parent(p) + [p[|p| - 1]];
    }
  }

  // What may be in a bundle

  /** The part of the tree that is bundled. */
  predicate Bundled(p: Path) {
    p != [] && (p[0] == DIST || p[0] == DRIZZLE)
  }

  const ENV: Text := [DOT, 0x65, 0x6E, 0x76]
  const DEV_VARS: Text := [DOT, 0x64, 0x65, 0x76, DOT, 0x76, 0x61, 0x72, 0x73]
  const NPMRC: Text := [DOT, 0x6E, 0x70, 0x6D, 0x72, 0x63]
  const NETRC: Text := [DOT, 0x6E, 0x65, 0x74, 0x72, 0x63]

  /** `rejectSecretFilename`, on the last name of the path. */
  predicate SecretName(n: Name) {
    var name := FoldText(n);
    || name == ENV || name == DEV_VARS || name == NPMRC || name == NETRC
    || ENV + [DOT] <= name || DEV_VARS + [DOT] <= name
  }

  /** Whether a text is in Unicode normalization form C. */
  type NormalForm = Text -> bool

  predicate FileFits(nfc: NormalForm, limits: Limits, p: Path, f: DiskFile) {
    && p != []
    && nfc(PathText(p))
    && !SecretName(p[|p| - 1])
    && (f.mode == MODE_PLAIN || f.mode == MODE_EXECUTABLE)
    && |f.contents| <= limits.maxFileBytes
  }

  ghost function BundledPaths(t: Tree): set<Path> {
    set p | p in t.files && Bundled(p)
  }

  /** The bytes of some of the files together. */
  ghost function Total(files: DiskFiles, s: set<Path>): nat
    requires forall p :: p in s ==> p in files
  {
    if s == {} then 0 else
    var p :| p in s;
    |files[p].contents| + Total(files, s - {p})
  }

  /** The order of adding up does not matter. */
  lemma {:induction false} TotalWith(files: DiskFiles, s: set<Path>, p: Path)
    requires (forall q :: q in s ==> q in files) && p in s
    ensures Total(files, s) == |files[p].contents| + Total(files, s - {p})
    decreases |s|
  {
    var q :| q in s && Total(files, s) == |files[q].contents| + Total(files, s - {q});
    if q != p {
      TotalWith(files, s - {q}, p);
      TotalWith(files, s - {p}, q);
      assert s - {q} - {p} == s - {p} - {q};
    }
  }

  lemma {:induction false} TotalGrowsWith(files: DiskFiles, s: set<Path>, t: set<Path>)
    requires (forall p :: p in t ==> p in files) && s <= t
    ensures Total(files, s) <= Total(files, t)
    decreases |t|
  {
    if s != {} {
      var p :| p in s;
      TotalWith(files, s, p);
      TotalWith(files, t, p);
      TotalGrowsWith(files, s - {p}, t - {p});
    }
  }

  /** Totals depend on the files alone. */
  lemma {:induction false} TotalSame(a: DiskFiles, b: DiskFiles, s: set<Path>)
    requires forall p :: p in s ==> p in a && p in b && a[p] == b[p]
    ensures Total(a, s) == Total(b, s)
    decreases |s|
  {
    if s != {} {
      var p :| p in s;
      TotalWith(a, s, p);
      TotalWith(b, s, p);
      TotalSame(a, b, s - {p});
    }
  }

  /** Both directories are there, hold only regular files that fit, and stay within the limits. */
  ghost predicate Collectable(nfc: NormalForm, limits: Limits, t: Tree) {
    && [DIST] in t.dirs && [DRIZZLE] in t.dirs
    && (forall p :: p in t.special ==> !Bundled(p))
    && (forall p :: p in BundledPaths(t) ==> FileFits(nfc, limits, p, t.files[p]))
    && |BundledPaths(t)| <= limits.maxFiles
    && Total(t.files, BundledPaths(t)) <= limits.maxTotalBytes
  }

  // The walk

  datatype LoadedFile = LoadedFile(path: Path, contents: Bytes, mode: nat)

  function LoadedPath(f: LoadedFile): Text {
    PathText(f.path)
  }

  /** Those of some paths that lie at or below this one. */
  ghost function PathsBelow(s: set<Path>, d: Path): set<Path> {
    set p | p in s && Below(d, p)
  }

  /** Those that lie at or below the directory's children of these names. */
  ghost function PathsUnderNames(s: set<Path>, d: Path, names: set<Name>): set<Path> {
    set p | p in s && |p| > |d| && Below(d, p) && p[|d|] in names
  }

  ghost function FilesBelow(t: Tree, d: Path): set<Path> {
    PathsBelow(t.files.Keys, d)
  }

  ghost function FilesUnderNames(t: Tree, d: Path, names: set<Name>): set<Path> {
    PathsUnderNames(t.files.Keys, d, names)
  }

  ghost function DirsBelow(t: Tree, d: Path): set<Path> {
    set x | x in t.dirs && Below(d, x)
  }

  /** The names in a directory, as `readdir` gives them, sorted. */
  method ListNames(t: Tree, d: Path) returns (names: seq<Name>)
    ensures Ascending(Before, names)
    ensures forall n :: n in names <==> d + [n] in t.files || d + [n] in t.dirs || d + [n] in t.special
  {
    var all := t.files.Keys + t.dirs + t.special;
    var children := set p | p in all && |p| == |d| + 1 && Below(d, p);
    names := Checkout.SortedNames(children, d);
    forall n ensures n in names <==> d + [n] in all {
      assert Below(d, d + [n]);
    }
  }

  lemma {:induction false} TreeAncestor(t: Tree, p: Path, k: nat)
    requires ValidTree(t) && (p in t.files || p in t.dirs || p in t.special) && k < |p|
    ensures p[..k] in t.dirs
    decreases |p|
  {
    if k < |p| - 1 {
      TreeAncestor(t, Parent(p), k);
      assert Parent(p)[..k] == p[..k];
    }
  }

  /** What lies below a directory lies at or below one of the directory's children. */
  lemma ChildOf(t: Tree, d: Path, p: Path)
    requires ValidTree(t) && d in t.dirs && (p in t.files || p in t.special) && Below(d, p)
    ensures |p| > |d|
    ensures var c := d + [p[|d|]]; c in t.files || c in t.dirs || c in t.special
  {
    assert p != d;
    assert p[..|d| + 1] == d + [p[|d|]];
    if |d| + 1 < |p| {
      TreeAncestor(t, p, |d| + 1);
    } else {
      assert p == p[..|d| + 1];
    }
  }

  lemma AllNamesCover(t: Tree, d: Path, names: set<Name>)
    requires ValidTree(t) && d in t.dirs
    requires forall n :: d + [n] in t.files || d + [n] in t.dirs || d + [n] in t.special ==> n in names
    ensures FilesUnderNames(t, d, names) == FilesBelow(t, d)
    ensures PathsUnderNames(t.special, d, names) == PathsBelow(t.special, d)
  {
    forall p | p in FilesBelow(t, d) || p in PathsBelow(t.special, d) ensures |p| > |d| && p[|d|] in names {
      ChildOf(t, d, p);
    }
  }

  lemma OneMoreName(s: set<Path>, d: Path, names: set<Name>, n: Name)
    ensures PathsUnderNames(s, d, names + {n}) == PathsUnderNames(s, d, names) + PathsBelow(s, d + [n])
    ensures n !in names ==> PathsUnderNames(s, d, names) !! PathsBelow(s, d + [n])
    ensures PathsBelow(s, d + [n]) <= PathsBelow(s, d)
  {
    forall p ensures Below(d + [n], p) <==> |p| > |d| && Below(d, p) && p[|d|] == n {
      BelowChild(d, n, p);
    }
  }

  lemma VisitedNext(t: Tree, d: Path, before: set<Path>, names: set<Name>, n: Name)
    requires ValidTree(t) && before !! FilesBelow(t, d) && n !in names
    ensures before + FilesUnderNames(t, d, names) !! FilesBelow(t, d + [n])
    ensures before + FilesUnderNames(t, d, names) + FilesBelow(t, d + [n]) ==
      before + FilesUnderNames(t, d, names + {n})
  {
    OneMoreName(t.files.Keys, d, names, n);
  }

  lemma BelowChild(d: Path, n: Name, p: Path)
    ensures Below(d + [n], p) <==> |p| > |d| && Below(d, p) && p[|d|] == n
  {
    assert (d + [n])[..|d|] == d && (d + [n])[|d|] == n;
    if |p| > |d| {
      assert p[..|d| + 1] == p[..|d|] + [p[|d|]];
      assert p[..|d| + 1][..|d|] == p[..|d|] && p[..|d| + 1][|d|] == p[|d|];
    }
  }

  lemma OnlyFileBelow(t: Tree, p: Path)
    requires ValidTree(t) && p in t.files
    ensures FilesBelow(t, p) == {p} && PathsBelow(t.special, p) == {}
  {
    forall q | (q in t.files || q in t.special) && Below(p, q) ensures q == p {
      if |p| < |q| {
        TreeAncestor(t, q, |p|);
      }
    }
  }

  lemma FewerDirs(t: Tree, d: Path, n: Name)
    requires d in t.dirs
    ensures DirsBelow(t, d + [n]) < DirsBelow(t, d)
  {
    forall x | x in DirsBelow(t, d + [n]) ensures x in DirsBelow(t, d) {
      BelowChild(d, n, x);
    }
    assert d in DirsBelow(t, d) && d !in DirsBelow(t, d + [n]);
  }

  function PathsOf(result: seq<LoadedFile>): set<Path> {
    if result == [] then {} else PathsOf(result[..|result| - 1]) + {result[|result| - 1].path}
  }

  function BytesOf(result: seq<LoadedFile>): nat {
    if result == [] then 0 else BytesOf(result[..|result| - 1]) + |result[|result| - 1].contents|
  }

  /** Collected file by file: each fits, is as the tree has it, and was not there before. */
  predicate Collected(nfc: NormalForm, limits: Limits, t: Tree, result: seq<LoadedFile>) {
    result != [] ==>
      var init, f := result[..|result| - 1], result[|result| - 1];
      && Collected(nfc, limits, t, init)
      && f.path !in PathsOf(init)
      && Bundled(f.path) && f.path in t.files && t.files[f.path] == DiskFile(f.contents, f.mode)
      && FileFits(nfc, limits, f.path, t.files[f.path])
  }

  lemma Push(result: seq<LoadedFile>, f: LoadedFile)
    ensures PathsOf(result + [f]) == PathsOf(result) + {f.path}
    ensures BytesOf(result + [f]) == BytesOf(result) + |f.contents|
  {
    assert (result + [f])[..|result|] == result;
  }

  lemma CollectedNext(nfc: NormalForm, limits: Limits, t: Tree, result: seq<LoadedFile>, p: Path)
    requires Collected(nfc, limits, t, result) && p in BundledPaths(t) && p !in PathsOf(result)
    requires FileFits(nfc, limits, p, t.files[p])
    ensures Collected(nfc, limits, t, result + [LoadedFile(p, t.files[p].contents, t.files[p].mode)])
  {
    var f := LoadedFile(p, t.files[p].contents, t.files[p].mode);
    assert (result + [f])[..|result|] == result;
  }

  /** What is collected is part of what is bundled, and fits. */
  lemma {:induction false} CollectedFit(nfc: NormalForm, limits: Limits, t: Tree, result: seq<LoadedFile>)
    requires Collected(nfc, limits, t, result)
    ensures PathsOf(result) <= BundledPaths(t)
    ensures forall p :: p in PathsOf(result) ==> FileFits(nfc, limits, p, t.files[p])
  {
    if result != [] {
      CollectedFit(nfc, limits, t, result[..|result| - 1]);
    }
  }

  lemma {:induction false} CollectedTotal(nfc: NormalForm, limits: Limits, t: Tree, result: seq<LoadedFile>)
    requires Collected(nfc, limits, t, result)
    ensures forall p :: p in PathsOf(result) ==> p in t.files
    ensures BytesOf(result) == Total(t.files, PathsOf(result))
  {
    if result != [] {
      var init, f := result[..|result| - 1], result[|result| - 1];
      CollectedTotal(nfc, limits, t, init);
      TotalWith(t.files, PathsOf(result), f.path);
      assert PathsOf(result) - {f.path} == PathsOf(init);
    }
  }

  /** Each file is collected once. */
  lemma {:induction false} CollectedOnce(nfc: NormalForm, limits: Limits, t: Tree, result: seq<LoadedFile>)
    requires Collected(nfc, limits, t, result)
    ensures |PathsOf(result)| == |result|
  {
    if result != [] {
      CollectedOnce(nfc, limits, t, result[..|result| - 1]);
    }
  }

  lemma {:induction false} PathsAreOf(result: seq<LoadedFile>, p: Path)
    ensures p in PathsOf(result) <==> exists f :: f in result && f.path == p
  {
    if result != [] {
      var init, last := result[..|result| - 1], result[|result| - 1];
      PathsAreOf(init, p);
      assert result == init + [last];
    }
  }

  lemma {:induction false} CollectedAsIs(nfc: NormalForm, limits: Limits, t: Tree, result: seq<LoadedFile>,
      f: LoadedFile)
    requires Collected(nfc, limits, t, result) && f in result
    ensures f.path in t.files && t.files[f.path] == DiskFile(f.contents, f.mode)
  {
    var init, last := result[..|result| - 1], result[|result| - 1];
    assert result == init + [last];
    if f != last {
      CollectedAsIs(nfc, limits, t, init, f);
    }
  }

  /** The walk's `result` and `totalBytes`. */
  class Collector {
    const tree: Tree
    const nfc: NormalForm
    const limits: Limits
    var result: seq<LoadedFile>
    var totalBytes: nat

    ghost predicate Valid()
      reads this
    {
      && ValidTree(tree)
      && Collected(nfc, limits, tree, result)
      && totalBytes == BytesOf(result) <= limits.maxTotalBytes
      && |result| <= limits.maxFiles
    }

    constructor (tree: Tree, nfc: NormalForm, limits: Limits)
      requires ValidTree(tree)
      ensures Valid() && result == [] && this.tree == tree && this.nfc == nfc && this.limits == limits
    {
      this.tree, this.nfc, this.limits := tree, nfc, limits;
      result, totalBytes := [], 0;
    }

    /** One regular file: its name, the count, its mode and size, and the bytes so far. */
    method LoadFile(p: Path) returns (ok: bool)
      requires Valid() && p in tree.files && Bundled(p) && p !in PathsOf(result)
      modifies this
      ensures ok ==> Valid() && PathsOf(result) == PathsOf(old(result)) + {p}
      ensures !ok ==> !Collectable(nfc, limits, tree)
    {
      var f := tree.files[p];
      if |result| >= limits.maxFiles || !FileFits(nfc, limits, p, f) ||
          totalBytes + |f.contents| > limits.maxTotalBytes {
        Refused(nfc, limits, tree, result, p);
        return false;
      }
      CollectedNext(nfc, limits, tree, result, p);
      Push(result, LoadedFile(p, f.contents, f.mode));
      result := result + [LoadedFile(p, f.contents, f.mode)];
      totalBytes := totalBytes + |f.contents|;
      return true;
    }

    /** One entry of a directory. */
    method Visit(d: Path, n: Name) returns (ok: bool)
      requires Valid() && d in tree.dirs && Bundled(d)
      requires d + [n] in tree.files || d + [n] in tree.dirs || d + [n] in tree.special
      requires PathsOf(result) !! FilesBelow(tree, d + [n])
      modifies this
      ensures ok ==> Valid() && PathsOf(result) == PathsOf(old(result)) + FilesBelow(tree, d + [n])
      ensures ok ==> PathsBelow(tree.special, d + [n]) == {}
      ensures !ok ==> !Collectable(nfc, limits, tree)
      decreases DirsBelow(tree, d), 0
    {
      var candidate := d + [n];
      assert Bundled(candidate) && Below(candidate, candidate);
      if candidate in tree.dirs {
        FewerDirs(tree, d, n);
        ok := Walk(candidate);
        return;
      }
      if candidate !in tree.files {
        return false;
      }
      OnlyFileBelow(tree, candidate);
      ok := LoadFile(candidate);
    }

    method Walk(d: Path) returns (ok: bool)
      requires Valid() && Bundled(d) && PathsOf(result) !! FilesBelow(tree, d)
      requires d in tree.dirs || d == [DIST] || d == [DRIZZLE]
      modifies this
      ensures ok ==> Valid() && PathsOf(result) == PathsOf(old(result)) + FilesBelow(tree, d)
      ensures ok ==> d in tree.dirs && PathsBelow(tree.special, d) == {}
      ensures !ok ==> !Collectable(nfc, limits, tree)
      decreases DirsBelow(tree, d), 2
    {
      if d !in tree.dirs {
        return false;
      }
      var names := ListNames(tree, d);
      NamesOnce(names);
      ok := VisitAll(d, names);
      if ok {
        AllNamesCover(tree, d, FirstNames(names, |names|));
      }
    }

    /** The loop over the sorted entries. */
    method VisitAll(d: Path, names: seq<Name>) returns (ok: bool)
      requires Valid() && d in tree.dirs && Bundled(d) && PathsOf(result) !! FilesBelow(tree, d)
      requires forall i, j :: 0 <= i < j < |names| ==> names[i] != names[j]
      requires forall n :: n in names ==> d + [n] in tree.files || d + [n] in tree.dirs || d + [n] in tree.special
      modifies this
      ensures ok ==>
        Valid() && PathsOf(result) == PathsOf(old(result)) + FilesUnderNames(tree, d, FirstNames(names, |names|))
      ensures ok ==> PathsUnderNames(tree.special, d, FirstNames(names, |names|)) == {}
      ensures !ok ==> !Collectable(nfc, limits, tree)
      decreases DirsBelow(tree, d), 1
    {
      ok := true;
      var i := 0;
      ghost var visited := PathsOf(result);
      NoNames(tree, d);
      assert FirstNames(names, 0) == {};
      while i < |names|
        invariant i <= |names| && Valid() && ok
        invariant PathsOf(result) == visited + FilesUnderNames(tree, d, FirstNames(names, i))
        invariant PathsUnderNames(tree.special, d, FirstNames(names, i)) == {}
      {
        FirstNamesNext(names, i);
        VisitedNext(tree, d, visited, FirstNames(names, i), names[i]);
        OneMoreName(tree.special, d, FirstNames(names, i), names[i]);
        ok := Visit(d, names[i]);
        if !ok {
          return;
        }
        i := i + 1;
      }
    }
  }

  function FirstNames(names: seq<Name>, i: nat): set<Name>
    requires i <= |names|
  {
    set j | 0 <= j < i :: names[j]
  }

  lemma FirstNamesNext(names: seq<Name>, i: nat)
    requires i < |names| && forall a, b :: 0 <= a < b < |names| ==> names[a] != names[b]
    ensures names[i] !in FirstNames(names, i)
    ensures FirstNames(names, i + 1) == FirstNames(names, i) + {names[i]}
  {
  }

  lemma NamesOnce(names: seq<Name>)
    requires Ascending(Before, names)
    ensures forall i, j :: 0 <= i < j < |names| ==> names[i] != names[j]
  {
    BeforeIsStrict();
  }

  lemma NoNames(t: Tree, d: Path)
    ensures FilesUnderNames(t, d, {}) == {} && PathsUnderNames(t.special, d, {}) == {}
  {
  }

  /** What stops the walk at a file stops the whole collection. */
  lemma Refused(nfc: NormalForm, limits: Limits, t: Tree, result: seq<LoadedFile>, p: Path)
    requires Collected(nfc, limits, t, result) && p in BundledPaths(t) && p !in PathsOf(result)
    requires
      || |result| >= limits.maxFiles
      || !FileFits(nfc, limits, p, t.files[p])
      || BytesOf(result) + |t.files[p].contents| > limits.maxTotalBytes
    ensures !Collectable(nfc, limits, t)
  {
    CollectedOnce(nfc, limits, t, result);
    CollectedTotal(nfc, limits, t, result);
    CollectedFit(nfc, limits, t, result);
    MoreVisited(t, PathsOf(result), p);
  }

  /** Taking in one more bundled file cannot take the whole over what the visited ones reach. */
  lemma MoreVisited(t: Tree, visited: set<Path>, p: Path)
    requires visited <= BundledPaths(t) && p in BundledPaths(t) && p !in visited
    ensures |visited| + 1 <= |BundledPaths(t)|
    ensures Total(t.files, visited + {p}) == Total(t.files, visited) + |t.files[p].contents|
    ensures Total(t.files, visited) + |t.files[p].contents| <= Total(t.files, BundledPaths(t))
  {
    var more := visited + {p};
    assert BundledPaths(t) == more + (BundledPaths(t) - more);
    TotalWith(t.files, more, p);
    assert more - {p} == visited;
    TotalGrowsWith(t.files, more, BundledPaths(t));
  }

  // The collection

  predicate LoadedBefore(a: LoadedFile, b: LoadedFile) {
    Before(LoadedPath(a), LoadedPath(b))
  }

  lemma RootsBelow(t: Tree)
    ensures FilesBelow(t, [DIST]) + FilesBelow(t, [DRIZZLE]) == BundledPaths(t)
    ensures FilesBelow(t, [DIST]) !! FilesBelow(t, [DRIZZLE])
    ensures PathsBelow(t.special, [DIST]) == {} && PathsBelow(t.special, [DRIZZLE]) == {} ==>
      forall p :: p in t.special ==> !Bundled(p)
  {
    assert DIST[1] != DRIZZLE[1];
    forall p: Path | p != [] ensures Below([DIST], p) <==> p[0] == DIST {
      assert p[..1] == [p[0]];
    }
    forall p: Path | p != [] ensures Below([DRIZZLE], p) <==> p[0] == DRIZZLE {
      assert p[..1] == [p[0]];
    }
    forall p | p in t.special && Bundled(p)
      ensures p in PathsBelow(t.special, [DIST]) || p in PathsBelow(t.special, [DRIZZLE])
    {
      assert Below([DIST], p) || Below([DRIZZLE], p);
    }
    forall p | p in BundledPaths(t) ensures p in FilesBelow(t, [DIST]) || p in FilesBelow(t, [DRIZZLE]) {
      assert Below([DIST], p) || Below([DRIZZLE], p);
    }
  }

  /** The bundled files, sorted by portable path. */
  ghost predicate IsCollection(nfc: NormalForm, limits: Limits, t: Tree, loaded: seq<LoadedFile>) {
    && Ascending(LoadedBefore, loaded)
    && (forall f :: f in loaded ==> f.path in BundledPaths(t) && t.files[f.path] == DiskFile(f.contents, f.mode))
    && (forall p :: p in BundledPaths(t) ==> LoadedFile(p, t.files[p].contents, t.files[p].mode) in loaded)
  }

  /** Both directories, one after the other. */
  method WalkRoots(collector: Collector) returns (ok: bool)
    requires collector.Valid() && collector.result == []
    modifies collector
    ensures !ok ==> !Collectable(collector.nfc, collector.limits, collector.tree)
    ensures ok ==> collector.Valid() && PathsOf(collector.result) == BundledPaths(collector.tree)
    ensures ok ==> [DIST] in collector.tree.dirs && [DRIZZLE] in collector.tree.dirs
    ensures ok ==> forall p :: p in collector.tree.special ==> !Bundled(p)
  {
    RootsBelow(collector.tree);
    assert Bundled([DIST]) && Bundled([DRIZZLE]);
    ok := collector.Walk([DIST]);
    if ok {
      ok := collector.Walk([DRIZZLE]);
    }
  }

  /** `collectBundleFiles`: it succeeds exactly when everything bundled fits. */
  method CollectBundleFiles(t: Tree, nfc: NormalForm, limits: Limits) returns (r: Option<seq<LoadedFile>>)
    requires ValidTree(t)
    ensures r.Some? <==> Collectable(nfc, limits, t)
    ensures r.Some? ==> IsCollection(nfc, limits, t, r.value)
  {
    var collector := new Collector(t, nfc, limits);
    var ok := WalkRoots(collector);
    if !ok {
      return None;
    }
    WholeCollection(nfc, limits, t, collector.result);
    return Some(Sort(LoadedBefore, collector.result));
  }

  lemma WholeCollection(nfc: NormalForm, limits: Limits, t: Tree, result: seq<LoadedFile>)
    requires ValidTree(t) && Collected(nfc, limits, t, result) && PathsOf(result) == BundledPaths(t)
    requires |result| <= limits.maxFiles && BytesOf(result) <= limits.maxTotalBytes
    requires [DIST] in t.dirs && [DRIZZLE] in t.dirs && forall p :: p in t.special ==> !Bundled(p)
    ensures Collectable(nfc, limits, t)
    ensures IsCollection(nfc, limits, t, Sort(LoadedBefore, result))
  {
    CollectedOnce(nfc, limits, t, result);
    CollectedTotal(nfc, limits, t, result);
    CollectedFit(nfc, limits, t, result);
    CollectedSorts(nfc, limits, t, result);
    var sorted := Sort(LoadedBefore, result);
    forall f | f in sorted ensures f.path in BundledPaths(t) && t.files[f.path] == DiskFile(f.contents, f.mode) {
      SameElements(sorted, result, f);
      PathsAreOf(result, f.path);
      CollectedAsIs(nfc, limits, t, result, f);
    }
    forall p | p in BundledPaths(t) ensures LoadedFile(p, t.files[p].contents, t.files[p].mode) in sorted {
      PathsAreOf(result, p);
      var f :| f in result && f.path == p;
      CollectedAsIs(nfc, limits, t, result, f);
      SameElements(sorted, result, f);
    }
  }

  lemma LoadedStrict()
    ensures StrictOrder(LoadedBefore)
  {
    BeforeIsStrict();
  }

  lemma {:induction false} CollectedDistinct(nfc: NormalForm, limits: Limits, t: Tree, result: seq<LoadedFile>)
    requires Collected(nfc, limits, t, result)
    ensures forall i, j :: 0 <= i < j < |result| ==> result[i].path != result[j].path
  {
    if result != [] {
      var init := result[..|result| - 1];
      CollectedDistinct(nfc, limits, t, init);
      forall i | 0 <= i < |init| ensures result[i].path != result[|result| - 1].path {
        PathsAreOf(init, result[i].path);
        assert init[i] in init;
      }
    }
  }

  lemma CollectedSorts(nfc: NormalForm, limits: Limits, t: Tree, result: seq<LoadedFile>)
    requires ValidTree(t) && Collected(nfc, limits, t, result)
    ensures Ascending(LoadedBefore, Sort(LoadedBefore, result))
  {
    LoadedStrict();
    CollectedDistinct(nfc, limits, t, result);
    forall i, j | 0 <= i < j < |result|
      ensures LoadedBefore(result[i], result[j]) || LoadedBefore(result[j], result[i])
    {
      CollectedAsIs(nfc, limits, t, result, result[i]);
      CollectedAsIs(nfc, limits, t, result, result[j]);
      TreePathPlain(t, result[i].path);
      TreePathPlain(t, result[j].path);
      if LoadedPath(result[i]) == LoadedPath(result[j]) {
        PathTextInjective(result[i].path, result[j].path);
      }
      BeforeTotal(LoadedPath(result[i]), LoadedPath(result[j]));
    }
    SortAscending(LoadedBefore, result);
  }

  /** Two trees that bundle the same files are collected alike. */
  lemma CollectionUnique(nfc: NormalForm, limits: Limits, a: Tree, b: Tree, x: seq<LoadedFile>, y: seq<LoadedFile>)
    requires IsCollection(nfc, limits, a, x) && IsCollection(nfc, limits, b, y)
    requires BundledPaths(a) == BundledPaths(b) && forall p :: p in BundledPaths(a) ==> a.files[p] == b.files[p]
    ensures x == y
  {
    LoadedStrict();
    forall f ensures f in x <==> f in y {
      if f in x {
        assert LoadedFile(f.path, b.files[f.path].contents, b.files[f.path].mode) == f;
      }
      if f in y {
        assert LoadedFile(f.path, a.files[f.path].contents, a.files[f.path].mode) == f;
      }
    }
    AscendingUnique(LoadedBefore, x, y);
  }
}
