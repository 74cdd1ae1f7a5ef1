/**
 The evidence checkout: regular files and directories with the few effects publication
 uses. Any effect may fail, and any may be the last one before the process dies.
 */
module EvidenceFiles {
  import opened Sorting
  import opened Utf16
  import opened Wrappers

  type Byte = b: int | 0 <= b < 256
  type Bytes = seq<Byte>
  type Name = Text
  /** A path relative to the checkout, component by component. */
  type Path = seq<Name>
  type Files = map<Path, Bytes>

  predicate Below(o: Path, p: Path) {
    |o| <= |p| && p[..|o|] == o
  }

  function Parent(p: Path): Path
    requires p != []
  {
    p[..|p| - 1]
  }

  /** Every file and directory but the checkout itself lies in a directory. */
  ghost predicate WellFormed(files: Files, dirs: set<Path>) {
    && [] in dirs
    && (forall p :: p in files ==> p != [] && p !in dirs && Parent(p) in dirs)
    && (forall d :: d in dirs && d != [] ==> Parent(d) in dirs)
  }

  lemma {:induction false} AncestorExists(files: Files, dirs: set<Path>, d: Path, n: nat)
    requires WellFormed(files, dirs) && d in dirs && n <= |d|
    ensures d[..n] in dirs
    decreases |d| - n
  {
    if n < |d| {
      AncestorExists(files, dirs, d, n + 1);
      assert Parent(d[..n + 1]) == d[..n];
    } else {
      assert d[..n] == d;
    }
  }

  /** Below a path that is no directory there is at most a file of that name. */
  lemma {:induction false} NothingBelow(files: Files, dirs: set<Path>, o: Path)
    requires WellFormed(files, dirs) && o !in dirs
    ensures forall p :: p in files && Below(o, p) ==> p == o
    ensures forall d :: d in dirs ==> !Below(o, d)
  {
    forall p | p in files && Below(o, p) ensures p == o {
      if |o| < |p| {
        assert Parent(p)[..|o|] == p[..|o|];
        AncestorExists(files, dirs, Parent(p), |o|);
      }
    }
    forall d | d in dirs ensures !Below(o, d) {
      if |o| <= |d| {
        AncestorExists(files, dirs, d, |o|);
      }
    }
  }

  // Trees at a fixed depth

  /** Roles are published, and staged, in directories exactly this deep. */
  const DEPTH := 3

  /** The path lies in one of the trees with these roots. */
  predicate Under(roots: set<Path>, p: Path) {
    |p| >= DEPTH && p[..DEPTH] in roots
  }

  /** Two file maps agree but for what lies in the given trees. */
  ghost predicate SameOutside(before: Files, after: Files, roots: set<Path>) {
    forall p :: !Under(roots, p) ==> (p in before <==> p in after) && (p in before ==> after[p] == before[p])
  }

  /** Directories agree but for the given trees and for shallower directories added. */
  ghost predicate DirsSameOutside(before: set<Path>, after: set<Path>, roots: set<Path>) {
    forall d :: !Under(roots, d) ==> (d in before ==> d in after) && (|d| >= DEPTH && d in after ==> d in before)
  }

  lemma SameOutsideChains(a: Files, b: Files, c: Files, r: set<Path>, s: set<Path>)
    requires SameOutside(a, b, r) && SameOutside(b, c, s)
    ensures SameOutside(a, c, r + s)
  {
    forall p | !Under(r + s, p) ensures (p in a <==> p in c) && (p in a ==> c[p] == a[p]) {
      assert !Under(r, p) && !Under(s, p);
    }
  }

  lemma DirsSameOutsideChains(a: set<Path>, b: set<Path>, c: set<Path>, r: set<Path>, s: set<Path>)
    requires DirsSameOutside(a, b, r) && DirsSameOutside(b, c, s)
    ensures DirsSameOutside(a, c, r + s)
  {
    forall d | !Under(r + s, d) ensures (d in a ==> d in c) && (|d| >= DEPTH && d in c ==> d in a) {
      assert !Under(r, d) && !Under(s, d);
    }
  }

  /** No file lies at or below this path. */
  ghost predicate NothingUnder(files: Files, o: Path) {
    forall p :: p in files ==> !Below(o, p)
  }

  /** The directory holds exactly these regular files and nothing else. */
  ghost predicate Holds(files: Files, dirs: set<Path>, o: Path, contents: map<Name, Bytes>) {
    && o in dirs
    && (forall d :: d in dirs && Below(o, d) ==> d == o)
    && (forall p :: p in files && Below(o, p) ==> |p| == |o| + 1 && p[|o|] in contents)
    && (forall n :: n in contents ==> o + [n] in files && files[o + [n]] == contents[n])
  }

  /** What happens in other trees leaves a directory's contents alone. */
  lemma HoldsStays(files: Files, dirs: set<Path>, after: Files, dirsAfter: set<Path>, roots: set<Path>, o: Path,
      contents: map<Name, Bytes>)
    requires |o| == DEPTH && o !in roots
    requires SameOutside(files, after, roots) && DirsSameOutside(dirs, dirsAfter, roots)
    requires Holds(files, dirs, o, contents)
    ensures Holds(after, dirsAfter, o, contents)
  {
    forall p | Below(o, p) ensures !Under(roots, p) { }
    assert Below(o, o);
    forall n | n in contents ensures o + [n] in after && after[o + [n]] == contents[n] {
      assert Below(o, o + [n]);
    }
  }

  lemma NothingStays(files: Files, after: Files, roots: set<Path>, o: Path)
    requires |o| == DEPTH && o !in roots && SameOutside(files, after, roots)
    ensures NothingUnder(files, o) ==> NothingUnder(after, o)
  {
    forall p | Below(o, p) ensures !Under(roots, p) { }
  }

  // The effects

  datatype Effect = Done | AlreadyThere | Failed

  class Checkout {
    var files: Files
    var dirs: set<Path>
    /** The process has died: nothing it asks for happens any more. */
    var dead: bool
    /** Some effect failed for a reason of the system's own, or the process died. */
    var fault: bool
    /** Some removal did not complete. */
    var removalFailed: bool
    /** Trees that the system will not remove, whatever else it does. */
    const stuck: set<Path>
    /** The process lives on, and every removal but that of a stuck tree completes; other effects may fail. */
    const steady: bool
    /** Nothing but stuck trees gives trouble. */
    const calm: bool

    ghost predicate Valid()
      reads this
    {
      && WellFormed(files, dirs) && (dead ==> fault) && (removalFailed ==> fault)
      && (steady ==> !dead) && (calm ==> steady && (fault ==> removalFailed))
    }

    constructor (files: Files, dirs: set<Path>, stuck: set<Path>, steady: bool, calm: bool)
      requires WellFormed(files, dirs) && (calm ==> steady)
      ensures Valid() && this.files == files && this.dirs == dirs && this.stuck == stuck
      ensures this.steady == steady && this.calm == calm
      ensures !dead && !fault && !removalFailed
    {
      this.files := files;
      this.dirs := dirs;
      this.stuck := stuck;
      this.steady := steady;
      this.calm := calm;
      dead, fault, removalFailed := false, false, false;
    }

    /** A new process finds the files as the last one left them. */
    method Restart()
      requires Valid()
      modifies this`dead, this`fault, this`removalFailed
      ensures Valid() && !dead && !fault && !removalFailed
    {
      dead, fault, removalFailed := false, false, false;
    }

    /** Whether the system, or the death of the process, makes the next effect fail. */
    method Trouble() returns (trouble: bool)
      requires Valid()
      modifies this`dead, this`fault
      ensures Valid() && (trouble ==> fault) && (old(dead) ==> dead && trouble) && (old(fault) ==> fault)
      ensures !trouble ==> !dead && fault == old(fault)
      ensures calm ==> !trouble
    {
      trouble := dead;
      if * {
        trouble := trouble || !calm;
        fault := fault || trouble;
      }
      if trouble {
        if * {
          dead := !steady;
        }
      }
    }

    /** The process may die just after an effect took place. */
    method Survives() returns (survived: bool)
      requires Valid() && !dead
      modifies this`dead, this`fault
      ensures Valid() && survived == !dead && (!survived ==> fault) && (survived ==> fault == old(fault))
      ensures steady ==> survived
    {
      survived := true;
      if !steady {
        if * {
          survived, dead, fault := false, true, true;
        }
      }
    }

    /** `mkdir`, which fails when anything of that name exists. */
    method MakeDirectory(p: Path) returns (r: Effect)
      requires Valid()
      modifies this`dirs, this`dead, this`fault
      ensures Valid() && (old(fault) ==> fault)
      ensures dirs == old(dirs) || (p != [] && p !in files && p !in old(dirs) && dirs == old(dirs) + {p})
      ensures r.Done? ==> !dead && dirs == old(dirs) + {p} && p !in old(dirs)
      ensures r.AlreadyThere? ==> !dead && dirs == old(dirs) && (p in dirs || p in files)
      ensures !fault ==> (r.Done? <==> p != [] && p !in old(dirs) && p !in files && Parent(p) in old(dirs))
      ensures !fault ==> (r.AlreadyThere? <==> p in old(dirs) || p in files)
    {
      var trouble := Trouble();
      if trouble {
        return Failed;
      }
      if p in dirs || p in files {
        return AlreadyThere;
      }
      if Parent(p) !in dirs {
        return Failed;
      }
      dirs := dirs + {p};
      var survived := Survives();
      return if survived then Done else Failed;
    }

    /** `open` with create and exclusive, then the whole write; a failed write may leave a part behind. */
    method WriteExclusive(p: Path, contents: Bytes) returns (r: Effect)
      requires Valid()
      modifies this`files, this`dead, this`fault
      ensures Valid() && (old(fault) ==> fault)
      ensures files == old(files) || (p !in old(files) && p in files && files == old(files)[p := files[p]])
      ensures r.Done? ==> p !in old(files) && files == old(files)[p := contents]
      ensures !fault ==> (r.Done? <==> p != [] && p !in old(files) && p !in dirs && Parent(p) in dirs)
    {
      var trouble := Trouble();
      if dead || p == [] || p in files || p in dirs || Parent(p) !in dirs {
        return Failed;
      }
      if trouble {
        if * {
          var written: nat :| written <= |contents|;
          files := files[p := contents[..written]];
        }
        return Failed;
      }
      files := files[p := contents];
      var survived := Survives();
      return if survived then Done else Failed;
    }

    /** `rename` of a regular file, replacing whatever file has the new name. */
    method Rename(from: Path, to: Path) returns (r: Effect)
      requires Valid() && from != to
      modifies this`files, this`dead, this`fault
      ensures Valid() && (old(fault) ==> fault)
      ensures files == old(files) || (from in old(files) && files == (old(files) - {from})[to := old(files)[from]])
      ensures r.Done? ==> from in old(files) && files == (old(files) - {from})[to := old(files)[from]]
      ensures !fault ==> (r.Done? <==> from in old(files) && to != [] && to !in dirs && Parent(to) in dirs)
    {
      var trouble := Trouble();
      if trouble || from !in files || to == [] || to in dirs || Parent(to) !in dirs {
        return Failed;
      }
      files := (files - {from})[to := files[from]];
      var survived := Survives();
      return if survived then Done else Failed;
    }

    /** `rm` with recursive: a failed removal may have removed any part of the tree. */
    method RemoveTree(o: Path) returns (r: Effect)
      requires Valid() && |o| == DEPTH
      modifies this
      ensures Valid() && (old(fault) ==> fault) && (old(removalFailed) ==> removalFailed)
      ensures SameOutside(old(files), files, {o}) && DirsSameOutside(old(dirs), dirs, {o})
      ensures !r.Done? ==> removalFailed
      ensures r.Done? ==> NothingUnder(files, o) && o !in dirs && (removalFailed == old(removalFailed))
      ensures r.Done? ==> files == map p | p in old(files) && !Below(o, p) :: old(files)[p]
      ensures !fault ==> r.Done?
      ensures o in stuck ==> !r.Done? && files == old(files)
      ensures steady && o !in stuck ==> r.Done?
    {
      if o in stuck {
        fault, removalFailed := true, true;
        return Failed;
      }
      var trouble := false;
      if !steady {
        trouble := Trouble();
      }
      if trouble {
        fault, removalFailed := true, true;
        if !dead {
          var kept: set<Path> :| kept <= files.Keys;
          files := map p | p in files && (p in kept || !Below(o, p)) :: files[p];
        }
        return Failed;
      }
      files := map p | p in files && !Below(o, p) :: files[p];
      dirs := set d | d in dirs && !Below(o, d);
      RemainsWellFormed(old(files), old(dirs), o);
      return Done;
    }

    /** The last components of a directory's children, in ascending order. */
    static method SortedNames(children: set<Path>, o: Path) returns (names: seq<Name>)
      requires forall p :: p in children ==> |p| == |o| + 1 && Below(o, p)
      ensures Ascending(Before, names)
      ensures forall n :: n in names <==> o + [n] in children
    {
      var rest := children;
      names := [];
      while rest != {}
        invariant rest <= children && Ascending(Before, names)
        invariant forall n :: n in names <==> o + [n] in children - rest
        decreases |rest|
      {
        var p :| p in rest;
        var name := p[|o|];
        assert p == o + [name];
        InsertText(name, names);
        names := Insert(Before, name, names);
        rest := rest - {p};
        forall n ensures n in names <==> o + [n] in children - rest {
          assert o + [n] == p <==> n == name by {
            assert (o + [n])[|o|] == n;
          }
        }
      }
    }

    /** `readdir`, sorted. */
    method ReadDirectory(o: Path) returns (r: Option<seq<Name>>)
      requires Valid()
      modifies this`dead, this`fault
      ensures Valid() && (old(fault) ==> fault)
      ensures r.Some? ==> o in dirs && Ascending(Before, r.value)
      ensures r.Some? ==> forall n :: n in r.value <==> o + [n] in files || o + [n] in dirs
      ensures !fault && o in dirs ==> r.Some?
    {
      var trouble := Trouble();
      if trouble || o !in dirs {
        return None;
      }
      var children := (set p | p in files && |p| == |o| + 1 && Below(o, p)) +
        (set d | d in dirs && |d| == |o| + 1 && Below(o, d));
      var names := SortedNames(children, o);
      forall n ensures n in names <==> o + [n] in files || o + [n] in dirs {
        assert Below(o, o + [n]);
      }
      return Some(names);
    }

    /** `readRegular`: the bytes of a regular file whose size is within bounds. */
    method ReadRegular(p: Path, maxBytes: nat) returns (r: Option<Bytes>)
      requires Valid()
      modifies this`dead, this`fault
      ensures Valid() && (old(fault) ==> fault)
      ensures r.Some? ==> p in files && r.value == files[p] && 1 <= |r.value| <= maxBytes
      ensures !fault && p in files && 1 <= |files[p]| <= maxBytes ==> r.Some?
    {
      var trouble := Trouble();
      if trouble || p !in files || |files[p]| < 1 || |files[p]| > maxBytes {
        return None;
      }
      return Some(files[p]);
    }
  }

  lemma {:induction false} RemainsWellFormed(files: Files, dirs: set<Path>, o: Path)
    requires WellFormed(files, dirs) && o != []
    ensures WellFormed(map p | p in files && !Below(o, p) :: files[p], set d | d in dirs && !Below(o, d))
  {
    forall p: Path | p != [] && !Below(o, p) ensures !Below(o, Parent(p)) {
      if |o| < |p| {
        assert Parent(p)[..|o|] == p[..|o|];
      }
    }
  }
}
