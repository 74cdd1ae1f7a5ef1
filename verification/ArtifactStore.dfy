/**
 `writeSanitizedArtifact`: any number of processes writing content-addressed files into one
 directory, each through a temporary file that is linked to its final name.  A step is one
 file-system effect of one writer, or its failure, or the writer's death.  The hash is a
 parameter taken to be injective, and random names are taken to be distinct.
 */
module ArtifactStore {
  import opened Wrappers
  import opened Utf16

  type Digest = Text
  type Hash = Text -> Digest
  type Inode = nat

  datatype Name = Final(digest: Digest) | Temporary(digest: Digest, uuid: nat)

  datatype Failure = Mismatch | Missing | AlreadyThere | Device(code: nat)

  datatype Phase =
    | Reading
    | Creating
    | Writing(inode: Inode, written: nat)
    | Linking(inode: Inode)
    | Rereading
    | Removing(primary: Option<Failure>)
    | Returned
    | Threw(failures: seq<Failure>)
    | Dead

  datatype Writer = Writer(contents: Text, uuid: nat, phase: Phase)

  datatype State = State(names: map<Name, Inode>, inodes: map<Inode, Text>, writers: seq<Writer>)

  datatype Step =
    | Read(writer: nat)
    | Create(writer: nat, inode: Inode)
    | Append(writer: nat, upto: nat)
    | Close(writer: nat)
    | Link(writer: nat)
    | Reread(writer: nat)
    | Remove(writer: nat)
    | Fail(writer: nat, code: nat)
    | Die(writer: nat)

  ghost predicate Injective(hash: Hash) {
    forall a, b :: hash(a) == hash(b) ==> a == b
  }

  function FinalName(hash: Hash, w: Writer): Name {
    Final(hash(w.contents))
  }

  function TemporaryName(hash: Hash, w: Writer): Name {
    Temporary(hash(w.contents), w.uuid)
  }

  predicate Over(w: Writer) {
    w.phase.Returned? || w.phase.Threw? || w.phase.Dead?
  }

  predicate Enabled(s: State, step: Step) {
    && step.writer < |s.writers|
    && var p := s.writers[step.writer].phase;
       match step
       case Read(_) => p.Reading?
       case Create(_, inode) => p.Creating? && inode !in s.inodes
       case Append(i, upto) => p.Writing? && p.written < upto <= |s.writers[i].contents|
       case Close(i) => p.Writing? && p.written == |s.writers[i].contents|
       case Link(_) => p.Linking?
       case Reread(_) => p.Rereading?
       case Remove(_) => p.Removing?
       case Fail(_, _) => !Over(s.writers[step.writer])
       case Die(_) => !Over(s.writers[step.writer])
  }

  /** What a reader of a final path finds. */
  function Found(s: State, name: Name): Option<Text> {
    if name in s.names && s.names[name] in s.inodes then Some(s.inodes[s.names[name]]) else None
  }

  /** A failed effect: reads and writes lead to the clean-up, a failed clean-up to the caller. */
  function Failed(p: Phase, code: nat): Phase {
    match p
    case Reading => Threw([Device(code)])
    case Removing(primary) => Threw((if primary.Some? then [primary.value] else []) + [Device(code)])
    case _ => Removing(Some(Device(code)))
  }

  function Next(hash: Hash, s: State, step: Step): State
    requires Enabled(s, step)
  {
    var i := step.writer;
    var w := s.writers[i];
    var final, temporary := FinalName(hash, w), TemporaryName(hash, w);
    match step
    case Read(_) =>
      (match Found(s, final)
       case None => Move(s, i, Creating)
       case Some(existing) => Move(s, i, if existing == w.contents then Returned else Threw([Mismatch])))
    case Create(_, inode) =>
      if temporary in s.names then Move(s, i, Removing(Some(AlreadyThere)))
      else Move(s, i, Writing(inode, 0)).(names := s.names[temporary := inode], inodes := s.inodes[inode := []])
    case Append(_, upto) =>
      Move(s, i, Writing(w.phase.inode, upto)).(inodes := s.inodes[w.phase.inode := w.contents[..upto]])
    case Close(_) => Move(s, i, Linking(w.phase.inode))
    case Link(_) =>
      if temporary !in s.names then Move(s, i, Removing(Some(Missing)))
      else if final in s.names then Move(s, i, Rereading)
      else Move(s, i, Removing(None)).(names := s.names[final := s.names[temporary]])
    case Reread(_) =>
      (match Found(s, final)
       case None => Move(s, i, Removing(Some(Missing)))
       case Some(existing) => Move(s, i, Removing(if existing == w.contents then None else Some(Mismatch))))
    case Remove(_) =>
      var done := if w.phase.primary.Some? then Threw([w.phase.primary.value]) else Returned;
      Move(s, i, done).(names := s.names - {temporary})
    case Fail(_, code) => Move(s, i, Failed(w.phase, code))
    case Die(_) => Move(s, i, Dead)
  }

  function Move(s: State, i: nat, p: Phase): State
    requires i < |s.writers|
  {
    s.(writers := s.writers[i := s.writers[i].(phase := p)])
  }

  // The invariant

  /** The store on its own: a final name leads to complete contents with that digest. */
  ghost predicate Sound(hash: Hash, s: State) {
    forall d :: Final(d) in s.names ==> s.names[Final(d)] in s.inodes && hash(s.inodes[s.names[Final(d)]]) == d
  }

  ghost predicate Published(hash: Hash, s: State, w: Writer) {
    Found(s, FinalName(hash, w)) == Some(w.contents)
  }

  /** The inode a writer still means to write to or link: its temporary name and no final name leads there. */
  ghost predicate Owns(hash: Hash, s: State, w: Writer, inode: Inode) {
    && TemporaryName(hash, w) in s.names && s.names[TemporaryName(hash, w)] == inode && inode in s.inodes
    && forall n :: n in s.names && s.names[n] == inode ==> n == TemporaryName(hash, w)
  }

  ghost predicate ValidWriter(hash: Hash, s: State, w: Writer) {
    match w.phase
    case Reading => TemporaryName(hash, w) !in s.names
    case Creating => TemporaryName(hash, w) !in s.names
    case Writing(inode, n) => n <= |w.contents| && Owns(hash, s, w, inode) && s.inodes[inode] == w.contents[..n]
    case Linking(inode) => Owns(hash, s, w, inode) && s.inodes[inode] == w.contents
    case Rereading => Published(hash, s, w)
    case Removing(primary) => primary != Some(Mismatch) && (primary.None? ==> Published(hash, s, w))
    case Returned => Published(hash, s, w) && TemporaryName(hash, w) !in s.names
    case Threw(failures) => Mismatch !in failures && failures != []
    case Dead => true
  }

  ghost predicate Inv(hash: Hash, s: State) {
    && Sound(hash, s)
    && (forall i, j :: 0 <= i < j < |s.writers| ==> s.writers[i].uuid != s.writers[j].uuid)
    && (forall i :: 0 <= i < |s.writers| ==> ValidWriter(hash, s, s.writers[i]))
    && (forall n :: n in s.names ==> s.names[n] in s.inodes)
  }

  /** Before any writer starts: a sound store, perhaps with other runs' leftovers, and fresh names. */
  ghost predicate Initial(hash: Hash, s: State) {
    && Sound(hash, s)
    && (forall i, j :: 0 <= i < j < |s.writers| ==> s.writers[i].uuid != s.writers[j].uuid)
    && (forall i :: 0 <= i < |s.writers| ==>
          s.writers[i].phase.Reading? && TemporaryName(hash, s.writers[i]) !in s.names)
    && (forall n :: n in s.names ==> s.names[n] in s.inodes)
  }

  /** Files under final names are never removed, replaced or changed. */
  ghost predicate Keeps(s: State, t: State) {
    forall d :: Final(d) in s.names && s.names[Final(d)] in s.inodes ==> Found(t, Final(d)) == Found(s, Final(d))
  }

  lemma {:induction false} OtherNames(hash: Hash, s: State, i: nat, j: nat)
    requires Inv(hash, s) && i < |s.writers| && j < |s.writers| && i != j
    ensures TemporaryName(hash, s.writers[i]) != TemporaryName(hash, s.writers[j])
  {
  }

  /** A step of writer `i` that touches no name and no inode another writer relies on. */
  lemma {:induction false} OthersValid(hash: Hash, s: State, t: State, i: nat)
    requires Inv(hash, s) && i < |s.writers| && |t.writers| == |s.writers|
    requires forall j :: 0 <= j < |s.writers| && j != i ==> t.writers[j] == s.writers[j]
    requires t.writers[i].uuid == s.writers[i].uuid
    requires Keeps(s, t)
    requires forall n :: n !in {TemporaryName(hash, s.writers[i]), FinalName(hash, s.writers[i])} ==>
      (n in t.names <==> n in s.names) && (n in s.names ==> t.names[n] == s.names[n])
    requires forall j ::
      0 <= j < |s.writers| && j != i && (s.writers[j].phase.Writing? || s.writers[j].phase.Linking?) ==>
      var inode := s.writers[j].phase.inode;
      && inode in t.inodes && inode in s.inodes && t.inodes[inode] == s.inodes[inode]
      && forall n :: n in t.names && t.names[n] == inode ==> n in s.names && s.names[n] == inode
    ensures forall j :: 0 <= j < |s.writers| && j != i ==> ValidWriter(hash, t, t.writers[j])
  {
    forall j | 0 <= j < |s.writers| && j != i ensures ValidWriter(hash, t, t.writers[j]) {
      OtherNames(hash, s, i, j);
      assert ValidWriter(hash, s, s.writers[j]);
      var w := s.writers[j];
      assert TemporaryName(hash, w) != FinalName(hash, s.writers[i]);
      if Published(hash, s, w) {
        assert Final(hash(w.contents)) in s.names;
        assert Published(hash, t, w);
      }
    }
  }

  lemma {:induction false} QuietStep(hash: Hash, s: State, i: nat, p: Phase)
    requires Inv(hash, s) && i < |s.writers| && ValidWriter(hash, s, s.writers[i].(phase := p))
    ensures Inv(hash, Move(s, i, p)) && Keeps(s, Move(s, i, p))
  {
    var t := Move(s, i, p);
    forall j | 0 <= j < |t.writers| ensures ValidWriter(hash, t, t.writers[j]) {
      assert ValidWriter(hash, s, t.writers[j]) by {
        if j != i { assert t.writers[j] == s.writers[j]; }
      }
    }
  }

  lemma {:induction false} FoundContents(hash: Hash, s: State, w: Writer)
    requires Injective(hash) && Sound(hash, s) && FinalName(hash, w) in s.names
    ensures Found(s, FinalName(hash, w)) == Some(w.contents)
  {
    assert Final(hash(w.contents)) in s.names;
  }

  lemma {:induction false} ReadKeeps(hash: Hash, s: State, i: nat)
    requires Injective(hash) && Inv(hash, s) && Enabled(s, Read(i))
    ensures Inv(hash, Next(hash, s, Read(i))) && Keeps(s, Next(hash, s, Read(i)))
  {
    var w := s.writers[i];
    assert ValidWriter(hash, s, w);
    if FinalName(hash, w) in s.names {
      FoundContents(hash, s, w);
      QuietStep(hash, s, i, Returned);
    } else {
      QuietStep(hash, s, i, Creating);
    }
  }

  lemma {:induction false} CreateKeeps(hash: Hash, s: State, i: nat, inode: Inode)
    requires Inv(hash, s) && Enabled(s, Create(i, inode))
    ensures Inv(hash, Next(hash, s, Create(i, inode))) && Keeps(s, Next(hash, s, Create(i, inode)))
  {
    var w := s.writers[i];
    var t := Next(hash, s, Create(i, inode));
    assert ValidWriter(hash, s, w);
    forall j | 0 <= j < |s.writers| && (s.writers[j].phase.Writing? || s.writers[j].phase.Linking?)
      ensures s.writers[j].phase.inode in s.inodes && s.writers[j].phase.inode != inode {
      assert ValidWriter(hash, s, s.writers[j]);
    }
    OthersValid(hash, s, t, i);
    assert t.writers[i].phase == Writing(inode, 0);
    assert ValidWriter(hash, t, t.writers[i]);
  }

  lemma {:induction false} AppendKeeps(hash: Hash, s: State, i: nat, upto: nat)
    requires Inv(hash, s) && Enabled(s, Append(i, upto))
    ensures Inv(hash, Next(hash, s, Append(i, upto))) && Keeps(s, Next(hash, s, Append(i, upto)))
  {
    var w := s.writers[i];
    var t := Next(hash, s, Append(i, upto));
    assert ValidWriter(hash, s, w);
    forall d | Final(d) in s.names ensures s.names[Final(d)] != w.phase.inode {
    }
    forall j | 0 <= j < |s.writers| && j != i && (s.writers[j].phase.Writing? || s.writers[j].phase.Linking?)
      ensures s.writers[j].phase.inode in s.inodes && s.writers[j].phase.inode != w.phase.inode {
      assert ValidWriter(hash, s, s.writers[j]);
      OtherNames(hash, s, i, j);
    }
    OthersValid(hash, s, t, i);
    assert ValidWriter(hash, t, t.writers[i]);
  }

  lemma {:induction false} LinkKeeps(hash: Hash, s: State, i: nat)
    requires Injective(hash) && Inv(hash, s) && Enabled(s, Link(i))
    ensures Inv(hash, Next(hash, s, Link(i))) && Keeps(s, Next(hash, s, Link(i)))
  {
    var w := s.writers[i];
    var t := Next(hash, s, Link(i));
    assert ValidWriter(hash, s, w);
    if FinalName(hash, w) in s.names {
      FoundContents(hash, s, w);
      QuietStep(hash, s, i, Rereading);
    } else {
      forall j | 0 <= j < |s.writers| && j != i && (s.writers[j].phase.Writing? || s.writers[j].phase.Linking?)
        ensures s.writers[j].phase.inode in s.inodes && s.writers[j].phase.inode != w.phase.inode {
        assert ValidWriter(hash, s, s.writers[j]);
        OtherNames(hash, s, i, j);
      }
      OthersValid(hash, s, t, i);
      assert ValidWriter(hash, t, t.writers[i]);
    }
  }

  lemma {:induction false} RemoveKeeps(hash: Hash, s: State, i: nat)
    requires Inv(hash, s) && Enabled(s, Remove(i))
    ensures Inv(hash, Next(hash, s, Remove(i))) && Keeps(s, Next(hash, s, Remove(i)))
  {
    var w := s.writers[i];
    var t := Next(hash, s, Remove(i));
    assert ValidWriter(hash, s, w);
    forall j | 0 <= j < |s.writers| && j != i && (s.writers[j].phase.Writing? || s.writers[j].phase.Linking?)
      ensures s.writers[j].phase.inode in s.inodes {
      assert ValidWriter(hash, s, s.writers[j]);
    }
    OthersValid(hash, s, t, i);
    assert ValidWriter(hash, t, t.writers[i]);
  }

  /** Every step of every writer keeps the store sound and all published files as they were. */
  lemma {:induction false} StepKeeps(hash: Hash, s: State, step: Step)
    requires Injective(hash) && Inv(hash, s) && Enabled(s, step)
    ensures Inv(hash, Next(hash, s, step)) && Keeps(s, Next(hash, s, step))
  {
    var w := s.writers[step.writer];
    assert ValidWriter(hash, s, w);
    match step
    case Read(i) => ReadKeeps(hash, s, i);
    case Create(i, inode) => CreateKeeps(hash, s, i, inode);
    case Append(i, upto) => AppendKeeps(hash, s, i, upto);
    case Close(i) =>
      assert w.contents[..|w.contents|] == w.contents;
      QuietStep(hash, s, i, Linking(w.phase.inode));
    case Link(i) => LinkKeeps(hash, s, i);
    case Reread(i) => QuietStep(hash, s, i, Removing(None));
    case Remove(i) => RemoveKeeps(hash, s, i);
    case Fail(i, code) => QuietStep(hash, s, i, Failed(w.phase, code));
    case Die(i) => QuietStep(hash, s, i, Dead);
  }

  // Runs

  ghost predicate Feasible(hash: Hash, s: State, steps: seq<Step>)
    decreases |steps|
  {
    steps == [] || (Enabled(s, steps[0]) && Feasible(hash, Next(hash, s, steps[0]), steps[1..]))
  }

  ghost function After(hash: Hash, s: State, steps: seq<Step>): State
    requires Feasible(hash, s, steps)
    decreases |steps|
  {
    if steps == [] then s else After(hash, Next(hash, s, steps[0]), steps[1..])
  }

  lemma {:induction false} RunKeeps(hash: Hash, s: State, steps: seq<Step>)
    requires Injective(hash) && Inv(hash, s) && Feasible(hash, s, steps)
    ensures Inv(hash, After(hash, s, steps)) && Keeps(s, After(hash, s, steps))
    ensures |After(hash, s, steps).writers| == |s.writers|
    ensures forall i :: 0 <= i < |s.writers| ==> After(hash, s, steps).writers[i].contents == s.writers[i].contents
    decreases |steps|
  {
    if steps != [] {
      StepKeeps(hash, s, steps[0]);
      RunKeeps(hash, Next(hash, s, steps[0]), steps[1..]);
      forall d | Final(d) in s.names && s.names[Final(d)] in s.inodes
        ensures Found(After(hash, s, steps), Final(d)) == Found(s, Final(d)) {
        assert Found(Next(hash, s, steps[0]), Final(d)) == Found(s, Final(d));
      }
    }
  }

  /**
   In every interleaving of any number of writers, with any failures and deaths: a final path
   shows the complete contents it is named after or nothing, and once it shows them it always will.
   */
  lemma {:induction false} FinalPathIsWhole(hash: Hash, s: State, steps: seq<Step>, more: seq<Step>, contents: Text)
    requires Injective(hash) && Initial(hash, s) && Feasible(hash, s, steps)
    requires Feasible(hash, After(hash, s, steps), more)
    ensures var found := Found(After(hash, s, steps), Final(hash(contents))); found.None? || found == Some(contents)
    ensures Found(After(hash, s, steps), Final(hash(contents))) == Some(contents) ==>
      Found(After(hash, After(hash, s, steps), more), Final(hash(contents))) == Some(contents)
  {
    RunKeeps(hash, s, steps);
    RunKeeps(hash, After(hash, s, steps), more);
    var t := After(hash, s, steps);
    if Final(hash(contents)) in t.names {
      FoundContents(hash, t, Writer(contents, 0, Reading));
    }
  }

  /** A writer that returned has its contents at the final path and no temporary left; none ever blames another's
      contents. */
  lemma {:induction false} ReturnMeansPublished(hash: Hash, s: State, steps: seq<Step>, i: nat)
    requires Injective(hash) && Initial(hash, s) && Feasible(hash, s, steps) && i < |s.writers|
    ensures var t := After(hash, s, steps);
      && i < |t.writers|
      && (t.writers[i].phase.Returned? ==>
            Found(t, Final(hash(s.writers[i].contents))) == Some(s.writers[i].contents)
            && TemporaryName(hash, t.writers[i]) !in t.names)
      && (t.writers[i].phase.Threw? ==> Mismatch !in t.writers[i].phase.failures)
  {
    RunKeeps(hash, s, steps);
    assert ValidWriter(hash, After(hash, s, steps), After(hash, s, steps).writers[i]);
  }

  // What a writer throws

  /** The failed effects of one writer, in order. */
  ghost function FailuresOf(i: nat, steps: seq<Step>): seq<Failure> {
    if steps == [] then []
    else (if steps[0].Fail? && steps[0].writer == i then [Device(steps[0].code)] else []) + FailuresOf(i, steps[1..])
  }

  /** The failures a writer will throw or has thrown. */
  ghost function Held(w: Writer): seq<Failure> {
    match w.phase
    case Removing(primary) => if primary.Some? then [primary.value] else []
    case Threw(failures) => failures
    case _ => []
  }

  /** The writer is alive, and holds these failures and those of the steps; or it has died. */
  ghost predicate HoldsMore(w: Writer, before: Writer, i: nat, steps: seq<Step>) {
    w.phase.Dead? || (!before.phase.Dead? && Held(w) == Held(before) + FailuresOf(i, steps))
  }

  lemma {:induction false} StepHolds(hash: Hash, s: State, step: Step, i: nat)
    requires Injective(hash) && Inv(hash, s) && Enabled(s, step) && i < |s.writers|
    ensures |Next(hash, s, step).writers| == |s.writers|
    ensures HoldsMore(Next(hash, s, step).writers[i], s.writers[i], i, [step])
  {
    var w := s.writers[i];
    assert ValidWriter(hash, s, w);
    if FinalName(hash, w) in s.names {
      FoundContents(hash, s, w);
    }
    assert FailuresOf(i, [step][1..]) == [];
  }

  lemma HoldsOn(before: Writer, w: Writer, after: Writer, i: nat, steps: seq<Step>)
    requires steps != [] && HoldsMore(w, before, i, [steps[0]]) && HoldsMore(after, w, i, steps[1..])
    ensures HoldsMore(after, before, i, steps)
  {
    assert [steps[0]][1..] == [] && FailuresOf(i, []) == [];
  }

  lemma {:induction false} RunHolds(hash: Hash, s: State, steps: seq<Step>, i: nat)
    requires Injective(hash) && Inv(hash, s) && Feasible(hash, s, steps) && i < |s.writers|
    ensures i < |After(hash, s, steps).writers|
    ensures HoldsMore(After(hash, s, steps).writers[i], s.writers[i], i, steps)
    decreases |steps|
  {
    if steps != [] {
      var t := Next(hash, s, steps[0]);
      StepKeeps(hash, s, steps[0]);
      StepHolds(hash, s, steps[0], i);
      RunHolds(hash, t, steps[1..], i);
      HoldsOn(s.writers[i], t.writers[i], After(hash, t, steps[1..]).writers[i], i, steps);
    }
  }

  /** A writer that is over returned if no effect of its own failed, and otherwise threw exactly those failures. */
  lemma ThrowsItsFailures(hash: Hash, s: State, steps: seq<Step>, i: nat)
    requires Injective(hash) && Initial(hash, s) && Feasible(hash, s, steps) && i < |s.writers|
    ensures i < |After(hash, s, steps).writers|
    ensures var phase := After(hash, s, steps).writers[i].phase;
      phase.Returned? || phase.Threw? ==>
        phase == if FailuresOf(i, steps) == [] then Returned else Threw(FailuresOf(i, steps))
  {
    RunKeeps(hash, s, steps);
    RunHolds(hash, s, steps, i);
    assert ValidWriter(hash, After(hash, s, steps), After(hash, s, steps).writers[i]);
  }

  // Without faults nobody fails

  predicate Faulty(step: Step) {
    step.Fail? || step.Die?
  }

  /** Still on the way to a normal return. */
  predicate OnTrack(w: Writer) {
    !w.phase.Threw? && !w.phase.Dead? && (w.phase.Removing? ==> w.phase.primary.None?)
  }

  lemma {:induction false} FaultlessStep(hash: Hash, s: State, step: Step)
    requires Injective(hash) && Inv(hash, s) && Enabled(s, step) && !Faulty(step)
    requires OnTrack(s.writers[step.writer])
    ensures OnTrack(Next(hash, s, step).writers[step.writer])
  {
    var w := s.writers[step.writer];
    assert ValidWriter(hash, s, w);
    if FinalName(hash, w) in s.names {
      FoundContents(hash, s, w);
    }
  }

  function WriterWork(w: Writer): nat {
    match w.phase
    case Reading => |w.contents| + 7
    case Creating => |w.contents| + 6
    case Writing(_, n) => if n <= |w.contents| then |w.contents| - n + 5 else 5
    case Linking(_) => 4
    case Rereading => 3
    case Removing(_) => 2
    case _ => 0
  }

  function Work(writers: seq<Writer>): nat {
    if writers == [] then 0 else WriterWork(writers[0]) + Work(writers[1..])
  }

  lemma {:induction false} WorkUpdate(writers: seq<Writer>, i: nat, w: Writer)
    requires i < |writers|
    ensures Work(writers[i := w]) == Work(writers) - WriterWork(writers[i]) + WriterWork(w)
  {
    if i > 0 {
      WorkUpdate(writers[1..], i - 1, w);
      assert writers[i := w][1..] == writers[1..][i - 1 := w];
    } else {
      assert writers[0 := w][1..] == writers[1..];
    }
  }

  lemma {:induction false} StepWorks(hash: Hash, s: State, step: Step)
    requires Inv(hash, s) && Enabled(s, step)
    ensures Work(Next(hash, s, step).writers) < Work(s.writers)
  {
    WriterStepWorks(hash, s, step);
    WorkUpdate(s.writers, step.writer, Next(hash, s, step).writers[step.writer]);
  }

  lemma WriterStepWorks(hash: Hash, s: State, step: Step)
    requires Inv(hash, s) && Enabled(s, step)
    ensures var after := Next(hash, s, step).writers;
      after == s.writers[step.writer := after[step.writer]] &&
        WriterWork(after[step.writer]) < WriterWork(s.writers[step.writer])
  {
    assert ValidWriter(hash, s, s.writers[step.writer]);
  }

  ghost predicate Finished(s: State) {
    forall step :: !Enabled(s, step)
  }

  lemma {:induction false} FinishedMeansOver(s: State, i: nat)
    requires Finished(s) && i < |s.writers|
    ensures Over(s.writers[i])
  {
    assert !Enabled(s, Die(i));
  }

  /**
   Writers race without harm: in a run with no failing effect, every run is finite and when it can
   go no further every writer has returned, those with equal contents included.
   */
  lemma {:induction false} AllWritersSucceed(hash: Hash, s: State, steps: seq<Step>)
    requires Injective(hash) && Inv(hash, s) && Feasible(hash, s, steps)
    requires forall i :: 0 <= i < |s.writers| ==> OnTrack(s.writers[i])
    requires forall k :: 0 <= k < |steps| ==> !Faulty(steps[k])
    ensures |steps| <= Work(s.writers)
    ensures var t := After(hash, s, steps);
      (forall i :: 0 <= i < |t.writers| ==> OnTrack(t.writers[i]))
      && (Finished(t) ==> forall i :: 0 <= i < |t.writers| ==> t.writers[i].phase.Returned?)
    decreases |steps|
  {
    if steps == [] {
      if Finished(s) {
        forall i | 0 <= i < |s.writers| ensures s.writers[i].phase.Returned? {
          FinishedMeansOver(s, i);
        }
      }
    } else {
      assert !Faulty(steps[0]);
      StepKeeps(hash, s, steps[0]);
      StepWorks(hash, s, steps[0]);
      FaultlessStep(hash, s, steps[0]);
      AllWritersSucceed(hash, Next(hash, s, steps[0]), steps[1..]);
    }
  }

  // The program

  lemma KeepsChain(s: State, t: State, u: State)
    requires Keeps(s, t) && Keeps(t, u)
    ensures Keeps(s, u)
  {
    forall d | Final(d) in s.names && s.names[Final(d)] in s.inodes ensures Found(u, Final(d)) == Found(s, Final(d)) {
      assert Found(t, Final(d)) == Found(s, Final(d));
    }
  }

  lemma StepOfOther(hash: Hash, s: State, step: Step, i: nat)
    requires Enabled(s, step) && i < |s.writers| && step.writer != i
    ensures |Next(hash, s, step).writers| == |s.writers| && Next(hash, s, step).writers[i] == s.writers[i]
  {
  }

  /** What `writeSanitizedArtifact` comes to; the source wraps two failures in one. */
  datatype Outcome = Wrote | Raised(failures: seq<Failure>)

  /** The artifact directory, and how far each of the processes writing into it has come. */
  class ArtifactDirectory {
    const hash: Hash
    var names: map<Name, Inode>
    var inodes: map<Inode, Text>
    var writers: seq<Writer>

    ghost function View(): State
      reads this
    {
      State(names, inodes, writers)
    }

    ghost predicate Valid()
      reads this
    {
      Injective(hash) && Inv(hash, View())
    }

    constructor (hash: Hash, names: map<Name, Inode>, inodes: map<Inode, Text>, writers: seq<Writer>)
      requires Injective(hash) && Initial(hash, State(names, inodes, writers))
      ensures Valid() && View() == State(names, inodes, writers) && this.hash == hash
    {
      this.hash := hash;
      this.names := names;
      this.inodes := inodes;
      this.writers := writers;
    }

    /** Between two effects of one writer the others may make any of their steps. */
    method Others(i: nat)
      requires Valid() && i < |writers|
      modifies this
      ensures Valid() && |writers| == old(|writers|) && writers[i] == old(writers[i])
      ensures Keeps(old(View()), View())
    {
      while *
        invariant Valid() && |writers| == old(|writers|) && writers[i] == old(writers[i])
        invariant Keeps(old(View()), View())
        decreases Work(writers)
      {
        var step: Step := *;
        var s := State(names, inodes, writers);
        if !Enabled(s, step) || step.writer == i {
          return;
        }
        StepKeeps(hash, s, step);
        StepWorks(hash, s, step);
        StepOfOther(hash, s, step, i);
        KeepsChain(old(View()), s, Next(hash, s, step));
        var t := Next(hash, s, step);
        names, inodes, writers := t.names, t.inodes, t.writers;
      }
    }

    /** The first look at the final path: nothing there, or our own contents. */
    method ReadExisting(i: nat) returns (found: Option<Text>)
      requires Valid() && Enabled(View(), Read(i))
      modifies this`writers
      ensures Valid() && View() == Next(hash, old(View()), Read(i))
      ensures found == Found(View(), FinalName(hash, writers[i])) &&
        (found.Some? ==> found.value == writers[i].contents)
      ensures writers[i] == old(writers[i]).(phase := if found.Some? then Returned else Creating)
    {
      StepKeeps(hash, View(), Read(i));
      var w := writers[i];
      var final := FinalName(hash, w);
      if final !in names {
        writers := writers[i := w.(phase := Creating)];
        return None;
      }
      FoundContents(hash, View(), w);
      found := Some(inodes[names[final]]);
      writers := writers[i := w.(phase := if found.value != w.contents then Threw([Mismatch]) else Returned)];
    }

    /** `open` with create and exclusive: an empty file that only this writer's temporary name leads to. */
    method OpenTemporary(i: nat, inode: Inode)
      requires Valid() && Enabled(View(), Create(i, inode))
      modifies this
      ensures Valid() && View() == Next(hash, old(View()), Create(i, inode))
      ensures writers[i] == old(writers[i]).(phase := Writing(inode, 0))
      ensures inode in inodes && inodes[inode] == []
      ensures forall n :: n in names && names[n] == inode ==> n == TemporaryName(hash, writers[i])
      ensures Keeps(old(View()), View())
    {
      StepKeeps(hash, View(), Create(i, inode));
      var w := writers[i];
      assert ValidWriter(hash, View(), w);
      var temporary := TemporaryName(hash, w);
      var taken := temporary in names;
      if !taken {
        names := names[temporary := inode];
        inodes := inodes[inode := []];
      }
      writers := writers[i := w.(phase := if taken then Removing(Some(AlreadyThere)) else Writing(inode, 0))];
      assert ValidWriter(hash, View(), writers[i]);
    }

    /** More of the contents reaches the temporary file; no final path shows any of it. */
    method AppendTemporary(i: nat, upto: nat)
      requires Valid() && Enabled(View(), Append(i, upto))
      modifies this`inodes, this`writers
      ensures Valid() && View() == Next(hash, old(View()), Append(i, upto))
      ensures writers[i] == old(writers[i]).(phase := Writing(old(writers[i]).phase.inode, upto))
      ensures Found(View(), TemporaryName(hash, writers[i])) == Some(writers[i].contents[..upto])
      ensures Keeps(old(View()), View())
    {
      StepKeeps(hash, View(), Append(i, upto));
      var w := writers[i];
      inodes := inodes[w.phase.inode := w.contents[..upto]];
      writers := writers[i := w.(phase := Writing(w.phase.inode, upto))];
      assert ValidWriter(hash, View(), writers[i]);
    }

    /** The temporary file is complete. */
    method CloseTemporary(i: nat)
      requires Valid() && Enabled(View(), Close(i))
      modifies this`writers
      ensures Valid() && View() == Next(hash, old(View()), Close(i))
      ensures writers[i] == old(writers[i]).(phase := Linking(old(writers[i]).phase.inode))
      ensures Found(View(), TemporaryName(hash, writers[i])) == Some(writers[i].contents)
    {
      StepKeeps(hash, View(), Close(i));
      writers := writers[i := writers[i].(phase := Linking(writers[i].phase.inode))];
      assert ValidWriter(hash, View(), writers[i]);
    }

    /** `link`, which never replaces a file: either way the final path now shows the whole contents. */
    method LinkTemporary(i: nat) returns (linked: bool)
      requires Valid() && Enabled(View(), Link(i))
      modifies this`names, this`writers
      ensures Valid() && View() == Next(hash, old(View()), Link(i))
      ensures linked <==> FinalName(hash, writers[i]) !in old(names)
      ensures !linked ==> names == old(names)
      ensures Found(View(), FinalName(hash, writers[i])) == Some(writers[i].contents)
      ensures forall n :: n in old(names) ==> n in names && names[n] == old(names)[n]
      ensures writers[i] == old(writers[i]).(phase := if linked then Removing(None) else Rereading)
    {
      StepKeeps(hash, View(), Link(i));
      var w := writers[i];
      assert ValidWriter(hash, View(), w);
      var temporary, final := TemporaryName(hash, w), FinalName(hash, w);
      var present, existing := temporary in names, final in names;
      if existing {
        FoundContents(hash, View(), w);
      }
      if present && !existing {
        names := names[final := names[temporary]];
      }
      writers := writers[i := w.(phase :=
        if !present then Removing(Some(Missing)) else if existing then Rereading else Removing(None))];
      return !existing;
    }

    /** Another writer linked first, and its file holds our contents. */
    method RereadExisting(i: nat) returns (found: Option<Text>)
      requires Valid() && Enabled(View(), Reread(i))
      modifies this`writers
      ensures Valid() && View() == Next(hash, old(View()), Reread(i))
      ensures found == Some(writers[i].contents)
      ensures writers[i] == old(writers[i]).(phase := Removing(None))
    {
      StepKeeps(hash, View(), Reread(i));
      var w := writers[i];
      assert ValidWriter(hash, View(), w);
      var final := FinalName(hash, w);
      var primary := Some(Missing);
      found := None;
      if final in names {
        found := Some(inodes[names[final]]);
        primary := if found.value == w.contents then None else Some(Mismatch);
      }
      writers := writers[i := w.(phase := Removing(primary))];
    }

    /** `rm` with force: the temporary is gone, no other name moves, and a writer that returns has published. */
    method RemoveTemporary(i: nat)
      requires Valid() && Enabled(View(), Remove(i))
      modifies this`names, this`writers
      ensures Valid() && View() == Next(hash, old(View()), Remove(i))
      ensures TemporaryName(hash, writers[i]) !in names
      ensures forall n :: n != TemporaryName(hash, writers[i]) ==>
        (n in names <==> n in old(names)) && (n in names ==> names[n] == old(names)[n])
      ensures writers[i].phase.Returned? ==> Found(View(), FinalName(hash, writers[i])) == Some(writers[i].contents)
      ensures var primary := old(writers[i]).phase.primary;
        writers[i] == old(writers[i]).(phase := if primary.None? then Returned else Threw([primary.value]))
    {
      StepKeeps(hash, View(), Remove(i));
      var w := writers[i];
      assert ValidWriter(hash, View(), w);
      var primary := w.phase.primary;
      names := names - {TemporaryName(hash, w)};
      writers := writers[i := w.(phase := if primary.Some? then Threw([primary.value]) else Returned)];
      assert ValidWriter(hash, View(), writers[i]);
    }

    /** Any effect may fail instead: no file moves, and the writer goes on to its clean-up or to its caller. */
    method EffectFailed(i: nat, code: nat)
      requires Valid() && Enabled(View(), Step.Fail(i, code))
      modifies this`writers
      ensures Valid() && View() == Next(hash, old(View()), Step.Fail(i, code))
      ensures writers[i] == old(writers[i]).(phase := writers[i].phase)
      ensures old(writers[i]).phase.Reading? ==> writers[i].phase == Threw([Device(code)])
      ensures old(writers[i]).phase.Removing? ==>
        var primary := old(writers[i]).phase.primary;
        writers[i].phase == Threw((if primary.Some? then [primary.value] else []) + [Device(code)])
      ensures !old(writers[i]).phase.Reading? && !old(writers[i]).phase.Removing? ==>
        writers[i].phase == Removing(Some(Device(code)))
    {
      StepKeeps(hash, View(), Step.Fail(i, code));
      writers := writers[i := writers[i].(phase := Failed(writers[i].phase, code))];
    }

    /** `writeTemporary`: open, write piece by piece, close; or the failure of one of them. */
    method WriteTemporary(i: nat) returns (failure: Option<Failure>)
      requires Valid() && i < |writers| && writers[i].phase.Creating?
      modifies this
      ensures Valid() && |writers| == old(|writers|) && Keeps(old(View()), View())
      ensures failure.None? ==> writers[i] == old(writers[i]).(phase := writers[i].phase) && writers[i].phase.Linking?
      ensures failure.Some? ==> failure != Some(Mismatch) && writers[i] == old(writers[i]).(phase := Removing(failure))
    {
      ghost var s0 := View();
      var code: nat := *;
      var inode: Inode := *;
      var fails: bool := *;
      if fails || inode in inodes {
        EffectFailed(i, code);
        return Some(Device(code));
      }
      OpenTemporary(i, inode);
      while writers[i].phase.written < |writers[i].contents|
        invariant Valid() && |writers| == old(|writers|) && Keeps(s0, View())
        invariant writers[i].phase.Writing? && writers[i] == old(writers[i]).(phase := writers[i].phase)
        decreases |writers[i].contents| - writers[i].phase.written
      {
        ghost var s1 := View();
        Others(i);
        KeepsChain(s0, s1, View());
        code := *;
        var upto: nat := *;
        fails := *;
        ghost var s2 := View();
        if fails || upto <= writers[i].phase.written || upto > |writers[i].contents| {
          EffectFailed(i, code);
          KeepsChain(s0, s2, View());
          return Some(Device(code));
        }
        AppendTemporary(i, upto);
        KeepsChain(s0, s2, View());
      }
      WrittenAll(hash, View(), i);
      ghost var s3 := View();
      CloseTemporary(i);
      KeepsChain(s0, s3, View());
      return None;
    }

    /** The link, or what the winner of the race left. */
    method Publish(i: nat) returns (failure: Option<Failure>)
      requires Valid() && i < |writers| && writers[i].phase.Linking?
      modifies this
      ensures Valid() && |writers| == old(|writers|) && Keeps(old(View()), View())
      ensures failure != Some(Mismatch) && writers[i] == old(writers[i]).(phase := Removing(failure))
      ensures failure.None? ==> Found(View(), FinalName(hash, writers[i])) == Some(writers[i].contents)
    {
      ghost var s0 := View();
      var code: nat := *;
      if * {
        EffectFailed(i, code);
        return Some(Device(code));
      }
      StepKeeps(hash, View(), Link(i));
      var linked := LinkTemporary(i);
      if linked {
        return None;
      }
      ghost var s1 := View();
      Others(i);
      KeepsChain(s0, s1, View());
      ghost var s2 := View();
      if * {
        EffectFailed(i, code);
        KeepsChain(s0, s2, View());
        return Some(Device(code));
      }
      StepKeeps(hash, View(), Reread(i));
      var existing := RereadExisting(i);
      KeepsChain(s0, s2, View());
      assert ValidWriter(hash, View(), writers[i]);
      failure := if existing == Some(writers[i].contents) then None else Some(Mismatch);
    }

    /**
     `writeSanitizedArtifact`, while any number of other writers come and go and any effect may
     fail: a normal return means that the final path shows exactly these contents and that the
     temporary is gone, no file under a final name was ever touched, and nothing that is thrown
     blames the contents of a file.
     */
    method WriteSanitizedArtifact(i: nat) returns (r: Outcome)
      requires Valid() && i < |writers| && writers[i].phase.Reading?
      modifies this
      ensures Valid() && |writers| == old(|writers|) && Keeps(old(View()), View())
      ensures writers[i] == old(writers[i]).(phase := if r.Wrote? then Returned else Threw(r.failures))
      ensures r.Wrote? ==> Found(View(), FinalName(hash, writers[i])) == Some(writers[i].contents)
      ensures r.Wrote? ==> TemporaryName(hash, writers[i]) !in names
      ensures r.Raised? ==> r.failures != [] && Mismatch !in r.failures
    {
      ghost var s0 := View();
      Others(i);
      var code: nat := *;
      ghost var s1 := View();
      if * {
        EffectFailed(i, code);
        KeepsChain(s0, s1, View());
        return Raised([Device(code)]);
      }
      StepKeeps(hash, View(), Read(i));
      var existing := ReadExisting(i);
      KeepsChain(s0, s1, View());
      if existing.Some? {
        assert ValidWriter(hash, View(), writers[i]);
        return Wrote;
      }
      var primary := Attempt(i, s0);
      r := CleanUp(i, primary, s0);
    }

    /** Everything between the first look and the clean-up. */
    method Attempt(i: nat, ghost s0: State) returns (primary: Option<Failure>)
      requires Valid() && i < |writers| && writers[i].phase.Creating? && Keeps(s0, View())
      modifies this
      ensures Valid() && |writers| == old(|writers|) && Keeps(s0, View())
      ensures primary != Some(Mismatch) && writers[i] == old(writers[i]).(phase := Removing(primary))
    {
      ghost var s1 := View();
      Others(i);
      KeepsChain(s0, s1, View());
      ghost var s2 := View();
      primary := WriteTemporary(i);
      KeepsChain(s0, s2, View());
      if primary.None? {
        ghost var s3 := View();
        Others(i);
        KeepsChain(s0, s3, View());
        ghost var s4 := View();
        primary := Publish(i);
        KeepsChain(s0, s4, View());
      }
    }

    /** The temporary is removed whatever happened; the first error is thrown first, a failed removal with it. */
    method CleanUp(i: nat, primary: Option<Failure>, ghost s0: State) returns (r: Outcome)
      requires Valid() && i < |writers| && writers[i].phase == Removing(primary) && Keeps(s0, View())
      modifies this
      ensures Valid() && |writers| == old(|writers|) && Keeps(s0, View())
      ensures writers[i] == old(writers[i]).(phase := if r.Wrote? then Returned else Threw(r.failures))
      ensures r.Wrote? ==> Found(View(), FinalName(hash, writers[i])) == Some(writers[i].contents)
      ensures r.Wrote? ==> primary.None? && TemporaryName(hash, writers[i]) !in names
      ensures r.Raised? ==>
        r.failures != [] && Mismatch !in r.failures && (primary.Some? ==> r.failures[0] == primary.value)
    {
      ghost var s1 := View();
      Others(i);
      KeepsChain(s0, s1, View());
      ghost var s2 := View();
      var cleanupError: Option<Failure> := None;
      if * {
        var code: nat := *;
        cleanupError := Some(Device(code));
        EffectFailed(i, code);
      } else {
        StepKeeps(hash, View(), Remove(i));
        RemoveTemporary(i);
      }
      KeepsChain(s0, s2, View());
      assert ValidWriter(hash, View(), writers[i]);
      if primary.Some? {
        if cleanupError.Some? {
          return Raised([primary.value, cleanupError.value]);
        }
        return Raised([primary.value]);
      }
      if cleanupError.Some? {
        return Raised([cleanupError.value]);
      }
      return Wrote;
    }
  }

  lemma WrittenAll(hash: Hash, s: State, i: nat)
    requires Inv(hash, s) && i < |s.writers| && s.writers[i].phase.Writing?
    requires s.writers[i].phase.written >= |s.writers[i].contents|
    ensures Enabled(s, Close(i))
  {
    assert ValidWriter(hash, s, s.writers[i]);
  }
}
