/**
 Which object graphs `canonicalJson` accepts, and what its text does and does not depend on.
 */
module ObjectGraph {
  import opened Wrappers
  import opened Utf16
  import opened Sorting
  import opened Decimal
  import opened JsonText
  import opened CanonicalJson

  ghost predicate Edge(heap: Heap, a: Ref, b: Ref) {
    a in heap && ShapeOf(heap[a]).Success? && Reference(b) in Children(ShapeOf(heap[a]).value)
  }

  ghost predicate Walk(heap: Heap, p: seq<Ref>) {
    && p != []
    && (forall r :: r in p ==> r in heap)
    && (forall i :: 0 <= i < |p| - 1 ==> Edge(heap, p[i], p[i + 1]))
  }

  ghost predicate Leads(heap: Heap, p: seq<Ref>, from: Ref, to: Ref) {
    Walk(heap, p) && p[0] == from && p[|p| - 1] == to
  }

  ghost predicate Reachable(heap: Heap, v: Value, r: Ref) {
    v.Reference? && exists p :: Leads(heap, p, v.ref, r)
  }

  ghost predicate OnCycle(heap: Heap, r: Ref) {
    exists p :: |p| > 1 && Leads(heap, p, r, r)
  }

  ghost predicate CycleBelow(heap: Heap, v: Value) {
    exists r :: Reachable(heap, v, r) && OnCycle(heap, r)
  }

  /** A scalar JSON has, or a plain array or object whose scalar children are all such. */
  predicate SupportedHere(heap: Heap, v: Value)
    requires ValidValue(heap, v)
  {
    if v.Reference? then
      ShapeOf(heap[v.ref]).Success?
      && forall c :: c in Children(ShapeOf(heap[v.ref]).value) && !c.Reference? ==> Scalar(c).Success?
    else Scalar(v).Success?
  }

  ghost predicate Supported(heap: Heap, v: Value)
    requires ValidValue(heap, v)
  {
    SupportedHere(heap, v)
    && forall r :: Reachable(heap, v, r) && r in heap ==> SupportedHere(heap, Reference(r))
  }

  // Walks

  lemma WalkPart(heap: Heap, p: seq<Ref>, i: nat, j: nat)
    requires Walk(heap, p) && i < j <= |p|
    ensures Walk(heap, p[i..j])
  {
    forall k | 0 <= k < |p[i..j]| - 1 ensures Edge(heap, p[i..j][k], p[i..j][k + 1]) {
      assert Edge(heap, p[i + k], p[i + k + 1]);
    }
  }

  lemma WalkOn(heap: Heap, p: seq<Ref>, r: Ref)
    requires Walk(heap, p) && r in heap && Edge(heap, p[|p| - 1], r)
    ensures Walk(heap, p + [r])
  {
    var q := p + [r];
    forall k | 0 <= k < |q| - 1 ensures Edge(heap, q[k], q[k + 1]) {
      if k < |p| - 1 { assert Edge(heap, p[k], p[k + 1]); }
    }
  }

  // Success leaves no cycle below

  lemma {:induction false} AllUnfold(heap: Heap, values: seq<Value>, ancestors: set<Ref>, v: Value)
    requires ValidHeap(heap) && (forall u :: u in values ==> ValidValue(heap, u))
    requires UnfoldAll(heap, values, ancestors).Success? && v in values
    ensures Unfold(heap, v, ancestors).Success?
  {
    if v != values[0] {
      AllUnfold(heap, values[1..], ancestors, v);
    }
  }

  lemma ChildUnfolds(heap: Heap, r: Ref, ancestors: set<Ref>, child: Value)
    requires ValidHeap(heap) && r in heap
    requires Unfold(heap, Reference(r), ancestors).Success?
    requires ShapeOf(heap[r]).Success? && child in Children(ShapeOf(heap[r]).value)
    ensures ValidValue(heap, child) && Unfold(heap, child, ancestors + {r}).Success?
  {
    ChildrenValid(heap, r);
    AllUnfold(heap, Children(ShapeOf(heap[r]).value), ancestors + {r}, child);
  }

  /** If `r` unfolds below `ancestors`, no walk from it meets one of them. */
  lemma {:induction false} UnfoldingAvoids(heap: Heap, p: seq<Ref>, ancestors: set<Ref>)
    requires ValidHeap(heap) && Walk(heap, p)
    requires Unfold(heap, Reference(p[0]), ancestors).Success?
    ensures forall r :: r in p ==> r !in ancestors
    decreases |p|
  {
    if |p| > 1 {
      assert Edge(heap, p[0], p[1]);
      ChildUnfolds(heap, p[0], ancestors, Reference(p[1]));
      WalkPart(heap, p, 1, |p|);
      assert p[1..|p|] == p[1..] && p == [p[0]] + p[1..];
      UnfoldingAvoids(heap, p[1..], ancestors + {p[0]});
    }
  }

  lemma FirstStep(heap: Heap, p: seq<Ref>, ancestors: set<Ref>)
    requires ValidHeap(heap) && Walk(heap, p) && |p| > 1
    requires Unfold(heap, Reference(p[0]), ancestors).Success?
    ensures Walk(heap, p[1..]) && Unfold(heap, Reference(p[1]), ancestors + {p[0]}).Success?
  {
    assert Edge(heap, p[0], p[1]);
    ChildUnfolds(heap, p[0], ancestors, Reference(p[1]));
    WalkPart(heap, p, 1, |p|);
    assert p[1..|p|] == p[1..];
  }

  /** Everything a walk reaches from an unfolding node unfolds too, below some ancestors. */
  lemma {:induction false} UnfoldingReaches(heap: Heap, p: seq<Ref>, ancestors: set<Ref>) returns (below: set<Ref>)
    requires ValidHeap(heap) && Walk(heap, p)
    requires Unfold(heap, Reference(p[0]), ancestors).Success?
    ensures Unfold(heap, Reference(p[|p| - 1]), below).Success?
    decreases |p|
  {
    if |p| == 1 {
      below := ancestors;
    } else {
      FirstStep(heap, p, ancestors);
      below := UnfoldingReaches(heap, p[1..], ancestors + {p[0]});
    }
  }

  lemma UnfoldingNotOnCycle(heap: Heap, r: Ref, below: set<Ref>)
    requires ValidHeap(heap) && r in heap
    requires Unfold(heap, Reference(r), below).Success?
    ensures !OnCycle(heap, r)
  {
    forall p | |p| > 1 && Leads(heap, p, r, r) ensures false {
      assert Edge(heap, p[0], p[1]);
      ChildUnfolds(heap, r, below, Reference(p[1]));
      WalkPart(heap, p, 1, |p|);
      var q := p[1..|p|];
      assert q[|q| - 1] == r;
      UnfoldingAvoids(heap, q, below + {r});
    }
  }

  lemma UnfoldingSupported(heap: Heap, v: Value, below: set<Ref>)
    requires ValidHeap(heap) && ValidValue(heap, v)
    requires Unfold(heap, v, below).Success?
    ensures SupportedHere(heap, v)
  {
    if v.Reference? {
      forall c | c in Children(ShapeOf(heap[v.ref]).value) && !c.Reference? ensures Scalar(c).Success? {
        ChildUnfolds(heap, v.ref, below, c);
      }
    }
  }

  lemma SuccessSound(heap: Heap, v: Value)
    requires ValidHeap(heap) && ValidValue(heap, v)
    requires Unfold(heap, v, {}).Success?
    ensures Supported(heap, v) && !CycleBelow(heap, v)
  {
    UnfoldingSupported(heap, v, {});
    forall r | Reachable(heap, v, r) && r in heap ensures SupportedHere(heap, Reference(r)) && !OnCycle(heap, r) {
      var p :| Leads(heap, p, v.ref, r);
      var below := UnfoldingReaches(heap, p, {});
      UnfoldingSupported(heap, Reference(r), below);
      UnfoldingNotOnCycle(heap, r, below);
    }
  }

  // A failure has a culprit

  /**
   The stack of objects being printed, `trail`, with `v` next: when `v` does not unfold,
   some walk goes on from the stack to the culprit.
   */
  ghost predicate Culprit(heap: Heap, p: seq<Ref>, e: Refusal)
    requires forall r :: r in p ==> r in heap
  {
    && Walk(heap, p)
    && (!SupportedHere(heap, Reference(p[|p| - 1]))
        || (e == RefusedCycle && exists i :: 0 <= i < |p| - 1 && p[i] == p[|p| - 1]))
  }

  lemma {:induction false} FirstFailure(heap: Heap, values: seq<Value>, ancestors: set<Ref>) returns (v: Value)
    requires ValidHeap(heap) && (forall u :: u in values ==> ValidValue(heap, u))
    requires UnfoldAll(heap, values, ancestors).Failure?
    ensures v in values && Unfold(heap, v, ancestors) == Failure(UnfoldAll(heap, values, ancestors).error)
  {
    if Unfold(heap, values[0], ancestors).Failure? {
      v := values[0];
    } else {
      v := FirstFailure(heap, values[1..], ancestors);
    }
  }

  ghost function Listed(trail: seq<Ref>): set<Ref> {
    set a | a in trail
  }

  lemma FailingChild(heap: Heap, r: Ref, ancestors: set<Ref>) returns (child: Value)
    requires ValidHeap(heap) && r in heap && r !in ancestors && ShapeOf(heap[r]).Success?
    requires Unfold(heap, Reference(r), ancestors).Failure?
    ensures child in Children(ShapeOf(heap[r]).value) && ValidValue(heap, child)
    ensures Unfold(heap, child, ancestors + {r}) == Unfold(heap, Reference(r), ancestors)
  {
    ChildrenValid(heap, r);
    child := FirstFailure(heap, Children(ShapeOf(heap[r]).value), ancestors + {r});
  }

  lemma {:induction false} FailureCulprit(heap: Heap, trail: seq<Ref>, r: Ref) returns (p: seq<Ref>)
    requires ValidHeap(heap) && r in heap && Walk(heap, trail + [r])
    requires Unfold(heap, Reference(r), Listed(trail)).Failure?
    ensures trail + [r] <= p && (forall a :: a in p ==> a in heap)
    ensures Culprit(heap, p, Unfold(heap, Reference(r), Listed(trail)).error)
    decreases heap.Keys - Listed(trail)
  {
    var stack := trail + [r];
    assert stack[|stack| - 1] == r;
    if r in trail {
      var i :| 0 <= i < |trail| && trail[i] == r;
      assert stack[i] == r;
      p := stack;
    } else if ShapeOf(heap[r]).Failure? {
      p := stack;
    } else {
      var child := FailingChild(heap, r, Listed(trail));
      if child.Reference? {
        assert Listed(stack) == Listed(trail) + {r};
        WalkOn(heap, stack, child.ref);
        assert r in heap.Keys - Listed(trail);
        p := FailureCulprit(heap, stack, child.ref);
        assert stack <= stack + [child.ref];
      } else {
        p := stack;
      }
    }
  }

  /** A walk that comes back to an earlier node closes a cycle there. */
  lemma RepeatCloses(heap: Heap, p: seq<Ref>, i: nat)
    requires Walk(heap, p) && i < |p| - 1 && p[i] == p[|p| - 1]
    ensures OnCycle(heap, p[i])
  {
    WalkPart(heap, p, i, |p|);
    assert Leads(heap, p[i..|p|], p[i], p[i]);
  }

  lemma CulpritReached(heap: Heap, r: Ref, p: seq<Ref>, e: Refusal)
    requires r in heap && (forall a :: a in p ==> a in heap)
    requires [r] <= p && Culprit(heap, p, e)
    ensures !Supported(heap, Reference(r)) || (e == RefusedCycle && CycleBelow(heap, Reference(r)))
  {
    var last := p[|p| - 1];
    assert Leads(heap, p, r, last);
    assert last in p;
    assert Reachable(heap, Reference(r), last);
    if SupportedHere(heap, Reference(last)) {
      var i :| 0 <= i < |p| - 1 && p[i] == last;
      RepeatCloses(heap, p, i);
    }
  }

  lemma FailureSound(heap: Heap, v: Value)
    requires ValidHeap(heap) && ValidValue(heap, v)
    requires Unfold(heap, v, {}).Failure?
    ensures !Supported(heap, v) || (Unfold(heap, v, {}).error == RefusedCycle && CycleBelow(heap, v))
  {
    if v.Reference? {
      var trail: seq<Ref> := [];
      assert Listed(trail) == {};
      assert trail + [v.ref] == [v.ref];
      var p := FailureCulprit(heap, trail, v.ref);
      CulpritReached(heap, v.ref, p, Unfold(heap, v, {}).error);
    }
  }

  /** A value is accepted exactly when everything it reaches is supported and nothing it reaches is on a cycle. */
  lemma AcceptedIff(heap: Heap, v: Value)
    requires ValidHeap(heap) && ValidValue(heap, v)
    ensures Unfold(heap, v, {}).Success? <==> Supported(heap, v) && !CycleBelow(heap, v)
  {
    if Unfold(heap, v, {}).Success? {
      SuccessSound(heap, v);
    } else {
      FailureSound(heap, v);
    }
  }

  /** On a graph of plain arrays, objects and JSON scalars, the cycle error means exactly a reachable cycle. */
  lemma CycleErrorIff(heap: Heap, v: Value)
    requires ValidHeap(heap) && ValidValue(heap, v) && Supported(heap, v)
    ensures Unfold(heap, v, {}) == Failure(RefusedCycle) <==> CycleBelow(heap, v)
    ensures Unfold(heap, v, {}).Failure? ==> Unfold(heap, v, {}).error == RefusedCycle
  {
    AcceptedIff(heap, v);
    if Unfold(heap, v, {}).Failure? {
      FailureSound(heap, v);
    }
  }

  // A refusal names its cause

  /** The object has this own property. */
  ghost predicate Owns(heap: Heap, v: Value, p: Property) {
    v.Reference? && v.ref in heap && !heap[v.ref].ExoticNode? && p in heap[v.ref].own
  }

  /** The array has no data property under one of its indices. */
  ghost predicate HasGap(heap: Heap, v: Value) {
    && v.Reference? && v.ref in heap && heap[v.ref].ArrayNode?
    && exists i: nat :: i < heap[v.ref].length && Gap(heap[v.ref].own, i)
  }

  ghost predicate Gap(own: seq<Property>, index: nat) {
    forall p :: p in own && p.key == StringKey(Digits(index)) ==>
      !p.descriptor.DataProperty? || p.descriptor.value == Hole
  }

  /** Going from value to value along own properties. */
  ghost predicate Chain(heap: Heap, vs: seq<Value>) {
    && vs != []
    && forall i :: 0 <= i < |vs| - 1 ==> Linked(heap, vs[i], vs[i + 1])
  }

  ghost predicate Linked(heap: Heap, v: Value, u: Value) {
    exists p :: Owns(heap, v, p) && p.descriptor.DataProperty? && p.descriptor.value == u
  }

  /** What the last of these values, or the way to it, has that JSON has not. */
  ghost predicate Fault(heap: Heap, vs: seq<Value>, e: Refusal)
    requires vs != []
  {
    var v := vs[|vs| - 1];
    match e
    case RefusedNonFinite => v == NonFiniteNumber
    case RefusedType(u) => v == u && (u.UndefinedValue? || u.FunctionValue? || u.SymbolValue? || u.BigIntValue?)
    case RefusedExoticObject => v.Reference? && v.ref in heap && heap[v.ref].ExoticNode?
    case RefusedSymbolKey => exists p :: Owns(heap, v, p) && p.key.SymbolKey?
    case RefusedAccessor => exists p :: Owns(heap, v, p) && p.descriptor.AccessorProperty?
    case RefusedHiddenProperty =>
      exists p :: Owns(heap, v, p) && p.descriptor.DataProperty? && !p.descriptor.enumerable
    case RefusedArrayProperty =>
      exists p :: Owns(heap, v, p) && heap[v.ref].ArrayNode? && p.key.StringKey? && !IndexName(p.key.text)
    case RefusedMissingProperty => v == Hole || HasGap(heap, v)
    case RefusedCycle => v.Reference? && exists i :: 0 <= i < |vs| - 1 && vs[i] == v
  }

  lemma {:induction false} NoItem(own: seq<Property>, index: nat)
    requires ItemAt(own, index) == Hole && forall i, j :: 0 <= i < j < |own| ==> own[i].key != own[j].key
    ensures Gap(own, index)
  {
    if own != [] {
      assert own == [own[0]] + own[1..];
      if own[0].key != StringKey(Digits(index)) {
        NoItem(own[1..], index);
      } else {
        assert forall p :: p in own[1..] ==> p.key != own[0].key;
        if own[0].descriptor.AccessorProperty? {
          NoItem(own[1..], index);
        }
      }
    }
  }

  lemma {:induction false} ItemOwned(own: seq<Property>, index: nat)
    requires ItemAt(own, index) != Hole
    ensures exists p :: p in own && p.descriptor.DataProperty? && p.descriptor.value == ItemAt(own, index)
  {
    if own[0].key == StringKey(Digits(index)) && own[0].descriptor.DataProperty? {
      assert own[0] in own;
    } else {
      ItemOwned(own[1..], index);
      var p :| p in own[1..] && p.descriptor.DataProperty? && p.descriptor.value == ItemAt(own, index);
      assert p in own;
    }
  }

  lemma {:induction false} ArrayAtFault(heap: Heap, vs: seq<Value>, r: Ref, own: seq<Property>)
    requires vs != [] && vs[|vs| - 1] == Reference(r) && r in heap && heap[r].ArrayNode?
    requires ArrayRefusal(own).Some? && forall p :: p in own ==> p in heap[r].own
    ensures Fault(heap, vs, ArrayRefusal(own).value)
  {
    assert own[0] in own;
    assert Owns(heap, vs[|vs| - 1], own[0]);
    if ArrayKeyRefusal(own[0]).None? {
      ArrayAtFault(heap, vs, r, own[1..]);
    } else if own[0].key.StringKey? && IndexName(own[0].key.text) {
      var i: nat :| i < ARRAY_INDEX_LIMIT && own[0].key.text == Digits(i);
      ArrayIndexOfDigits(i);
    }
  }

  lemma {:induction false} ObjectAtFault(heap: Heap, vs: seq<Value>, r: Ref, own: seq<Property>)
    requires vs != [] && vs[|vs| - 1] == Reference(r) && r in heap && heap[r].PlainNode?
    requires MembersOf(own).Failure? && forall p :: p in own ==> p in heap[r].own
    ensures Fault(heap, vs, MembersOf(own).error)
  {
    assert own[0] in own;
    assert Owns(heap, vs[|vs| - 1], own[0]);
    if MemberOf(own[0]).Success? {
      ObjectAtFault(heap, vs, r, own[1..]);
    }
  }

  lemma NodeAtFault(heap: Heap, vs: seq<Value>, r: Ref)
    requires vs != [] && vs[|vs| - 1] == Reference(r) && r in heap && ShapeOf(heap[r]).Failure?
    ensures Fault(heap, vs, ShapeOf(heap[r]).error)
  {
    match heap[r]
    case ExoticNode =>
    case ArrayNode(_, own) => ArrayAtFault(heap, vs, r, own);
    case PlainNode(own) => ObjectAtFault(heap, vs, r, own);
  }

  /** A child that fails is held by a property, or is a gap. */
  lemma ChildLinked(heap: Heap, r: Ref, child: Value)
    requires ValidHeap(heap) && r in heap && ShapeOf(heap[r]).Success? && child in Children(ShapeOf(heap[r]).value)
    ensures Linked(heap, Reference(r), child) || (child == Hole && HasGap(heap, Reference(r)))
  {
    var own := heap[r].own;
    var values := Children(ShapeOf(heap[r]).value);
    var i :| 0 <= i < |values| && values[i] == child;
    if heap[r].ArrayNode? {
      if child == Hole {
        NoItem(own, i);
      } else {
        ItemOwned(own, i);
        var p :| p in own && p.descriptor.DataProperty? && p.descriptor.value == child;
        assert Owns(heap, Reference(r), p);
      }
    } else {
      var members, found := ShapeOf(heap[r]).value.members, MembersOf(own).value;
      SameElements(members, found, members[i]);
      MembersKept(own, members[i]);
      assert Owns(heap, Reference(r), Property(StringKey(members[i].key), DataProperty(child, true)));
    }
  }

  lemma ChainOn(heap: Heap, vs: seq<Value>, u: Value)
    requires Chain(heap, vs) && Linked(heap, vs[|vs| - 1], u)
    ensures Chain(heap, vs + [u])
  {
  }

  lemma {:induction false} FaultBelow(heap: Heap, trail: seq<Value>, v: Value, ancestors: set<Ref>)
    returns (vs: seq<Value>)
    requires ValidHeap(heap) && ValidValue(heap, v) && Chain(heap, trail + [v])
    requires forall a :: a in ancestors ==> Reference(a) in trail
    requires Unfold(heap, v, ancestors).Failure?
    ensures trail + [v] <= vs && Chain(heap, vs) && Fault(heap, vs, Unfold(heap, v, ancestors).error)
    decreases heap.Keys - ancestors
  {
    vs := trail + [v];
    if !v.Reference? || v.ref in ancestors || ShapeOf(heap[v.ref]).Failure? {
      FaultHere(heap, trail, v, ancestors);
    } else {
      var child := FailingChild(heap, v.ref, ancestors);
      ChildLinked(heap, v.ref, child);
      if Linked(heap, v, child) {
        assert v.ref in heap.Keys - ancestors;
        ChainOn(heap, vs, child);
        vs := FaultBelow(heap, vs, child, ancestors + {v.ref});
        assert trail + [v] <= trail + [v] + [child];
      } else {
        GapHere(heap, trail, v, ancestors, child);
      }
    }
  }

  lemma FaultHere(heap: Heap, trail: seq<Value>, v: Value, ancestors: set<Ref>)
    requires ValidHeap(heap) && ValidValue(heap, v) && forall a :: a in ancestors ==> Reference(a) in trail
    requires Unfold(heap, v, ancestors).Failure?
    requires !v.Reference? || v.ref in ancestors || ShapeOf(heap[v.ref]).Failure?
    ensures Fault(heap, trail + [v], Unfold(heap, v, ancestors).error)
  {
    var vs := trail + [v];
    if v.Reference? && v.ref in ancestors {
      var i :| 0 <= i < |trail| && trail[i] == v;
      assert vs[i] == v;
    } else if v.Reference? {
      NodeAtFault(heap, vs, v.ref);
    }
  }

  lemma GapHere(heap: Heap, trail: seq<Value>, v: Value, ancestors: set<Ref>, child: Value)
    requires ValidHeap(heap) && ValidValue(heap, v) && v.Reference? && child == Hole && HasGap(heap, v)
    requires Unfold(heap, v, ancestors) == Unfold(heap, child, ancestors + {v.ref})
    ensures Unfold(heap, v, ancestors).Failure? && Fault(heap, trail + [v], Unfold(heap, v, ancestors).error)
  {
  }

  /**
   Every refusal names something that is there: along own properties one comes from the value to
   what is at fault, or back to where one was.
   */
  lemma RefusalHasCause(heap: Heap, v: Value) returns (vs: seq<Value>)
    requires ValidHeap(heap) && ValidValue(heap, v) && Printed(Unfold(heap, v, {})).Failure?
    ensures vs != [] && vs[0] == v && Chain(heap, vs)
    ensures Fault(heap, vs, Printed(Unfold(heap, v, {})).error)
  {
    assert [] + [v] == [v];
    vs := FaultBelow(heap, [], v, {});
  }

  // Key order and sharing leave no trace

  ghost predicate SameButForOrder(a: Node, b: Node) {
    match (a, b)
    case (PlainNode(x), PlainNode(y)) => multiset(x) == multiset(y)
    case (_, _) => a == b
  }

  /** Two graphs that differ only in the order in which objects list their properties. */
  ghost predicate Reordered(a: Heap, b: Heap) {
    a.Keys == b.Keys && forall r :: r in a ==> SameButForOrder(a[r], b[r])
  }

  lemma {:induction false} MembersOfContents(own: seq<Property>)
    requires MembersOf(own).Success?
    ensures forall m :: m in MembersOf(own).value <==> exists p :: p in own && MemberOf(p) == Success(m)
  {
    if own != [] {
      MembersOfContents(own[1..]);
      assert own == [own[0]] + own[1..];
      forall m ensures m in MembersOf(own).value <==> exists p :: p in own && MemberOf(p) == Success(m) {
        if m in MembersOf(own).value {
          if m == MemberOf(own[0]).value {
            assert own[0] in own;
          } else {
            assert m in MembersOf(own[1..]).value;
          }
        }
      }
    }
  }

  lemma {:induction false} MembersOfSucceeds(own: seq<Property>)
    ensures MembersOf(own).Success? <==> forall p :: p in own ==> MemberOf(p).Success?
  {
    if own != [] {
      MembersOfSucceeds(own[1..]);
      assert own == [own[0]] + own[1..];
      assert own[0] in own;
      forall p | p in own[1..] ensures p in own { }
    }
  }

  lemma ReorderedShape(x: seq<Property>, y: seq<Property>)
    requires multiset(x) == multiset(y)
    requires forall i, j :: 0 <= i < j < |x| ==> x[i].key != x[j].key
    requires forall i, j :: 0 <= i < j < |y| ==> y[i].key != y[j].key
    requires MembersOf(x).Success?
    ensures ShapeOf(PlainNode(x)) == ShapeOf(PlainNode(y))
  {
    forall p ensures p in x <==> p in y {
      SameElements(x, y, p);
    }
    MembersOfSucceeds(x);
    MembersOfSucceeds(y);
    var a, b := MembersOf(x).value, MembersOf(y).value;
    MembersOfContents(x);
    MembersOfContents(y);
    var sa, sb := Sort(MemberBefore, a), Sort(MemberBefore, b);
    forall m ensures m in sa <==> m in sb {
      SameElements(sa, a, m);
      SameElements(sb, b, m);
    }
    SortedMembersAscend(x);
    SortedMembersAscend(y);
    MemberBeforeIsStrict();
    AscendingUnique(MemberBefore, sa, sb);
  }

  lemma {:induction false} ReorderedUnfold(a: Heap, b: Heap, v: Value, ancestors: set<Ref>)
    requires ValidHeap(a) && ValidHeap(b) && Reordered(a, b) && ValidValue(a, v)
    requires Unfold(a, v, ancestors).Success?
    ensures Unfold(b, v, ancestors) == Unfold(a, v, ancestors)
    decreases a.Keys - ancestors, 0, 0
  {
    if v.Reference? {
      var r := v.ref;
      assert SameButForOrder(a[r], b[r]);
      if a[r].PlainNode? {
        ReorderedShape(a[r].own, b[r].own);
      }
      ChildrenValid(a, r);
      assert r in a.Keys - ancestors;
      ReorderedUnfoldAll(a, b, Children(ShapeOf(a[r]).value), ancestors + {r});
    }
  }

  lemma {:induction false} ReorderedUnfoldAll(a: Heap, b: Heap, values: seq<Value>, ancestors: set<Ref>)
    requires ValidHeap(a) && ValidHeap(b) && Reordered(a, b) && (forall v :: v in values ==> ValidValue(a, v))
    requires UnfoldAll(a, values, ancestors).Success?
    ensures (forall v :: v in values ==> ValidValue(b, v))
    ensures UnfoldAll(b, values, ancestors) == UnfoldAll(a, values, ancestors)
    decreases a.Keys - ancestors, 1, |values|
  {
    forall v | v in values ensures ValidValue(b, v) { assert ValidValue(a, v); }
    if values != [] {
      ReorderedUnfold(a, b, values[0], ancestors);
      ReorderedUnfoldAll(a, b, values[1..], ancestors);
    }
  }

  /** The order in which objects list their properties does not change an accepted value's text. */
  lemma OrderBlind(a: Heap, b: Heap, v: Value)
    requires ValidHeap(a) && ValidHeap(b) && Reordered(a, b) && ValidValue(a, v)
    ensures Printed(Unfold(a, v, {})).Success? ==> Printed(Unfold(b, v, {})) == Printed(Unfold(a, v, {}))
    ensures Printed(Unfold(a, v, {})).Success? <==> Printed(Unfold(b, v, {})).Success?
  {
    forall r | r in b ensures SameButForOrder(b[r], a[r]) {
      assert SameButForOrder(a[r], b[r]);
    }
    if Unfold(a, v, {}).Success? {
      ReorderedUnfold(a, b, v, {});
    } else if Unfold(b, v, {}).Success? {
      ReorderedUnfold(b, a, v, {});
    }
  }

  /** Two accepted values, in any two graphs, have the same text exactly when they unfold to the same tree. */
  lemma TextIdentifiesTree(a: Heap, v: Value, b: Heap, w: Value)
    requires ValidHeap(a) && ValidValue(a, v) && Unfold(a, v, {}).Success?
    requires ValidHeap(b) && ValidValue(b, w) && Unfold(b, w, {}).Success?
    ensures Printed(Unfold(a, v, {})) == Printed(Unfold(b, w, {})) <==> Unfold(a, v, {}) == Unfold(b, w, {})
  {
    PrintInjective(Unfold(a, v, {}).value, Unfold(b, w, {}).value);
  }
}
