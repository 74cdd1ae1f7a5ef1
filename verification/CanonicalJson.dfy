/**
 `canonicalJson` on an arbitrary finite graph of JavaScript objects: the set of ancestors
 that detects cycles, what is refused, and the tree the printed text stands for.
 */
module CanonicalJson {
  import opened Wrappers
  import opened Utf16
  import opened Sorting
  import opened Decimal
  import opened JsonText

  type Ref = nat

  /** A value as the serializer meets it.  `Hole` is what a missing array index reads as. */
  datatype Value =
    | NullValue
    | BooleanValue(truth: bool)
    | StringValue(text: Text)
    | NumberValue(token: NumberToken)
    | NonFiniteNumber
    | UndefinedValue
    | FunctionValue
    | SymbolValue
    | BigIntValue
    | Hole
    | Reference(ref: Ref)

  datatype PropertyKey = StringKey(text: Text) | SymbolKey(id: nat)

  datatype Descriptor = DataProperty(value: Value, enumerable: bool) | AccessorProperty

  datatype Property = Property(key: PropertyKey, descriptor: Descriptor)

  /**
   An object with its own properties in `Reflect.ownKeys` order.  The `length` of an array
   is kept apart: every array has it, as a data property holding a natural number.
   */
  datatype Node =
    | ArrayNode(length: nat, own: seq<Property>)
    | PlainNode(own: seq<Property>)
    | ExoticNode

  type Heap = map<Ref, Node>

  datatype Refusal =
    | RefusedSymbolKey
    | RefusedMissingProperty
    | RefusedAccessor
    | RefusedArrayProperty
    | RefusedHiddenProperty
    | RefusedExoticObject
    | RefusedNonFinite
    | RefusedType(value: Value)
    | RefusedCycle

  const ARRAY_INDEX_LIMIT: nat := 0xFFFF_FFFF

  predicate ValidValue(heap: Heap, v: Value) {
    v.Reference? ==> v.ref in heap
  }

  predicate ValidProperties(heap: Heap, own: seq<Property>) {
    && (forall i, j :: 0 <= i < j < |own| ==> own[i].key != own[j].key)
    && (forall i :: 0 <= i < |own| && own[i].descriptor.DataProperty? ==> ValidValue(heap, own[i].descriptor.value))
  }

  /** Object graphs have no dangling references and no repeated keys. */
  predicate ValidHeap(heap: Heap) {
    forall r :: r in heap ==>
      match heap[r]
      case ArrayNode(length, own) => ValidProperties(heap, own)
      case PlainNode(own) => ValidProperties(heap, own)
      case ExoticNode => true
  }

  // What one node contributes

  /** `arrayIndex`: the index that a property name spells canonically, if it does. */
  function ArrayIndex(key: Text): (r: Option<nat>)
    ensures r.Some? ==> r.value < ARRAY_INDEX_LIMIT && Digits(r.value) == key
  {
    if key == [] || (exists c :: c in key && !IsDigit(c)) || (|key| > 1 && key[0] == 0x30) then None
    else
      DigitsOfValue(key);
      if ValueOf(key) < ARRAY_INDEX_LIMIT then Some(ValueOf(key)) else None
  }

  /** Every canonical index is recognised. */
  lemma ArrayIndexOfDigits(i: nat)
    requires i < ARRAY_INDEX_LIMIT
    ensures ArrayIndex(Digits(i)) == Some(i)
  {
    ValueOfDigits(i);
    if |Digits(i)| > 1 && i == 0 {
      assert false;
    }
  }

  datatype Member = Member(key: Text, value: Value)

  function ArrayKeyRefusal(p: Property): Option<Refusal> {
    if p.key.SymbolKey? then Some(RefusedSymbolKey)
    else if p.descriptor.AccessorProperty? then Some(RefusedAccessor)
    else if ArrayIndex(p.key.text).None? then Some(RefusedArrayProperty)
    else if !p.descriptor.enumerable then Some(RefusedHiddenProperty)
    else None
  }

  /** The first refusal among an array's own keys. */
  function ArrayRefusal(own: seq<Property>): Option<Refusal> {
    if own == [] then None
    else if ArrayKeyRefusal(own[0]).Some? then ArrayKeyRefusal(own[0])
    else ArrayRefusal(own[1..])
  }

  function ItemAt(own: seq<Property>, index: nat): Value {
    if own == [] then Hole
    else if own[0].key == StringKey(Digits(index)) && own[0].descriptor.DataProperty? then own[0].descriptor.value
    else ItemAt(own[1..], index)
  }

  function MemberOf(p: Property): Result<Member, Refusal> {
    if p.key.SymbolKey? then Failure(RefusedSymbolKey)
    else if p.descriptor.AccessorProperty? then Failure(RefusedAccessor)
    else if !p.descriptor.enumerable then Failure(RefusedHiddenProperty)
    else Success(Member(p.key.text, p.descriptor.value))
  }

  function MembersOf(own: seq<Property>): Result<seq<Member>, Refusal> {
    if own == [] then Success([])
    else
      match MemberOf(own[0])
      case Failure(e) => Failure(e)
      case Success(member) =>
        match MembersOf(own[1..])
        case Failure(e) => Failure(e)
        case Success(rest) => Success([member] + rest)
  }

  predicate MemberBefore(a: Member, b: Member) {
    Before(a.key, b.key)
  }

  /** A node's children in the order they are printed. */
  datatype Shape = ArrayShape(values: seq<Value>) | ObjectShape(members: seq<Member>)

  function Values(members: seq<Member>): (r: seq<Value>)
    ensures |r| == |members|
  {
    seq(|members|, i requires 0 <= i < |members| => members[i].value)
  }

  function Children(shape: Shape): seq<Value> {
    match shape
    case ArrayShape(values) => values
    case ObjectShape(members) => Values(members)
  }

  function ShapeOf(node: Node): Result<Shape, Refusal> {
    match node
    case ExoticNode => Failure(RefusedExoticObject)
    case ArrayNode(length, own) =>
      (match ArrayRefusal(own)
       case Some(e) => Failure(e)
       case None => Success(ArrayShape(seq(length, i requires 0 <= i < length => ItemAt(own, i)))))
    case PlainNode(own) =>
      match MembersOf(own)
      case Failure(e) => Failure(e)
      case Success(members) => Success(ObjectShape(Sort(MemberBefore, members)))
  }

  // The tree a value unfolds to

  function Scalar(v: Value): Result<Json, Refusal>
    requires !v.Reference?
  {
    match v
    case NullValue => Success(JsonNull)
    case BooleanValue(b) => Success(JsonBool(b))
    case StringValue(t) => Success(JsonString(t))
    case NumberValue(t) => Success(JsonNumber(t))
    case NonFiniteNumber => Failure(RefusedNonFinite)
    case Hole => Failure(RefusedMissingProperty)
    case _ => Failure(RefusedType(v))
  }

  function Zip(members: seq<Member>, items: seq<Json>): map<Text, Json>
    requires |members| == |items|
  {
    if members == [] then map[]
    else Zip(members[1..], items[1..])[members[0].key := items[0]]
  }

  function Assemble(shape: Shape, items: seq<Json>): Json
    requires |items| == |Children(shape)|
  {
    match shape
    case ArrayShape(_) => JsonArray(items)
    case ObjectShape(members) => JsonObject(Zip(members, items))
  }

  /** The tree that `v` stands for below `ancestors`, or why it stands for none. */
  function Unfold(heap: Heap, v: Value, ancestors: set<Ref>): Result<Json, Refusal>
    requires ValidHeap(heap) && ValidValue(heap, v)
    decreases heap.Keys - ancestors, 0, 0
  {
    if !v.Reference? then Scalar(v)
    else if v.ref in ancestors then Failure(RefusedCycle)
    else
      assert v.ref in heap.Keys - ancestors;
      UnfoldNode(heap, v.ref, ancestors + {v.ref})
  }

  /** The tree of a node whose own reference is already among `ancestors`. */
  function UnfoldNode(heap: Heap, r: Ref, ancestors: set<Ref>): Result<Json, Refusal>
    requires ValidHeap(heap) && r in heap
    decreases heap.Keys - ancestors, 2, 0
  {
    match ShapeOf(heap[r])
    case Failure(e) => Failure(e)
    case Success(shape) =>
      ChildrenValid(heap, r);
      match UnfoldAll(heap, Children(shape), ancestors)
      case Failure(e) => Failure(e)
      case Success(items) => Success(Assemble(shape, items))
  }

  function UnfoldAll(heap: Heap, values: seq<Value>, ancestors: set<Ref>): (r: Result<seq<Json>, Refusal>)
    requires ValidHeap(heap) && forall v :: v in values ==> ValidValue(heap, v)
    ensures r.Success? ==> |r.value| == |values|
    decreases heap.Keys - ancestors, 1, |values|
  {
    if values == [] then Success([])
    else
      match Unfold(heap, values[0], ancestors)
      case Failure(e) => Failure(e)
      case Success(first) =>
        match UnfoldAll(heap, values[1..], ancestors)
        case Failure(e) => Failure(e)
        case Success(rest) => Success([first] + rest)
  }

  lemma ItemAtValid(heap: Heap, own: seq<Property>, index: nat)
    requires forall p :: p in own && p.descriptor.DataProperty? ==> ValidValue(heap, p.descriptor.value)
    ensures ValidValue(heap, ItemAt(own, index))
  {
    if own != [] {
      ItemAtValid(heap, own[1..], index);
    }
  }

  lemma MembersValid(heap: Heap, own: seq<Property>)
    requires MembersOf(own).Success?
    requires forall p :: p in own && p.descriptor.DataProperty? ==> ValidValue(heap, p.descriptor.value)
    ensures forall m :: m in MembersOf(own).value ==> ValidValue(heap, m.value)
  {
    if own != [] {
      MembersValid(heap, own[1..]);
    }
  }

  lemma ChildrenValid(heap: Heap, r: Ref)
    requires ValidHeap(heap) && r in heap && ShapeOf(heap[r]).Success?
    ensures forall v :: v in Children(ShapeOf(heap[r]).value) ==> ValidValue(heap, v)
  {
    match heap[r]
    case ArrayNode(length, own) =>
      forall i: nat ensures ValidValue(heap, ItemAt(own, i)) {
        ItemAtValid(heap, own, i);
      }
    case PlainNode(own) =>
      MembersValid(heap, own);
      var members := MembersOf(own).value;
      forall v | v in Values(Sort(MemberBefore, members)) ensures ValidValue(heap, v) {
        var i :| 0 <= i < |members| && Values(Sort(MemberBefore, members))[i] == v;
        SameElements(Sort(MemberBefore, members), members, Sort(MemberBefore, members)[i]);
      }
  }

  // The serializer

  /** What printing a tree, or refusing to, gives the caller. */
  ghost function Printed(r: Result<Json, Refusal>): Result<Text, Refusal> {
    match r
    case Success(j) => Success(Print(j))
    case Failure(e) => Failure(e)
  }

  ghost predicate PrintsAll(texts: seq<Text>, items: seq<Json>) {
    |texts| == |items| && forall i :: 0 <= i < |items| ==> texts[i] == Print(items[i])
  }

  lemma {:induction false} PrintItemsAt(items: seq<Json>, texts: seq<Text>)
    requires PrintsAll(texts, items)
    ensures PrintItems(items) == texts
  {
    if items != [] {
      PrintItemsAt(items[1..], texts[1..]);
      assert texts == [texts[0]] + texts[1..];
    }
  }

  ghost function Continued(done: seq<Json>, rest: Result<seq<Json>, Refusal>): Result<seq<Json>, Refusal> {
    if rest.Failure? then rest else Success(done + rest.value)
  }

  lemma ContinuedNothing(r: Result<seq<Json>, Refusal>)
    ensures Continued([], r) == r
  {
    if r.Success? { assert [] + r.value == r.value; }
  }

  /** Unfolding a list after its first `i` values have unfolded to `done`. */
  lemma UnfoldStep(heap: Heap, values: seq<Value>, i: nat, done: seq<Json>, ancestors: set<Ref>)
    requires ValidHeap(heap) && forall v :: v in values ==> ValidValue(heap, v)
    requires i < |values|
    requires UnfoldAll(heap, values, ancestors) == Continued(done, UnfoldAll(heap, values[i..], ancestors))
    ensures
      match Unfold(heap, values[i], ancestors)
      case Failure(e) => UnfoldAll(heap, values, ancestors) == Failure(e)
      case Success(j) =>
        UnfoldAll(heap, values, ancestors) == Continued(done + [j], UnfoldAll(heap, values[i + 1..], ancestors))
  {
    assert values[i..][0] == values[i] && values[i..][1..] == values[i + 1..];
    var rest := UnfoldAll(heap, values[i + 1..], ancestors);
    if Unfold(heap, values[i], ancestors).Success? && rest.Success? {
      var j := Unfold(heap, values[i], ancestors).value;
      assert done + ([j] + rest.value) == done + [j] + rest.value;
    }
  }

  lemma {:induction false} MembersOfStep(own: seq<Property>, i: nat, done: seq<Member>)
    requires i < |own|
    requires MembersOf(own) == MembersContinued(done, MembersOf(own[i..]))
    ensures
      match MemberOf(own[i])
      case Failure(e) => MembersOf(own) == Failure(e)
      case Success(m) => MembersOf(own) == MembersContinued(done + [m], MembersOf(own[i + 1..]))
  {
    assert own[i..][0] == own[i] && own[i..][1..] == own[i + 1..];
    var rest := MembersOf(own[i + 1..]);
    if MemberOf(own[i]).Success? && rest.Success? {
      assert done + ([MemberOf(own[i]).value] + rest.value) == done + [MemberOf(own[i]).value] + rest.value;
    }
  }

  function MembersContinued(done: seq<Member>, rest: Result<seq<Member>, Refusal>): Result<seq<Member>, Refusal> {
    if rest.Failure? then rest else Success(done + rest.value)
  }

  lemma MembersContinuedNothing(r: Result<seq<Member>, Refusal>)
    ensures MembersContinued([], r) == r
  {
    if r.Success? { assert [] + r.value == r.value; }
  }

  lemma {:induction false} MembersOfKeys(own: seq<Property>)
    requires MembersOf(own).Success?
    ensures |MembersOf(own).value| == |own|
    ensures forall i :: 0 <= i < |own| ==> own[i].key == StringKey(MembersOf(own).value[i].key)
  {
    if own != [] {
      MembersOfKeys(own[1..]);
      forall i | 1 <= i < |own| ensures own[i].key == StringKey(MembersOf(own).value[i].key) {
        assert own[i] == own[1..][i - 1];
      }
    }
  }

  lemma MemberBeforeIsStrict()
    ensures StrictOrder(MemberBefore)
  {
    BeforeIsStrict();
  }

  /** The properties of an object, sorted, have strictly ascending keys. */
  lemma {:induction false} SortedMembersAscend(own: seq<Property>)
    requires forall i, j :: 0 <= i < j < |own| ==> own[i].key != own[j].key
    requires MembersOf(own).Success?
    ensures Ascending(MemberBefore, Sort(MemberBefore, MembersOf(own).value))
  {
    var members := MembersOf(own).value;
    MembersOfKeys(own);
    MemberBeforeIsStrict();
    forall i, j | 0 <= i < j < |members|
      ensures MemberBefore(members[i], members[j]) || MemberBefore(members[j], members[i])
    {
      assert own[i].key != own[j].key;
      BeforeTotal(members[i].key, members[j].key);
    }
    SortAscending(MemberBefore, members);
  }

  function Keys(members: seq<Member>): (r: seq<Text>)
    ensures |r| == |members|
  {
    seq(|members|, i requires 0 <= i < |members| => members[i].key)
  }

  lemma {:induction false} ZipFacts(members: seq<Member>, items: seq<Json>)
    requires |members| == |items| && Ascending(MemberBefore, members)
    ensures Zip(members, items).Keys == set k | k in Keys(members)
    ensures forall i :: 0 <= i < |members| ==>
      members[i].key in Zip(members, items) && Zip(members, items)[members[i].key] == items[i]
  {
    if members != [] {
      ZipFacts(members[1..], items[1..]);
      assert Keys(members) == [members[0].key] + Keys(members[1..]);
      forall i | 1 <= i < |members| ensures members[i].key != members[0].key
        && members[i].key in Zip(members[1..], items[1..])
        && Zip(members[1..], items[1..])[members[i].key] == items[i] {
        assert members[i] == members[1..][i - 1] && items[i] == items[1..][i - 1];
        assert MemberBefore(members[0], members[i]);
        BeforeAsymmetric(members[0].key, members[i].key);
      }
    }
  }

  /** Each text is its member, printed. */
  ghost predicate MemberTexts(j: Json, keys: seq<Text>, texts: seq<Text>)
    requires j.JsonObject?
  {
    |texts| == |keys| &&
    forall i :: 0 <= i < |keys| ==>
      keys[i] in j.members && texts[i] == Quoted(keys[i]) + [COLON] + Print(j.members[keys[i]])
  }

  lemma {:induction false} MemberTextsTail(j: Json, keys: seq<Text>, texts: seq<Text>)
    requires j.JsonObject? && keys != [] && MemberTexts(j, keys, texts)
    ensures MemberTexts(j, keys[1..], texts[1..])
  {
  }

  lemma {:induction false} PrintMembersAt(j: Json, keys: seq<Text>, texts: seq<Text>)
    requires j.JsonObject? && MemberTexts(j, keys, texts)
    ensures (forall k :: k in keys ==> k in j.members) && PrintMembers(j, keys) == texts
  {
    if keys != [] {
      MemberTextsTail(j, keys, texts);
      PrintMembersAt(j, keys[1..], texts[1..]);
      assert texts == [texts[0]] + texts[1..];
    }
  }

  lemma KeysAscend(members: seq<Member>)
    requires Ascending(MemberBefore, members)
    ensures Ascending(Before, Keys(members))
  {
    forall a, b | 0 <= a < b < |members| ensures Before(Keys(members)[a], Keys(members)[b]) {
      assert MemberBefore(members[a], members[b]);
    }
  }

  /** The first members with their values, printed. */
  ghost predicate MembersPrinted(members: seq<Member>, items: seq<Json>, texts: seq<Text>) {
    |texts| == |items| <= |members| &&
    forall i :: 0 <= i < |items| ==> texts[i] == Quoted(members[i].key) + [COLON] + Print(items[i])
  }

  lemma MemberPrinted(members: seq<Member>, items: seq<Json>, texts: seq<Text>, item: Json)
    requires MembersPrinted(members, items, texts) && |items| < |members|
    ensures MembersPrinted(members, items + [item], texts + [Quoted(members[|items|].key) + [COLON] + Print(item)])
  {
  }

  /** Printing the sorted members one after another prints the object they make. */
  lemma PrintAssembledObject(members: seq<Member>, items: seq<Json>, texts: seq<Text>)
    requires |members| == |items| && MembersPrinted(members, items, texts) && Ascending(MemberBefore, members)
    ensures Print(Assemble(ObjectShape(members), items)) == Braced(texts)
  {
    var j := JsonObject(Zip(members, items));
    ZipFacts(members, items);
    PrintMembersAt(j, Keys(members), texts);
    KeysAscend(members);
    SortedTextsUnique(Keys(members));
  }

  lemma PlainNodeRefused(heap: Heap, node: Ref, own: seq<Property>, ancestors: set<Ref>)
    requires ValidHeap(heap) && node in heap && heap[node] == PlainNode(own) && MembersOf(own).Failure?
    ensures UnfoldNode(heap, node, ancestors) == Failure(MembersOf(own).error)
  {
  }

  lemma PlainNodeUnfolds(heap: Heap, node: Ref, own: seq<Property>, members: seq<Member>, ancestors: set<Ref>)
    requires ValidHeap(heap) && node in heap && heap[node] == PlainNode(own)
    requires MembersOf(own).Success? && members == Sort(MemberBefore, MembersOf(own).value)
    ensures forall v :: v in Values(members) ==> ValidValue(heap, v)
    ensures UnfoldNode(heap, node, ancestors) ==
      match UnfoldAll(heap, Values(members), ancestors)
      case Failure(e) => Failure(e)
      case Success(items) => Success(Assemble(ObjectShape(members), items))
  {
    ChildrenValid(heap, node);
    assert ShapeOf(heap[node]) == Success(ObjectShape(members));
  }

  // What plain data a value holds

  /** Under this name the object has a visible data property with this value. */
  ghost predicate Keeps(own: seq<Property>, name: Text, v: Value) {
    Property(StringKey(name), DataProperty(v, true)) in own
  }

  /** Every own property is a visible data property with a string for its name. */
  ghost predicate AllPlain(own: seq<Property>) {
    forall p :: p in own ==> p.key.StringKey? && p.descriptor.DataProperty? && p.descriptor.enumerable
  }

  ghost predicate IndexName(name: Text) {
    exists i: nat :: i < 4_294_967_295 && name == Digits(i)
  }

  /**
   The value is this JSON value held as plain data: a scalar is itself; an array has the items
   under the numerals of their indices and no property that is not an index; an object has
   exactly the members as its properties.
   */
  ghost predicate Stands(heap: Heap, v: Value, j: Json)
    decreases j, 0
  {
    match j
    case JsonNull => v == NullValue
    case JsonBool(b) => v == BooleanValue(b)
    case JsonNumber(token) => v == NumberValue(token)
    case JsonString(s) => v == StringValue(s)
    case JsonArray(items) =>
      && v.Reference? && v.ref in heap && heap[v.ref].ArrayNode? && heap[v.ref].length == |items|
      && AllPlain(heap[v.ref].own)
      && (forall p :: p in heap[v.ref].own ==> IndexName(p.key.text))
      && (forall i :: 0 <= i < |items| ==>
            StandsUnder(heap, heap[v.ref].own, Digits(i), items[i]))
    case JsonObject(members) =>
      && v.Reference? && v.ref in heap && heap[v.ref].PlainNode?
      && AllPlain(heap[v.ref].own)
      && (forall p :: p in heap[v.ref].own ==> p.key.text in members)
      && (forall k :: k in members ==> StandsUnder(heap, heap[v.ref].own, k, members[k]))
  }

  /** The property of this name holds this JSON value. */
  ghost predicate StandsUnder(heap: Heap, own: seq<Property>, name: Text, j: Json)
    decreases j, 1
  {
    exists u :: Keeps(own, name, u) && Stands(heap, u, j)
  }

  lemma KeepsOne(heap: Heap, own: seq<Property>, name: Text, u: Value, w: Value)
    requires ValidProperties(heap, own) && Keeps(own, name, u) && Keeps(own, name, w)
    ensures u == w
  {
    var i :| 0 <= i < |own| && own[i] == Property(StringKey(name), DataProperty(u, true));
    var k :| 0 <= k < |own| && own[k] == Property(StringKey(name), DataProperty(w, true));
    assert i == k;
  }

  /** A value stands for one JSON value at most. */
  lemma {:induction false} StandsOnce(heap: Heap, v: Value, j: Json, k: Json)
    requires ValidHeap(heap) && Stands(heap, v, j) && Stands(heap, v, k)
    ensures j == k
    decreases j
  {
    match (j, k)
    case (JsonArray(items), JsonArray(others)) =>
      var own := heap[v.ref].own;
      forall i | 0 <= i < |items| ensures items[i] == others[i] {
        assert StandsUnder(heap, own, Digits(i), items[i]) && StandsUnder(heap, own, Digits(i), others[i]);
        var u :| Keeps(own, Digits(i), u) && Stands(heap, u, items[i]);
        var w :| Keeps(own, Digits(i), w) && Stands(heap, w, others[i]);
        KeepsOne(heap, own, Digits(i), u, w);
        StandsOnce(heap, u, items[i], others[i]);
      }
    case (JsonObject(members), JsonObject(others)) =>
      var own := heap[v.ref].own;
      forall name | name in members ensures name in others {
        var u :| Keeps(own, name, u) && Stands(heap, u, members[name]);
        assert Property(StringKey(name), DataProperty(u, true)).key.text in others;
      }
      forall name | name in others ensures name in members && members[name] == others[name] {
        var w :| Keeps(own, name, w) && Stands(heap, w, others[name]);
        assert Property(StringKey(name), DataProperty(w, true)).key.text in members;
        var u :| Keeps(own, name, u) && Stands(heap, u, members[name]);
        KeepsOne(heap, own, name, u, w);
        StandsOnce(heap, u, members[name], others[name]);
      }
    case _ =>
  }

  // An accepted value holds the tree it unfolds to

  lemma {:induction false} ArrayAccepted(own: seq<Property>)
    requires ArrayRefusal(own).None?
    ensures AllPlain(own) && forall p :: p in own ==> IndexName(p.key.text)
  {
    if own != [] {
      ArrayAccepted(own[1..]);
      var name := own[0].key.text;
      assert ArrayIndex(name).Some?;
      assert own == [own[0]] + own[1..];
    }
  }

  lemma {:induction false} ItemKept(own: seq<Property>, index: nat)
    requires AllPlain(own) && ItemAt(own, index) != Hole
    ensures Keeps(own, Digits(index), ItemAt(own, index))
  {
    if own[0].key != StringKey(Digits(index)) {
      ItemKept(own[1..], index);
    } else {
      assert own[0] == Property(StringKey(Digits(index)), DataProperty(ItemAt(own, index), true));
    }
  }

  lemma {:induction false} MembersKept(own: seq<Property>, m: Member)
    requires MembersOf(own).Success?
    ensures AllPlain(own)
    ensures m in MembersOf(own).value <==> Keeps(own, m.key, m.value)
  {
    if own != [] {
      MembersKept(own[1..], m);
      assert own == [own[0]] + own[1..];
      var first := MemberOf(own[0]).value;
      assert own[0] == Property(StringKey(first.key), DataProperty(first.value, true));
      var rest := MembersOf(own[1..]).value;
      assert MembersOf(own).value == [first] + rest;
    }
  }

  lemma {:induction false} UnfoldAllAt(heap: Heap, values: seq<Value>, ancestors: set<Ref>, i: nat)
    requires ValidHeap(heap) && (forall v :: v in values ==> ValidValue(heap, v))
    requires UnfoldAll(heap, values, ancestors).Success? && i < |values|
    ensures Unfold(heap, values[i], ancestors) == Success(UnfoldAll(heap, values, ancestors).value[i])
  {
    if i > 0 {
      UnfoldAllAt(heap, values[1..], ancestors, i - 1);
    }
  }

  lemma {:induction false} UnfoldStands(heap: Heap, v: Value, ancestors: set<Ref>)
    requires ValidHeap(heap) && ValidValue(heap, v) && Unfold(heap, v, ancestors).Success?
    ensures Stands(heap, v, Unfold(heap, v, ancestors).value)
    decreases heap.Keys - ancestors
  {
    if v.Reference? {
      assert v.ref in heap.Keys - ancestors;
      ChildrenValid(heap, v.ref);
      var values := Children(ShapeOf(heap[v.ref]).value);
      var items := UnfoldAll(heap, values, ancestors + {v.ref}).value;
      forall i | 0 <= i < |values| ensures Stands(heap, values[i], items[i]) {
        UnfoldAllAt(heap, values, ancestors + {v.ref}, i);
        UnfoldStands(heap, values[i], ancestors + {v.ref});
      }
      match heap[v.ref] {
        case ArrayNode(length, own) => ArrayStands(heap, v.ref, items);
        case PlainNode(own) => ObjectStands(heap, v.ref, items);
      }
    }
  }

  lemma ArrayStands(heap: Heap, r: Ref, items: seq<Json>)
    requires ValidHeap(heap) && r in heap && heap[r].ArrayNode? && ShapeOf(heap[r]).Success?
    requires |items| == heap[r].length
    requires forall i :: 0 <= i < |items| ==> Stands(heap, Children(ShapeOf(heap[r]).value)[i], items[i])
    ensures Stands(heap, Reference(r), JsonArray(items))
  {
    var own := heap[r].own;
    ArrayAccepted(own);
    forall i | 0 <= i < |items| ensures StandsUnder(heap, own, Digits(i), items[i]) {
      var u := ItemAt(own, i);
      assert Children(ShapeOf(heap[r]).value)[i] == u && Stands(heap, u, items[i]);
      ItemKept(own, i);
      assert Keeps(own, Digits(i), u);
    }
  }

  lemma ObjectStands(heap: Heap, r: Ref, items: seq<Json>)
    requires ValidHeap(heap) && r in heap && heap[r].PlainNode? && ShapeOf(heap[r]).Success?
    requires |items| == |ShapeOf(heap[r]).value.members|
    requires forall i :: 0 <= i < |items| ==> Stands(heap, Children(ShapeOf(heap[r]).value)[i], items[i])
    ensures Stands(heap, Reference(r), Assemble(ShapeOf(heap[r]).value, items))
  {
    var own, members := heap[r].own, ShapeOf(heap[r]).value.members;
    var found := MembersOf(own).value;
    SortedMembersAscend(own);
    ZipFacts(members, items);
    MembersKept(own, Member([], NullValue));
    var j := JsonObject(Zip(members, items));
    forall p | p in own ensures p.key.text in j.members {
      var m := Member(p.key.text, p.descriptor.value);
      MembersKept(own, m);
      SameElements(members, found, m);
      var i :| 0 <= i < |members| && members[i] == m;
    }
    forall k | k in j.members ensures StandsUnder(heap, own, k, j.members[k]) {
      var i :| 0 <= i < |members| && Keys(members)[i] == k;
      SameElements(members, found, members[i]);
      MembersKept(own, members[i]);
      assert Children(ShapeOf(heap[r]).value)[i] == members[i].value;
      assert Keeps(own, k, members[i].value) && Stands(heap, members[i].value, j.members[k]);
    }
  }

  // A value that holds plain data is accepted

  /** Every object being printed stands for a tree that this one is a proper part of. */
  ghost predicate Inside(heap: Heap, j: Json, ancestors: set<Ref>) {
    forall a :: a in ancestors ==> exists k :: Stands(heap, Reference(a), k) && (k decreases to j)
  }

  lemma {:induction false} ArrayNotRefused(own: seq<Property>)
    requires AllPlain(own) && forall p :: p in own ==> IndexName(p.key.text)
    ensures ArrayRefusal(own).None?
  {
    if own != [] {
      assert own[0] in own;
      var i: nat :| i < ARRAY_INDEX_LIMIT && own[0].key.text == Digits(i);
      ArrayIndexOfDigits(i);
      ArrayNotRefused(own[1..]);
    }
  }

  lemma {:induction false} KeptItem(heap: Heap, own: seq<Property>, index: nat, u: Value)
    requires Keeps(own, Digits(index), u) && ValidProperties(heap, own)
    ensures ItemAt(own, index) == u
  {
    var k :| 0 <= k < |own| && own[k] == Property(StringKey(Digits(index)), DataProperty(u, true));
    if k > 0 {
      assert own[0].key != own[k].key;
      assert own[1..][k - 1] == own[k];
      KeptItem(heap, own[1..], index, u);
    }
  }

  lemma {:induction false} PlainMembers(own: seq<Property>)
    requires AllPlain(own)
    ensures MembersOf(own).Success?
  {
    if own != [] {
      assert own[0] in own;
      PlainMembers(own[1..]);
    }
  }

  lemma {:induction false} AllSucceed(heap: Heap, values: seq<Value>, ancestors: set<Ref>)
    requires ValidHeap(heap) && forall v :: v in values ==> ValidValue(heap, v)
    requires forall i :: 0 <= i < |values| ==> Unfold(heap, values[i], ancestors).Success?
    ensures UnfoldAll(heap, values, ancestors).Success?
  {
    if values != [] {
      AllSucceed(heap, values[1..], ancestors);
    }
  }

  lemma InsideStep(heap: Heap, r: Ref, j: Json, ancestors: set<Ref>, part: Json)
    requires Stands(heap, Reference(r), j) && Inside(heap, j, ancestors) && (j decreases to part)
    ensures Inside(heap, part, ancestors + {r})
  {
    forall a | a in ancestors + {r} ensures exists k :: Stands(heap, Reference(a), k) && (k decreases to part) {
      if a in ancestors {
        var k :| Stands(heap, Reference(a), k) && (k decreases to j);
        assert Stands(heap, Reference(a), k) && (k decreases to part);
      }
    }
  }

  lemma {:induction false} StandsUnfolds(heap: Heap, v: Value, j: Json, ancestors: set<Ref>)
    requires ValidHeap(heap) && ValidValue(heap, v) && Stands(heap, v, j) && Inside(heap, j, ancestors)
    ensures Unfold(heap, v, ancestors).Success?
    decreases j
  {
    if v.Reference? {
      if v.ref in ancestors {
        var k :| Stands(heap, Reference(v.ref), k) && (k decreases to j);
        StandsOnce(heap, v, j, k);
        assert false;
      }
      StandsShape(heap, v.ref, j);
      ChildrenValid(heap, v.ref);
      var values := Children(ShapeOf(heap[v.ref]).value);
      forall i | 0 <= i < |values| ensures Unfold(heap, values[i], ancestors + {v.ref}).Success? {
        var part := StandsChild(heap, v.ref, j, i);
        InsideStep(heap, v.ref, j, ancestors, part);
        StandsUnfolds(heap, values[i], part, ancestors + {v.ref});
      }
      AllSucceed(heap, values, ancestors + {v.ref});
    }
  }

  lemma StandsShape(heap: Heap, r: Ref, j: Json)
    requires ValidHeap(heap) && Stands(heap, Reference(r), j)
    ensures r in heap && ShapeOf(heap[r]).Success?
  {
    match heap[r] {
      case ArrayNode(_, own) => ArrayNotRefused(own);
      case PlainNode(own) => PlainMembers(own);
    }
  }

  lemma StandsChild(heap: Heap, r: Ref, j: Json, i: nat) returns (part: Json)
    requires ValidHeap(heap) && Stands(heap, Reference(r), j)
    requires r in heap && ShapeOf(heap[r]).Success? && i < |Children(ShapeOf(heap[r]).value)|
    ensures Stands(heap, Children(ShapeOf(heap[r]).value)[i], part)
    ensures j decreases to part
  {
    var own := heap[r].own;
    match j {
      case JsonArray(items) =>
        var u :| Keeps(own, Digits(i), u) && Stands(heap, u, items[i]);
        KeptItem(heap, own, i, u);
        part := items[i];
      case JsonObject(members) =>
        var sorted, found := ShapeOf(heap[r]).value.members, MembersOf(own).value;
        SameElements(sorted, found, sorted[i]);
        MembersKept(own, sorted[i]);
        var k := sorted[i].key;
        assert Property(StringKey(k), DataProperty(sorted[i].value, true)).key.text in members;
        var u :| Keeps(own, k, u) && Stands(heap, u, members[k]);
        KeepsOne(heap, own, k, u, sorted[i].value);
        part := members[k];
    }
  }

  /** An object with the properties `b` and `a`, in this order, stands for the one with these members. */
  lemma ExampleStands()
    ensures var own := [Property(StringKey(Chars("b")), DataProperty(NullValue, true)),
                        Property(StringKey(Chars("a")), DataProperty(BooleanValue(true), true))];
      && ValidHeap(map[0 := PlainNode(own)])
      && Stands(map[0 := PlainNode(own)], Reference(0),
           JsonObject(map[Chars("a") := JsonBool(true), Chars("b") := JsonNull]))
  {
    var own := [Property(StringKey(Chars("b")), DataProperty(NullValue, true)),
                Property(StringKey(Chars("a")), DataProperty(BooleanValue(true), true))];
    var heap := map[0 := PlainNode(own)];
    assert Chars("a")[0] != Chars("b")[0];
    assert Keeps(own, Chars("b"), NullValue) by { assert own[0] in own; }
    assert Keeps(own, Chars("a"), BooleanValue(true)) by { assert own[1] in own; }
    assert Stands(heap, NullValue, JsonNull) && Stands(heap, BooleanValue(true), JsonBool(true));
  }

  /** A value unfolds to exactly the JSON value it stands for. */
  lemma UnfoldsIff(heap: Heap, v: Value, j: Json)
    requires ValidHeap(heap) && ValidValue(heap, v)
    ensures Unfold(heap, v, {}) == Success(j) <==> Stands(heap, v, j)
  {
    if Stands(heap, v, j) {
      StandsUnfolds(heap, v, j, {});
    }
    if Unfold(heap, v, {}).Success? {
      UnfoldStands(heap, v, {});
      if Stands(heap, v, j) {
        StandsOnce(heap, v, j, Unfold(heap, v, {}).value);
      }
    }
  }

  /** One run of `canonicalJson`: the graph it reads and the set of objects being printed. */
  class Serializer {
    const heap: Heap
    var ancestors: set<Ref>

    ghost predicate Valid()
      reads this
    {
      ValidHeap(heap)
    }

    constructor (heap: Heap)
      requires ValidHeap(heap)
      ensures this.heap == heap && ancestors == {}
    {
      this.heap := heap;
      ancestors := {};
    }

    /** Prints the tree that `v` unfolds to, or fails; either way `ancestors` is as it was. */
    method SerializeCanonical(v: Value) returns (r: Result<Text, Refusal>)
      requires Valid() && ValidValue(heap, v)
      modifies this
      ensures ancestors == old(ancestors)
      ensures r == Printed(Unfold(heap, v, ancestors))
      ensures r.Success? ==> exists j :: Stands(heap, v, j) && r.value == Print(j)
      decreases heap.Keys - ancestors, 0
    {
      if Unfold(heap, v, ancestors).Success? {
        UnfoldStands(heap, v, ancestors);
      }
      if !v.Reference? {
        match Scalar(v) {
          case Failure(e) => return Failure(e);
          case Success(j) => return Success(ScalarText(j));
        }
      }
      if v.ref in ancestors {
        return Failure(RefusedCycle);
      }
      ghost var below := ancestors;
      assert v.ref in heap.Keys - ancestors;
      ancestors := ancestors + {v.ref};
      match heap[v.ref] {
        case ExoticNode => r := Failure(RefusedExoticObject);
        case ArrayNode(length, own) => r := SerializeArray(v.ref, length, own);
        case PlainNode(own) => r := SerializeObject(v.ref, own);
      }
      ancestors := ancestors - {v.ref};
      assert ancestors == below;
    }

    method SerializeArray(node: Ref, length: nat, own: seq<Property>) returns (r: Result<Text, Refusal>)
      requires Valid() && node in heap && heap[node] == ArrayNode(length, own)
      modifies this
      ensures ancestors == old(ancestors)
      ensures r == Printed(UnfoldNode(heap, node, ancestors))
      decreases heap.Keys - ancestors, 1
    {
      var k := 0;
      while k < |own|
        invariant 0 <= k <= |own|
        invariant ancestors == old(ancestors)
        invariant ArrayRefusal(own) == ArrayRefusal(own[k..])
      {
        assert own[k..][0] == own[k] && own[k..][1..] == own[k + 1..];
        if ArrayKeyRefusal(own[k]).Some? {
          return Failure(ArrayKeyRefusal(own[k]).value);
        }
        k := k + 1;
      }
      ghost var values := Children(ShapeOf(heap[node]).value);
      ChildrenValid(heap, node);
      var items: seq<Text> := [];
      ghost var done: seq<Json> := [];
      var index := 0;
      assert values[0..] == values;
      ContinuedNothing(UnfoldAll(heap, values, ancestors));
      while index < length
        invariant 0 <= index <= length == |values|
        invariant ancestors == old(ancestors)
        invariant PrintsAll(items, done) && |done| == index
        invariant UnfoldAll(heap, values, ancestors) == Continued(done, UnfoldAll(heap, values[index..], ancestors))
      {
        UnfoldStep(heap, values, index, done, ancestors);
        var item := SerializeCanonical(ItemAt(own, index));
        if item.Failure? {
          return item;
        }
        done := done + [Unfold(heap, values[index], ancestors).value];
        items := items + [item.value];
        index := index + 1;
      }
      assert values[index..] == [];
      PrintItemsAt(done, items);
      assert done + [] == done;
      return Success(Bracketed(items));
    }

    /** The own properties as members in key order, or why one of them cannot be printed. */
    method SortedMembers(own: seq<Property>) returns (r: Result<seq<Member>, Refusal>)
      ensures r.Success? ==> MembersOf(own).Success? && r.value == Sort(MemberBefore, MembersOf(own).value)
      ensures r.Failure? ==> MembersOf(own) == Failure(r.error)
    {
      var properties: seq<Member> := [];
      var k := 0;
      assert own[0..] == own;
      MembersContinuedNothing(MembersOf(own));
      while k < |own|
        invariant 0 <= k <= |own|
        invariant MembersOf(own) == MembersContinued(properties, MembersOf(own[k..]))
      {
        MembersOfStep(own, k, properties);
        match MemberOf(own[k]) {
          case Failure(e) => return Failure(e);
          case Success(member) => properties := properties + [member];
        }
        k := k + 1;
      }
      assert own[k..] == [] && properties + [] == properties;
      return Success(Sort(MemberBefore, properties));
    }

    /** Prints the members' values one after the other, stopping at the first refusal. */
    method SerializeMembers(members: seq<Member>) returns (r: Result<seq<Text>, Refusal>, ghost done: seq<Json>)
      requires Valid() && forall v :: v in Values(members) ==> ValidValue(heap, v)
      modifies this
      ensures ancestors == old(ancestors)
      ensures r.Failure? ==> UnfoldAll(heap, Values(members), ancestors) == Failure(r.error)
      ensures r.Success? ==>
        && |done| == |members| && MembersPrinted(members, done, r.value)
        && UnfoldAll(heap, Values(members), ancestors) == Success(done)
      decreases heap.Keys - ancestors, 1
    {
      ghost var values := Values(members);
      var texts: seq<Text> := [];
      done := [];
      var i := 0;
      assert values[0..] == values;
      ContinuedNothing(UnfoldAll(heap, values, ancestors));
      while i < |members|
        invariant 0 <= i <= |members| == |values|
        invariant ancestors == old(ancestors)
        invariant |done| == i && MembersPrinted(members, done, texts)
        invariant UnfoldAll(heap, values, ancestors) == Continued(done, UnfoldAll(heap, values[i..], ancestors))
      {
        UnfoldStep(heap, values, i, done, ancestors);
        var text := SerializeCanonical(members[i].value);
        if text.Failure? {
          return Failure(text.error), done;
        }
        MemberPrinted(members, done, texts, Unfold(heap, values[i], ancestors).value);
        done := done + [Unfold(heap, values[i], ancestors).value];
        texts := texts + [Quoted(members[i].key) + [COLON] + text.value];
        i := i + 1;
      }
      assert values[i..] == [] && done + [] == done;
      return Success(texts), done;
    }

    method SerializeObject(node: Ref, own: seq<Property>) returns (r: Result<Text, Refusal>)
      requires Valid() && node in heap && heap[node] == PlainNode(own)
      modifies this
      ensures ancestors == old(ancestors)
      ensures r == Printed(UnfoldNode(heap, node, ancestors))
      decreases heap.Keys - ancestors, 2
    {
      var members := SortedMembers(own);
      if members.Failure? {
        PlainNodeRefused(heap, node, own, ancestors);
        return Failure(members.error);
      }
      PlainNodeUnfolds(heap, node, own, members.value, ancestors);
      var texts;
      ghost var done;
      texts, done := SerializeMembers(members.value);
      if texts.Failure? {
        return Failure(texts.error);
      }
      SortedMembersAscend(own);
      PrintAssembledObject(members.value, done, texts.value);
      return Success(Braced(texts.value));
    }
  }

  function ScalarText(j: Json): (r: Text)
    requires !j.JsonArray? && !j.JsonObject?
    ensures r == Print(j)
  {
    match j
    case JsonNull => NULL_TEXT
    case JsonBool(b) => if b then TRUE_TEXT else FALSE_TEXT
    case JsonNumber(token) => token
    case JsonString(s) => Quoted(s)
  }

  /** `canonicalJson`: a serializer with no ancestors. */
  method CanonicalText(heap: Heap, v: Value) returns (r: Result<Text, Refusal>)
    requires ValidHeap(heap) && ValidValue(heap, v)
    ensures r == Printed(Unfold(heap, v, {}))
    ensures forall j :: Stands(heap, v, j) ==> r == Success(Print(j))
    ensures r.Success? ==> exists j :: Stands(heap, v, j) && r.value == Print(j)
  {
    var serializer := new Serializer(heap);
    r := serializer.SerializeCanonical(v);
    forall j | Stands(heap, v, j) ensures r == Success(Print(j)) {
      UnfoldsIff(heap, v, j);
    }
    if r.Success? {
      UnfoldsIff(heap, v, Unfold(heap, v, {}).value);
    }
  }
}
