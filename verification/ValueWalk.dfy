/**
 The C library's walk over a parsed value, which finds what JSON would corrupt before it is encoded: bytes
 that are not UTF-8, numbers past a double, and a container that holds itself.
 */
module ValueWalk {
  import opened Wrappers

  /** What tells one container from another; slices that share an address differ in length. */
  datatype Key = Key(addr: nat, n: nat, t: nat)

  /** What a reference is to: nothing, an empty or byte slice, or a container to be walked. */
  datatype Shape = Null | EmptyOrBytes | Walked

  datatype Value =
    | Invalid
    | Raw(utf8: bool)
    | Big
    | Str(utf8: bool)
    | Scalar
    | Iface(inner: Value)
    | Ref(shape: Shape, key: Key)
    | Arr(elems: seq<Value>)
    | Struct(fields: seq<Field>)

  /** A struct's field: whether its tag leaves it out, and whether its name or its embedding emits it. */
  datatype Field = Field(skipped: bool, exported: bool, embedded: bool, v: Value)

  /** A member of a map or an object node, by whether its key is a string and UTF-8. */
  datatype Entry = Entry(strKey: bool, utf8: bool, v: Value)

  /** What a container holds: a map's or an object node's members, a slice's elements, a pointer's value. */
  datatype Node = Members(entries: seq<Entry>) | Elements(elems: seq<Value>) | Pointee(v: Value)

  type Heap = map<Key, Node>

  datatype Reason = UnsafeUTF8 | UnsafeNumber | UnsafeCycle

  predicate Emitted(f: Field) {
    !f.skipped && (f.exported || f.embedded)
  }

  // ---- what a value holds, containers not opened

  /** The containers held in a value. */
  function KeysOf(v: Value): set<Key> {
    match v
    case Iface(i) => KeysOf(i)
    case Ref(s, k) => if s.Walked? then {k} else {}
    case Arr(vs) => KeysOfAll(vs)
    case Struct(fs) => KeysOfFields(fs)
    case _ => {}
  }

  function KeysOfAll(vs: seq<Value>): set<Key> {
    if vs == [] then {} else KeysOf(vs[0]) + KeysOfAll(vs[1..])
  }

  function KeysOfField(f: Field): set<Key> {
    if Emitted(f) then KeysOf(f.v) else {}
  }

  function KeysOfFields(fs: seq<Field>): set<Key> {
    if fs == [] then {} else KeysOfField(fs[0]) + KeysOfFields(fs[1..])
  }

  function KeysOfEntries(es: seq<Entry>): set<Key> {
    if es == [] then {} else KeysOf(es[0].v) + KeysOfEntries(es[1..])
  }

  /** Whether a value holds a part that JSON would corrupt, for a reason. */
  predicate Holds(v: Value, why: Reason) {
    match v
    case Raw(utf8) => !utf8 && why.UnsafeUTF8?
    case Str(utf8) => !utf8 && why.UnsafeUTF8?
    case Big => why.UnsafeNumber?
    case Iface(i) => Holds(i, why)
    case Arr(vs) => AnyHolds(vs, why)
    case Struct(fs) => FieldsHold(fs, why)
    case _ => false
  }

  predicate AnyHolds(vs: seq<Value>, why: Reason) {
    vs != [] && (Holds(vs[0], why) || AnyHolds(vs[1..], why))
  }

  predicate FieldHolds(f: Field, why: Reason) {
    Emitted(f) && Holds(f.v, why)
  }

  predicate FieldsHold(fs: seq<Field>, why: Reason) {
    fs != [] && (FieldHolds(fs[0], why) || FieldsHold(fs[1..], why))
  }

  predicate EntriesHold(es: seq<Entry>, why: Reason) {
    es != [] && ((es[0].strKey && !es[0].utf8 && why.UnsafeUTF8?) || Holds(es[0].v, why) || EntriesHold(es[1..], why))
  }

  function NodeKeys(n: Node): set<Key> {
    match n
    case Members(es) => KeysOfEntries(es)
    case Elements(vs) => KeysOfAll(vs)
    case Pointee(v) => KeysOf(v)
  }

  predicate NodeHolds(n: Node, why: Reason) {
    match n
    case Members(es) => EntriesHold(es, why)
    case Elements(vs) => AnyHolds(vs, why)
    case Pointee(v) => Holds(v, why)
  }

  /** A struct holds what its fields do that are exported, or are embedded structs, and not tagged to be left out. */
  lemma {:induction false} StructHolds(fs: seq<Field>, why: Reason, k: Key)
    ensures Holds(Struct(fs), why) <==>
            exists i :: 0 <= i < |fs| && !fs[i].skipped && (fs[i].exported || fs[i].embedded) && Holds(fs[i].v, why)
    ensures k in KeysOf(Struct(fs)) <==>
            exists i :: 0 <= i < |fs| && !fs[i].skipped && (fs[i].exported || fs[i].embedded) && k in KeysOf(fs[i].v)
  {
    hide Holds, KeysOf;
    StructFirst(fs, why, k);
    if fs != [] {
      StructHolds(fs[1..], why, k);
      assert forall i | 1 <= i < |fs| :: fs[i] == fs[1..][i - 1];
    }
  }

  lemma StructFirst(fs: seq<Field>, why: Reason, k: Key)
    ensures Holds(Struct(fs), why) <==>
            fs != [] && ((Emitted(fs[0]) && Holds(fs[0].v, why)) || Holds(Struct(fs[1..]), why))
    ensures k in KeysOf(Struct(fs)) <==>
            fs != [] && ((Emitted(fs[0]) && k in KeysOf(fs[0].v)) || k in KeysOf(Struct(fs[1..])))
  {
    StructIs(fs, why);
    if fs != [] { StructIs(fs[1..], why); }
  }

  lemma StructIs(fs: seq<Field>, why: Reason)
    ensures Holds(Struct(fs), why) == FieldsHold(fs, why) && KeysOf(Struct(fs)) == KeysOfFields(fs)
  {
  }

  // ---- what a value reaches

  /** Every container held anywhere is on the heap. */
  ghost predicate Closed(heap: Heap) {
    forall k | k in heap :: NodeKeys(heap[k]) <= heap.Keys
  }

  /** Containers, each held in the one before. */
  ghost predicate Path(heap: Heap, p: seq<Key>) {
    && p != [] && (forall i | 0 <= i < |p| :: p[i] in heap)
    && forall i | 0 <= i < |p| - 1 :: p[i + 1] in NodeKeys(heap[p[i]])
  }

  ghost predicate PathFrom(heap: Heap, keys: set<Key>, p: seq<Key>) {
    Path(heap, p) && p[0] in keys
  }

  function Last(p: seq<Key>): Key
    requires p != []
  {
    p[|p| - 1]
  }

  /** Whether a path ends in a container it has been through, or that the walk to it went through. */
  ghost predicate Loops(p: seq<Key>, onPath: set<Key>)
    requires p != []
  {
    Last(p) in onPath || exists i :: 0 <= i < |p| - 1 && p[i] == Last(p)
  }

  /** Whether a part that JSON would corrupt is held, or is in a container that is reached. */
  ghost predicate Reaches(heap: Heap, keys: set<Key>, why: Reason) {
    exists p :: PathFrom(heap, keys, p) && NodeHolds(heap[Last(p)], why)
  }

  ghost predicate Cycles(heap: Heap, keys: set<Key>, onPath: set<Key>) {
    exists p :: PathFrom(heap, keys, p) && Loops(p, onPath)
  }

  /** What an answer means, for a value that holds these containers and these parts. */
  ghost predicate Answers(heap: Heap, keys: set<Key>, bad: set<Reason>, onPath: set<Key>, r: Option<Reason>) {
    match r
    case None => bad == {} && !Cycles(heap, keys, onPath) && forall why :: !Reaches(heap, keys, why)
    case Some(why) => if why.UnsafeCycle? then Cycles(heap, keys, onPath)
                      else why in bad || Reaches(heap, keys, why)
  }

  function BadIn(v: Value): set<Reason> {
    set why | why in {UnsafeUTF8, UnsafeNumber} && Holds(v, why)
  }

  function BadInAll(vs: seq<Value>): set<Reason> {
    set why | why in {UnsafeUTF8, UnsafeNumber} && AnyHolds(vs, why)
  }

  function BadInFields(fs: seq<Field>): set<Reason> {
    set why | why in {UnsafeUTF8, UnsafeNumber} && FieldsHold(fs, why)
  }

  function BadInEntries(es: seq<Entry>): set<Reason> {
    set why | why in {UnsafeUTF8, UnsafeNumber} && EntriesHold(es, why)
  }

  function BadInNode(n: Node): set<Reason> {
    set why | why in {UnsafeUTF8, UnsafeNumber} && NodeHolds(n, why)
  }

  /** Two parts one after the other: the first reason found answers for both. */
  lemma AnswersJoin(heap: Heap, a: set<Key>, ba: set<Reason>, b: set<Key>, bb: set<Reason>,
                    onPath: set<Key>, r: Option<Reason>)
    requires if r.Some? then Answers(heap, a, ba, onPath, r) || Answers(heap, b, bb, onPath, r)
             else Answers(heap, a, ba, onPath, r) && Answers(heap, b, bb, onPath, r)
    ensures Answers(heap, a + b, ba + bb, onPath, r)
  {
    match r
    case None =>
      if Cycles(heap, a + b, onPath) { NarrowCycles(heap, a, b, onPath); }
      forall why | Reaches(heap, a + b, why) ensures Reaches(heap, a, why) || Reaches(heap, b, why) {
        NarrowReaches(heap, a, b, why);
      }
    case Some(why) =>
      WiderReaches(heap, a, a + b, onPath, why);
      WiderReaches(heap, b, a + b, onPath, why);
  }

  lemma NarrowCycles(heap: Heap, a: set<Key>, b: set<Key>, onPath: set<Key>)
    requires Cycles(heap, a + b, onPath)
    ensures Cycles(heap, a, onPath) || Cycles(heap, b, onPath)
  {
    var p :| PathFrom(heap, a + b, p) && Loops(p, onPath);
    assert PathFrom(heap, a, p) || PathFrom(heap, b, p);
  }

  lemma NarrowReaches(heap: Heap, a: set<Key>, b: set<Key>, why: Reason)
    requires Reaches(heap, a + b, why)
    ensures Reaches(heap, a, why) || Reaches(heap, b, why)
  {
    var p :| PathFrom(heap, a + b, p) && NodeHolds(heap[Last(p)], why);
    assert PathFrom(heap, a, p) || PathFrom(heap, b, p);
  }

  lemma WiderReaches(heap: Heap, a: set<Key>, b: set<Key>, onPath: set<Key>, why: Reason)
    requires a <= b
    ensures Reaches(heap, a, why) ==> Reaches(heap, b, why)
    ensures Cycles(heap, a, onPath) ==> Cycles(heap, b, onPath)
  {
    if Reaches(heap, a, why) {
      var p :| PathFrom(heap, a, p) && NodeHolds(heap[Last(p)], why);
      assert PathFrom(heap, b, p);
    }
    if Cycles(heap, a, onPath) {
      var p :| PathFrom(heap, a, p) && Loops(p, onPath);
      assert PathFrom(heap, b, p);
    }
  }

  /** A container answers as what it holds does with the container itself on the path. */
  lemma ContainerAnswers(heap: Heap, k: Key, onPath: set<Key>, r: Option<Reason>)
    requires Closed(heap) && k in heap && k !in onPath
    requires Answers(heap, NodeKeys(heap[k]), BadInNode(heap[k]), onPath + {k}, r)
    ensures Answers(heap, {k}, {}, onPath, r)
  {
    match r
    case None =>
      forall p | PathFrom(heap, {k}, p) ensures !Loops(p, onPath) && forall why :: !NodeHolds(heap[Last(p)], why) {
        PathInside(heap, k, p, onPath);
      }
    case Some(why) =>
      assert PathFrom(heap, {k}, [k]);
      if why.UnsafeCycle? {
        var p :| PathFrom(heap, NodeKeys(heap[k]), p) && Loops(p, onPath + {k});
        PathLonger(heap, k, p, onPath);
      } else if why in BadInNode(heap[k]) {
        assert Last([k]) == k;
      } else {
        var p :| PathFrom(heap, NodeKeys(heap[k]), p) && NodeHolds(heap[Last(p)], why);
        PathLonger(heap, k, p, onPath);
        assert NodeHolds(heap[Last([k] + p)], why);
      }
  }

  lemma PathLonger(heap: Heap, k: Key, p: seq<Key>, onPath: set<Key>)
    requires k in heap && PathFrom(heap, NodeKeys(heap[k]), p)
    ensures PathFrom(heap, {k}, [k] + p) && Last([k] + p) == Last(p)
    ensures Loops(p, onPath + {k}) ==> Loops([k] + p, onPath)
  {
    var q := [k] + p;
    forall i | 0 <= i < |q| - 1 ensures q[i + 1] in NodeKeys(heap[q[i]]) {
      if i > 0 { assert q[i] == p[i - 1] && q[i + 1] == p[i]; }
    }
    if Loops(p, onPath + {k}) && Last(p) !in onPath {
      if Last(p) == k {
        assert q[0] == Last(q);
      } else {
        var i :| 0 <= i < |p| - 1 && p[i] == Last(p);
        assert q[i + 1] == Last(q);
      }
    }
  }

  lemma PathInside(heap: Heap, k: Key, p: seq<Key>, onPath: set<Key>)
    requires k in heap && k !in onPath && PathFrom(heap, {k}, p)
    requires Answers(heap, NodeKeys(heap[k]), BadInNode(heap[k]), onPath + {k}, None)
    ensures !Loops(p, onPath) && forall why :: !NodeHolds(heap[Last(p)], why)
  {
    if |p| == 1 {
      forall why ensures !NodeHolds(heap[k], why) {
        assert why in BadInNode(heap[k]) <==> NodeHolds(heap[k], why) by { NodeReasons(heap[k], why); }
      }
    } else {
      var q := p[1..];
      assert Path(heap, q) && q[0] in NodeKeys(heap[p[0]]);
      assert PathFrom(heap, NodeKeys(heap[k]), q);
      assert Last(q) == Last(p);
      assert !Loops(q, onPath + {k});
      forall why | NodeHolds(heap[Last(p)], why) ensures Reaches(heap, NodeKeys(heap[k]), why) {
        assert PathFrom(heap, NodeKeys(heap[k]), q) && NodeHolds(heap[Last(q)], why);
      }
      if Loops(p, onPath) { LoopInside(p, onPath); }
    }
  }

  lemma LoopInside(p: seq<Key>, onPath: set<Key>)
    requires |p| > 1 && Loops(p, onPath)
    ensures Loops(p[1..], onPath + {p[0]})
  {
    var q := p[1..];
    assert Last(q) == Last(p);
    if Last(p) !in onPath {
      var i :| 0 <= i < |p| - 1 && p[i] == Last(p);
      if i > 0 { assert q[i - 1] == Last(q); }
    }
  }

  lemma {:induction false} NoCycleHeld(v: Value)
    ensures !Holds(v, UnsafeCycle)
    decreases v
  {
    match v
    case Iface(i) => NoCycleHeld(i);
    case Arr(vs) => NoCycleInAll(vs);
    case Struct(fs) => NoCycleInFields(fs);
    case _ =>
  }

  lemma {:induction false} NoCycleInAll(vs: seq<Value>)
    ensures !AnyHolds(vs, UnsafeCycle)
    decreases vs
  {
    if vs != [] {
      NoCycleHeld(vs[0]);
      NoCycleInAll(vs[1..]);
    }
  }

  lemma {:induction false} NoCycleInFields(fs: seq<Field>)
    ensures !FieldsHold(fs, UnsafeCycle)
    decreases fs
  {
    if fs != [] {
      NoCycleInField(fs[0]);
      NoCycleInFields(fs[1..]);
    }
  }

  lemma {:induction false} NoCycleInField(f: Field)
    ensures !FieldHolds(f, UnsafeCycle)
    decreases f
  {
    NoCycleHeld(f.v);
  }

  lemma {:induction false} NoCycleInEntries(es: seq<Entry>)
    ensures !EntriesHold(es, UnsafeCycle)
  {
    if es != [] {
      NoCycleHeld(es[0].v);
      NoCycleInEntries(es[1..]);
    }
  }

  lemma HeldReasons(v: Value, why: Reason)
    ensures why in BadIn(v) <==> Holds(v, why)
  {
    NoCycleHeld(v);
    assert why.UnsafeCycle? || why in {UnsafeUTF8, UnsafeNumber};
  }

  lemma NodeReasons(n: Node, why: Reason)
    ensures why in BadInNode(n) <==> NodeHolds(n, why)
  {
    match n
    case Members(es) => NoCycleInEntries(es);
    case Elements(vs) => NoCycleInAll(vs);
    case Pointee(v) => NoCycleHeld(v);
  }

  // ---- steps over lists of parts

  lemma SomeWider(heap: Heap, a: set<Key>, ba: set<Reason>, b: set<Key>, bb: set<Reason>,
                  onPath: set<Key>, r: Option<Reason>)
    requires r.Some? && a <= b && ba <= bb && Answers(heap, a, ba, onPath, r)
    ensures Answers(heap, b, bb, onPath, r)
  {
    WiderReaches(heap, a, b, onPath, r.value);
  }

  lemma NothingAnswers(heap: Heap, onPath: set<Key>)
    ensures Answers(heap, {}, {}, onPath, None)
  {
  }

  lemma ElemsStep(vs: seq<Value>, i: nat)
    requires i < |vs|
    ensures KeysOfAll(vs[i..]) == KeysOf(vs[i]) + KeysOfAll(vs[i + 1..])
    ensures BadInAll(vs[i..]) == BadIn(vs[i]) + BadInAll(vs[i + 1..])
  {
    assert vs[i..][1..] == vs[i + 1..];
  }

  lemma FieldsStep(fs: seq<Field>, i: nat)
    requires i < |fs|
    ensures KeysOfFields(fs[i..]) == KeysOfField(fs[i]) + KeysOfFields(fs[i + 1..])
    ensures BadInFields(fs[i..]) == (if Emitted(fs[i]) then BadIn(fs[i].v) else {}) + BadInFields(fs[i + 1..])
  {
    assert fs[i..][1..] == fs[i + 1..];
    forall why
      ensures why in BadInFields(fs[i..]) <==>
              (Emitted(fs[i]) && why in BadIn(fs[i].v)) || why in BadInFields(fs[i + 1..])
    {
      assert FieldsHold(fs[i..], why) <==> FieldHolds(fs[i], why) || FieldsHold(fs[i + 1..], why);
    }
  }

  lemma EntriesStep(es: seq<Entry>, i: nat)
    requires i < |es|
    ensures KeysOfEntries(es[i..]) == KeysOf(es[i].v) + KeysOfEntries(es[i + 1..])
    ensures BadInEntries(es[i..])
         == (if es[i].strKey && !es[i].utf8 then {UnsafeUTF8} else {}) + BadIn(es[i].v) + BadInEntries(es[i + 1..])
  {
    assert es[i..][1..] == es[i + 1..];
  }

  // ---- the walk

  class UnsafeWalk {
    const heap: Heap
    /** The containers the walk is inside of. */
    var onPath: set<Key>

    constructor (heap: Heap)
      ensures this.heap == heap && onPath == {}
    {
      this.heap := heap;
      onPath := {};
    }

    method OfValue(v: Value) returns (why: Option<Reason>)
      requires Closed(heap) && KeysOf(v) <= heap.Keys
      modifies this
      ensures onPath == old(onPath)
      ensures Answers(heap, KeysOf(v), BadIn(v), old(onPath), why)
      decreases heap.Keys - onPath, v, 1
    {
      hide Answers, Closed;
      NothingAnswers(heap, onPath);
      why := None;
      match v {
        case Raw(utf8) =>
          if utf8 {
            assert BadIn(v) == {};
          } else {
            why := Some(UnsafeUTF8);
            HeldAnswers(heap, v, onPath, UnsafeUTF8);
          }
        case Big => why := Some(UnsafeNumber); HeldAnswers(heap, v, onPath, UnsafeNumber);
        case Str(utf8) =>
          if utf8 {
            assert BadIn(v) == {};
          } else {
            why := Some(UnsafeUTF8);
            HeldAnswers(heap, v, onPath, UnsafeUTF8);
          }
        case Iface(i) => assert BadIn(v) == BadIn(i); why := OfValue(i);
        case Ref(s, k) => assert BadIn(v) == {}; why := OfContainer(v);
        case Arr(vs) => assert BadIn(v) == BadInAll(vs); why := OfElems(vs);
        case Struct(fs) => assert BadIn(v) == BadInFields(fs); why := OfFields(fs);
        case Invalid => assert BadIn(v) == {};
        case Scalar => assert BadIn(v) == {};
      }
    }

    /** What may be walked only once on the way down. */
    method OfContainer(v: Value) returns (why: Option<Reason>)
      requires Closed(heap) && v.Ref? && KeysOf(v) <= heap.Keys
      modifies this
      ensures onPath == old(onPath)
      ensures Answers(heap, KeysOf(v), {}, old(onPath), why)
      decreases heap.Keys - onPath, v, 0
    {
      hide Answers, Closed;
      NothingAnswers(heap, onPath);
      if v.shape.Null? || v.shape.EmptyOrBytes? { return None; }
      var k := v.key;
      assert k in KeysOf(v);
      if k in onPath {
        OnPathAnswers(heap, k, onPath);
        return Some(UnsafeCycle);
      }
      HeldOnHeap(heap, k);
      onPath := onPath + {k};
      match heap[k] {
        case Members(es) => why := OfMembers(es);
        case Elements(vs) => why := OfElems(vs);
        case Pointee(x) => why := OfValue(x);
      }
      SameReasons(heap[k]);
      onPath := onPath - {k};
      assert onPath == old(onPath) && old(onPath) + {k} == onPath + {k};
      ContainerAnswers(heap, k, onPath, why);
    }

    /** Members in their order, keys checked first. */
    method OfMembers(es: seq<Entry>) returns (why: Option<Reason>)
      requires Closed(heap) && KeysOfEntries(es) <= heap.Keys
      modifies this
      ensures onPath == old(onPath)
      ensures Answers(heap, KeysOfEntries(es), BadInEntries(es), old(onPath), why)
      decreases heap.Keys - onPath, es, 0
    {
      hide Answers, Closed, KeysOfEntries, BadInEntries, BadIn, KeysOf;
      ghost var ks: set<Key>, bad: set<Reason> := {}, {};
      NothingAnswers(heap, onPath);
      assert es[0..] == es;
      for i := 0 to |es|
        invariant onPath == old(onPath)
        invariant ks + KeysOfEntries(es[i..]) == KeysOfEntries(es)
        invariant bad + BadInEntries(es[i..]) == BadInEntries(es)
        invariant Answers(heap, ks, bad, onPath, None)
      {
        EntriesStep(es, i);
        assert (es decreases to es[i]) && (es[i] decreases to es[i].v);
        if es[i].strKey && !es[i].utf8 {
          KeyAnswers(heap, onPath);
          SomeWider(heap, {}, {UnsafeUTF8}, KeysOfEntries(es), BadInEntries(es), onPath, Some(UnsafeUTF8));
          return Some(UnsafeUTF8);
        }
        why := OfValue(es[i].v);
        if why.Some? {
          SomeWider(heap, KeysOf(es[i].v), BadIn(es[i].v), KeysOfEntries(es), BadInEntries(es), onPath, why);
          return;
        }
        AnswersJoin(heap, ks, bad, KeysOf(es[i].v), BadIn(es[i].v), onPath, None);
        ks, bad := ks + KeysOf(es[i].v), bad + BadIn(es[i].v);
      }
      NoEntries(es[|es|..]);
      assert ks == KeysOfEntries(es) && bad == BadInEntries(es);
      why := None;
    }

    method OfElems(vs: seq<Value>) returns (why: Option<Reason>)
      requires Closed(heap) && KeysOfAll(vs) <= heap.Keys
      modifies this
      ensures onPath == old(onPath)
      ensures Answers(heap, KeysOfAll(vs), BadInAll(vs), old(onPath), why)
      decreases heap.Keys - onPath, vs, 0
    {
      hide Answers, Closed, KeysOfAll, BadInAll, BadIn, KeysOf;
      ghost var ks: set<Key>, bad: set<Reason> := {}, {};
      NothingAnswers(heap, onPath);
      assert vs[0..] == vs;
      for i := 0 to |vs|
        invariant onPath == old(onPath)
        invariant ks + KeysOfAll(vs[i..]) == KeysOfAll(vs)
        invariant bad + BadInAll(vs[i..]) == BadInAll(vs)
        invariant Answers(heap, ks, bad, onPath, None)
      {
        ElemsStep(vs, i);
        why := OfValue(vs[i]);
        if why.Some? {
          SomeWider(heap, KeysOf(vs[i]), BadIn(vs[i]), KeysOfAll(vs), BadInAll(vs), onPath, why);
          return;
        }
        AnswersJoin(heap, ks, bad, KeysOf(vs[i]), BadIn(vs[i]), onPath, None);
        ks, bad := ks + KeysOf(vs[i]), bad + BadIn(vs[i]);
      }
      NoElems(vs[|vs|..]);
      assert ks == KeysOfAll(vs) && bad == BadInAll(vs);
      why := None;
    }

    /** A struct, skipping what is never written out. */
    method OfFields(fs: seq<Field>) returns (why: Option<Reason>)
      requires Closed(heap) && KeysOfFields(fs) <= heap.Keys
      modifies this
      ensures onPath == old(onPath)
      ensures Answers(heap, KeysOfFields(fs), BadInFields(fs), old(onPath), why)
      decreases heap.Keys - onPath, fs, 0
    {
      hide Answers, Closed, KeysOfFields, BadInFields, BadIn, KeysOf;
      ghost var ks: set<Key>, bad: set<Reason> := {}, {};
      NothingAnswers(heap, onPath);
      assert fs[0..] == fs;
      for i := 0 to |fs|
        invariant onPath == old(onPath)
        invariant ks + KeysOfFields(fs[i..]) == KeysOfFields(fs)
        invariant bad + BadInFields(fs[i..]) == BadInFields(fs)
        invariant Answers(heap, ks, bad, onPath, None)
      {
        FieldsStep(fs, i);
        assert (fs decreases to fs[i]) && (fs[i] decreases to fs[i].v);
        if fs[i].skipped { continue; }
        if !fs[i].exported {
          if !fs[i].embedded { continue; }
        }
        why := OfValue(fs[i].v);
        if why.Some? {
          SomeWider(heap, KeysOf(fs[i].v), BadIn(fs[i].v), KeysOfFields(fs), BadInFields(fs), onPath, why);
          return;
        }
        AnswersJoin(heap, ks, bad, KeysOf(fs[i].v), BadIn(fs[i].v), onPath, None);
        ks, bad := ks + KeysOf(fs[i].v), bad + BadIn(fs[i].v);
      }
      NoFields(fs[|fs|..]);
      assert ks == KeysOfFields(fs) && bad == BadInFields(fs);
      why := None;
    }
  }

  lemma HeldAnswers(heap: Heap, v: Value, onPath: set<Key>, why: Reason)
    requires why in BadIn(v)
    ensures Answers(heap, KeysOf(v), BadIn(v), onPath, Some(why))
  {
  }

  lemma KeyAnswers(heap: Heap, onPath: set<Key>)
    ensures Answers(heap, {}, {UnsafeUTF8}, onPath, Some(UnsafeUTF8))
  {
  }

  lemma OnPathAnswers(heap: Heap, k: Key, onPath: set<Key>)
    requires k in heap && k in onPath
    ensures Answers(heap, {k}, {}, onPath, Some(UnsafeCycle))
  {
    assert PathFrom(heap, {k}, [k]) && Loops([k], onPath);
  }

  lemma HeldOnHeap(heap: Heap, k: Key)
    requires Closed(heap) && k in heap
    ensures NodeKeys(heap[k]) <= heap.Keys
  {
  }

  lemma SameReasons(n: Node)
    ensures match n
            case Members(es) => BadInNode(n) == BadInEntries(es)
            case Elements(vs) => BadInNode(n) == BadInAll(vs)
            case Pointee(v) => BadInNode(n) == BadIn(v)
  {
  }

  lemma NoEntries(es: seq<Entry>)
    requires es == []
    ensures KeysOfEntries(es) == {} && BadInEntries(es) == {}
  {
  }

  lemma NoElems(vs: seq<Value>)
    requires vs == []
    ensures KeysOfAll(vs) == {} && BadInAll(vs) == {}
  {
  }

  lemma NoFields(fs: seq<Field>)
    requires fs == []
    ensures KeysOfFields(fs) == {} && BadInFields(fs) == {}
  {
  }

  // ---- the law

  /** A container that holds itself: it is on a path from itself. */
  ghost predicate HoldsItself(heap: Heap, k: Key) {
    exists p :: Path(heap, p) && |p| > 1 && p[0] == k && Last(p) == k
  }

  /** The containers a value reaches. */
  ghost predicate Reachable(heap: Heap, keys: set<Key>, k: Key) {
    exists p :: PathFrom(heap, keys, p) && Last(p) == k
  }

  lemma CyclesIsHoldsItself(heap: Heap, keys: set<Key>)
    ensures Cycles(heap, keys, {}) <==> exists k :: Reachable(heap, keys, k) && HoldsItself(heap, k)
  {
    if Cycles(heap, keys, {}) {
      var p :| PathFrom(heap, keys, p) && Loops(p, {});
      var i :| 0 <= i < |p| - 1 && p[i] == Last(p);
      var q := p[i..];
      assert Path(heap, q) by {
        forall j | 0 <= j < |q| - 1 ensures q[j + 1] in NodeKeys(heap[q[j]]) {
          assert q[j] == p[i + j] && q[j + 1] == p[i + j + 1];
        }
      }
      assert q[0] == Last(p) && Last(q) == Last(p);
      assert Reachable(heap, keys, Last(p)) && HoldsItself(heap, Last(p));
    }
    if exists k :: Reachable(heap, keys, k) && HoldsItself(heap, k) {
      var k :| Reachable(heap, keys, k) && HoldsItself(heap, k);
      var p :| PathFrom(heap, keys, p) && Last(p) == k;
      var q :| Path(heap, q) && |q| > 1 && q[0] == k && Last(q) == k;
      var r := p + q[1..];
      assert Path(heap, r) by {
        forall j | 0 <= j < |r| - 1 ensures r[j + 1] in NodeKeys(heap[r[j]]) {
          if j >= |p| - 1 { assert r[j] == q[j - (|p| - 1)] && r[j + 1] == q[j + 1 - (|p| - 1)]; }
        }
      }
      assert PathFrom(heap, keys, r) && r[|p| - 1] == Last(r);
    }
  }

  /**
   The walk gives no reason exactly when nothing that JSON would corrupt is held or reached and no
   container that is reached holds itself; a reason it gives is one that is there.
   */
  method JsonUnsafe(heap: Heap, v: Value) returns (why: Option<Reason>)
    requires Closed(heap) && KeysOf(v) <= heap.Keys
    ensures why.None? <==>
              && (forall r :: !Holds(v, r) && !Reaches(heap, KeysOf(v), r))
              && forall k | Reachable(heap, KeysOf(v), k) :: !HoldsItself(heap, k)
    ensures why.Some? && why.value.UnsafeCycle? ==>
              exists k :: Reachable(heap, KeysOf(v), k) && HoldsItself(heap, k)
    ensures why.Some? && !why.value.UnsafeCycle? ==> Holds(v, why.value) || Reaches(heap, KeysOf(v), why.value)
  {
    var w := new UnsafeWalk(heap);
    why := w.OfValue(v);
    AnswerIs(heap, v, why);
  }

  lemma AnswerIs(heap: Heap, v: Value, why: Option<Reason>)
    requires Answers(heap, KeysOf(v), BadIn(v), {}, why)
    ensures why.None? <==>
              && (forall r :: !Holds(v, r) && !Reaches(heap, KeysOf(v), r))
              && forall k | Reachable(heap, KeysOf(v), k) :: !HoldsItself(heap, k)
    ensures why.Some? && why.value.UnsafeCycle? ==>
              exists k :: Reachable(heap, KeysOf(v), k) && HoldsItself(heap, k)
    ensures why.Some? && !why.value.UnsafeCycle? ==> Holds(v, why.value) || Reaches(heap, KeysOf(v), why.value)
  {
    hide Reachable, HoldsItself, Cycles, Reaches, Holds, BadIn;
    CyclesIsHoldsItself(heap, KeysOf(v));
    forall r ensures Holds(v, r) <==> r in BadIn(v) { HeldReasons(v, r); }
    if why.Some? && !why.value.UnsafeCycle? { HeldReasons(v, why.value); }
  }
}
