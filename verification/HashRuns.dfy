/** Whole runs of the hash table: it is a map, kept in insertion order, and it always passes HASH_FSCK. */
module HashRuns {
  import opened Common
  import opened HashTable
  import opened HashSort
  import opened StableSort

  datatype Op = AddOp(e: Element) | DeleteOp(e: Element) | FindOp(key: Key) | SortOp(cmp: Cmp<Element>)

  // --- Runs on the list of live elements --------------------------------------------------------

  /** What the macros ask of their callers: a new key for HASH_ADD, a live element for HASH_DELETE. */
  predicate Legal(order: seq<Element>, op: Op) {
    match op
    case AddOp(e) => e !in order && Lookup(order, e.key) == null
    case DeleteOp(e) => e in order
    case _ => true
  }

  function Apply(order: seq<Element>, op: Op): seq<Element> {
    match op
    case AddOp(e) => order + [e]
    case DeleteOp(e) => Remove(order, e)
    case FindOp(_) => order
    case SortOp(cmp) => if order == [] then [] else BottomUp(cmp, order, 1)
  }

  function Answer(order: seq<Element>, op: Op): seq<Element?> {
    match op
    case FindOp(key) => [Lookup(order, key)]
    case _ => []
  }

  predicate LegalRun(order: seq<Element>, ops: seq<Op>)
    decreases |ops|
  {
    ops == [] || (Legal(order, ops[0]) && LegalRun(Apply(order, ops[0]), ops[1..]))
  }

  function OrderAfter(order: seq<Element>, ops: seq<Op>): seq<Element>
    decreases |ops|
  {
    if ops == [] then order else OrderAfter(Apply(order, ops[0]), ops[1..])
  }

  function Answers(order: seq<Element>, ops: seq<Op>): seq<Element?>
    decreases |ops|
  {
    if ops == [] then [] else Answer(order, ops[0]) + Answers(Apply(order, ops[0]), ops[1..])
  }

  /** The elements a run may write to. */
  ghost function Touched(order: seq<Element>, ops: seq<Op>): set<Element> {
    Elems(order) + set op | op in ops && op.AddOp? :: op.e
  }

  lemma TouchedStep(order: seq<Element>, ops: seq<Op>)
    requires ops != [] && Legal(order, ops[0])
    ensures Elems(order) <= Touched(order, ops) && (ops[0].AddOp? ==> ops[0].e in Touched(order, ops))
    ensures Touched(Apply(order, ops[0]), ops[1..]) <= Touched(order, ops)
  {
    match ops[0] {
      case AddOp(e) =>
      case DeleteOp(e) =>
        var i := PlaceOf(order, e);
      case FindOp(_) =>
      case SortOp(cmp) =>
        BottomUpMultiset(cmp, order, 1);
        SameElements(BottomUp(cmp, order, 1), order);
        assert Elems(BottomUp(cmp, order, 1)) == Elems(order);
    }
  }

  lemma OpIs(order: seq<Element>, op: Op)
    requires Legal(order, op)
    ensures op.AddOp? ==> op.e !in order && Lookup(order, op.e.key) == null
    ensures op.AddOp? ==> Apply(order, op) == order + [op.e] && Answer(order, op) == []
    ensures op.DeleteOp? ==> op.e in order && Apply(order, op) == Remove(order, op.e) && Answer(order, op) == []
    ensures op.FindOp? ==> Apply(order, op) == order && Answer(order, op) == [Lookup(order, op.key)]
    ensures op.SortOp? ==> Answer(order, op) == []
    ensures op.SortOp? ==> Apply(order, op) == if order == [] then [] else BottomUp(op.cmp, order, 1)
  {
  }

  /** One operation on the table itself. */
  method Step(t: Table, op: Op, ghost all: set<Element>) returns (answers: seq<Element?>)
    requires t.Valid() && Legal(t.order, op) && Elems(t.order) <= all && (op.AddOp? ==> op.e in all)
    modifies t, t.buckets, t.bloom, all
    ensures t.Valid() && t.order == Apply(old(t.order), op) && answers == Answer(old(t.order), op)
    ensures (t.buckets == old(t.buckets) || fresh(t.buckets)) && (t.bloom == old(t.bloom) || fresh(t.bloom))
  {
    hide *;
    answers := [];
    ElemsIn(t.order, t.order);
    t.ValidParts();
    OpIs(t.order, op);
    match op {
      case AddOp(e) => t.Add(e);
      case DeleteOp(e) => t.Delete(e);
      case FindOp(key) =>
        var out := t.Find(key);
        answers := [out];
        if t.order == [] { t.ValidEmpty(); }
      case SortOp(cmp) => Sort(t, cmp);
    }
  }

  /** Any run of operations: the table stays valid, and its list and its answers are those of the run on the list
      alone. */
  method Run(t: Table, ops: seq<Op>) returns (answers: seq<Element?>)
    requires t.Valid() && LegalRun(t.order, ops)
    modifies t, t.buckets, t.bloom, Touched(t.order, ops)
    ensures t.Valid() && t.order == OrderAfter(old(t.order), ops) && answers == Answers(old(t.order), ops)
    decreases |ops|
  {
    if ops == [] {
      answers := [];
    } else {
      ghost var all := Touched(t.order, ops);
      TouchedStep(t.order, ops);
      hide Touched, Apply, Legal, Answer;
      answers := Step(t, ops[0], all);
      var rest := Run(t, ops[1..]);
      answers := answers + rest;
    }
  }

  // --- Runs on the map --------------------------------------------------------------------------

  /** The map the list stands for. */
  ghost function AsMap(order: seq<Element>): map<Key, Element>
    requires KeysDistinct(order)
  {
    map e | e in order :: e.key := e
  }

  ghost function MapAfter(m: map<Key, Element>, op: Op): map<Key, Element> {
    match op
    case AddOp(e) => m[e.key := e]
    case DeleteOp(e) => m - {e.key}
    case _ => m
  }

  ghost function MapAnswer(m: map<Key, Element>, op: Op): seq<Element?> {
    match op
    case FindOp(key) => [if key in m then m[key] else null]
    case _ => []
  }

  ghost function MapRun(m: map<Key, Element>, ops: seq<Op>): map<Key, Element>
    decreases |ops|
  {
    if ops == [] then m else MapRun(MapAfter(m, ops[0]), ops[1..])
  }

  ghost function MapAnswers(m: map<Key, Element>, ops: seq<Op>): seq<Element?>
    decreases |ops|
  {
    if ops == [] then [] else MapAnswer(m, ops[0]) + MapAnswers(MapAfter(m, ops[0]), ops[1..])
  }

  lemma LookupInMap(order: seq<Element>, key: Key)
    requires KeysDistinct(order)
    ensures Lookup(order, key) == if key in AsMap(order) then AsMap(order)[key] else null
  {
    LookupFinds(order, key);
    hide Lookup;
  }

  lemma {:induction false} LookupAdded(order: seq<Element>, e: Element, key: Key)
    requires Lookup(order, e.key) == null
    ensures Lookup(order + [e], key) == if key == e.key then e else Lookup(order, key)
  {
    if order != [] {
      assert (order + [e])[1..] == order[1..] + [e];
      LookupAdded(order[1..], e, key);
    }
  }

  lemma AddedAt(order: seq<Element>, e: Element, key: Key)
    requires KeysDistinct(order) && KeysDistinct(order + [e]) && Lookup(order, e.key) == null
    ensures key in AsMap(order + [e]) <==> key in AsMap(order) || key == e.key
    ensures key in AsMap(order + [e]) ==>
              AsMap(order + [e])[key] == if key == e.key then e else AsMap(order)[key]
  {
    hide *;
    LookupAdded(order, e, key);
    LookupInMap(order, key);
    LookupInMap(order + [e], key);
  }

  lemma AddIsUpdate(order: seq<Element>, e: Element)
    requires KeysDistinct(order) && Lookup(order, e.key) == null
    ensures KeysDistinct(order + [e]) && AsMap(order + [e]) == AsMap(order)[e.key := e]
  {
    hide *;
    NewKey(order, e);
    var m, n := AsMap(order + [e]), AsMap(order)[e.key := e];
    forall key ensures (key in m <==> key in n) && (key in m ==> m[key] == n[key]) { AddedAt(order, e, key); }
  }

  lemma {:induction false} LookupRemoved(order: seq<Element>, e: Element, key: Key)
    requires KeysDistinct(order) && e in order
    ensures Lookup(Remove(order, e), key) == if key == e.key then null else Lookup(order, key)
  {
    if order[0] == e {
      if key == e.key { LookupIs(order[1..], key, null); }
    } else {
      assert order[0].key != e.key;
      LookupRemoved(order[1..], e, key);
    }
  }

  lemma RemovedAt(order: seq<Element>, e: Element, key: Key)
    requires KeysDistinct(order) && KeysDistinct(Remove(order, e)) && e in order
    ensures key in AsMap(Remove(order, e)) <==> key in AsMap(order) && key != e.key
    ensures key in AsMap(Remove(order, e)) ==> AsMap(Remove(order, e))[key] == AsMap(order)[key]
  {
    hide *;
    LookupRemoved(order, e, key);
    LookupInMap(order, key);
    LookupInMap(Remove(order, e), key);
  }

  lemma RemoveIsSubtraction(order: seq<Element>, e: Element)
    requires KeysDistinct(order) && e in order
    ensures KeysDistinct(Remove(order, e)) && AsMap(Remove(order, e)) == AsMap(order) - {e.key}
  {
    hide *;
    var i := PlaceOf(order, e);
    ElemsWithout(order, i);
    var m, n := AsMap(Remove(order, e)), AsMap(order) - {e.key};
    assert forall key :: key in n <==> key in AsMap(order) && key != e.key;
    forall key ensures (key in m <==> key in n) && (key in m ==> m[key] == n[key]) { RemovedAt(order, e, key); }
  }

  lemma SortKeepsMap(order: seq<Element>, cmp: Cmp<Element>)
    requires KeysDistinct(order)
    ensures var t := BottomUp(cmp, order, 1); KeysDistinct(t) && AsMap(t) == AsMap(order)
  {
    var t := BottomUp(cmp, order, 1);
    BottomUpMultiset(cmp, order, 1);
    hide BottomUp;
    DistinctByMultiset(order, t);
    Reordered(order, t);
    ElemsIn(order, t);
  }

  lemma StepRefinesMap(order: seq<Element>, op: Op)
    requires KeysDistinct(order) && Legal(order, op)
    ensures KeysDistinct(Apply(order, op)) && AsMap(Apply(order, op)) == MapAfter(AsMap(order), op)
    ensures Answer(order, op) == MapAnswer(AsMap(order), op)
  {
    hide AsMap, KeysDistinct, Lookup, Remove, BottomUp;
    match op {
      case AddOp(e) => AddIsUpdate(order, e);
      case DeleteOp(e) => RemoveIsSubtraction(order, e);
      case FindOp(key) => LookupInMap(order, key);
      case SortOp(cmp) => SortKeepsMap(order, cmp);
    }
  }

  /** A whole run is a run on a map: the answers of HASH_FIND depend on nothing but which keys are live. */
  lemma {:induction false} RunRefinesMap(order: seq<Element>, ops: seq<Op>)
    requires KeysDistinct(order) && LegalRun(order, ops)
    ensures KeysDistinct(OrderAfter(order, ops)) && AsMap(OrderAfter(order, ops)) == MapRun(AsMap(order), ops)
    ensures Answers(order, ops) == MapAnswers(AsMap(order), ops)
    decreases |ops|
  {
    hide AsMap, KeysDistinct, Apply, Legal, Answer, MapAfter, MapAnswer;
    if ops != [] {
      StepRefinesMap(order, ops[0]);
      RunRefinesMap(Apply(order, ops[0]), ops[1..]);
    }
  }
}
