/**
 * The JSON value tree.  Arrays and objects share one ordered map, as `ObjectValues` does: its keys
 * are indices in an array (missing indices are gaps) and names in an object.
 */
module Values {
  import opened Text
  import opened Numbers

  datatype Key = Idx(index: nat) | Name(name: string)

  /** A value with the offsets [start, limit) of the text it was read from. */
  datatype Value = Value(data: Data, start: int, limit: int)

  /** `Real` holds a double as an uninterpreted bit pattern. */
  datatype Data =
    | Null
    | Int(i: int64)
    | UInt(u: uint64)
    | Real(bits: nat)
    | Str(s: string)
    | Bool(b: bool)
    | Arr(entries: Entries)
    | Obj(entries: Entries)

  datatype Entries = Nil | Cons(key: Key, val: Value, rest: Entries)

  function Plain(data: Data): Value {
    Value(data, 0, 0)
  }

  const NULL_VALUE: Value := Plain(Null)

  // ----- keys -----

  /** `strcmp(a, b) < 0` on NUL-free strings. */
  predicate Before(a: string, b: string) {
    b != "" && (a == "" || a[0] < b[0] || (a[0] == b[0] && Before(a[1..], b[1..])))
  }

  /** The strings agree up to position k, where `a` ends or has the smaller byte. */
  predicate DifferAt(a: string, b: string, k: int) {
    0 <= k <= |a| && k < |b| && a[..k] == b[..k] && (k == |a| || a[k] < b[k])
  }

  /** Strings are ordered by the first position where they differ; a proper prefix comes first. */
  lemma {:induction false} BeforeIsFirstDifference(a: string, b: string)
    ensures Before(a, b) <==> exists k :: DifferAt(a, b, k)
  {
    if a == "" && b != "" {
      assert DifferAt(a, b, 0);
    } else if a != "" && b != "" {
      if a[0] < b[0] {
        assert DifferAt(a, b, 0);
      } else if a[0] == b[0] {
        DifferenceShifts(a, b);
        BeforeIsFirstDifference(a[1..], b[1..]);
      }
    }
  }

  lemma DifferenceShifts(a: string, b: string)
    requires a != "" && b != "" && a[0] == b[0]
    ensures (exists k :: DifferAt(a, b, k)) <==> exists k :: DifferAt(a[1..], b[1..], k)
  {
    if k :| DifferAt(a[1..], b[1..], k) {
      assert a[..k + 1] == [a[0]] + a[1..][..k] && b[..k + 1] == [b[0]] + b[1..][..k];
      assert DifferAt(a, b, k + 1);
    }
    if k :| DifferAt(a, b, k) {
      assert k > 0;
      assert a[1..][..k - 1] == a[..k][1..] && b[1..][..k - 1] == b[..k][1..];
      assert DifferAt(a[1..], b[1..], k - 1);
    }
  }

  predicate KeyLess(a: Key, b: Key) {
    match (a, b)
    case (Idx(i), Idx(j)) => i < j
    case (Name(s), Name(t)) => Before(s, t)
    case _ => false
  }

  lemma {:induction false} BeforeTotal(a: string, b: string)
    ensures Before(a, b) || Before(b, a) || a == b
    ensures !(Before(a, b) && Before(b, a)) && (Before(a, b) ==> a != b)
  {
    if a != "" && b != "" && a[0] == b[0] {
      BeforeTotal(a[1..], b[1..]);
      assert a == [a[0]] + a[1..] && b == [b[0]] + b[1..];
    }
  }

  lemma {:induction false} BeforeTrans(a: string, b: string, c: string)
    requires Before(a, b) && Before(b, c)
    ensures Before(a, c)
  {
    if a != "" && a[0] == b[0] == c[0] {
      BeforeTrans(a[1..], b[1..], c[1..]);
    }
  }

  /** Two keys of the same map. */
  predicate SameSort(a: Key, b: Key) {
    a.Idx? == b.Idx?
  }

  lemma KeyTotal(a: Key, b: Key)
    requires SameSort(a, b)
    ensures KeyLess(a, b) || KeyLess(b, a) || a == b
    ensures !(KeyLess(a, b) && KeyLess(b, a)) && (KeyLess(a, b) ==> a != b)
  {
    if a.Name? {
      BeforeTotal(a.name, b.name);
    }
  }

  lemma KeyTrans(a: Key, b: Key, c: Key)
    requires KeyLess(a, b) && KeyLess(b, c)
    ensures KeyLess(a, c)
  {
    if a.Name? {
      BeforeTrans(a.name, b.name, c.name);
    }
  }

  // ----- the ordered map -----

  predicate Above(key: Key, es: Entries) {
    es.Cons? ==> KeyLess(key, es.key) && Above(key, es.rest)
  }

  predicate Sorted(es: Entries) {
    es.Cons? ==> Above(es.key, es.rest) && Sorted(es.rest)
  }

  predicate Sort(es: Entries, indices: bool) {
    es.Cons? ==> es.key.Idx? == indices && Sort(es.rest, indices)
  }

  function Find(es: Entries, key: Key): Option<Value> {
    if es.Nil? then None else if es.key == key then Some(es.val) else Find(es.rest, key)
  }

  /** What `operator[]` finds or creates: the entry, or a fresh null. */
  function Get(es: Entries, key: Key): Value {
    match Find(es, key)
    case Some(v) => v
    case None => NULL_VALUE
  }

  function Put(es: Entries, key: Key, val: Value): Entries {
    if es.Nil? then Cons(key, val, Nil)
    else if es.key == key then Cons(key, val, es.rest)
    else if KeyLess(key, es.key) then Cons(key, val, es)
    else Cons(es.key, es.val, Put(es.rest, key, val))
  }

  function Append(a: Entries, b: Entries): Entries {
    if a.Nil? then b else Cons(a.key, a.val, Append(a.rest, b))
  }

  function Count(es: Entries): nat {
    if es.Nil? then 0 else 1 + Count(es.rest)
  }

  /** One more than the highest index. */
  function Size(es: Entries): nat {
    if es.Nil? || es.key.Name? then 0 else if es.rest.Nil? then es.key.index + 1 else Size(es.rest)
  }

  function At(es: Entries, i: nat): Value {
    Get(es, Idx(i))
  }

  lemma {:induction false} AboveTrans(key: Key, key': Key, es: Entries)
    requires KeyLess(key, key') && Above(key', es)
    ensures Above(key, es)
  {
    if es.Cons? {
      KeyTrans(key, key', es.key);
      AboveTrans(key, key', es.rest);
    }
  }

  lemma {:induction false} AbovePut(low: Key, es: Entries, key: Key, val: Value)
    requires Above(low, es) && KeyLess(low, key)
    ensures Above(low, Put(es, key, val))
  {
    if es.Cons? {
      AbovePut(low, es.rest, key, val);
    }
  }

  lemma {:induction false} PutSorted(es: Entries, key: Key, val: Value)
    requires Sorted(es) && Sort(es, key.Idx?)
    ensures Sorted(Put(es, key, val)) && Sort(Put(es, key, val), key.Idx?)
  {
    if es.Cons? && es.key != key {
      KeyTotal(es.key, key);
      if KeyLess(key, es.key) {
        AboveTrans(key, es.key, es.rest);
      } else {
        PutSorted(es.rest, key, val);
        AbovePut(es.key, es.rest, key, val);
      }
    }
  }

  lemma {:induction false} FindAbove(es: Entries, key: Key)
    requires Above(key, es)
    ensures Find(es, key) == None
  {
    if es.Cons? {
      KeyTotal(key, es.key);
      FindAbove(es.rest, key);
    }
  }

  lemma {:induction false} FindPut(es: Entries, key: Key, val: Value, k: Key)
    requires Sorted(es) && Sort(es, key.Idx?)
    ensures Find(Put(es, key, val), k) == if k == key then Some(val) else Find(es, k)
  {
    if es.Cons? && es.key != key {
      KeyTotal(es.key, key);
      FindPut(es.rest, key, val, k);
    }
  }

  /** Every key of `es` lies below `key`. */
  predicate Below(es: Entries, key: Key) {
    es.Cons? ==> KeyLess(es.key, key) && Below(es.rest, key)
  }

  lemma {:induction false} PutAtEnd(es: Entries, key: Key, val: Value)
    requires Below(es, key)
    ensures Find(es, key) == None
    ensures Put(es, key, val) == Append(es, Cons(key, val, Nil))
  {
    if es.Cons? {
      KeyTotal(es.key, key);
      PutAtEnd(es.rest, key, val);
    }
  }

  lemma {:induction false} AppendAssoc(a: Entries, b: Entries, c: Entries)
    ensures Append(Append(a, b), c) == Append(a, Append(b, c))
  {
    if a.Cons? {
      AppendAssoc(a.rest, b, c);
    }
  }

  lemma {:induction false} BelowAppend(a: Entries, b: Entries, key: Key)
    requires Below(a, key) && Below(b, key)
    ensures Below(Append(a, b), key)
  {
    if a.Cons? {
      BelowAppend(a.rest, b, key);
    }
  }

  // ----- a measure for recursion through the maps -----

  ghost function Weight(v: Value): nat {
    match v.data
    case Arr(es) => 1 + WeightOf(es)
    case Obj(es) => 1 + WeightOf(es)
    case _ => 0
  }

  ghost function WeightOf(es: Entries): nat {
    if es.Nil? then 0 else 1 + Weight(es.val) + WeightOf(es.rest)
  }

  lemma {:induction false} GetWeight(es: Entries, key: Key)
    ensures Weight(Get(es, key)) <= WeightOf(es)
  {
    if es.Cons? {
      GetWeight(es.rest, key);
    }
  }

  // ----- well-formed trees -----

  /** Maps are ordered, array keys are indices, object keys names, and strings hold no NUL. */
  ghost predicate WellFormed(v: Value) {
    match v.data
    case Str(s) => NulFree(s)
    case Arr(es) => Sorted(es) && Sort(es, true) && WellFormedOf(es)
    case Obj(es) => Sorted(es) && Sort(es, false) && WellFormedOf(es)
    case _ => true
  }

  ghost predicate WellFormedOf(es: Entries) {
    es.Cons? ==> (es.key.Name? ==> NulFree(es.key.name)) && WellFormed(es.val) && WellFormedOf(es.rest)
  }

  ghost predicate RealFree(v: Value) {
    match v.data
    case Real(_) => false
    case Arr(es) => RealFreeOf(es)
    case Obj(es) => RealFreeOf(es)
    case _ => true
  }

  ghost predicate RealFreeOf(es: Entries) {
    es.Cons? ==> RealFree(es.val) && RealFreeOf(es.rest)
  }

  /** The tree without its offsets. */
  function Strip(v: Value): Value {
    match v.data
    case Arr(es) => Plain(Arr(StripOf(es)))
    case Obj(es) => Plain(Obj(StripOf(es)))
    case _ => Plain(v.data)
  }

  function StripOf(es: Entries): Entries {
    if es.Nil? then Nil else Cons(es.key, Strip(es.val), StripOf(es.rest))
  }

  lemma {:induction false} StripGet(es: Entries, key: Key)
    ensures Strip(Get(es, key)) == Get(StripOf(es), key)
  {
    if es.Cons? {
      StripGet(es.rest, key);
    }
  }

  lemma {:induction false} StripPut(es: Entries, key: Key, val: Value)
    ensures StripOf(Put(es, key, val)) == Put(StripOf(es), key, Strip(val))
  {
    if es.Cons? {
      StripPut(es.rest, key, val);
    }
  }

  // ----- the order of values -----

  /** The numbering of `ValueType`. */
  function TypeRank(d: Data): nat {
    match d
    case Null => 0
    case Int(_) => 1
    case UInt(_) => 2
    case Real(_) => 3
    case Str(_) => 4
    case Bool(_) => 5
    case Arr(_) => 6
    case Obj(_) => 7
  }

  /** `operator<`; the comparison of doubles is not part of this model. */
  predicate Less(v: Value, w: Value)
    requires RealFree(v) && RealFree(w)
    decreases Weight(v) + Weight(w), 0
  {
    if TypeRank(v.data) != TypeRank(w.data) then TypeRank(v.data) < TypeRank(w.data)
    else
      match v.data
      case Null => false
      case Int(i) => i < w.data.i
      case UInt(u) => u < w.data.u
      case Real(_) => false
      case Str(s) => Before(s, w.data.s)
      case Bool(b) => !b && w.data.b
      case Arr(es) => MapLess(es, w.data.entries)
      case Obj(es) => MapLess(es, w.data.entries)
  }

  predicate MapLess(es: Entries, fs: Entries)
    requires RealFreeOf(es) && RealFreeOf(fs)
    decreases WeightOf(es) + WeightOf(fs), 2
  {
    if Count(es) != Count(fs) then Count(es) < Count(fs) else LexicographicallyLess(es, fs)
  }

  /** `std::lexicographical_compare` over (key, value) pairs. */
  predicate LexicographicallyLess(es: Entries, fs: Entries)
    requires RealFreeOf(es) && RealFreeOf(fs)
    decreases WeightOf(es) + WeightOf(fs), 1
  {
    fs.Cons? &&
    (es.Nil? || PairLess(es, fs) || (!PairLess(fs, es) && LexicographicallyLess(es.rest, fs.rest)))
  }

  predicate PairLess(es: Entries, fs: Entries)
    requires es.Cons? && fs.Cons? && RealFreeOf(es) && RealFreeOf(fs)
    decreases WeightOf(es) + WeightOf(fs), 0
  {
    KeyLess(es.key, fs.key) || (!KeyLess(fs.key, es.key) && Less(es.val, fs.val))
  }

  /** `operator==`. */
  predicate Equal(v: Value, w: Value)
    requires RealFree(v) && RealFree(w)
    decreases v, 0
  {
    TypeRank(v.data) == TypeRank(w.data) &&
    match v.data
    case Null => true
    case Int(i) => i == w.data.i
    case UInt(u) => u == w.data.u
    case Real(_) => false
    case Str(s) => s == w.data.s
    case Bool(b) => b == w.data.b
    case Arr(es) => MapEqual(es, w.data.entries)
    case Obj(es) => MapEqual(es, w.data.entries)
  }

  predicate MapEqual(es: Entries, fs: Entries)
    requires RealFreeOf(es) && RealFreeOf(fs)
    decreases es, 1
  {
    Count(es) == Count(fs) && PairwiseEqual(es, fs)
  }

  predicate PairwiseEqual(es: Entries, fs: Entries)
    requires RealFreeOf(es) && RealFreeOf(fs)
    decreases es, 0
  {
    if es.Nil? || fs.Nil? then es == fs
    else es.key == fs.key && Equal(es.val, fs.val) && PairwiseEqual(es.rest, fs.rest)
  }

  /** `compare`. */
  function Compare(v: Value, w: Value): int
    requires RealFree(v) && RealFree(w)
  {
    if Less(v, w) then -1 else if Less(w, v) then 1 else 0
  }

  /** Values are equal exactly when they differ in nothing but their offsets. */
  lemma {:induction false} EqualIsSameTree(v: Value, w: Value)
    requires RealFree(v) && RealFree(w)
    ensures Equal(v, w) <==> Strip(v) == Strip(w)
  {
    match v.data
    case Arr(es) =>
      if w.data.Arr? { MapEqualIsSameMap(es, w.data.entries); }
    case Obj(es) =>
      if w.data.Obj? { MapEqualIsSameMap(es, w.data.entries); }
    case _ =>
  }

  lemma {:induction false} MapEqualIsSameMap(es: Entries, fs: Entries)
    requires RealFreeOf(es) && RealFreeOf(fs)
    ensures PairwiseEqual(es, fs) <==> StripOf(es) == StripOf(fs)
    ensures PairwiseEqual(es, fs) ==> Count(es) == Count(fs)
  {
    if es.Cons? && fs.Cons? {
      EqualIsSameTree(es.val, fs.val);
      MapEqualIsSameMap(es.rest, fs.rest);
    }
  }

  // ----- the reference order: one three-way comparison -----

  ghost function CompareKeys(a: Key, b: Key): int {
    if KeyLess(a, b) then -1 else if KeyLess(b, a) then 1 else 0
  }

  /** By type, then by content; containers by entry count, then entry by entry. */
  ghost function ThreeWay(v: Value, w: Value): int
    decreases v, 0
  {
    var c := TypeRank(v.data) - TypeRank(w.data);
    if c != 0 then c
    else
      match v.data
      case Int(i) => i as int - w.data.i as int
      case UInt(u) => u as int - w.data.u as int
      case Str(s) => CompareKeys(Name(s), Name(w.data.s))
      case Bool(b) => if b == w.data.b then 0 else if b then 1 else -1
      case Arr(es) => ThreeWayMaps(es, w.data.entries)
      case Obj(es) => ThreeWayMaps(es, w.data.entries)
      case _ => 0
  }

  ghost function ThreeWayMaps(es: Entries, fs: Entries): int
    decreases es, 1
  {
    if Count(es) != Count(fs) then Count(es) - Count(fs) else ThreeWayEntries(es, fs)
  }

  ghost function ThreeWayEntries(es: Entries, fs: Entries): int
    decreases es, 0
  {
    if es.Nil? || fs.Nil? then (if es.Cons? then 1 else 0) - (if fs.Cons? then 1 else 0)
    else if CompareKeys(es.key, fs.key) != 0 then CompareKeys(es.key, fs.key)
    else if ThreeWay(es.val, fs.val) != 0 then ThreeWay(es.val, fs.val)
    else ThreeWayEntries(es.rest, fs.rest)
  }

  /** Swapping the operands swaps the sign, and zero means the same tree. */
  lemma {:induction false} ThreeWayFlips(v: Value, w: Value)
    requires RealFree(v) && RealFree(w) && WellFormed(v) && WellFormed(w)
    ensures ThreeWay(v, w) < 0 <==> ThreeWay(w, v) > 0
    ensures ThreeWay(v, w) == 0 <==> ThreeWay(w, v) == 0
    ensures ThreeWay(v, w) == 0 <==> Strip(v) == Strip(w)
    decreases v
  {
    match v.data
    case Str(s) =>
      if w.data.Str? { BeforeTotal(s, w.data.s); }
    case Arr(es) =>
      if w.data.Arr? { MapsFlip(es, w.data.entries, true); }
    case Obj(es) =>
      if w.data.Obj? { MapsFlip(es, w.data.entries, false); }
    case _ =>
  }

  lemma {:induction false} MapsFlip(es: Entries, fs: Entries, indices: bool)
    requires RealFreeOf(es) && RealFreeOf(fs) && WellFormedOf(es) && WellFormedOf(fs)
    requires Sort(es, indices) && Sort(fs, indices)
    ensures ThreeWayEntries(es, fs) < 0 <==> ThreeWayEntries(fs, es) > 0
    ensures ThreeWayEntries(es, fs) == 0 <==> ThreeWayEntries(fs, es) == 0
    ensures ThreeWayEntries(es, fs) == 0 <==> StripOf(es) == StripOf(fs)
    ensures StripOf(es) == StripOf(fs) ==> Count(es) == Count(fs)
    decreases es
  {
    if es.Cons? && fs.Cons? {
      KeyTotal(es.key, fs.key);
      ThreeWayFlips(es.val, fs.val);
      MapsFlip(es.rest, fs.rest, indices);
    }
  }

  lemma {:induction false} ThreeWayTrans(u: Value, v: Value, w: Value)
    requires RealFree(u) && RealFree(v) && RealFree(w) && WellFormed(u) && WellFormed(v) && WellFormed(w)
    requires ThreeWay(u, v) <= 0 && ThreeWay(v, w) <= 0
    ensures ThreeWay(u, w) <= 0
    ensures ThreeWay(u, w) == 0 ==> ThreeWay(u, v) == 0 && ThreeWay(v, w) == 0
    decreases u
  {
    if TypeRank(u.data) == TypeRank(v.data) == TypeRank(w.data) {
      match u.data
      case Str(s) =>
        KeyChain(Name(s), Name(v.data.s), Name(w.data.s));
      case Arr(es) =>
        MapsTrans(es, v.data.entries, w.data.entries, true);
      case Obj(es) =>
        MapsTrans(es, v.data.entries, w.data.entries, false);
      case _ =>
    }
  }

  lemma KeyChain(a: Key, b: Key, c: Key)
    requires SameSort(a, b) && SameSort(b, c)
    ensures CompareKeys(a, b) <= 0 && CompareKeys(b, c) <= 0 ==>
              CompareKeys(a, c) <= 0 && (CompareKeys(a, c) == 0 <==> a == b == c)
  {
    KeyTotal(a, b);
    KeyTotal(b, c);
    KeyTotal(a, c);
    if KeyLess(a, b) && KeyLess(b, c) {
      KeyTrans(a, b, c);
    }
  }

  lemma {:induction false} MapsTrans(es: Entries, fs: Entries, gs: Entries, indices: bool)
    requires RealFreeOf(es) && RealFreeOf(fs) && RealFreeOf(gs)
    requires WellFormedOf(es) && WellFormedOf(fs) && WellFormedOf(gs)
    requires Sort(es, indices) && Sort(fs, indices) && Sort(gs, indices)
    ensures ThreeWayEntries(es, fs) <= 0 && ThreeWayEntries(fs, gs) <= 0 ==>
              ThreeWayEntries(es, gs) <= 0 &&
              (ThreeWayEntries(es, gs) == 0 ==> ThreeWayEntries(es, fs) == 0 && ThreeWayEntries(fs, gs) == 0)
    decreases es
  {
    if es.Cons? && fs.Cons? && gs.Cons? {
      KeyChain(es.key, fs.key, gs.key);
      KeyTotal(es.key, fs.key);
      KeyTotal(fs.key, gs.key);
      if es.key == fs.key == gs.key && ThreeWay(es.val, fs.val) <= 0 && ThreeWay(fs.val, gs.val) <= 0 {
        ThreeWayTrans(es.val, fs.val, gs.val);
        MapsTrans(es.rest, fs.rest, gs.rest, indices);
      }
    }
  }

  /** `operator<` is the negative side of the reference order. */
  lemma {:induction false} LessIsThreeWay(v: Value, w: Value)
    requires RealFree(v) && RealFree(w) && WellFormed(v) && WellFormed(w)
    ensures Less(v, w) <==> ThreeWay(v, w) < 0
    decreases Weight(v) + Weight(w)
  {
    match v.data
    case Str(s) =>
      if w.data.Str? { BeforeTotal(s, w.data.s); }
    case Arr(es) =>
      if w.data.Arr? {
        MapLessIsThreeWay(es, w.data.entries, true);
        assert Less(v, w) == MapLess(es, w.data.entries);
      }
    case Obj(es) =>
      if w.data.Obj? {
        MapLessIsThreeWay(es, w.data.entries, false);
        assert Less(v, w) == MapLess(es, w.data.entries);
      }
    case _ =>
  }

  lemma {:induction false} MapLessIsThreeWay(es: Entries, fs: Entries, indices: bool)
    requires RealFreeOf(es) && RealFreeOf(fs) && WellFormedOf(es) && WellFormedOf(fs)
    requires Sort(es, indices) && Sort(fs, indices)
    ensures LexicographicallyLess(es, fs) <==> ThreeWayEntries(es, fs) < 0
    decreases WeightOf(es) + WeightOf(fs)
  {
    if es.Cons? && fs.Cons? {
      KeyTotal(es.key, fs.key);
      LessIsThreeWay(es.val, fs.val);
      LessIsThreeWay(fs.val, es.val);
      ThreeWayFlips(es.val, fs.val);
      MapLessIsThreeWay(es.rest, fs.rest, indices);
      assert PairLess(es, fs) <==> KeyLess(es.key, fs.key) || (!KeyLess(fs.key, es.key) && Less(es.val, fs.val));
      assert PairLess(fs, es) <==> KeyLess(fs.key, es.key) || (!KeyLess(es.key, fs.key) && Less(fs.val, es.val));
    }
  }

  // ----- the order of the kinds, spelled out -----

  /** Null, signed, unsigned, double, string, boolean, array, object. */
  predicate Precedes(d: Data, e: Data) {
    (d.Null? && !e.Null?) ||
    (d.Int? && (e.UInt? || e.Real? || e.Str? || e.Bool? || e.Arr? || e.Obj?)) ||
    (d.UInt? && (e.Real? || e.Str? || e.Bool? || e.Arr? || e.Obj?)) ||
    (d.Real? && (e.Str? || e.Bool? || e.Arr? || e.Obj?)) ||
    (d.Str? && (e.Bool? || e.Arr? || e.Obj?)) ||
    (d.Bool? && (e.Arr? || e.Obj?)) ||
    (d.Arr? && e.Obj?)
  }

  predicate SameKind(d: Data, e: Data) {
    d.Null? == e.Null? && d.Int? == e.Int? && d.UInt? == e.UInt? && d.Real? == e.Real? && d.Str? == e.Str? &&
    d.Bool? == e.Bool? && d.Arr? == e.Arr? && d.Obj? == e.Obj?
  }

  /**
   * Values of different kinds are never equal, and ordered as the kinds are; scalars of one kind as
   * their contents are, and containers of one kind by the number of entries first.
   */
  lemma LessByKind(v: Value, w: Value)
    requires RealFree(v) && RealFree(w)
    ensures !SameKind(v.data, w.data) ==> (Less(v, w) <==> Precedes(v.data, w.data)) && !Equal(v, w)
    ensures v.data.Null? && w.data.Null? ==> !Less(v, w) && Equal(v, w)
    ensures v.data.Int? && w.data.Int? ==> (Less(v, w) <==> v.data.i < w.data.i)
    ensures v.data.UInt? && w.data.UInt? ==> (Less(v, w) <==> v.data.u < w.data.u)
    ensures v.data.Bool? && w.data.Bool? ==> (Less(v, w) <==> v.data.b == false && w.data.b == true)
    ensures v.data.Str? && w.data.Str? ==> (Less(v, w) <==> exists k :: DifferAt(v.data.s, w.data.s, k))
    ensures (v.data.Arr? && w.data.Arr?) || (v.data.Obj? && w.data.Obj?) ==>
              Count(v.data.entries) != Count(w.data.entries) ==>
                (Less(v, w) <==> Count(v.data.entries) < Count(w.data.entries))
  {
    if v.data.Str? && w.data.Str? {
      BeforeIsFirstDifference(v.data.s, w.data.s);
    }
    hide Before, DifferAt, LexicographicallyLess, PairwiseEqual, Count;
  }

  /** On real-free trees `operator<` is a strict total order that agrees with `operator==` and `compare`. */
  lemma StrictTotalOrder(u: Value, v: Value, w: Value)
    requires RealFree(u) && RealFree(v) && RealFree(w) && WellFormed(u) && WellFormed(v) && WellFormed(w)
    ensures !Less(u, u)
    ensures Less(u, v) && Less(v, w) ==> Less(u, w)
    ensures Equal(u, v) <==> !Less(u, v) && !Less(v, u)
    ensures Equal(u, v) <==> Strip(u) == Strip(v)
    ensures Equal(u, v) && Less(v, w) ==> Less(u, w)
    ensures Compare(u, v) < 0 <==> Less(u, v)
    ensures Compare(u, v) > 0 <==> Less(v, u)
    ensures Compare(v, u) == -Compare(u, v)
  {
    LessIsThreeWay(u, u);
    LessIsThreeWay(u, v);
    LessIsThreeWay(v, u);
    LessIsThreeWay(v, w);
    LessIsThreeWay(u, w);
    ThreeWayFlips(u, u);
    ThreeWayFlips(u, v);
    EqualIsSameTree(u, v);
    if ThreeWay(u, v) <= 0 && ThreeWay(v, w) <= 0 {
      ThreeWayTrans(u, v, w);
    }
  }
}
