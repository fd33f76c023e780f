/** Sparse arrays as ordered maps, and the null-padded sequences they stand for. */
module Arrays {
  import opened Text
  import opened Numbers
  import opened Values

  /** The 32-bit `ArrayIndex`. */
  type Index = i: nat | i < 0x1_0000_0000

  predicate Array(es: Entries) {
    Sorted(es) && Sort(es, true)
  }

  /** An array whose indices are 32-bit ones. */
  predicate Bounded(es: Entries) {
    Array(es) && Size(es) <= TWO_32
  }

  /** The null-padded sequence a sparse array stands for. */
  function Elements(es: Entries): (s: seq<Value>)
    ensures |s| == Size(es)
  {
    seq(Size(es), (i: nat) => At(es, i))
  }

  function Max(a: nat, b: nat): nat {
    if a < b then b else a
  }

  function Padded(s: seq<Value>, size: nat): (t: seq<Value>)
    ensures |t| == Max(|s|, size)
    ensures forall i :: 0 <= i < |t| ==> t[i] == if i < |s| then s[i] else NULL_VALUE
  {
    if size <= |s| then s else s + seq(size - |s|, _ => NULL_VALUE)
  }

  // ----- facts about the map -----

  lemma {:induction false} SizeAbove(es: Entries, low: Key)
    requires es.Cons? && Array(es) && low.Idx? && Above(low, es)
    ensures Size(es) > low.index + 1
  {
    if es.rest.Cons? {
      SizeAbove(es.rest, es.key);
    }
  }

  lemma {:induction false} BeyondSize(es: Entries, i: nat)
    requires Array(es) && i >= Size(es)
    ensures Find(es, Idx(i)) == None
  {
    if es.Cons? {
      if es.rest.Cons? {
        SizeAbove(es.rest, es.key);
      }
      BeyondSize(es.rest, i);
    }
  }

  lemma {:induction false} LastIsStored(es: Entries)
    requires Array(es) && Size(es) > 0
    ensures Find(es, Idx(Size(es) - 1)).Some?
  {
    if es.rest.Cons? {
      LastIsStored(es.rest);
    }
  }

  lemma {:induction false} SizePut(es: Entries, i: nat, val: Value)
    requires Array(es)
    ensures Size(Put(es, Idx(i), val)) == Max(Size(es), i + 1)
  {
    if es.Cons? {
      if es.rest.Cons? {
        SizeAbove(es.rest, es.key);
      }
      if es.key != Idx(i) && es.key.index < i {
        SizePut(es.rest, i, val);
      }
    }
  }

  /** A write through `operator[]` pads with nulls up to the index and stores the value there. */
  lemma PutRefines(es: Entries, i: nat, val: Value)
    requires Array(es)
    ensures Array(Put(es, Idx(i), val))
    ensures Elements(Put(es, Idx(i), val)) == Padded(Elements(es), i + 1)[i := val]
  {
    PutSorted(es, Idx(i), val);
    SizePut(es, i, val);
    forall j | 0 <= j < Max(Size(es), i + 1)
      ensures At(Put(es, Idx(i), val), j) == Padded(Elements(es), i + 1)[i := val][j]
    {
      FindPut(es, Idx(i), val, Idx(j));
      if j >= Size(es) {
        BeyondSize(es, j);
      }
    }
  }

  function Remove(es: Entries, key: Key): Entries {
    if es.Nil? then Nil
    else if es.key == key then es.rest
    else Cons(es.key, es.val, Remove(es.rest, key))
  }

  lemma {:induction false} RemoveFacts(es: Entries, key: Key, k: Key, low: Key)
    requires Array(es)
    ensures Array(Remove(es, key))
    ensures Find(Remove(es, key), k) == if k == key then None else Find(es, k)
    ensures Above(low, es) ==> Above(low, Remove(es, key))
  {
    if es.Cons? {
      RemoveFacts(es.rest, key, k, low);
      RemoveFacts(es.rest, key, k, es.key);
      if es.key == key {
        FindAbove(es.rest, key);
        if Above(low, es) {
          AboveTrans(low, es.key, es.rest);
        }
      }
    }
  }

  /** Two arrays with the same entries below `n` and none from `n` on. */
  lemma SizeBounded(es: Entries, n: nat)
    requires Array(es) && forall i: nat :: i >= n ==> Find(es, Idx(i)) == None
    ensures Size(es) <= n
    ensures n > 0 && Find(es, Idx(n - 1)).Some? ==> Size(es) == n
    ensures n > 0 && Find(es, Idx(n - 1)).None? ==> Size(es) < n
  {
    if Size(es) > 0 {
      LastIsStored(es);
    }
    if n > Size(es) {
      BeyondSize(es, n - 1);
    }
  }

  /** Gaps stay gaps. */
  lemma OthersKept(es: Entries, index: nat, val: Value)
    requires Array(es)
    ensures forall i: nat :: i != index ==> Find(Put(es, Idx(index), val), Idx(i)) == Find(es, Idx(i))
  {
    forall i: nat | i != index
      ensures Find(Put(es, Idx(index), val), Idx(i)) == Find(es, Idx(i))
    {
      FindPut(es, Idx(index), val, Idx(i));
    }
  }

  /** Arrays with the same entries are the same. */
  lemma {:induction false} SameEntries(es: Entries, fs: Entries)
    requires Array(es) && Array(fs) && forall i: nat :: Find(es, Idx(i)) == Find(fs, Idx(i))
    ensures es == fs
  {
    if es.Cons? {
      assert Find(es, Idx(es.key.index)) == Find(fs, Idx(es.key.index));
    }
    if fs.Cons? {
      assert Find(es, Idx(fs.key.index)) == Find(fs, Idx(fs.key.index));
    }
    if es.Cons? && fs.Cons? {
      if es.key.index < fs.key.index {
        AboveTrans(es.key, fs.key, fs.rest);
        FindAbove(fs, es.key);
      } else if fs.key.index < es.key.index {
        AboveTrans(fs.key, es.key, es.rest);
        FindAbove(es, fs.key);
      }
      FindAbove(es.rest, es.key);
      FindAbove(fs.rest, es.key);
      forall i: nat ensures Find(es.rest, Idx(i)) == Find(fs.rest, Idx(i)) {
        assert Find(es, Idx(i)) == Find(fs, Idx(i));
      }
      SameEntries(es.rest, fs.rest);
    }
  }

  lemma PutTwice(es: Entries, i: nat, val: Value)
    requires Array(es)
    ensures Put(Put(es, Idx(i), NULL_VALUE), Idx(i), val) == Put(es, Idx(i), val)
    ensures Find(es, Idx(i)).Some? ==> Put(es, Idx(i), At(es, i)) == es
  {
    PutSorted(es, Idx(i), NULL_VALUE);
    PutSorted(es, Idx(i), val);
    PutSorted(Put(es, Idx(i), NULL_VALUE), Idx(i), val);
    PutSorted(es, Idx(i), At(es, i));
    forall j: nat
      ensures Find(Put(Put(es, Idx(i), NULL_VALUE), Idx(i), val), Idx(j)) == Find(Put(es, Idx(i), val), Idx(j))
      ensures Find(es, Idx(i)).Some? ==> Find(Put(es, Idx(i), At(es, i)), Idx(j)) == Find(es, Idx(j))
    {
      FindPut(es, Idx(i), NULL_VALUE, Idx(j));
      FindPut(Put(es, Idx(i), NULL_VALUE), Idx(i), val, Idx(j));
      FindPut(es, Idx(i), val, Idx(j));
      FindPut(es, Idx(i), At(es, i), Idx(j));
    }
    hide Put, Find, Array;
    SameEntries(Put(Put(es, Idx(i), NULL_VALUE), Idx(i), val), Put(es, Idx(i), val));
    if Find(es, Idx(i)).Some? {
      SameEntries(Put(es, Idx(i), At(es, i)), es);
    }
  }

  // ----- operations on the map -----

  datatype Operation =
    | Store(index: Index, val: Value)
    | Push(val: Value)
    | Touch(index: Index)
    | Empty
    | Resize(size: Index)
    | Look(index: Index)
    | Measure

  /** What is left of the map when everything from index `n` on is erased. */
  function CutOff(es: Entries, n: nat): Entries {
    if es.Cons? && es.key.Idx? && es.key.index < n then Cons(es.key, es.val, CutOff(es.rest, n)) else Nil
  }

  /** What an operation does to the map; `size()` wraps at 32 bits. */
  function OnMap(es: Entries, op: Operation): Entries {
    match op
    case Store(i, v) => Put(es, Idx(i), v)
    case Push(v) => Put(es, Idx(Size(es) % TWO_32), v)
    case Touch(i) => Put(es, Idx(i), At(es, i))
    case Empty => Nil
    case Resize(n) =>
      if n == 0 then Nil
      else if n > Size(es) % TWO_32 then Put(es, Idx(n - 1), At(es, n - 1))
      else CutOff(es, n)
    case Look(_) => es
    case Measure => es
  }

  lemma {:induction false} CutOffFacts(es: Entries, n: nat, i: nat, low: Key)
    requires Array(es)
    ensures Array(CutOff(es, n)) && (Above(low, es) ==> Above(low, CutOff(es, n)))
    ensures Find(CutOff(es, n), Idx(i)) == if i < n then Find(es, Idx(i)) else None
  {
    if es.Cons? {
      CutOffFacts(es.rest, n, i, low);
      CutOffFacts(es.rest, n, i, es.key);
      if es.key.index >= n && i < n {
        AboveTrans(Idx(i), es.key, es.rest);
        FindAbove(es, Idx(i));
      }
    }
  }

  /** Erasing entry by entry from `n` on comes to the same. */
  lemma CutOffIs(es: Entries, n: nat, fs: Entries)
    requires Array(es) && Array(fs)
    requires forall i: nat :: Find(fs, Idx(i)) == if i < n then Find(es, Idx(i)) else None
    ensures fs == CutOff(es, n)
  {
    CutOffFacts(es, n, 0, Idx(0));
    forall i: nat ensures Find(CutOff(es, n), Idx(i)) == Find(fs, Idx(i)) {
      CutOffFacts(es, n, i, Idx(0));
    }
    SameEntries(fs, CutOff(es, n));
  }

  // ----- the class -----

  /** A `Value` used as an array: null until the first write. */
  class ArrayValue {
    var data: Data
    var start: int
    var limit: int

    predicate Valid()
      reads this
    {
      data.Null? || (data.Arr? && Bounded(data.entries))
    }

    function Entries(): (es: Entries)
      requires Valid()
      reads this
      ensures Bounded(es)
    {
      if data.Null? then Nil else data.entries
    }

    function Contents(): seq<Value>
      requires Valid()
      reads this
    {
      Elements(Entries())
    }

    constructor ()
      ensures Valid() && Contents() == [] && Entries() == Nil && start == limit == 0
    {
      data, start, limit := Null, 0, 0;
    }

    /** `size()`: the increment wraps at 32 bits. */
    method SizeOf() returns (size: Index)
      requires Valid()
      ensures size == |Contents()| % TWO_32
    {
      size := Size(Entries()) % TWO_32;
    }

    /** `operator[] const`. */
    method Read(index: Index) returns (val: Value)
      requires Valid()
      ensures val == At(Entries(), index)
      ensures val == if index < |Contents()| then Contents()[index] else NULL_VALUE
    {
      if data.Null? {
        return NULL_VALUE;
      }
      if index >= Size(data.entries) {
        BeyondSize(data.entries, index);
      }
      val := At(data.entries, index);
    }

    /** The assignment of a fresh array to a null value, which has no offsets. */
    method BecomeArray()
      requires Valid()
      modifies this
      ensures Valid() && data.Arr? && Entries() == old(Entries())
      ensures start == (if old(data).Null? then 0 else old(start)) &&
              limit == (if old(data).Null? then 0 else old(limit))
    {
      if data.Null? {
        data, start, limit := Arr(Nil), 0, 0;
      }
    }

    /** `operator[]`: finds the entry or inserts a null. */
    method Resolve(index: Index)
      requires Valid()
      modifies this
      ensures Valid() && data.Arr? && Entries() == OnMap(old(Entries()), Touch(index))
      ensures Contents() == Padded(old(Contents()), index + 1)
      ensures Find(Entries(), Idx(index)).Some?
      ensures forall i: nat :: i != index ==> Find(Entries(), Idx(i)) == Find(old(Entries()), Idx(i))
      ensures start == (if old(data).Null? then 0 else old(start)) &&
              limit == (if old(data).Null? then 0 else old(limit))
    {
      BecomeArray();
      var es := data.entries;
      TouchRefines(es, index);
      PutTwice(es, index, NULL_VALUE);
      FindPut(es, Idx(index), At(es, index), Idx(index));
      OthersKept(es, index, At(es, index));
      hide Put, Elements, Array;
      if Find(es, Idx(index)).None? {
        data := Arr(Put(es, Idx(index), NULL_VALUE));
      }
    }

    method Write(index: Index, val: Value)
      requires Valid()
      modifies this
      ensures Valid() && Entries() == OnMap(old(Entries()), Store(index, val))
      ensures Contents() == Padded(old(Contents()), index + 1)[index := val]
      ensures forall i: nat :: i != index ==> Find(Entries(), Idx(i)) == Find(old(Entries()), Idx(i))
      ensures start == (if old(data).Null? then 0 else old(start)) &&
              limit == (if old(data).Null? then 0 else old(limit))
    {
      ghost var es := Entries();
      PutRefines(es, index, val);
      OthersKept(es, index, val);
      WriteTwice(es, index, val);
      Resolve(index);
      hide Put, Elements, Array, Find;
      data := Arr(Put(data.entries, Idx(index), val));
    }

    /** Appends, unless the array has grown to 2^32 elements: then `size()` is 0 and the first one is replaced. */
    method Append(val: Value)
      requires Valid()
      modifies this
      ensures Valid() && Entries() == OnMap(old(Entries()), Push(val))
      ensures Contents() == if |old(Contents())| < TWO_32 then old(Contents()) + [val] else old(Contents())[0 := val]
    {
      ghost var was := Contents();
      Wraps(|was|);
      var size := SizeOf();
      hide Put, Elements, Array, Find, Size;
      Write(size, val);
      if |was| < TWO_32 {
        assert Padded(was, |was| + 1)[|was| := val] == was + [val];
      }
    }

    /** Forgets the offsets as well. */
    method Clear()
      requires Valid()
      modifies this
      ensures Valid() && Contents() == [] && Entries() == Nil && start == limit == 0
      ensures data.Null? <==> old(data).Null?
    {
      start, limit := 0, 0;
      if data.Arr? {
        data := Arr(Nil);
      }
    }

    /**
     * `resize`.  Growing pads with nulls.  Shrinking erases entries from `newSize` on; `asserted`
     * is the assertion the code makes afterwards, which fails exactly when the last index kept is a
     * gap.  At 2^32 elements `size()` is 0, and only a resize to 0 has an effect.
     */
    method Resize(newSize: Index) returns (asserted: bool)
      requires Valid()
      modifies this
      ensures Valid() && Entries() == OnMap(old(Entries()), Operation.Resize(newSize))
      ensures asserted <==>
                newSize == 0 || newSize > |old(Contents())| % TWO_32 || Find(old(Entries()), Idx(newSize - 1)).Some?
      ensures newSize == 0 ==> Contents() == []
      ensures newSize > |old(Contents())| % TWO_32 ==> Contents() == Padded(old(Contents()), newSize)
      ensures asserted && newSize <= |old(Contents())| % TWO_32 ==> Contents() == old(Contents())[..newSize]
    {
      BecomeArray();
      ghost var es := data.entries;
      var oldSize := SizeOf();
      if newSize == 0 {
        Clear();
        return true;
      }
      if newSize > oldSize {
        Resolve(newSize - 1);
        return true;
      }
      assert oldSize == Size(es);
      EraseFrom(newSize, oldSize);
      CutOffRefines(es, newSize);
      CutOffBounded(es, newSize);
      hide CutOff, Elements, Array, Find;
      var size := SizeOf();
      asserted := size == newSize;
    }

    /** The loop that erases. */
    method EraseFrom(newSize: Index, oldSize: Index)
      requires Valid() && data.Arr? && newSize <= oldSize == Size(data.entries)
      modifies this`data
      ensures data == Arr(CutOff(old(data.entries), newSize))
    {
      ghost var es := data.entries;
      var index := newSize;
      while index < oldSize
        invariant newSize <= index <= oldSize && data.Arr? && Array(data.entries)
        invariant forall i: nat :: Find(data.entries, Idx(i)) == if newSize <= i < index then None else Find(es, Idx(i))
      {
        forall i: nat
          ensures Find(Remove(data.entries, Idx(index)), Idx(i)) ==
                    if i == index then None else Find(data.entries, Idx(i))
          ensures Array(Remove(data.entries, Idx(index)))
        {
          RemoveFacts(data.entries, Idx(index), Idx(i), Idx(0));
        }
        data := Arr(Remove(data.entries, Idx(index)));
        index := index + 1;
      }
      forall i: nat
        ensures Find(data.entries, Idx(i)) == if i < newSize then Find(es, Idx(i)) else None
      {
        if i >= oldSize {
          BeyondSize(es, i);
        }
        assert Find(data.entries, Idx(i)) == if newSize <= i < index then None else Find(es, Idx(i));
      }
      CutOffIs(es, newSize, data.entries);
    }
  }

  lemma WriteTwice(es: Entries, i: nat, val: Value)
    requires Array(es)
    ensures Put(Put(es, Idx(i), At(es, i)), Idx(i), val) == Put(es, Idx(i), val)
  {
    PutTwice(es, i, val);
    hide Put, Array;
  }

  /** Cut short behind a gap, an array is too short and the assertion fails. */
  method ShrinkIntoGap(val: Value) returns (asserted: bool)
    ensures !asserted
  {
    var v := new ArrayValue();
    v.Write(5, val);
    asserted := v.Resize(3);
  }

  /** Appended to 2^32 elements, a value replaces the first one. */
  method AppendWraps(last: Value, val: Value) returns (first: Value, size: Index)
    ensures first == val && size == 0
  {
    hide Elements, Put, Find, Array;
    var v := new ArrayValue();
    v.Write(TWO_32 - 1, last);
    v.Append(val);
    first := v.Read(0);
    size := v.SizeOf();
  }

  lemma TouchRefines(es: Entries, i: nat)
    requires Array(es)
    ensures Array(Put(es, Idx(i), At(es, i)))
    ensures Elements(Put(es, Idx(i), At(es, i))) == Padded(Elements(es), i + 1)
  {
    PutRefines(es, i, At(es, i));
    if i >= Size(es) {
      BeyondSize(es, i);
    }
    assert Padded(Elements(es), i + 1)[i] == At(es, i);
  }

  lemma CutOffBounded(es: Entries, n: nat)
    requires Array(es)
    ensures Array(CutOff(es, n)) && Size(CutOff(es, n)) <= n
    ensures n > 0 ==> (Size(CutOff(es, n)) == n <==> Find(es, Idx(n - 1)).Some?)
  {
    forall i: nat
      ensures Array(CutOff(es, n)) && Find(CutOff(es, n), Idx(i)) == if i < n then Find(es, Idx(i)) else None
    {
      CutOffFacts(es, n, i, Idx(0));
    }
    SizeBounded(CutOff(es, n), n);
  }

  /** Cutting off refines taking a prefix if and only if the last index kept is stored. */
  lemma CutOffRefines(es: Entries, n: nat)
    requires Array(es) && n <= Size(es)
    ensures Elements(CutOff(es, n)) == Elements(es)[..n] <==> n == 0 || Find(es, Idx(n - 1)).Some?
  {
    CutOffBounded(es, n);
    forall i: nat
      ensures Find(CutOff(es, n), Idx(i)) == if i < n then Find(es, Idx(i)) else None
    {
      CutOffFacts(es, n, i, Idx(0));
    }
    hide Find, Size, CutOff;
    if n == 0 || Find(es, Idx(n - 1)).Some? {
      assert forall i: nat :: i < n ==> At(CutOff(es, n), i) == At(es, i);
    }
  }

  // ----- whole runs -----

  /** What an operation does to a sequence of any length. */
  function OnSequence(s: seq<Value>, op: Operation): seq<Value> {
    match op
    case Store(i, v) => Padded(s, i + 1)[i := v]
    case Push(v) => s + [v]
    case Touch(i) => Padded(s, i + 1)
    case Empty => []
    case Resize(n) => if n > |s| then Padded(s, n) else s[..n]
    case Look(_) => s
    case Measure => s
  }

  /** What a caller sees of an operation. */
  datatype Sight = Element(val: Value) | Length(n: nat) | Blank

  function SeenOfMap(es: Entries, op: Operation): Sight {
    match op
    case Look(i) => Element(At(es, i))
    case Measure => Length(Size(es) % TWO_32)
    case _ => Blank
  }

  function SeenOfSequence(s: seq<Value>, op: Operation): Sight {
    match op
    case Look(i) => Element(if i < |s| then s[i] else NULL_VALUE)
    case Measure => Length(|s|)
    case _ => Blank
  }

  /** No resize cuts the array off behind a gap, and at 2^32 elements nothing asks for its size. */
  predicate Proper(es: Entries, op: Operation) {
    match op
    case Push(_) => Size(es) < TWO_32
    case Measure => Size(es) < TWO_32
    case Resize(n) => n == 0 || (Size(es) < TWO_32 && (n > Size(es) || Find(es, Idx(n - 1)).Some?))
    case _ => true
  }

  predicate ProperRun(es: Entries, ops: seq<Operation>)
    decreases |ops|
  {
    ops != [] ==> Proper(es, ops[0]) && ProperRun(OnMap(es, ops[0]), ops[1..])
  }

  function RunOnMap(es: Entries, ops: seq<Operation>): (Entries, seq<Sight>)
    decreases |ops|
  {
    if ops == [] then (es, [])
    else
      var (last, sights) := RunOnMap(OnMap(es, ops[0]), ops[1..]);
      (last, [SeenOfMap(es, ops[0])] + sights)
  }

  function RunOnSequence(s: seq<Value>, ops: seq<Operation>): (seq<Value>, seq<Sight>)
    decreases |ops|
  {
    if ops == [] then (s, [])
    else
      var (last, sights) := RunOnSequence(OnSequence(s, ops[0]), ops[1..]);
      (last, [SeenOfSequence(s, ops[0])] + sights)
  }

  lemma NothingStored()
    ensures Array(Nil) && Elements(Nil) == []
  {
  }

  /** Reading and measuring agree, the latter below 2^32 elements. */
  lemma SightsAgree(es: Entries, op: Operation)
    requires Bounded(es)
    ensures op.Look? ==> SeenOfMap(es, op) == SeenOfSequence(Elements(es), op)
    ensures op.Measure? ==> (SeenOfMap(es, op) == SeenOfSequence(Elements(es), op) <==> Size(es) < TWO_32)
  {
    if op.Look? && op.index >= Size(es) {
      BeyondSize(es, op.index);
    }
  }

  lemma ResizeAgrees(es: Entries, n: Index)
    requires Bounded(es)
    ensures Bounded(OnMap(es, Operation.Resize(n)))
    ensures Elements(OnMap(es, Operation.Resize(n))) == OnSequence(Elements(es), Operation.Resize(n)) <==>
            Proper(es, Operation.Resize(n))
  {
    Wraps(Size(es));
    if n == 0 {
      NothingStored();
      hide Elements;
    } else if n > Size(es) % TWO_32 {
      TouchRefines(es, n - 1);
      hide Put, Elements, Find, CutOff, Array, Size;
    } else {
      CutOffBounded(es, n);
      CutOffRefines(es, n);
      hide Put, Elements, Find, CutOff, Array, Size;
    }
  }

  lemma Wraps(n: nat)
    requires n <= TWO_32
    ensures n % TWO_32 == if n < TWO_32 then n else 0
  {
  }

  lemma PushAgrees(es: Entries, val: Value)
    requires Bounded(es)
    ensures Bounded(OnMap(es, Push(val)))
    ensures Elements(OnMap(es, Push(val))) == Elements(es) + [val] <==> Size(es) < TWO_32
  {
    Wraps(Size(es));
    if Size(es) < TWO_32 {
      AppendsOne(es, val);
    } else {
      PutRefines(es, 0, val);
      hide Put, Elements, Array, Size;
      assert |Elements(Put(es, Idx(0), val))| == |Elements(es)|;
    }
  }

  lemma AppendsOne(es: Entries, val: Value)
    requires Array(es)
    ensures Array(Put(es, Idx(Size(es)), val))
    ensures Elements(Put(es, Idx(Size(es)), val)) == Elements(es) + [val]
  {
    PutRefines(es, Size(es), val);
    hide Put, Elements, Array, Size;
    assert Padded(Elements(es), Size(es) + 1)[Size(es) := val] == Elements(es) + [val];
  }

  /**
   * An operation does to the map and shows of it what it does to the sequence and shows of it, if
   * and only if it neither cuts off behind a gap nor asks for a size that wraps.
   */
  lemma StepAgrees(es: Entries, op: Operation)
    requires Bounded(es)
    ensures Bounded(OnMap(es, op))
    ensures Elements(OnMap(es, op)) == OnSequence(Elements(es), op) &&
            SeenOfMap(es, op) == SeenOfSequence(Elements(es), op) <==>
            Proper(es, op)
  {
    SightsAgree(es, op);
    hide Put, Elements, Find, Get, CutOff, Array;
    match op
    case Store(i, v) => PutRefines(es, i, v);
    case Push(v) => PushAgrees(es, v);
    case Touch(i) => TouchRefines(es, i);
    case Empty => NothingStored();
    case Resize(n) => ResizeAgrees(es, n);
    case _ =>
  }

  /** Over any run of proper operations the sparse map and the null-padded sequence agree, in all that is seen. */
  lemma {:induction false} RunsAgree(es: Entries, ops: seq<Operation>)
    requires Bounded(es) && ProperRun(es, ops)
    ensures Bounded(RunOnMap(es, ops).0) && Elements(RunOnMap(es, ops).0) == RunOnSequence(Elements(es), ops).0
    ensures RunOnMap(es, ops).1 == RunOnSequence(Elements(es), ops).1
    decreases |ops|
  {
    hide Bounded, OnMap, OnSequence, SeenOfMap, SeenOfSequence, Proper, Elements;
    if ops != [] {
      StepAgrees(es, ops[0]);
      RunsAgree(OnMap(es, ops[0]), ops[1..]);
    }
  }
}
