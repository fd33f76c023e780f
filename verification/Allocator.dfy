/** `BatchAllocator`: slots carved from batches of memory, and a free list threaded through released slots. */
module Allocator {
  import opened Text

  /** The place of an allocation: a batch, in order of creation, and an offset in it. */
  datatype Slot = Slot(batch: nat, index: nat)

  /** A batch's `used_` and `end_`, as offsets into its buffer. */
  datatype Batch = Batch(used: nat, end: nat)

  // ---- Offsets at multiples of the allocation size

  predicate Aligned(x: int, a: nat)
    requires a > 0
  {
    x % a == 0
  }

  lemma Products(a: nat, i: int, j: int)
    ensures i <= j ==> a * i <= a * j
    ensures i < j ==> a * i + a <= a * j
  {
    if i < j {
      assert a * (i + 1) <= a * j;
    }
  }

  /** Two aligned offsets are equal or at least one allocation apart. */
  lemma AlignedApart(x: nat, y: nat, a: nat)
    requires a > 0 && Aligned(x, a) && Aligned(y, a) && x < y
    ensures x + a <= y
  {
    assert x == a * (x / a) && y == a * (y / a);
    Products(a, x / a, y / a);
    Products(a, y / a, x / a);
  }

  lemma NextAligned(x: nat, a: nat)
    requires a > 0 && Aligned(x, a)
    ensures Aligned(x + a, a)
  {
    var q, q' := x / a, (x + a) / a;
    assert x == a * q && x + a == a * q' + (x + a) % a;
    Products(a, q + 1, q');
    Products(a, q', q + 1);
    Products(a, q + 1, q' - 1);
  }

  // ---- The batches and the slots carved from them

  predicate AlignedBatch(b: Batch, a: nat)
    requires a > 0
  {
    b.used <= b.end && Aligned(b.used, a) && Aligned(b.end, a)
  }

  predicate Carved(batches: seq<Batch>, a: nat, s: Slot)
    requires a > 0
  {
    s.batch < |batches| && s.index < batches[s.batch].used && Aligned(s.index, a)
  }

  /** Every batch is aligned, and every batch but the newest is used up. */
  predicate BatchesFit(batches: seq<Batch>, a: nat)
    requires a > 0
  {
    |batches| > 0 &&
    (forall b :: 0 <= b < |batches| ==> AlignedBatch(batches[b], a)) &&
    (forall b :: 0 <= b < |batches| - 1 ==> batches[b].used == batches[b].end)
  }

  lemma CarvedSlotFits(batches: seq<Batch>, a: nat, s: Slot)
    requires a > 0 && BatchesFit(batches, a) && Carved(batches, a, s)
    ensures s.index + a <= batches[s.batch].used <= batches[s.batch].end
  {
    hide Aligned;
    assert AlignedBatch(batches[s.batch], a);
    AlignedApart(s.index, batches[s.batch].used, a);
  }

  /** The newest batch's next allocation. */
  function CarveLast(batches: seq<Batch>, a: nat): seq<Batch>
    requires |batches| > 0
  {
    var last := batches[|batches| - 1];
    batches[|batches| - 1 := last.(used := last.used + a)]
  }

  lemma CarveLastFits(batches: seq<Batch>, a: nat)
    requires a > 0 && BatchesFit(batches, a) && batches[|batches| - 1].used < batches[|batches| - 1].end
    ensures BatchesFit(CarveLast(batches, a), a)
  {
    hide Aligned;
    var last := batches[|batches| - 1];
    assert AlignedBatch(last, a);
    NextAligned(last.used, a);
    AlignedApart(last.used, last.end, a);
  }

  /** Carving adds one slot, which was not carved before. */
  lemma CarveLastAddsOne(batches: seq<Batch>, a: nat, s: Slot)
    requires a > 0 && BatchesFit(batches, a)
    ensures var newest := Slot(|batches| - 1, batches[|batches| - 1].used);
            !Carved(batches, a, newest) &&
            (Carved(CarveLast(batches, a), a, s) <==> Carved(batches, a, s) || s == newest)
  {
    hide Aligned;
    var last := batches[|batches| - 1];
    assert AlignedBatch(last, a);
    if s.batch == |batches| - 1 && Aligned(s.index, a) && last.used < s.index {
      AlignedApart(last.used, s.index, a);
    }
  }

  // ---- The free list

  /** The list behind a head pointer, following the links stored in the slots. */
  predicate Chain(head: Option<Slot>, links: map<Slot, Option<Slot>>, free: seq<Slot>)
    decreases |free|
  {
    if free == [] then head == None
    else head == Some(free[0]) && free[0] in links && Chain(links[free[0]], links, free[1..])
  }

  lemma {:induction false} ChainFrame(head: Option<Slot>, links: map<Slot, Option<Slot>>, free: seq<Slot>, s: Slot,
                                      next: Option<Slot>)
    requires Chain(head, links, free) && s !in free
    ensures Chain(head, links[s := next], free)
    decreases |free|
  {
    if free != [] {
      ChainFrame(links[free[0]], links, free[1..], s, next);
    }
  }

  predicate Distinct(free: seq<Slot>) {
    forall i, j :: 0 <= i < j < |free| ==> free[i] != free[j]
  }

  /** Live and free slots together are the carved ones, and no slot is both. */
  ghost predicate Accounted(batches: seq<Batch>, a: nat, live: set<Slot>, free: seq<Slot>)
    requires a > 0
  {
    Distinct(free) &&
    (forall s :: s in free ==> s !in live) &&
    (forall s :: Carved(batches, a, s) <==> s in live || s in free)
  }

  class BatchAllocator {
    const perAllocation: nat
    const perPage: nat
    var batches: seq<Batch>
    var current: nat
    var freeHead: Option<Slot>
    var links: map<Slot, Option<Slot>>
    ghost var free: seq<Slot>
    ghost var live: set<Slot>

    /** The allocation size divides the page; the newest batch is the current one. */
    ghost predicate Valid()
      reads this
    {
      perAllocation > 0 && perPage >= 16 && Aligned(perPage, perAllocation) &&
      BatchesFit(batches, perAllocation) && current == |batches| - 1 &&
      Chain(freeHead, links, free) &&
      Accounted(batches, perAllocation, live, free)
    }

    constructor (perAllocation: nat, perPage: nat)
      requires perAllocation > 0 && perPage >= 16 && Aligned(perPage, perAllocation)
      ensures Valid() && live == {} && free == []
      ensures this.perAllocation == perAllocation && this.perPage == perPage
    {
      this.perAllocation, this.perPage := perAllocation, perPage;
      batches, current, freeHead, links := [Batch(0, 0)], 0, None, map[];
      free, live := [], {};
    }

    /** The search for a batch with room: through all older batches, which are always full, then a new one. */
    method FindRoom()
      requires Valid()
      modifies this`batches, this`current
      ensures Valid() && batches[current].used < batches[current].end
      ensures var newest := old(batches)[|old(batches)| - 1];
              batches == old(batches) + if newest.used < newest.end then [] else [Batch(0, perPage)]
    {
      hide Chain;
      hide Aligned;
      hide Distinct;
      if batches[current].used == batches[current].end {
        var search: Option<nat> := if current == 0 then None else Some(current - 1);
        while search.Some? && batches[search.value].used == batches[search.value].end
          invariant search.Some? ==> search.value < current
          decreases if search.Some? then search.value + 1 else 0
        {
          search := if search.value == 0 then None else Some(search.value - 1);
        }
        if search.Some? {
          assert false;
        }
        NewBatchKeeps(batches, perAllocation, perPage, live, free);
        batches := batches + [Batch(0, perPage)];
        current := |batches| - 1;
      } else {
        assert AlignedBatch(batches[current], perAllocation);
      }
    }

    /**
     * Never returns a live slot; the slot lies inside its batch.  It is the one freed last, if there
     * are free ones, else the next one of the newest batch, or the first of a fresh batch.
     */
    method Allocate() returns (s: Slot)
      requires Valid()
      modifies this
      ensures Valid() && s !in old(live) && live == old(live) + {s}
      ensures s.batch < |batches| && s.index + perAllocation <= batches[s.batch].end
      ensures old(free) != [] ==> s == old(free)[0] && free == old(free)[1..] && batches == old(batches)
      ensures old(free) == [] ==>
                var last := |old(batches)| - 1;
                var newest := old(batches)[last];
                free == [] &&
                if newest.used < newest.end then
                  s == Slot(last, newest.used) &&
                  batches == old(batches)[last := Batch(newest.used + perAllocation, newest.end)]
                else
                  s == Slot(last + 1, 0) && batches == old(batches) + [Batch(perAllocation, perPage)]
    {
      hide BatchesFit;
      hide Carved;
      hide Accounted;
      hide Distinct;
      hide Aligned;
      if freeHead.Some? {
        s := freeHead.value;
        TakeFreeKeeps(batches, perAllocation, live, free);
        freeHead := links[s];
        free := free[1..];
        live := live + {s};
        CarvedSlotFits(batches, perAllocation, s);
        CarvedIsInABatch(batches, perAllocation, s);
        return;
      }
      FindRoom();
      s := Slot(current, batches[current].used);
      CarveLastFits(batches, perAllocation);
      CarveKeeps(batches, perAllocation, live, free);
      batches := batches[current := batches[current].(used := batches[current].used + perAllocation)];
      live := live + {s};
      CarvedSlotFits(batches, perAllocation, s);
    }

    /** The slot becomes the head of the free list. */
    method Release(s: Slot)
      requires Valid() && s in live
      modifies this`freeHead, this`links, this`free, this`live
      ensures Valid() && live == old(live) - {s} && free == [s] + old(free)
    {
      hide BatchesFit;
      hide Carved;
      hide Accounted;
      hide Distinct;
      hide Aligned;
      ReleaseKeeps(batches, perAllocation, live, free, s);
      ChainFrame(freeHead, links, free, s, freeHead);
      links := links[s := freeHead];
      freeHead := Some(s);
      free := [s] + free;
      live := live - {s};
    }
  }

  lemma CarvedIsInABatch(batches: seq<Batch>, a: nat, s: Slot)
    requires a > 0 && Carved(batches, a, s)
    ensures s.batch < |batches|
  {
  }

  lemma NewBatchKeeps(batches: seq<Batch>, a: nat, perPage: nat, live: set<Slot>, free: seq<Slot>)
    requires a > 0 && Aligned(perPage, a) && BatchesFit(batches, a) && Accounted(batches, a, live, free)
    requires batches[|batches| - 1].used == batches[|batches| - 1].end
    ensures BatchesFit(batches + [Batch(0, perPage)], a)
    ensures Accounted(batches + [Batch(0, perPage)], a, live, free)
  {
    hide Distinct;
    assert Aligned(0, a);
    hide Aligned;
    var more := batches + [Batch(0, perPage)];
    assert AlignedBatch(more[|batches|], a);
    forall b | 0 <= b < |batches| ensures AlignedBatch(more[b], a) {
      assert AlignedBatch(batches[b], a);
    }
    forall s ensures Carved(more, a, s) <==> Carved(batches, a, s) {
    }
  }

  lemma TakeFreeKeeps(batches: seq<Batch>, a: nat, live: set<Slot>, free: seq<Slot>)
    requires a > 0 && free != [] && Accounted(batches, a, live, free)
    ensures free[0] !in live && Carved(batches, a, free[0])
    ensures Accounted(batches, a, live + {free[0]}, free[1..])
  {
    hide Carved;
    assert free == [free[0]] + free[1..];
    forall s | s in free[1..] ensures s in free && s != free[0] {
      var i :| 0 <= i < |free[1..]| && free[1..][i] == s;
      assert free[i + 1] == s;
    }
    assert free[0] in free;
  }

  lemma CarveKeeps(batches: seq<Batch>, a: nat, live: set<Slot>, free: seq<Slot>)
    requires a > 0 && BatchesFit(batches, a) && Accounted(batches, a, live, free)
    ensures var newest := Slot(|batches| - 1, batches[|batches| - 1].used);
            newest !in live && Carved(batches, a, newest) == false &&
            Accounted(CarveLast(batches, a), a, live + {newest}, free)
            && Carved(CarveLast(batches, a), a, newest)
  {
    hide Carved;
    hide Distinct;
    hide CarveLast;
    var newest := Slot(|batches| - 1, batches[|batches| - 1].used);
    CarveLastAddsOne(batches, a, newest);
    forall s ensures Carved(CarveLast(batches, a), a, s) <==> Carved(batches, a, s) || s == newest {
      CarveLastAddsOne(batches, a, s);
    }
  }

  lemma ReleaseKeeps(batches: seq<Batch>, a: nat, live: set<Slot>, free: seq<Slot>, s: Slot)
    requires a > 0 && s in live && Accounted(batches, a, live, free)
    ensures s !in free && Accounted(batches, a, live - {s}, [s] + free)
  {
    hide Carved;
    assert s !in free;
    assert forall t :: t in [s] + free <==> t == s || t in free;
  }

  /**
   * The partition of a batch: an aligned offset below `end_` is the start of exactly one of a live
   * slot, a free-listed slot and an unused one; and slots do not overlap.
   */
  lemma SlotsPartition(m: BatchAllocator, s: Slot, t: Slot)
    requires m.Valid() && s.batch < |m.batches|
    requires Aligned(s.index, m.perAllocation) && s.index < m.batches[s.batch].end
    ensures s in m.live ==> s !in m.free && s.index < m.batches[s.batch].used
    ensures s in m.free ==> s !in m.live && s.index < m.batches[s.batch].used
    ensures s !in m.live && s !in m.free ==> s.index >= m.batches[s.batch].used
    ensures (t in m.live || t in m.free) && t.batch == s.batch && t != s ==>
              t.index + m.perAllocation <= s.index || s.index + m.perAllocation <= t.index
  {
    hide Aligned;
    hide Chain;
    if (t in m.live || t in m.free) && t.batch == s.batch && t != s {
      assert Carved(m.batches, m.perAllocation, t);
      if t.index < s.index {
        AlignedApart(t.index, s.index, m.perAllocation);
      } else {
        AlignedApart(s.index, t.index, m.perAllocation);
      }
    }
  }

  // ---- Why the allocation size has to divide the page

  /** What `used_` is after k allocations from a batch. */
  function UsedAfter(a: nat, k: nat): nat {
    a * k
  }

  /** The test `used_ == end_` has let through all of the first k + 1 allocations from a batch. */
  ghost predicate NeverFull(a: nat, end: nat, k: nat) {
    forall j: nat :: j <= k ==> UsedAfter(a, j) != end
  }

  ghost predicate StaysInside(a: nat, end: nat) {
    forall k: nat :: NeverFull(a, end, k) ==> UsedAfter(a, k) + a <= end
  }

  lemma {:induction false} Multiple(a: nat, q: nat)
    requires a > 0
    ensures Aligned(a * q, a)
  {
    if q > 0 {
      Multiple(a, q - 1);
      NextAligned(a * (q - 1), a);
      assert a * (q - 1) + a == a * q;
    }
  }

  /**
   * No allocation passes the end of its batch if and only if the allocation size divides the page:
   * otherwise `used_` steps over `end_` and the test for a full batch never fires.
   */
  lemma StaysInsideIff(a: nat, end: nat)
    requires a > 0
    ensures Aligned(end, a) <==> StaysInside(a, end)
  {
    var q := end / a;
    assert end == a * q + end % a;
    if Aligned(end, a) {
      forall k: nat | NeverFull(a, end, k) ensures UsedAfter(a, k) + a <= end {
        assert UsedAfter(a, q) == end;
        Products(a, k, q);
      }
    } else {
      forall j: nat | j <= q ensures UsedAfter(a, j) != end {
        Multiple(a, j);
      }
      assert NeverFull(a, end, q);
      assert UsedAfter(a, q) + a > end;
    }
  }

  /** Pairs on the default page of 255: the 128th is let through and ends one place behind the page. */
  lemma PairsOverrun()
    ensures NeverFull(2, 255, 127) && UsedAfter(2, 127) + 2 == 256
    ensures !StaysInside(2, 255)
  {
    StaysInsideIff(2, 255);
    forall j: nat | j <= 127 ensures UsedAfter(2, j) != 255 {
      Multiple(2, j);
    }
  }
}
