/**
 The memory allocator of umalloc.c (Kernighan and Ritchie, The C Programming Language,
 second edition, section 8.7).

 Addresses count units of sizeof(Header). `ptr` and `size` are the header words in
 memory; `ring` is the circular free list as a sequence that starts at `base`.
 */
module Heap {

  const BASE: int := 1
  const NALLOC: int := 4096
  const HEADER: int := 8

  datatype Blk = Blk(addr: int, size: int)

  function End(b: Blk): int {
    b.addr + b.size
  }

  /** Starts at base, ascending, and with a gap after every block: no two free blocks touch. */
  ghost predicate Sorted(ring: seq<Blk>) {
    && |ring| >= 1 && ring[0] == Blk(BASE, 0)
    && (forall i | 1 <= i < |ring| :: ring[i].size >= 1)
    && forall i, j | 0 <= i < j < |ring| :: End(ring[i]) < ring[j].addr
  }

  /** The address at ring position i; behind the last element comes base again. */
  function After(ring: seq<Blk>, i: nat): int {
    if i < |ring| then ring[i].addr else BASE
  }

  /** The header at ring position i has the size and the successor of the ring. */
  ghost predicate Link(ptr: map<int, int>, size: map<int, int>, ring: seq<Blk>, i: int) {
    && 0 <= i < |ring|
    && ring[i].addr in size && size[ring[i].addr] == ring[i].size
    && ring[i].addr in ptr && ptr[ring[i].addr] == After(ring, i + 1)
  }

  /** The header words of memory hold exactly this ring. */
  ghost predicate Chained(ptr: map<int, int>, size: map<int, int>, ring: seq<Blk>) {
    forall i | 0 <= i < |ring| :: Link(ptr, size, ring, i)
  }

  predicate Apart(b: Blk, c: Blk) {
    End(b) <= c.addr || End(c) <= b.addr
  }

  /** Allocated blocks: sizes as their headers say, apart from each other and from every free block. */
  ghost predicate LiveOk(size: map<int, int>, ring: seq<Blk>, live: map<int, int>, top: int) {
    && (forall a | a in live :: a in size && size[a] == live[a] >= 1 && BASE < a && a + live[a] <= top)
    && (forall a, b | a in live && b in live && a != b :: Apart(Blk(a, live[a]), Blk(b, live[b])))
    && (forall i | 0 <= i < |ring| :: End(ring[i]) <= top)
    && forall i, a | 1 <= i < |ring| && a in live :: Apart(ring[i], Blk(a, live[a]))
  }

  ghost predicate FreeUnit(ring: seq<Blk>, u: int) {
    exists i :: 0 <= i < |ring| && ring[i].addr <= u < End(ring[i])
  }

  ghost predicate LiveUnit(live: map<int, int>, u: int) {
    exists a :: a in live && a <= u < a + live[a]
  }

  // ---- free ----

  /** Where a freed block goes: behind the last ring element below it. */
  ghost predicate Slot(ring: seq<Blk>, b: Blk, j: nat) {
    && j < |ring| && ring[j].addr < b.addr
    && forall i | j < i < |ring| :: b.addr < ring[i].addr
  }

  function Lo(ring: seq<Blk>, j: nat, b: Blk): nat
    requires j < |ring|
  {
    if End(ring[j]) == b.addr then j else j + 1
  }

  function Hi(ring: seq<Blk>, j: nat, b: Blk): nat
    requires j < |ring|
  {
    if j + 1 < |ring| && End(b) == ring[j + 1].addr then j + 2 else j + 1
  }

  /** b together with the neighbours that touch it. */
  function Merged(ring: seq<Blk>, j: nat, b: Blk): Blk
    requires j < |ring|
  {
    var addr := if Lo(ring, j, b) == j then ring[j].addr else b.addr;
    var end := if Hi(ring, j, b) == j + 2 then End(ring[j + 1]) else End(b);
    Blk(addr, end - addr)
  }

  /** The ring after inserting b behind position j, merged with its neighbours where they touch. */
  function Insert(ring: seq<Blk>, j: nat, b: Blk): (r: seq<Blk>)
    requires j < |ring|
  {
    ring[..Lo(ring, j, b)] + [Merged(ring, j, b)] + ring[Hi(ring, j, b)..]
  }

  /** b lies in a gap of the ring. */
  ghost predicate InGap(ring: seq<Blk>, b: Blk) {
    b.size >= 1 && BASE < b.addr && forall i | 1 <= i < |ring| :: Apart(ring[i], b)
  }

  lemma SpliceSorted(ring: seq<Blk>, lo: nat, m: Blk, hi: nat)
    requires Sorted(ring) && 1 <= lo <= hi <= |ring| && m.size >= 1
    requires End(ring[lo - 1]) < m.addr && (hi < |ring| ==> End(m) < ring[hi].addr)
    ensures Sorted(ring[..lo] + [m] + ring[hi..])
  {
    var r := ring[..lo] + [m] + ring[hi..];
    assert forall i | 0 <= i < lo :: r[i] == ring[i] && End(r[i]) < m.addr;
    assert forall i | lo < i < |r| :: r[i] == ring[i - lo - 1 + hi];
  }

  lemma Neighbours(ring: seq<Blk>, j: nat, b: Blk)
    requires Sorted(ring) && Slot(ring, b, j) && InGap(ring, b)
    ensures j == 0 ==> End(ring[j]) < b.addr
    ensures End(ring[j]) <= b.addr
    ensures j + 1 < |ring| ==> End(b) <= ring[j + 1].addr
  {
  }

  lemma InsertSorted(ring: seq<Blk>, j: nat, b: Blk)
    requires Sorted(ring) && Slot(ring, b, j) && InGap(ring, b)
    ensures Sorted(Insert(ring, j, b))
  {
    Neighbours(ring, j, b);
    var lo, hi := Lo(ring, j, b), Hi(ring, j, b);
    assert j >= 1 ==> End(ring[j - 1]) < ring[j].addr;
    assert j + 1 < |ring| ==> ring[j + 1].size >= 1;
    assert j + 2 < |ring| ==> End(ring[j + 1]) < ring[j + 2].addr;
    SpliceSorted(ring, lo, Merged(ring, j, b), hi);
  }

  lemma FreeUnitConcat(a: seq<Blk>, b: seq<Blk>, u: int)
    ensures FreeUnit(a + b, u) <==> FreeUnit(a, u) || FreeUnit(b, u)
  {
    if FreeUnit(a, u) {
      var i :| 0 <= i < |a| && a[i].addr <= u < End(a[i]);
      assert (a + b)[i] == a[i];
    }
    if FreeUnit(b, u) {
      var i :| 0 <= i < |b| && b[i].addr <= u < End(b[i]);
      assert (a + b)[|a| + i] == b[i];
    }
  }

  /** Inserting adds exactly the units of b to the free units. */
  lemma InsertUnits(ring: seq<Blk>, j: nat, b: Blk, u: int)
    requires Sorted(ring) && Slot(ring, b, j) && InGap(ring, b)
    ensures FreeUnit(Insert(ring, j, b), u) <==> FreeUnit(ring, u) || b.addr <= u < End(b)
  {
    Neighbours(ring, j, b);
    var lo, hi := Lo(ring, j, b), Hi(ring, j, b);
    var m := Merged(ring, j, b);
    FreeUnitConcat(ring[..lo], [m], u);
    FreeUnitConcat(ring[..lo] + [m], ring[hi..], u);
    assert ring == ring[..lo] + ring[lo..hi] + ring[hi..];
    FreeUnitConcat(ring[..lo], ring[lo..hi], u);
    FreeUnitConcat(ring[..lo] + ring[lo..hi], ring[hi..], u);
    MiddleUnits(ring, j, b, u);
  }

  lemma MiddleUnits(ring: seq<Blk>, j: nat, b: Blk, u: int)
    requires Sorted(ring) && Slot(ring, b, j) && InGap(ring, b)
    ensures FreeUnit([Merged(ring, j, b)], u) <==>
            FreeUnit(ring[Lo(ring, j, b)..Hi(ring, j, b)], u) || b.addr <= u < End(b)
  {
    Neighbours(ring, j, b);
    var lo, hi := Lo(ring, j, b), Hi(ring, j, b);
    var m := Merged(ring, j, b);
    var mid := ring[lo..hi];
    assert [m][0] == m;
    if lo == j {
      assert mid[0] == ring[j];
    }
    if hi == j + 2 {
      assert mid[j + 1 - lo] == ring[j + 1];
    }
    assert j + 1 < |ring| ==> ring[j + 1].size >= 1;
  }

  /** The header words after the four-way pointer surgery of free(). */
  function FreedSize(ptr: map<int, int>, size: map<int, int>, p: int, bp: int): (r: map<int, int>)
    requires p in ptr && p in size && bp in size && ptr[p] in size
  {
    var s1 := if bp + size[bp] == ptr[p] then size[bp := size[bp] + size[ptr[p]]] else size;
    if p + s1[p] == bp then s1[p := s1[p] + s1[bp]] else s1
  }

  function FreedPtr(ptr: map<int, int>, size: map<int, int>, p: int, bp: int): (r: map<int, int>)
    requires p in ptr && p in size && bp in size && ptr[p] in size && ptr[p] in ptr
  {
    var p1 := if bp + size[bp] == ptr[p] then ptr[bp := ptr[ptr[p]]] else ptr[bp := ptr[p]];
    if p + size[p] == bp then p1[p := p1[bp]] else p1[p := bp]
  }

  lemma FreedChained(ptr: map<int, int>, size: map<int, int>, ring: seq<Blk>, j: nat, b: Blk)
    requires Sorted(ring) && Chained(ptr, size, ring) && Slot(ring, b, j) && InGap(ring, b) && Link(ptr, size, ring, j)
    requires b.addr in size && size[b.addr] == b.size
    ensures var p := ring[j].addr;
            ptr[p] in size && ptr[p] in ptr &&
            Chained(FreedPtr(ptr, size, p, b.addr), FreedSize(ptr, size, p, b.addr), Insert(ring, j, b))
  {
    Neighbours(ring, j, b);
    var p := ring[j].addr;
    assert j + 1 < |ring| ==> Link(ptr, size, ring, j + 1);
    assert Link(ptr, size, ring, 0);
    var r := Insert(ring, j, b);
    var ptr2, size2 := FreedPtr(ptr, size, p, b.addr), FreedSize(ptr, size, p, b.addr);
    FreedPtrAfter(ptr, size, ring, j, b);
    InsertIsInserted(ring, j, b);
    forall i | 0 <= i < |r| ensures Link(ptr2, size2, r, i) {
      FreedSizeAt(ptr, size, ring, j, b, i);
      NextInserted(ptr2, ring, j, b, i);
    }
  }

  lemma FreedSizeAt(ptr: map<int, int>, size: map<int, int>, ring: seq<Blk>, j: nat, b: Blk, i: nat)
    requires Sorted(ring) && Chained(ptr, size, ring) && Slot(ring, b, j) && InGap(ring, b) && Link(ptr, size, ring, j)
    requires b.addr in size && size[b.addr] == b.size
    requires ptr[ring[j].addr] in size
    requires i < Lo(ring, j, b) + 1 + |ring| - Hi(ring, j, b)
    ensures var c := InsertedAt(ring, j, b, i);
            var size2 := FreedSize(ptr, size, ring[j].addr, b.addr);
            c.addr in size2 && size2[c.addr] == c.size
  {
    var lo, hi := Lo(ring, j, b), Hi(ring, j, b);
    if i == lo {
      FreedSizeMerged(ptr, size, ring, j, b);
    } else {
      FreedSizeOther(ptr, size, ring, j, b, if i < lo then i else i - lo - 1 + hi);
    }
  }

  lemma FreedSizeMerged(ptr: map<int, int>, size: map<int, int>, ring: seq<Blk>, j: nat, b: Blk)
    requires Sorted(ring) && Chained(ptr, size, ring) && Slot(ring, b, j) && InGap(ring, b) && Link(ptr, size, ring, j)
    requires b.addr in size && size[b.addr] == b.size
    requires ptr[ring[j].addr] in size
    ensures var c := Merged(ring, j, b);
            var size2 := FreedSize(ptr, size, ring[j].addr, b.addr);
            c.addr in size2 && size2[c.addr] == c.size
  {
    Neighbours(ring, j, b);
    assert j + 1 < |ring| ==> Link(ptr, size, ring, j + 1);
  }

  /** A ring element that is not merged keeps its size word. */
  lemma FreedSizeOther(ptr: map<int, int>, size: map<int, int>, ring: seq<Blk>, j: nat, b: Blk, k: nat)
    requires Sorted(ring) && Chained(ptr, size, ring) && Slot(ring, b, j) && InGap(ring, b) && Link(ptr, size, ring, j)
    requires b.addr in size && size[b.addr] == b.size
    requires ptr[ring[j].addr] in size
    requires k < |ring| && (k < Lo(ring, j, b) || Hi(ring, j, b) <= k)
    ensures var size2 := FreedSize(ptr, size, ring[j].addr, b.addr);
            ring[k].addr in size2 && size2[ring[k].addr] == ring[k].size
  {
    assert Link(ptr, size, ring, k);
    if k != j {
      DistinctAddrs(ring, j, b, k);
    }
    FreedSizeKeeps(ptr, size, ring[j].addr, b.addr, ring[k].addr);
  }

  lemma FreedSizeKeeps(ptr: map<int, int>, size: map<int, int>, p: int, bp: int, a: int)
    requires p in ptr && p in size && bp in size && ptr[p] in size && a in size
    requires p != bp && a != bp && (a != p || p + size[p] != bp)
    ensures a in FreedSize(ptr, size, p, bp) && FreedSize(ptr, size, p, bp)[a] == size[a]
  {
  }

  /** The i-th element of the new ring: below, at or above the merged block. */
  function InsertedAt(ring: seq<Blk>, j: nat, b: Blk, i: nat): Blk
    requires j < |ring| && i < Lo(ring, j, b) + 1 + |ring| - Hi(ring, j, b)
  {
    if i < Lo(ring, j, b) then ring[i]
    else if i == Lo(ring, j, b) then Merged(ring, j, b)
    else ring[i - Lo(ring, j, b) - 1 + Hi(ring, j, b)]
  }

  /** What the surgery leaves in the ptr words. */
  ghost predicate PtrAfter(ptr2: map<int, int>, ring: seq<Blk>, j: nat, b: Blk)
    requires j < |ring|
  {
    && b.addr in ptr2 && ptr2[b.addr] == After(ring, Hi(ring, j, b))
    && (forall k | 0 <= k < |ring| :: ring[k].addr in ptr2)
    && ptr2[ring[j].addr] == (if Lo(ring, j, b) == j then After(ring, Hi(ring, j, b)) else b.addr)
    && forall k {:trigger ptr2[ring[k].addr]} | 0 <= k < |ring| && k != j :: ptr2[ring[k].addr] == After(ring, k + 1)
  }

  lemma FreedPtrAfter(ptr: map<int, int>, size: map<int, int>, ring: seq<Blk>, j: nat, b: Blk)
    requires Sorted(ring) && Chained(ptr, size, ring) && Slot(ring, b, j) && InGap(ring, b) && Link(ptr, size, ring, j)
    requires b.addr in size && size[b.addr] == b.size
    requires ptr[ring[j].addr] in size && ptr[ring[j].addr] in ptr
    ensures PtrAfter(FreedPtr(ptr, size, ring[j].addr, b.addr), ring, j, b)
  {
    Neighbours(ring, j, b);
    var ptr2 := FreedPtr(ptr, size, ring[j].addr, b.addr);
    assert Link(ptr, size, ring, j);
    assert j + 1 < |ring| ==> Link(ptr, size, ring, j + 1);
    forall k | 0 <= k < |ring| && k != j ensures ring[k].addr in ptr2 && ptr2[ring[k].addr] == After(ring, k + 1) {
      DistinctAddrs(ring, j, b, k);
      assert Link(ptr, size, ring, k);
    }
  }

  lemma DistinctAddrs(ring: seq<Blk>, j: nat, b: Blk, k: nat)
    requires Sorted(ring) && Slot(ring, b, j) && InGap(ring, b) && k < |ring| && k != j
    ensures ring[k].addr != ring[j].addr && ring[k].addr != b.addr
  {
    if k < j {
      assert End(ring[k]) < ring[j].addr;
      assert ring[k].size >= 0;
    } else {
      assert End(ring[j]) < ring[k].addr;
      assert ring[j].size >= 0;
    }
  }

  lemma NextInserted(ptr2: map<int, int>, ring: seq<Blk>, j: nat, b: Blk, i: nat)
    requires j < |ring| && PtrAfter(ptr2, ring, j, b) && ring[0].addr == BASE && Lo(ring, j, b) >= 1
    requires i < Lo(ring, j, b) + 1 + |ring| - Hi(ring, j, b)
    ensures InsertedAt(ring, j, b, i).addr in ptr2
    ensures var n := Lo(ring, j, b) + 1 + |ring| - Hi(ring, j, b);
            ptr2[InsertedAt(ring, j, b, i).addr] == if i + 1 < n then InsertedAt(ring, j, b, i + 1).addr else BASE
  {
    var lo, hi := Lo(ring, j, b), Hi(ring, j, b);
    if i < lo {
      assert ring[i].addr in ptr2;
    } else if i > lo {
      assert ring[i - lo - 1 + hi].addr in ptr2;
    }
  }

  /** Some free block has at least n units. */
  ghost predicate HasFit(ring: seq<Blk>, n: int) {
    exists i :: 0 <= i < |ring| && ring[i].size >= n
  }

  // ---- Allocated blocks ----

  lemma ApartFromMerged(ring: seq<Blk>, j: nat, b: Blk, c: Blk)
    requires Sorted(ring) && Slot(ring, b, j) && InGap(ring, b)
    requires c.size >= 1 && BASE < c.addr && Apart(b, c)
    requires forall i | 1 <= i < |ring| :: Apart(ring[i], c)
    ensures Apart(Merged(ring, j, b), c)
  {
    Neighbours(ring, j, b);
    assert j >= 1 ==> Apart(ring[j], c) && ring[j].size >= 1;
    assert j + 1 < |ring| ==> Apart(ring[j + 1], c) && ring[j + 1].size >= 1;
  }

  ghost predicate Inserted(ring: seq<Blk>, j: nat, b: Blk, r: seq<Blk>)
    requires j < |ring|
  {
    && |r| == Lo(ring, j, b) + 1 + |ring| - Hi(ring, j, b)
    && forall i | 0 <= i < |r| :: r[i] == InsertedAt(ring, j, b, i)
  }

  lemma InsertIsInserted(ring: seq<Blk>, j: nat, b: Blk)
    requires j < |ring|
    ensures Inserted(ring, j, b, Insert(ring, j, b))
  {
  }

  /** Freeing bp keeps every other allocated block intact and apart. */
  lemma FreedLive(ptr: map<int, int>, size: map<int, int>, ring: seq<Blk>, live: map<int, int>, top: int, j: nat,
                  bp: int, r: seq<Blk>)
    requires Sorted(ring) && Chained(ptr, size, ring) && LiveOk(size, ring, live, top) && Link(ptr, size, ring, j)
    requires bp in live && Slot(ring, Blk(bp, live[bp]), j) && InGap(ring, Blk(bp, live[bp]))
    requires ptr[ring[j].addr] in size && Inserted(ring, j, Blk(bp, live[bp]), r)
    ensures LiveOk(FreedSize(ptr, size, ring[j].addr, bp), r, live - {bp}, top)
  {
    var b := Blk(bp, live[bp]);
    var size2 := FreedSize(ptr, size, ring[j].addr, bp);
    var live2 := live - {bp};
    forall a | a in live2 ensures a in size2 && size2[a] == live2[a] {
      LiveNotInRing(size, ring, live, top, j, bp);
      LiveNotInRing(size, ring, live, top, j, a);
      FreedSizeKeeps(ptr, size, ring[j].addr, bp, a);
    }
    forall i | 0 <= i < |r| ensures End(r[i]) <= top {
      assert r[i] == InsertedAt(ring, j, b, i);
    }
    forall i, a | 1 <= i < |r| && a in live2 ensures Apart(r[i], Blk(a, live2[a])) {
      assert r[i] == InsertedAt(ring, j, b, i);
      FreedApart(size, ring, live, top, j, bp, i, a);
    }
  }

  lemma FreedApart(size: map<int, int>, ring: seq<Blk>, live: map<int, int>, top: int, j: nat, bp: int, i: nat, a: int)
    requires Sorted(ring) && LiveOk(size, ring, live, top)
    requires bp in live && Slot(ring, Blk(bp, live[bp]), j) && InGap(ring, Blk(bp, live[bp]))
    requires a in live && a != bp
    requires var b := Blk(bp, live[bp]); 1 <= i < Lo(ring, j, b) + 1 + |ring| - Hi(ring, j, b)
    ensures Apart(InsertedAt(ring, j, Blk(bp, live[bp]), i), Blk(a, live[a]))
  {
    var b := Blk(bp, live[bp]);
    assert Apart(Blk(bp, live[bp]), Blk(a, live[a]));
    ApartFromMerged(ring, j, b, Blk(a, live[a]));
  }

  lemma LiveNotInRing(size: map<int, int>, ring: seq<Blk>, live: map<int, int>, top: int, j: nat, a: int)
    requires Sorted(ring) && LiveOk(size, ring, live, top) && j < |ring| && a in live
    ensures ring[j].addr != a
  {
    if j >= 1 {
      assert Apart(ring[j], Blk(a, live[a]));
      assert ring[j].size >= 1;
    }
  }

  /** Freeing moves units from allocated to free; none appears, none is lost. */
  lemma FreedUnits(size: map<int, int>, ring: seq<Blk>, live: map<int, int>, top: int, j: nat, bp: int, u: int)
    requires Sorted(ring) && LiveOk(size, ring, live, top)
    requires bp in live && Slot(ring, Blk(bp, live[bp]), j) && InGap(ring, Blk(bp, live[bp]))
    ensures FreeUnit(Insert(ring, j, Blk(bp, live[bp])), u) || LiveUnit(live - {bp}, u) <==>
            FreeUnit(ring, u) || LiveUnit(live, u)
  {
    InsertUnits(ring, j, Blk(bp, live[bp]), u);
    if LiveUnit(live, u) {
      var a :| a in live && a <= u < a + live[a];
      assert a != bp ==> a in live - {bp} && (live - {bp})[a] == live[a];
    }
    if LiveUnit(live - {bp}, u) {
      var a :| a in live - {bp} && a <= u < a + (live - {bp})[a];
      assert a in live;
    }
  }

  /** The last ring position below an address. */
  ghost function LastBelow(ring: seq<Blk>, a: int, n: nat): (j: nat)
    requires 1 <= n <= |ring| && ring[0].addr < a
    ensures j < n && ring[j].addr < a && forall i | j < i < n :: a <= ring[i].addr
  {
    if n == 1 || ring[n - 1].addr < a then n - 1 else LastBelow(ring, a, n - 1)
  }

  /** The search loop of free: it stops within one lap, at the element before bp. */
  method FindSlot(ptr: map<int, int>, freep: int, bp: int, ghost size: map<int, int>, ghost ring: seq<Blk>,
                  ghost fi: nat)
    returns (p: int, ghost j: nat)
    requires Sorted(ring) && fi < |ring| && freep == ring[fi].addr && BASE < bp
    requires Chained(ptr, size, ring) && forall i | 0 <= i < |ring| :: ring[i].addr != bp
    ensures j < |ring| && p == ring[j].addr && ring[j].addr < bp && forall i | j < i < |ring| :: bp < ring[i].addr
  {
    p := freep;
    ghost var k := fi;
    j := LastBelow(ring, bp, |ring|);
    assert Link(ptr, size, ring, k);
    while !(bp > p && bp < ptr[p])
      invariant Link(ptr, size, ring, k) && p == ring[k].addr
      decreases if k <= j then j - k else |ring| - k + j
    {
      NextAscends(ring, k);
      assert Link(ptr, size, ring, k);
      if p >= ptr[p] && (bp > p || bp < ptr[p]) {
        assert k == |ring| - 1;
        break;
      }
      p := ptr[p];
      k := if k + 1 < |ring| then k + 1 else 0;
      assert Link(ptr, size, ring, k);
    }
    NextAscends(ring, k);
    assert Link(ptr, size, ring, k);
  }

  /**
   The header writes of free: link bp behind p, joining the upper and the lower neighbour.
   The ring stays one ascending circle without touching blocks, now without bp among the
   allocated blocks; free and allocated units together stay the same.
   */
  method LinkBehind(ptr: map<int, int>, size: map<int, int>, p: int, bp: int,
                    ghost ring: seq<Blk>, ghost live: map<int, int>, ghost top: int, ghost j: nat)
    returns (ptr2: map<int, int>, size2: map<int, int>, ghost r: seq<Blk>)
    requires Sorted(ring) && Chained(ptr, size, ring) && LiveOk(size, ring, live, top)
    requires bp in live && Slot(ring, Blk(bp, live[bp]), j) && p == ring[j].addr
    ensures Sorted(r) && Chained(ptr2, size2, r) && LiveOk(size2, r, live - {bp}, top)
    ensures j < |r| && r[j].addr == p != 0
    ensures forall u :: FreeUnit(r, u) || LiveUnit(live - {bp}, u) <==> FreeUnit(ring, u) || LiveUnit(live, u)
    ensures HasFit(r, live[bp])
  {
    r := FreedAll(ptr, size, ring, live, top, j, bp);
    ptr2, size2 := Surgery(ptr, size, p, bp);
  }

  method Surgery(ptr: map<int, int>, size: map<int, int>, p: int, bp: int)
    returns (ptr2: map<int, int>, size2: map<int, int>)
    requires p in ptr && p in size && bp in size && ptr[p] in size && ptr[p] in ptr && p != bp
    ensures ptr2 == FreedPtr(ptr, size, p, bp) && size2 == FreedSize(ptr, size, p, bp)
  {
    ptr2, size2 := ptr, size;
    if bp + size2[bp] == ptr2[p] {
      size2 := size2[bp := size2[bp] + size2[ptr2[p]]];
      ptr2 := ptr2[bp := ptr2[ptr2[p]]];
    } else {
      ptr2 := ptr2[bp := ptr2[p]];
    }
    if p + size2[p] == bp {
      size2 := size2[p := size2[p] + size2[bp]];
      ptr2 := ptr2[p := ptr2[bp]];
    } else {
      ptr2 := ptr2[p := bp];
    }
  }

  lemma NextAscends(ring: seq<Blk>, k: nat)
    requires Sorted(ring) && k < |ring|
    ensures k + 1 < |ring| ==> ring[k].addr < ring[k + 1].addr
    ensures ring[0].addr <= ring[k].addr
  {
    assert k + 1 < |ring| ==> End(ring[k]) < ring[k + 1].addr;
    assert 0 < k ==> End(ring[0]) < ring[k].addr;
  }

  /** Free and allocated blocks are well formed, and together they are exactly the units obtained from sbrk. */
  ghost predicate HeapOk(size: map<int, int>, ring: seq<Blk>, live: map<int, int>, units: set<int>, top: int) {
    && Sorted(ring) && LiveOk(size, ring, live, top) && top > BASE
    && forall u :: u in units <==> FreeUnit(ring, u) || LiveUnit(live, u)
  }

  // ---- malloc ----

  /** A free block leaves the ring whole. */
  lemma TakeWhole(ptr: map<int, int>, size: map<int, int>, ring: seq<Blk>, live: map<int, int>, top: int, k: nat)
    returns (r: seq<Blk>)
    requires Sorted(ring) && Chained(ptr, size, ring) && LiveOk(size, ring, live, top) && 1 <= k < |ring|
    requires Link(ptr, size, ring, k) && Link(ptr, size, ring, k - 1)
    ensures var c := ring[k];
            var live2 := live[c.addr := c.size];
            && c.addr !in live
            && Sorted(r) && Chained(ptr[ring[k - 1].addr := ptr[c.addr]], size, r) && LiveOk(size, r, live2, top)
            && k - 1 < |r| && r[k - 1].addr == ring[k - 1].addr
            && forall u :: FreeUnit(r, u) || LiveUnit(live2, u) <==> FreeUnit(ring, u) || LiveUnit(live, u)
  {
    var c := ring[k];
    r := ring[..k] + ring[k + 1..];
    assert c.addr !in live by {
      if c.addr in live {
        LiveNotInRing(size, ring, live, top, k, c.addr);
      }
    }
    TakenSorted(ring, k);
    TakenChained(ptr, size, ring, k);
    TakenLive(size, ring, live, top, k);
    forall u ensures FreeUnit(r, u) || LiveUnit(live[c.addr := c.size], u) <==> FreeUnit(ring, u) || LiveUnit(live, u) {
      assert ring == ring[..k] + [c] + ring[k + 1..];
      FreeUnitConcat(ring[..k], [c], u);
      FreeUnitConcat(ring[..k] + [c], ring[k + 1..], u);
      FreeUnitConcat(ring[..k], ring[k + 1..], u);
      assert [c][0] == c;
      MoreLive(live, c.addr, c.size, u);
    }
  }

  lemma MoreLive(live: map<int, int>, a: int, n: int, u: int)
    requires a !in live
    ensures LiveUnit(live[a := n], u) <==> LiveUnit(live, u) || a <= u < a + n
  {
    if LiveUnit(live, u) {
      var b :| b in live && b <= u < b + live[b];
      assert live[a := n][b] == live[b];
    }
    if a <= u < a + n {
      assert live[a := n][a] == n;
    }
  }

  lemma TakenSorted(ring: seq<Blk>, k: nat)
    requires Sorted(ring) && 1 <= k < |ring|
    ensures Sorted(ring[..k] + ring[k + 1..])
  {
    var r := ring[..k] + ring[k + 1..];
    assert forall i | 0 <= i < |r| :: r[i] == if i < k then ring[i] else ring[i + 1];
  }

  lemma TakenChained(ptr: map<int, int>, size: map<int, int>, ring: seq<Blk>, k: nat)
    requires Sorted(ring) && Chained(ptr, size, ring) && 1 <= k < |ring| && Link(ptr, size, ring, k)
    requires Link(ptr, size, ring, k - 1)
    ensures Chained(ptr[ring[k - 1].addr := ptr[ring[k].addr]], size, ring[..k] + ring[k + 1..])
  {
    var r := ring[..k] + ring[k + 1..];
    var ptr2 := ptr[ring[k - 1].addr := ptr[ring[k].addr]];
    forall i | 0 <= i < |r| ensures Link(ptr2, size, r, i) {
      var m := if i < k then i else i + 1;
      AfterTaken(ring, k, i);
      TakenNext(ptr, size, ring, k, m);
    }
  }

  lemma AfterTaken(ring: seq<Blk>, k: nat, i: nat)
    requires 1 <= k < |ring| && i < |ring| - 1
    ensures var r := ring[..k] + ring[k + 1..];
            && r[i] == (if i < k then ring[i] else ring[i + 1])
            && After(r, i + 1) == (if i + 1 < k then After(ring, i + 1) else After(ring, i + 2))
  {
  }

  lemma TakenNext(ptr: map<int, int>, size: map<int, int>, ring: seq<Blk>, k: nat, m: nat)
    requires Sorted(ring) && Chained(ptr, size, ring) && 1 <= k < |ring| && m < |ring| && m != k
    requires Link(ptr, size, ring, k) && Link(ptr, size, ring, k - 1)
    ensures Link(ptr, size, ring, m)
    ensures var ptr2 := ptr[ring[k - 1].addr := ptr[ring[k].addr]];
            ring[m].addr in ptr2 && ptr2[ring[m].addr] == After(ring, if m == k - 1 then k + 1 else m + 1)
  {
    assert Link(ptr, size, ring, k);
    assert Link(ptr, size, ring, m);
    if m != k - 1 {
      SortedDistinct(ring, m, k - 1);
    }
  }

  lemma SortedDistinct(ring: seq<Blk>, i: nat, j: nat)
    requires Sorted(ring) && i < |ring| && j < |ring| && i != j
    ensures ring[i].addr != ring[j].addr
  {
    if i < j {
      assert End(ring[i]) < ring[j].addr && ring[i].size >= 0;
    } else {
      assert End(ring[j]) < ring[i].addr && ring[j].size >= 0;
    }
  }

  lemma TakenLive(size: map<int, int>, ring: seq<Blk>, live: map<int, int>, top: int, k: nat)
    requires Sorted(ring) && LiveOk(size, ring, live, top) && 1 <= k < |ring|
    requires ring[k].addr in size && size[ring[k].addr] == ring[k].size && ring[k].addr !in live
    ensures LiveOk(size, ring[..k] + ring[k + 1..], live[ring[k].addr := ring[k].size], top)
  {
    var r := ring[..k] + ring[k + 1..];
    var c := ring[k];
    var live2 := live[c.addr := c.size];
    assert forall i | 0 <= i < |r| :: r[i] == if i < k then ring[i] else ring[i + 1];
    assert End(ring[0]) < c.addr;
    forall a, b | a in live2 && b in live2 && a != b ensures Apart(Blk(a, live2[a]), Blk(b, live2[b])) {
      if a == c.addr {
        assert Apart(ring[k], Blk(b, live[b]));
      } else if b == c.addr {
        assert Apart(ring[k], Blk(a, live[a]));
      }
    }
    forall i, a | 1 <= i < |r| && a in live2 ensures Apart(r[i], Blk(a, live2[a])) {
      var m := if i < k then i else i + 1;
      if m < k {
        assert End(ring[m]) < c.addr;
      } else {
        assert End(c) < ring[m].addr;
      }
    }
  }

  /** The tail of a larger free block is handed out; the rest stays where it is. */
  lemma TakeTail(ptr: map<int, int>, size: map<int, int>, ring: seq<Blk>, live: map<int, int>, top: int, k: nat, n: int)
    returns (r: seq<Blk>)
    requires Sorted(ring) && Chained(ptr, size, ring) && LiveOk(size, ring, live, top) && 1 <= k < |ring|
    requires 1 <= n < ring[k].size
    ensures var c := ring[k];
            var a := c.addr + c.size - n;
            var size2 := size[c.addr := c.size - n][a := n];
            var live2 := live[a := n];
            && a !in live
            && Sorted(r) && Chained(ptr, size2, r) && LiveOk(size2, r, live2, top)
            && k - 1 < |r| && r[k - 1].addr == ring[k - 1].addr
            && forall u :: FreeUnit(r, u) || LiveUnit(live2, u) <==> FreeUnit(ring, u) || LiveUnit(live, u)
  {
    var c := ring[k];
    var a := c.addr + c.size - n;
    var d := Blk(c.addr, c.size - n);
    r := ring[k := d];
    forall x | x in live ensures x != a {
      assert Apart(ring[k], Blk(x, live[x]));
    }
    assert Link(ptr, size, ring, k);
    TailSorted(ring, k, n);
    TailChained(ptr, size, ring, k, n);
    TailLive(size, ring, live, top, k, n);
    forall u ensures FreeUnit(r, u) || LiveUnit(live[a := n], u) <==> FreeUnit(ring, u) || LiveUnit(live, u) {
      TailUnits(ring, k, n, u);
      MoreLive(live, a, n, u);
    }
  }

  lemma TailUnits(ring: seq<Blk>, k: nat, n: int, u: int)
    requires k < |ring| && 1 <= n < ring[k].size
    ensures var c := ring[k];
            FreeUnit(ring, u) <==> FreeUnit(ring[k := Blk(c.addr, c.size - n)], u) || End(c) - n <= u < End(c)
  {
    var c := ring[k];
    var d := Blk(c.addr, c.size - n);
    assert ring == ring[..k] + [c] + ring[k + 1..];
    assert ring[k := d] == ring[..k] + [d] + ring[k + 1..];
    FreeUnitConcat(ring[..k], [c], u);
    FreeUnitConcat(ring[..k] + [c], ring[k + 1..], u);
    FreeUnitConcat(ring[..k], [d], u);
    FreeUnitConcat(ring[..k] + [d], ring[k + 1..], u);
    assert [c][0] == c && [d][0] == d;
  }

  lemma TailSorted(ring: seq<Blk>, k: nat, n: int)
    requires Sorted(ring) && 1 <= k < |ring| && 1 <= n < ring[k].size
    ensures Sorted(ring[k := Blk(ring[k].addr, ring[k].size - n)])
  {
  }

  /** The unit where the tail starts is inside ring[k] and is no ring address. */
  lemma TailInside(ring: seq<Blk>, k: nat, n: int, i: nat)
    requires Sorted(ring) && 1 <= k < |ring| && 1 <= n < ring[k].size && i < |ring|
    ensures ring[i].addr != ring[k].addr + ring[k].size - n
  {
    if i < k {
      assert End(ring[i]) < ring[k].addr && ring[i].size >= 0;
    } else if k < i {
      assert End(ring[k]) < ring[i].addr;
    }
  }

  lemma TailChained(ptr: map<int, int>, size: map<int, int>, ring: seq<Blk>, k: nat, n: int)
    requires Sorted(ring) && Chained(ptr, size, ring) && 1 <= k < |ring| && 1 <= n < ring[k].size
    ensures var c := ring[k];
            Chained(ptr, size[c.addr := c.size - n][c.addr + c.size - n := n], ring[k := Blk(c.addr, c.size - n)])
  {
    var c := ring[k];
    var r := ring[k := Blk(c.addr, c.size - n)];
    var size2 := size[c.addr := c.size - n][c.addr + c.size - n := n];
    forall i | 0 <= i < |r| ensures Link(ptr, size2, r, i) {
      TailAt(ptr, size, ring, k, n, i);
    }
  }

  lemma TailAt(ptr: map<int, int>, size: map<int, int>, ring: seq<Blk>, k: nat, n: int, i: nat)
    requires Sorted(ring) && Chained(ptr, size, ring) && 1 <= k < |ring| && 1 <= n < ring[k].size && i < |ring|
    ensures var c := ring[k];
            var r := ring[k := Blk(c.addr, c.size - n)];
            var size2 := size[c.addr := c.size - n][c.addr + c.size - n := n];
            Link(ptr, size2, r, i)
  {
    TailInside(ring, k, n, i);
    if i != k {
      SortedDistinct(ring, i, k);
    }
    assert Link(ptr, size, ring, i);
  }

  lemma TailLive(size: map<int, int>, ring: seq<Blk>, live: map<int, int>, top: int, k: nat, n: int)
    requires Sorted(ring) && LiveOk(size, ring, live, top) && 1 <= k < |ring| && 1 <= n < ring[k].size
    requires ring[k].addr in size && ring[k].addr + ring[k].size - n !in live
    ensures var c := ring[k];
            var a := c.addr + c.size - n;
            LiveOk(size[c.addr := c.size - n][a := n], ring[k := Blk(c.addr, c.size - n)], live[a := n], top)
  {
    var c := ring[k];
    var a := c.addr + c.size - n;
    var r := ring[k := Blk(c.addr, c.size - n)];
    var live2 := live[a := n];
    assert End(ring[0]) < c.addr;
    forall b | b in live ensures b != c.addr && Apart(c, Blk(b, live[b])) {
      assert Apart(ring[k], Blk(b, live[b]));
    }
    forall i, b | 1 <= i < |r| && b in live2 ensures Apart(r[i], Blk(b, live2[b])) {
      if b == a {
        if i < k {
          assert End(ring[i]) < c.addr;
        } else if k < i {
          assert End(c) < ring[i].addr;
        }
      } else {
        assert Apart(ring[i], Blk(b, live[b]));
      }
    }
  }

  // ---- Request sizes ----

  const UINT: int := 0x1_0000_0000

  /** nunits as computed in 32-bit unsigned arithmetic. */
  function Units(nbytes: int): int {
    (nbytes + HEADER - 1) % UINT / HEADER + 1
  }

  /** The int that morecore passes to sbrk for nu units. */
  function SbrkArg(nu: int): int {
    var bytes := nu * HEADER % UINT;
    if bytes < UINT / 2 then bytes else bytes - UINT
  }

  /** The block is large enough for the request exactly when the rounding does not wrap. */
  lemma UnitsLargeEnough(nbytes: int)
    requires 0 <= nbytes < UINT
    ensures (Units(nbytes) - 1) * HEADER >= nbytes <==> nbytes + HEADER - 1 < UINT
    ensures Units(0xFFFF_FFFF) == 1
  {
    assert (0xFFFF_FFFF + HEADER - 1) % UINT == 6;
  }

  /** sbrk is asked for the memory that the new header claims exactly below 2^28 units. */
  lemma SbrkArgExact(nu: int)
    requires 1 <= nu <= UINT / HEADER
    ensures SbrkArg(nu) == nu * HEADER <==> nu < 0x1000_0000
    ensures SbrkArg(Units(0xFFFF_FFF8)) == 0
  {
    assert Units(0xFFFF_FFF8) == 0x2000_0000;
  }

  // ---- The search ----

  /** How many steps after freep the search meets position i. */
  function LapPos(n: nat, fi: nat, i: nat): int {
    if i > fi then i - fi - 1 else i - fi - 1 + n
  }

  function Succ(n: nat, k: nat): nat {
    if k + 1 < n then k + 1 else 0
  }

  /** No block that the search has met is large enough. */
  ghost predicate Passed(ring: seq<Blk>, fi: nat, k: nat, n: int) {
    forall i: nat | i < |ring| && LapPos(|ring|, fi, i) < LapPos(|ring|, fi, k) :: ring[i].size < n
  }

  lemma PassOne(ring: seq<Blk>, fi: nat, k: nat, n: int)
    requires fi < |ring| && k < |ring| && k != fi && Passed(ring, fi, k, n) && ring[k].size < n
    ensures Passed(ring, fi, Succ(|ring|, k), n) && LapPos(|ring|, fi, Succ(|ring|, k)) == LapPos(|ring|, fi, k) + 1
  {
    forall i: nat | i < |ring| && LapPos(|ring|, fi, i) <= LapPos(|ring|, fi, k) ensures ring[i].size < n {
      assert LapPos(|ring|, fi, i) == LapPos(|ring|, fi, k) ==> i == k;
    }
  }

  lemma PassAll(ring: seq<Blk>, fi: nat, n: int)
    requires fi < |ring| && Passed(ring, fi, fi, n) && ring[fi].size < n
    ensures !HasFit(ring, n)
  {
    forall i: nat | i < |ring| ensures ring[i].size < n {
      assert i == fi || LapPos(|ring|, fi, i) < LapPos(|ring|, fi, fi);
    }
  }

  /**
   One lap of malloc's loop, from the element after freep up to freep itself: it finds the
   first block of at least n units in that order, or there is none in the whole ring.
   */
  method Lap(ptr: map<int, int>, size: map<int, int>, freep: int, n: int, ghost ring: seq<Blk>, ghost fi: nat)
    returns (found: bool, prevp: int, p: int, ghost k: nat)
    requires Sorted(ring) && Chained(ptr, size, ring) && fi < |ring| && freep == ring[fi].addr && n >= 1
    ensures found <==> HasFit(ring, n)
    ensures found ==> 1 <= k < |ring| && p == ring[k].addr && prevp == ring[k - 1].addr && ring[k].size >= n
    ensures found ==> Passed(ring, fi, k, n)
  {
    assert Link(ptr, size, ring, fi);
    prevp := freep;
    p := ptr[prevp];
    ghost var m := fi;
    k := Succ(|ring|, fi);
    assert Link(ptr, size, ring, k);
    while true
      invariant 0 <= m < |ring| && k == Succ(|ring|, m) && k < |ring| && Link(ptr, size, ring, k)
      invariant p == ring[k].addr && prevp == ring[m].addr && Passed(ring, fi, k, n)
      decreases |ring| - LapPos(|ring|, fi, k)
    {
      if size[p] >= n {
        found := true;
        return;
      }
      if p == freep {
        if k != fi {
          SortedDistinct(ring, k, fi);
        }
        PassAll(ring, fi, n);
        found := false;
        return;
      }
      PassOne(ring, fi, k, n);
      prevp := p;
      p := ptr[p];
      m, k := k, Succ(|ring|, k);
      assert Link(ptr, size, ring, k);
    }
  }

  /** A fresh region above everything, as a block in use. */
  lemma RegionAdded(size: map<int, int>, ring: seq<Blk>, live: map<int, int>, units: set<int>, top: int, brk: int,
                    nu: int)
    requires HeapOk(size, ring, live, units, top) && brk >= top && nu >= 1
    ensures brk !in live && HeapOk(size[brk := nu], ring, live[brk := nu], units + Range(brk, nu), brk + nu)
  {
    assert brk !in live;
    forall u ensures u in units + Range(brk, nu) <==> FreeUnit(ring, u) || LiveUnit(live[brk := nu], u) {
      MoreLive(live, brk, nu, u);
    }
  }

  /** The headers of the ring do not change with a store above it. */
  lemma RegionChained(ptr: map<int, int>, size: map<int, int>, ring: seq<Blk>, top: int, brk: int, nu: int)
    requires Sorted(ring) && Chained(ptr, size, ring) && brk >= top && brk > BASE
    requires (forall i | 0 <= i < |ring| :: End(ring[i]) <= top)
    ensures Chained(ptr, size[brk := nu], ring)
  {
    var size2 := size[brk := nu];
    forall i | 0 <= i < |ring| ensures Link(ptr, size2, ring, i) {
      assert Link(ptr, size, ring, i);
      assert ring[i].addr != brk;
    }
  }

  function Range(a: int, n: int): (r: set<int>)
    ensures forall u :: u in r <==> a <= u < a + n
  {
    set u | a <= u < a + n && InRange(a, n, u)
  }

  predicate InRange(a: int, n: int, u: int) {
    a <= u < a + n
  }

  /** ap is the tail of the first block from position fi on that is large enough, and freep the block before it. */
  ghost predicate NextFit(ring: seq<Blk>, fi: nat, n: int, ap: int, freep: int) {
    fi < |ring| && exists k: nat :: FitAt(ring, fi, n, ap, freep, k)
  }

  ghost predicate FitAt(ring: seq<Blk>, fi: nat, n: int, ap: int, freep: int, k: nat)
    requires fi < |ring|
  {
    && 1 <= k < |ring| && ring[k].size >= n && Passed(ring, fi, k, n)
    && ap - 1 + n == ring[k].addr + ring[k].size && freep == ring[k - 1].addr
  }

  class Allocator {
    var ptr: map<int, int>
    var size: map<int, int>
    /** 0 until the first malloc. */
    var freep: int
    ghost var ring: seq<Blk>
    /** freep is ring[fi]. */
    ghost var fi: nat
    /** Allocated blocks: header address to size in units. */
    ghost var live: map<int, int>
    /** Every unit ever obtained from sbrk, and an upper bound of them. */
    ghost var units: set<int>
    ghost var top: int

    ghost predicate Valid()
      reads this
    {
      && HeapOk(size, ring, live, units, top)
      && (freep == 0 ==> ring == [Blk(BASE, 0)] && live == map[])
      && (freep != 0 ==> Chained(ptr, size, ring) && fi < |ring| && freep == ring[fi].addr)
    }

    constructor ()
      ensures Valid() && live == map[] && units == {} && freep == 0
    {
      ptr, size, freep := map[], map[], 0;
      ring, fi, live, units, top := [Blk(BASE, 0)], 0, map[], {}, BASE + 1;
    }

    /**
     free: bp goes back into the ring, merged with the neighbours it touches. Every other
     allocated block stays as it is, and free and allocated units together stay the same.
     */
    method Free(ap: int)
      requires Valid() && ap - 1 in live
      modifies this`ptr, this`size, this`freep, this`ring, this`fi, this`live
      ensures Valid() && freep != 0 && live == old(live) - {ap - 1} && HasFit(ring, old(live)[ap - 1])
      ensures freep < ap - 1 && forall i | 0 <= i < |old(ring)| ::
                old(ring)[i].addr <= freep || ap - 1 < old(ring)[i].addr
    {
      var bp := ap - 1;
      forall i | 0 <= i < |ring| ensures ring[i].addr != bp {
        LiveNotInRing(size, ring, live, top, i, bp);
      }
      var p; ghost var j;
      p, j := FindSlot(ptr, freep, bp, size, ring, fi);
      assert Sorted(ring);
      FreeAt(p, bp, j);
    }

    /** Installs a new ring with its header words and allocated blocks. */
    method Store(ptr2: map<int, int>, size2: map<int, int>, p: int, ghost r: seq<Blk>, ghost j: nat,
                 ghost live2: map<int, int>)
      requires HeapOk(size2, r, live2, units, top) && Chained(ptr2, size2, r) && j < |r| && r[j].addr == p != 0
      modifies this`ptr, this`size, this`freep, this`ring, this`fi, this`live
      ensures Valid() && freep == p && ptr == ptr2 && size == size2 && ring == r && fi == j && live == live2
    {
      ptr, size, freep := ptr2, size2, p;
      ring, fi, live := r, j, live2;
    }

    /** The pointer surgery of free, behind p. */
    method FreeAt(p: int, bp: int, ghost j: nat)
      requires Valid() && bp in live && freep != 0 && j < |ring| && p == ring[j].addr
      requires Slot(ring, Blk(bp, live[bp]), j)
      modifies this`ptr, this`size, this`freep, this`ring, this`fi, this`live
      ensures Valid() && freep == p != 0 && live == old(live) - {bp} && HasFit(ring, old(live)[bp])
    {
      ghost var r;
      var ptr2, size2;
      ptr2, size2, r := LinkBehind(ptr, size, p, bp, ring, live, top, j);
      Store(ptr2, size2, p, r, j, live - {bp});
    }

    /**
     morecore: at least NALLOC units from sbrk, handed to free. brk is the address that sbrk
     returns, or -1; the regions it returns are fresh and above everything obtained before.
     */
    method Morecore(nunits: int, brk: int) returns (ok: bool)
      requires Valid() && freep != 0 && nunits >= 1 && (brk == -1 || brk >= top)
      modifies this
      ensures ok <==> brk != -1
      ensures Valid() && freep != 0 && live == old(live)
      ensures !ok ==> ring == old(ring) && units == old(units)
      ensures ok ==> units == old(units) + Range(brk, if nunits < NALLOC then NALLOC else nunits)
      ensures ok ==> HasFit(ring, nunits)
    {
      if brk == -1 {
        return false;
      }
      var nu := if nunits < NALLOC then NALLOC else nunits;
      AddRegion(brk, nu);
      Free(brk + 1);
      assert old(live)[brk := nu] - {brk} == old(live);
      ok := true;
    }

    /** The header of a new region, which then counts as a block in use. */
    method AddRegion(brk: int, nu: int)
      requires Valid() && freep != 0 && nu >= 1 && brk >= top
      modifies this`size, this`live, this`units, this`top
      ensures Valid() && brk !in old(live) && live == old(live)[brk := nu] && units == old(units) + Range(brk, nu)
    {
      RegionAdded(size, ring, live, units, top, brk, nu);
      RegionChained(ptr, size, ring, top, brk, nu);
      size := size[brk := nu];
      live, units, top := live[brk := nu], units + Range(brk, nu), brk + nu;
    }

    /** The end of malloc's loop: unlink an exact fit, or cut the tail off a larger block. */
    method TakeFit(prevp: int, p: int, n: int, ghost k: nat) returns (ap: int)
      requires Valid() && freep != 0 && n >= 1
      requires 1 <= k < |ring| && p == ring[k].addr && prevp == ring[k - 1].addr && ring[k].size >= n
      modifies this`ptr, this`size, this`freep, this`ring, this`fi, this`live
      ensures Valid() && freep == prevp != 0
      ensures ap - 1 !in old(live) && live == old(live)[ap - 1 := n]
      ensures old(ring)[k].addr <= ap - 1 && ap - 1 + n == End(old(ring)[k]) && ap != 0
    {
      assert Link(ptr, size, ring, k);
      if size[p] == n {
        Unlink(prevp, p, k);
        ap := p + 1;
      } else {
        ap := CutTail(prevp, p, n, k);
      }
    }

    method Unlink(prevp: int, p: int, ghost k: nat)
      requires Valid() && freep != 0 && 1 <= k < |ring| && p == ring[k].addr && prevp == ring[k - 1].addr
      modifies this`ptr, this`size, this`freep, this`ring, this`fi, this`live
      ensures Valid() && freep == prevp != 0
      ensures p !in old(live) && live == old(live)[p := old(ring)[k].size]
    {
      assert Link(ptr, size, ring, k) && Link(ptr, size, ring, k - 1);
      ghost var r := TakeWhole(ptr, size, ring, live, top, k);
      Store(ptr[prevp := ptr[p]], size, prevp, r, k - 1, live[p := ring[k].size]);
    }

    method CutTail(prevp: int, p: int, n: int, ghost k: nat) returns (ap: int)
      requires Valid() && freep != 0 && 1 <= k < |ring| && p == ring[k].addr && prevp == ring[k - 1].addr
      requires 1 <= n < ring[k].size
      modifies this`ptr, this`size, this`freep, this`ring, this`fi, this`live
      ensures Valid() && freep == prevp != 0
      ensures ap - 1 == End(old(ring)[k]) - n && ap - 1 !in old(live) && live == old(live)[ap - 1 := n]
    {
      assert Link(ptr, size, ring, k) && Link(ptr, size, ring, k - 1);
      ghost var r := TakeTail(ptr, size, ring, live, top, k, n);
      var q := p + size[p] - n;
      Store(ptr, size[p := size[p] - n][q := n], prevp, r, k - 1, live[q := n]);
      ap := q + 1;
    }

    /**
     malloc. It fails exactly when no free block fits and sbrk fails; otherwise it returns a
     new block of the requested number of units and every block in use stays in use. It asks
     sbrk at most once, and only when nothing fits. When sbrk is asked and grants the request,
     the request must be one that its argument can carry (SbrkArgExact).
     */
    method Malloc(nbytes: int, brk: int) returns (ap: int)
      requires Valid() && 0 <= nbytes < UINT && (brk == -1 || brk >= top)
      requires HasFit(ring, Units(nbytes)) || brk == -1 || Units(nbytes) < 0x1000_0000
      modifies this
      ensures Valid()
      ensures ap == 0 <==> !old(HasFit(ring, Units(nbytes))) && brk == -1
      ensures ap == 0 ==> live == old(live) && units == old(units)
      ensures ap != 0 ==> ap - 1 !in old(live) && live == old(live)[ap - 1 := Units(nbytes)]
      ensures old(HasFit(ring, Units(nbytes))) ==> NextFit(old(ring), old(fi), Units(nbytes), ap, freep)
      ensures old(HasFit(ring, Units(nbytes))) ==> units == old(units)
      ensures !old(HasFit(ring, Units(nbytes))) && brk != -1 ==>
                units == old(units) + Range(brk, if Units(nbytes) < NALLOC then NALLOC else Units(nbytes))
    {
      hide Sorted, Chained, LiveOk, FreeUnit, LiveUnit;
      var n := Units(nbytes);
      if freep == 0 {
        InitRing();
      }
      ghost var cores := 0;
      while true
        invariant Valid() && freep != 0 && live == old(live)
        invariant cores == 0 ==> ring == old(ring) && units == old(units) && top == old(top)
        invariant cores == 0 && old(freep) != 0 ==> fi == old(fi)
        invariant cores == 1 ==> HasFit(ring, n) && brk != -1 && !old(HasFit(ring, Units(nbytes)))
        invariant cores == 1 ==> units == old(units) + Range(brk, if n < NALLOC then NALLOC else n)
        invariant 0 <= cores <= 1
        decreases 1 - cores
      {
        var found, prevp, p; ghost var k;
        found, prevp, p, k := Lap(ptr, size, freep, n, ring, fi);
        if found {
          ghost var r, f := ring, fi;
          ap := TakeFit(prevp, p, n, k);
          assert FitAt(r, f, n, ap, freep, k);
          return;
        }
        var ok := Morecore(n, brk);
        if !ok {
          return 0;
        }
        cores := cores + 1;
      }
    }

    method InitRing()
      requires Valid() && freep == 0
      modifies this`ptr, this`size, this`freep, this`fi
      ensures Valid() && freep != 0
    {
      ptr, size := ptr[BASE := BASE], size[BASE := 0];
      freep, fi := BASE, 0;
    }
  }

  /** Everything that free() keeps, on values. */
  lemma FreedAll(ptr: map<int, int>, size: map<int, int>, ring: seq<Blk>, live: map<int, int>, top: int, j: nat,
                 bp: int)
    returns (r: seq<Blk>)
    requires Sorted(ring) && Chained(ptr, size, ring) && LiveOk(size, ring, live, top)
    requires bp in live && Slot(ring, Blk(bp, live[bp]), j)
    ensures var p := ring[j].addr;
            && p in ptr && p in size && bp in size
            && p != bp && p != 0 && ptr[p] in size && ptr[p] in ptr
            && Sorted(r) && j < |r| && r[j].addr == p
            && Chained(FreedPtr(ptr, size, p, bp), FreedSize(ptr, size, p, bp), r)
            && LiveOk(FreedSize(ptr, size, p, bp), r, live - {bp}, top)
            && (forall u :: FreeUnit(r, u) || LiveUnit(live - {bp}, u) <==> FreeUnit(ring, u) || LiveUnit(live, u))
            && HasFit(r, live[bp])
  {
    var b := Blk(bp, live[bp]);
    assert Link(ptr, size, ring, j);
    LiveNotInRing(size, ring, live, top, j, bp);
    NextAscends(ring, j);
    assert InGap(ring, b);
    assert Link(ptr, size, ring, j);
    assert j + 1 < |ring| ==> Link(ptr, size, ring, j + 1);
    assert Link(ptr, size, ring, 0);
    InsertIsInserted(ring, j, b);
    FreedLive(ptr, size, ring, live, top, j, bp, Insert(ring, j, b));
    FreedChained(ptr, size, ring, j, b);
    InsertSorted(ring, j, b);
    Neighbours(ring, j, b);
    forall u
      ensures FreeUnit(Insert(ring, j, b), u) || LiveUnit(live - {bp}, u) <==> FreeUnit(ring, u) || LiveUnit(live, u)
    {
      FreedUnits(size, ring, live, top, j, bp, u);
    }
    r := Insert(ring, j, b);
    assert r[Lo(ring, j, b)] == Merged(ring, j, b) && Merged(ring, j, b).size >= b.size;
    assert r[j] == InsertedAt(ring, j, b, j);
  }

  // ---- The free list depends on the present only ----

  lemma FreeIsTheRest(size: map<int, int>, ring: seq<Blk>, live: map<int, int>, units: set<int>, top: int, u: int)
    requires HeapOk(size, ring, live, units, top)
    ensures FreeUnit(ring, u) <==> u in units && !LiveUnit(live, u)
  {
    if FreeUnit(ring, u) {
      var i :| 0 <= i < |ring| && ring[i].addr <= u < End(ring[i]);
      assert i >= 1;
      forall a | a in live ensures !(a <= u < a + live[a]) {
        assert Apart(ring[i], Blk(a, live[a]));
      }
    }
  }

  /** A sorted ring without touching blocks is determined by the set of its units. */
  lemma {:induction false} SameUnitsSameRing(r: seq<Blk>, s: seq<Blk>, k: nat)
    requires Sorted(r) && Sorted(s) && (forall u :: FreeUnit(r, u) <==> FreeUnit(s, u))
    requires 1 <= k && k <= |r| && k <= |s|
    ensures r[..k] == s[..k]
  {
    if k > 1 {
      SameUnitsSameRing(r, s, k - 1);
      var m := k - 1;
      StartsNoLater(r, s, m);
      StartsNoLater(s, r, m);
      EndsNoLater(r, s, m);
      EndsNoLater(s, r, m);
      assert r[..k] == r[..m] + [r[m]] && s[..k] == s[..m] + [s[m]];
    }
  }

  lemma StartsNoLater(r: seq<Blk>, s: seq<Blk>, m: nat)
    requires Sorted(r) && Sorted(s) && (forall u :: FreeUnit(r, u) <==> FreeUnit(s, u))
    requires 1 <= m < |r| && m <= |s| && r[..m] == s[..m]
    ensures m < |s| && s[m].addr <= r[m].addr
  {
    var u := r[m].addr;
    assert r[m].addr <= u < End(r[m]);
    assert FreeUnit(r, u);
    forall i | 0 <= i < m ensures !(s[i].addr <= u < End(s[i])) {
      assert s[i] == s[..m][i] == r[..m][i] == r[i];
      assert End(r[i]) < r[m].addr;
    }
    var i :| 0 <= i < |s| && s[i].addr <= u < End(s[i]);
    assert i > m ==> End(s[m]) < s[i].addr && s[m].size >= 1;
  }

  lemma EndsNoLater(r: seq<Blk>, s: seq<Blk>, m: nat)
    requires Sorted(r) && Sorted(s) && (forall u :: FreeUnit(r, u) <==> FreeUnit(s, u))
    requires 1 <= m < |r| && m < |s| && r[m].addr == s[m].addr
    ensures End(s[m]) <= End(r[m])
  {
    GapAfter(r, m);
    assert r[m].size >= 1 && !FreeUnit(s, End(r[m]));
    assert !(s[m].addr <= End(r[m]) < End(s[m]));
  }

  /** The unit right after a free block is not free: free blocks do not touch. */
  lemma GapAfter(r: seq<Blk>, m: nat)
    requires Sorted(r) && 1 <= m < |r|
    ensures !FreeUnit(r, End(r[m]))
  {
    forall i | 0 <= i < |r| ensures !(r[i].addr <= End(r[m]) < End(r[i])) {
      assert i < m ==> End(r[i]) < r[m].addr;
      assert i > m ==> End(r[m]) < r[i].addr;
    }
  }

  /**
   Whatever calls of malloc and free led here, the free list is a function of the blocks in
   use and the memory obtained. So freeing what was just allocated restores the list, and
   the order of frees does not matter.
   */
  lemma FreeListIsCanonical(size: map<int, int>, r: seq<Blk>, size2: map<int, int>, s: seq<Blk>,
                            live: map<int, int>, units: set<int>, top: int, top2: int)
    requires HeapOk(size, r, live, units, top) && HeapOk(size2, s, live, units, top2)
    ensures r == s
  {
    forall u ensures FreeUnit(r, u) <==> FreeUnit(s, u) {
      FreeIsTheRest(size, r, live, units, top, u);
      FreeIsTheRest(size2, s, live, units, top2, u);
    }
    if |r| < |s| {
      SameUnitsSameRing(r, s, |r|);
      StartsNoLater(s, r, |r|);
    } else {
      SameUnitsSameRing(r, s, |s|);
      if |s| < |r| {
        StartsNoLater(r, s, |s|);
      }
    }
    assert r[..|r|] == r && s[..|s|] == s;
  }

  /** free undoes malloc. */
  method MallocThenFree(heap: Allocator, nbytes: int) returns (ap: int)
    requires heap.Valid() && 0 <= nbytes < UINT
    modifies heap
    ensures heap.Valid() && heap.ring == old(heap.ring) && heap.live == old(heap.live) && heap.units == old(heap.units)
    ensures ap != 0 <==> old(HasFit(heap.ring, Units(nbytes)))
  {
    ghost var size0, ring0, top0 := heap.size, heap.ring, heap.top;
    ap := heap.Malloc(nbytes, -1);
    if ap != 0 {
      heap.Free(ap);
      assert old(heap.live)[ap - 1 := Units(nbytes)] - {ap - 1} == old(heap.live);
    }
    FreeListIsCanonical(size0, ring0, heap.size, heap.ring, heap.live, heap.units, top0, heap.top);
  }
}
