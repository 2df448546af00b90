/**
 How many pages the virtual-memory code takes: walkpgdir allocates a table for a directory
 slot exactly when the slot is empty, so what a range of pages costs is the number of
 empty slots it reaches.
 */
module PageBudget {
  import opened PageTables

  ghost predicate TabledAt(m: Ram, m2: Ram, r: nat, a: nat, b: nat, i: nat)
    requires m.Shape() && m2.Shape() && r < m.top && r < m2.top && i < ENTRIES
  {
    Present(Pde(m2, r, i)) <==> Present(Pde(m, r, i)) || a <= i < b
  }

  /** The slots of directory r in use on m2 are those on m and the slots a..b-1. */
  ghost predicate Tabled(m: Ram, m2: Ram, r: nat, a: nat, b: nat) {
    m.Shape() && m2.Shape() && r < m.top && r < m2.top && forall i: nat | i < ENTRIES :: TabledAt(m, m2, r, a, b, i)
  }

  /** How many of the directory slots a..b-1 have no table. */
  ghost function Missing(m: Ram, r: nat, a: nat, b: nat): nat
    requires m.Shape() && r < m.top && b <= ENTRIES
    decreases b
  {
    if b <= a then 0 else Missing(m, r, a, b - 1) + MissingOne(m, r, b - 1)
  }

  ghost function MissingOne(m: Ram, r: nat, i: nat): nat
    requires m.Shape() && r < m.top && i < ENTRIES
  {
    if Present(Pde(m, r, i)) then 0 else 1
  }

  lemma {:induction false} MissingMonotone(m: Ram, r: nat, a: nat, b: nat, c: nat)
    requires m.Shape() && r < m.top && b <= c <= ENTRIES
    ensures Missing(m, r, a, b) <= Missing(m, r, a, c)
  {
    if b < c {
      MissingMonotone(m, r, a, b, c - 1);
    }
  }

  /** Slots in use up to `top` and none from there on. */
  lemma {:induction false} MissingAbove(m: Ram, r: nat, a: nat, top: nat, b: nat)
    requires m.Shape() && r < m.top && a <= top <= b <= ENTRIES
    requires forall i: nat | a <= i < b && i < ENTRIES :: Present(Pde(m, r, i)) <==> i < top
    ensures Missing(m, r, a, b) == b - top
    decreases b
  {
    if a < b {
      MissingAbove(m, r, a, if top < b then top else b - 1, b - 1);
    }
  }

  /** The first slot behind those of the k pages from vp0 on. */
  function TopSlot(vp0: nat, k: nat): nat {
    if k == 0 then vp0 / ENTRIES else (vp0 + k - 1) / ENTRIES + 1
  }

  lemma TopSlotStep(vp0: nat, k: nat)
    ensures TopSlot(vp0, k + 1) == (vp0 + k) / ENTRIES + 1
    ensures (vp0 + k) / ENTRIES <= TopSlot(vp0, k) <= (vp0 + k) / ENTRIES + 1
    ensures vp0 + k < VPAGES ==> TopSlot(vp0, k + 1) <= ENTRIES && TopSlot(vp0, k) <= ENTRIES
  {
  }

  /** The tables for the k pages from vp0 on. */
  ghost function TableCost(m: Ram, r: nat, vp0: nat, k: nat): nat
    requires m.Shape() && r < m.top && vp0 + k <= VPAGES
  {
    assert TopSlot(vp0, k) <= ENTRIES;
    Missing(m, r, vp0 / ENTRIES, TopSlot(vp0, k))
  }

  lemma CostMonotone(m: Ram, r: nat, vp0: nat, k: nat, n: nat)
    requires m.Shape() && r < m.top && k <= n && vp0 + n <= VPAGES
    ensures TableCost(m, r, vp0, k) <= TableCost(m, r, vp0, n)
  {
    assert TopSlot(vp0, k) <= TopSlot(vp0, n) <= ENTRIES;
    MissingMonotone(m, r, vp0 / ENTRIES, TopSlot(vp0, k), TopSlot(vp0, n));
  }

  /** One more page: it costs a table exactly when its slot is empty by now. */
  lemma CostStep(m0: Ram, m: Ram, r: nat, vp0: nat, k: nat)
    requires vp0 + k < VPAGES && Tabled(m0, m, r, vp0 / ENTRIES, TopSlot(vp0, k))
    ensures (vp0 + k) / ENTRIES < ENTRIES
    ensures TableCost(m0, r, vp0, k + 1) == TableCost(m0, r, vp0, k) + MissingOne(m, r, (vp0 + k) / ENTRIES)
  {
    TopSlotStep(vp0, k);
    assert TabledAt(m0, m, r, vp0 / ENTRIES, TopSlot(vp0, k), (vp0 + k) / ENTRIES);
  }

  lemma TabledStep(m0: Ram, m: Ram, m2: Ram, r: nat, vp0: nat, k: nat)
    requires vp0 + k < VPAGES && Tabled(m0, m, r, vp0 / ENTRIES, TopSlot(vp0, k))
    requires Tabled(m, m2, r, (vp0 + k) / ENTRIES, (vp0 + k) / ENTRIES + 1)
    ensures Tabled(m0, m2, r, vp0 / ENTRIES, TopSlot(vp0, k + 1))
  {
    TopSlotStep(vp0, k);
    var a, b, s := vp0 / ENTRIES, TopSlot(vp0, k), (vp0 + k) / ENTRIES;
    var b2, s2 := TopSlot(vp0, k + 1), s + 1;
    forall i: nat | i < ENTRIES ensures TabledAt(m0, m2, r, a, b2, i) {
      assert TabledAt(m0, m, r, a, b, i) && TabledAt(m, m2, r, s, s2, i);
    }
  }

  lemma TabledNone(m: Ram, r: nat, a: nat)
    requires m.Shape() && r < m.top
    ensures Tabled(m, m, r, a, a)
  {
  }

  /** A step that changes no directory slot, before or after one that may. */
  lemma TabledSame(m0: Ram, m: Ram, m2: Ram, r: nat, a: nat, b: nat)
    requires (Tabled(m0, m, r, 0, 0) && Tabled(m, m2, r, a, b)) || (Tabled(m0, m, r, a, b) && Tabled(m, m2, r, 0, 0))
    ensures Tabled(m0, m2, r, a, b)
  {
    forall i: nat | i < ENTRIES ensures TabledAt(m0, m2, r, a, b, i) {
      if Tabled(m0, m, r, 0, 0) && Tabled(m, m2, r, a, b) {
        assert TabledAt(m0, m, r, 0, 0, i) && TabledAt(m, m2, r, a, b, i);
      } else {
        assert TabledAt(m0, m, r, a, b, i) && TabledAt(m, m2, r, 0, 0, i);
      }
    }
  }

  lemma TabledPage(m: Ram, own: map<nat, Owner>, m2: Ram, p: nat, r: nat)
    requires Inv(m, own) && IsRoot(own, r) && (p in own ==> own[p] == Hand) && OnlyPage(m, m2, p)
    ensures Tabled(m, m2, r, 0, 0)
  {
    RootInRange(m, own, r);
  }

  lemma TabledTable(m: Ram, own: map<nat, Owner>, r: nat, i: nat, p: nat)
    requires AddsTable(m, own, r, i, p)
    ensures Tabled(m, WithTable(m, own, r, i, p), r, i, i + 1)
  {
    var m2, i2 := WithTable(m, own, r, i, p), i + 1;
    EntryParts(p, 7);
    forall j: nat | j < ENTRIES ensures TabledAt(m, m2, r, i, i2, j) {
      assert j * ENTRIES / ENTRIES == j;
      WithTableEntries(m, own, r, i, p, r, j * ENTRIES);
    }
  }

  lemma TabledEntry(m: Ram, own: map<nat, Owner>, r: nat, vp: nat, e: nat)
    requires HasTable(m, own, r, vp)
    ensures Tabled(m, WithEntry(m, own, r, vp, e), r, 0, 0)
  {
    var m2 := WithEntry(m, own, r, vp, e);
    forall j: nat | j < ENTRIES ensures TabledAt(m, m2, r, 0, 0, j) {
      assert j * ENTRIES / ENTRIES == j;
      WithEntryEntries(m, own, r, vp, e, r, j * ENTRIES);
    }
  }
}
