/**
 kalloc.c and the address-space part of vm.c on one physical memory.

 mem holds every page below PHYSTOP. Free pages are chained through their first word, a
 page number with 0 as the null pointer. Ghost state: free is the list as a sequence, own
 says what every other page is used for.
 */
module Vm {
  import opened PageTables
  import opened PageBudget

  const PHYSPAGES: nat := 0xE000
  const KERNBASE: nat := 0x80000000
  const JUNK: nat := 0x01010101

  /** The pages of a byte size, rounded up. */
  function PagesFor(sz: nat): nat {
    (sz + PGSIZE - 1) / PGSIZE
  }

  lemma PagesForIs(sz: nat, vp: nat)
    ensures vp * PGSIZE < sz <==> vp < PagesFor(sz)
    ensures sz <= KERNBASE ==> PagesFor(sz) <= UPAGES
  {
  }

  function Junk(next: nat): (page: Page)
    ensures |page| == ENTRIES && page[0] == next
  {
    seq(ENTRIES, k => if k == 0 then next else JUNK)
  }

  /** Following first words from head visits exactly the pages of free, then ends. */
  ghost predicate Chain(mem: seq<Page>, head: nat, free: seq<nat>)
    decreases |free|
  {
    if free == [] then head == 0
    else
      && head == free[0] && head != 0 && head < |mem| && |mem[head]| == ENTRIES
      && free[0] !in free[1..] && Chain(mem, mem[head][0], free[1..])
  }

  lemma {:induction false} ChainKept(mem: seq<Page>, mem2: seq<Page>, head: nat, free: seq<nat>)
    requires Chain(mem, head, free) && |mem| == |mem2|
    requires forall p | p in free :: p < |mem| ==> mem2[p] == mem[p]
    ensures Chain(mem2, head, free)
    decreases |free|
  {
    if free != [] {
      assert free[0] in free;
      ChainKept(mem, mem2, mem[head][0], free[1..]);
    }
  }

  /** Every page from first on is either on the free list or owned, never both. */
  ghost predicate Lists(first: nat, mem: seq<Page>, head: nat, free: seq<nat>, own: map<nat, Owner>) {
    && Chain(mem, head, free)
    && (forall p | p in free :: first <= p < PHYSPAGES && p !in own)
    && (forall p | p in own :: first <= p < PHYSPAGES)
    && (forall p: nat | first <= p < PHYSPAGES :: p in own || p in free)
  }

  lemma ListsKept(first: nat, mem: seq<Page>, mem2: seq<Page>, head: nat, free: seq<nat>, own: map<nat, Owner>,
                  own2: map<nat, Owner>)
    requires Lists(first, mem, head, free, own) && |mem| == |mem2| && own2.Keys == own.Keys
    requires forall p: nat | p < |mem| && p !in own :: mem2[p] == mem[p]
    ensures Lists(first, mem2, head, free, own2)
  {
    ChainKept(mem, mem2, head, free);
    assert forall p :: p in own <==> p in own.Keys;
    assert forall p :: p in own2 <==> p in own2.Keys;
  }

  /** The state only gained pages, all of them for r; other pages kept owner and contents. */
  ghost predicate Above(m: Ram, own: map<nat, Owner>, m2: Ram, own2: map<nat, Owner>, r: nat) {
    && (forall q | q in own :: AboveAt(m, own, m2, own2, r, q))
    && (forall q | q in own2 && q !in own :: Belongs(own2, q, r))
  }

  ghost predicate AboveAt(m: Ram, own: map<nat, Owner>, m2: Ram, own2: map<nat, Owner>, r: nat, q: nat)
    requires q in own
  {
    && q in own2 && own2[q] == own[q] && q < |m.mem| && q < |m2.mem|
    && (q == r || (own[q].Table? && own[q].r == r) || m2.mem[q] == m.mem[q])
  }

  lemma AboveTwice(m: Ram, own: map<nat, Owner>, m2: Ram, own2: map<nat, Owner>, m3: Ram, own3: map<nat, Owner>, r: nat)
    requires Above(m, own, m2, own2, r) && Above(m2, own2, m3, own3, r)
    ensures Above(m, own, m3, own3, r)
  {
    forall q | q in own ensures AboveAt(m, own, m3, own3, r, q) {
      assert AboveAt(m, own, m2, own2, r, q);
      assert AboveAt(m2, own2, m3, own3, r, q);
    }
    forall q | q in own3 && q !in own ensures Belongs(own3, q, r) {
      if q in own2 {
        assert AboveAt(m2, own2, m3, own3, r, q);
      }
    }
  }

  /** The entry of vp after pages vp0..vp0+k were mapped to pn and following. */
  ghost predicate RunAt(m: Ram, m2: Ram, r: nat, vp0: nat, k: nat, pn: nat, fl: nat, vp: nat)
    requires m.Shape() && m2.Shape() && r < m.top && r < m2.top && vp < VPAGES
  {
    Pte(m2, r, vp) == if vp0 <= vp < vp0 + k then Entry(pn + (vp - vp0), fl) else Pte(m, r, vp)
  }

  ghost predicate Run(m: Ram, m2: Ram, r: nat, vp0: nat, k: nat, pn: nat, fl: nat) {
    && m.Shape() && m2.Shape() && r < m.top && r < m2.top
    && forall vp: nat | vp < VPAGES :: RunAt(m, m2, r, vp0, k, pn, fl, vp)
  }

  /** Owners after k pages were mapped: kernel pages have none here, a user page belongs to its entry. */
  ghost predicate Mapped(m0: Ram, own0: map<nat, Owner>, m: Ram, own: map<nat, Owner>, r: nat, vp0: nat, k: nat,
                         pn: nat)
  {
    if vp0 >= UPAGES then Above(m0, own0, m, own, r)
    else if k == 0 then m == m0 && own == own0
    else Above(m0, own0 - {pn}, m, own, r) && pn in own && own[pn] == User(r, vp0) && SamePage(m0, m, pn)
  }

  lemma MappedNone(m: Ram, own: map<nat, Owner>, r: nat, vp0: nat, pn: nat, fl: nat)
    requires Inv(m, own) && r < m.top
    ensures Run(m, m, r, vp0, 0, pn, fl) && Mapped(m, own, m, own, r, vp0, 0, pn)
  {
    forall q | q in own ensures AboveAt(m, own, m, own, r, q) {
      assert OwnerOk(m, own, q);
    }
  }

  lemma MappedMore(m0: Ram, own0: map<nat, Owner>, m: Ram, own: map<nat, Owner>, m2: Ram, own2: map<nat, Owner>, r: nat,
                   vp0: nat, k: nat, pn: nat)
    requires Mapped(m0, own0, m, own, r, vp0, k, pn) && (vp0 < UPAGES ==> k == 0)
    requires vp0 >= UPAGES ==> Above(m, own, m2, own2, r)
    requires vp0 < UPAGES ==> Above(m, own - {pn}, m2, own2, r) && pn in own2 && own2[pn] == User(r, vp0)
    requires vp0 < UPAGES ==> SamePage(m, m2, pn)
    ensures Mapped(m0, own0, m2, own2, r, vp0, k + 1, pn)
  {
    if vp0 >= UPAGES {
      AboveTwice(m0, own0, m, own, m2, own2, r);
    }
  }

  /** pa | perm | PTE_P on the flag bits. */
  function WithP(perm: nat): (fl: nat)
    ensures fl % 2 == 1 && (perm % 2 == 1 ==> fl == perm) && (perm % 2 == 0 ==> fl == perm + 1)
  {
    if perm % 2 == 1 then perm else perm + 1
  }

  /** A new table changes no entry and touches nothing else. */
  lemma TableAdded(m: Ram, own: map<nat, Owner>, r: nat, i: nat, p: nat)
    requires p !in own && AddsTable(m, own[p := Hand], r, i, p)
    ensures Above(m, own, WithTable(m, own[p := Hand], r, i, p), own[p := Hand][p := Table(r, i)], r)
    ensures SameEntries(m, WithTable(m, own[p := Hand], r, i, p), r)
  {
    var own1 := own[p := Hand];
    var m2, own2 := WithTable(m, own1, r, i, p), own1[p := Table(r, i)];
    forall q | q in own ensures AboveAt(m, own, m2, own2, r, q) {
      assert q in own1 && OwnerOk(m, own1, q);
    }
    forall n: nat | n < VPAGES ensures SameEntry(m, m2, r, n) {
      WithTableEntries(m, own1, r, i, p, r, n);
    }
  }

  /** Storing an entry touches only the table. */
  lemma EntryAbove(m: Ram, own: map<nat, Owner>, r: nat, vp: nat, pn: nat, fl: nat)
    requires Maps(m, own, r, vp, pn, fl)
    ensures var m2, own2 := WithEntry(m, own, r, vp, Entry(pn, fl)), Owning(own, r, vp, pn);
            Above(m, if vp < UPAGES then own - {pn} else own, m2, own2, r)
  {
    var own1 := if vp < UPAGES then own - {pn} else own;
    var m2, own2 := WithEntry(m, own, r, vp, Entry(pn, fl)), Owning(own, r, vp, pn);
    forall q | q in own1 ensures AboveAt(m, own1, m2, own2, r, q) {
      assert OwnerOk(m, own, q);
    }
  }

  /** The page in hand plays no part in a step that does not map it. */
  lemma AboveLess(m: Ram, own: map<nat, Owner>, m2: Ram, own2: map<nat, Owner>, r: nat, pn: nat)
    requires Above(m, own, m2, own2, r) && pn in own
    ensures Above(m, own - {pn}, m2, own2 - {pn}, r)
  {
    forall q | q in own - {pn} ensures AboveAt(m, own - {pn}, m2, own2 - {pn}, r, q) {
      assert AboveAt(m, own, m2, own2, r, q);
    }
  }

  ghost predicate Physical(p: nat) {
    p < PHYSPAGES
  }

  /** The pages that kalloc may manage. */
  ghost function Managed(end: nat): set<nat> {
    set p: nat | end <= p < PHYSPAGES && Physical(p)
  }

  ghost predicate Unused(own: map<nat, Owner>, p: nat) {
    p in own && own[p] == Other
  }

  ghost function Outside(own: map<nat, Owner>, lo: nat, hi: nat): map<nat, Owner> {
    map q | q in own && !(lo <= q < hi) :: own[q]
  }

  lemma OutsideNothing(own: map<nat, Owner>, lo: nat, hi: nat)
    ensures hi <= lo ==> Outside(own, lo, hi) == own
  {
  }

  lemma OutsideStep(own: map<nat, Owner>, lo: nat, p: nat)
    requires lo <= p
    ensures Outside(own, lo, p + 1) == Outside(own, lo, p) - {p}
  {
  }

  class Machine {
    const first: nat
    var mem: seq<Page>
    var freelist: nat
    ghost var free: seq<nat>
    ghost var own: map<nat, Owner>

    ghost function M(): Ram
      reads this
    {
      Ram(first, PHYSPAGES, mem, 0, 0)
    }

    ghost predicate ListsOk()
      reads this
    {
      M().Shape() && Lists(first, mem, freelist, free, own)
    }

    ghost predicate Valid()
      reads this
    {
      ListsOk() && Inv(M(), own)
    }

    /** Before kinit1: nothing is free yet. */
    constructor (pages: seq<Page>, end: nat)
      requires 1 <= end <= PHYSPAGES && |pages| == PHYSPAGES && forall p: nat | p < PHYSPAGES :: PageOk(pages, p)
      ensures Valid() && first == end && mem == pages && free == []
      ensures own.Keys == Managed(end) && forall p | p in own :: own[p] == Other
    {
      first := end;
      mem := pages;
      freelist := 0;
      free := [];
      own := map p | p in Managed(end) :: Other;
      new;
      assert forall p: nat | end <= p < PHYSPAGES :: Physical(p) ==> p in own;
    }

    /** freerange: every whole page inside the byte range vstart..vend is freed. */
    method FreeRange(vstart: nat, vend: nat)
      requires Valid() && forall p: nat | PagesFor(vstart) <= p < vend / PGSIZE :: Unused(own, p)
      modifies this
      ensures Valid() && own == Outside(old(own), PagesFor(vstart), vend / PGSIZE)
    {
      ghost var own0, lo := own, PagesFor(vstart);
      var p := (vstart + PGSIZE - 1) / PGSIZE;
      OutsideNothing(own0, lo, p);
      while (p + 1) * PGSIZE <= vend
        invariant lo <= p && (p <= vend / PGSIZE || p == lo) && Valid() && own == Outside(own0, lo, p)
        decreases vend - p
      {
        assert p < vend / PGSIZE && Unused(own0, p);
        ghost var m1, own1 := M(), own;
        KFree(p);
        HandInv(m1, own1, M(), p);
        OutsideStep(own0, lo, p);
        p := p + 1;
      }
      OutsideNothing(own0, lo, vend / PGSIZE);
    }

    /** kfree: fill with junk, push on the free list. */
    method KFree(p: nat)
      requires ListsOk() && p in own
      modifies this
      ensures ListsOk() && free == [p] + old(free) && own == old(own) - {p}
      ensures p < |old(mem)| && mem == old(mem)[p := Junk(old(freelist))]
    {
      ghost var mem0, head0, free0, own0 := mem, freelist, free, own;
      mem := mem[p := Junk(freelist)];
      freelist := p;
      free := [p] + free;
      own := own - {p};
      Pushed(first, mem0, head0, free0, own0, p);
      assert forall q: nat | q < PHYSPAGES :: PageOk(mem0, q) ==> PageOk(mem, q);
    }

    /** kalloc: pop the free list. */
    method KAlloc() returns (p: nat)
      requires Valid()
      modifies this
      ensures Valid() && mem == old(mem)
      ensures p == 0 <==> old(free) == []
      ensures p == 0 ==> free == old(free) && own == old(own)
      ensures p != 0 ==> old(free) == [p] + free && p !in old(own) && own == old(own)[p := Hand]
      ensures p != 0 ==> first <= p < PHYSPAGES
    {
      p := freelist;
      if p != 0 {
        Popped(first, mem, freelist, free, own);
        TakeInv(M(), own, M(), p);
        freelist := mem[p][0];
        free := free[1..];
        own := own[p := Hand];
      }
    }

    ghost predicate IsSpace(r: nat)
      reads this
    {
      IsRoot(own, r) && r < PHYSPAGES
    }

    /** walkpgdir: the table for vp, made on demand when alloc is set; 0 if there is none. */
    method Walk(r: nat, vp: nat, alloc: bool) returns (t: nat)
      requires Valid() && IsSpace(r) && vp < VPAGES
      modifies this
      ensures Valid() && IsSpace(r)
      ensures t == 0 <==> !Present(old(Pde(M(), r, vp / ENTRIES))) && (!alloc || old(free) == [])
      ensures t == 0 || !alloc ==> mem == old(mem) && own == old(own) && free == old(free)
      ensures t != 0 ==> HasTable(M(), own, r, vp) && t == TableOf(M(), own, r, vp)
      ensures Above(old(M()), old(own), M(), own, r) && SameEntries(old(M()), M(), r)
      ensures t != 0 && alloc ==> |old(free)| == |free| + old(MissingOne(M(), r, vp / ENTRIES))
      ensures t != 0 && alloc ==> Tabled(old(M()), M(), r, vp / ENTRIES, vp / ENTRIES + 1)
    {
      var i := vp / ENTRIES;
      assert PageOk(mem, r);
      var d := mem[r][i];
      if Present(d) {
        t := Pn(d);
        assert PdeOk(M(), own, r, i) && OwnerOk(M(), own, t);
        return;
      }
      if !alloc {
        return 0;
      }
      ghost var m0, own0 := M(), own;
      t := KAlloc();
      if t == 0 {
        return;
      }
      assert AddsTable(M(), own, r, i, t);
      ghost var m2 := WithTable(m0, own, r, i, t);
      AddTableInv(m0, own, r, i, t);
      TableAdded(m0, own0, r, i, t);
      TabledTable(m0, own, r, i, t);
      StoreTable(r, i, t);
    }

    /** Clear the new table and enter it in the directory. */
    method StoreTable(r: nat, i: nat, t: nat)
      requires Valid() && AddsTable(M(), own, r, i, t)
      modifies this`mem, this`own
      ensures Valid() && M() == WithTable(old(M()), old(own), r, i, t) && own == old(own)[t := Table(r, i)]
    {
      AddTableInv(M(), own, r, i, t);
      ghost var mem0, own0 := mem, own;
      assert PageOk(mem, r) && OwnerOk(M(), own, t);
      mem := mem[t := Zeros()];
      var dir: Page := mem[r][i := Entry(t, PTE_P + PTE_W + PTE_U)];
      mem := mem[r := dir];
      own := own[t := Table(r, i)];
      ListsKept(first, mem0, mem, freelist, free, own0, own);
    }

    /** One round of mappages. A user page must be in hand; it then belongs to its entry. */
    method MapOne(r: nat, vp: nat, pn: nat, perm: nat) returns (ok: bool)
      requires Valid() && IsSpace(r) && vp < VPAGES && perm < PGSIZE && !Present(Pte(M(), r, vp))
      requires vp < UPAGES ==> pn in own && own[pn] == Hand
      modifies this
      ensures Valid() && IsSpace(r)
      ensures ok <==> |old(free)| >= old(MissingOne(M(), r, vp / ENTRIES))
      ensures ok ==> |old(free)| == |free| + old(MissingOne(M(), r, vp / ENTRIES))
      ensures ok ==> Tabled(old(M()), M(), r, vp / ENTRIES, vp / ENTRIES + 1)
      ensures !ok ==> old(free) == [] && mem == old(mem) && own == old(own) && free == old(free)
      ensures ok ==> Run(old(M()), M(), r, vp, 1, pn, WithP(perm))
      ensures ok && vp >= UPAGES ==> Above(old(M()), old(own), M(), own, r)
      ensures ok && vp < UPAGES ==> Above(old(M()), old(own) - {pn}, M(), own, r) && pn in own && own[pn] == User(r, vp)
      ensures ok && vp < UPAGES ==> SamePage(old(M()), M(), pn)
    {
      hide Lists, Chain, OwnerOk, PdeOk, PteOk, Tabled, Run;
      ghost var m0, own0 := M(), own;
      var t := Walk(r, vp, true);
      if t == 0 {
        return false;
      }
      ok := true;
      ghost var m1, own1 := M(), own;
      assert SameEntry(m0, m1, r, vp);
      assert vp < UPAGES ==> AboveAt(m0, own0, m1, own1, r, pn);
      assert Maps(m1, own1, r, vp, pn, WithP(perm));
      EntryAbove(m1, own1, r, vp, pn, WithP(perm));
      FirstEntry(m0, m1, own1, r, vp, pn, WithP(perm));
      TabledEntry(m1, own1, r, vp, Entry(pn, WithP(perm)));
      TabledSame(m0, m1, WithEntry(m1, own1, r, vp, Entry(pn, WithP(perm))), r, vp / ENTRIES, vp / ENTRIES + 1);
      StoreEntry(r, vp, t, pn, WithP(perm));
      if vp < UPAGES {
        AboveLess(m0, own0, m1, own1, r, pn);
        AboveTwice(m0, own0 - {pn}, m1, own1 - {pn}, M(), own, r);
      } else {
        AboveTwice(m0, own0, m1, own1, M(), own, r);
      }
    }

    method StoreEntry(r: nat, vp: nat, t: nat, pn: nat, fl: nat)
      requires Valid() && Maps(M(), own, r, vp, pn, fl) && t == TableOf(M(), own, r, vp)
      modifies this`mem, this`own
      ensures Valid() && M() == WithEntry(old(M()), old(own), r, vp, Entry(pn, fl))
      ensures own == Owning(old(own), r, vp, pn)
      ensures vp < UPAGES ==> pn < |mem| && |mem| == |old(mem)| && mem[pn] == old(mem)[pn]
    {
      MapInv(M(), own, r, vp, pn, fl);
      ghost var mem0, own0 := mem, own;
      assert vp < UPAGES ==> OwnerOk(M(), own, pn);
      var row: Page := mem[t][vp % ENTRIES := Entry(pn, fl)];
      mem := mem[t := row];
      own := Owning(own, r, vp, pn);
      ListsKept(first, mem0, mem, freelist, free, own0, own);
    }

    /** The first k pages from vp0 on are mapped; of the free0 free pages, their tables are gone. */
    ghost predicate Mapping(r: nat, m0: Ram, own0: map<nat, Owner>, free0: nat, vp0: nat, k: nat, pn: nat, fl: nat)
      reads this
    {
      && Valid() && IsSpace(r) && Run(m0, M(), r, vp0, k, pn, fl) && Mapped(m0, own0, M(), own, r, vp0, k, pn)
      && vp0 + k <= VPAGES && Tabled(m0, M(), r, vp0 / ENTRIES, TopSlot(vp0, k))
      && free0 == |free| + TableCost(m0, r, vp0, k)
    }

    method MapStep(r: nat, ghost m0: Ram, ghost own0: map<nat, Owner>, ghost free0: nat, ghost vp0: nat, ghost k: nat,
                   a: nat, pa: nat, ghost pn: nat, perm: nat)
      returns (ok: bool)
      requires Mapping(r, m0, own0, free0, vp0, k, pn, WithP(perm)) && perm < PGSIZE && a == vp0 + k < VPAGES
      requires pa == pn + k
      requires !Present(Pte(m0, r, a)) && (vp0 < UPAGES ==> k == 0 && pn in own0 && own0[pn] == Hand)
      modifies this
      ensures ok <==> free0 >= TableCost(m0, r, vp0, k + 1)
      ensures Mapping(r, m0, own0, free0, vp0, if ok then k + 1 else k, pn, WithP(perm))
    {
      hide Inv, Lists, Run, Mapped, Above, Tabled;
      ghost var m1, own1 := M(), own;
      MappingShape(r, m0, own0, free0, vp0, k, pn, WithP(perm));
      CostStep(m0, m1, r, vp0, k);
      RunPte(m0, m1, r, vp0, k, pn, WithP(perm), a);
      ok := MapOne(r, a, pa, perm);
      if ok {
        RunsJoin(m0, m1, M(), r, vp0, k, pn, WithP(perm));
        MappedMore(m0, own0, m1, own1, M(), own, r, vp0, k, pn);
        TabledStep(m0, m1, M(), r, vp0, k);
      }
    }

    lemma MappingShape(r: nat, m0: Ram, own0: map<nat, Owner>, free0: nat, vp0: nat, k: nat, pn: nat, fl: nat)
      requires Mapping(r, m0, own0, free0, vp0, k, pn, fl)
      ensures m0.Shape() && r < m0.top && (vp0 < UPAGES && k == 0 ==> own == own0)
    {
    }

    /**
     mappages: entries for every page that the bytes va..va+size-1 touch, in order; or memory is
     too short for their tables.
     */
    method MapPages(r: nat, va: nat, size: nat, pn: nat, perm: nat) returns (ok: bool, ghost k: nat)
      requires Valid() && IsSpace(r) && size > 0 && perm < PGSIZE && (va + size - 1) / PGSIZE < VPAGES
      requires forall vp: nat | va / PGSIZE <= vp <= (va + size - 1) / PGSIZE :: !Present(Pte(M(), r, vp))
      requires va / PGSIZE < UPAGES ==> (va + size - 1) / PGSIZE == va / PGSIZE && pn in own && own[pn] == Hand
      modifies this
      ensures Mapping(r, old(M()), old(own), |old(free)|, va / PGSIZE, k, pn, WithP(perm))
      ensures ok <==> |old(free)| >= old(TableCost(M(), r, va / PGSIZE, (va + size - 1) / PGSIZE - va / PGSIZE + 1))
      ensures if ok then k == (va + size - 1) / PGSIZE - va / PGSIZE + 1
              else k <= (va + size - 1) / PGSIZE - va / PGSIZE
    {
      ok, k := MapRun(r, va / PGSIZE, (va + size - 1) / PGSIZE, pn, perm);
    }

    /** The loop of mappages, from page `from` to page `last`. */
    method MapRun(r: nat, from: nat, last: nat, pn: nat, perm: nat) returns (ok: bool, ghost k: nat)
      requires Valid() && IsSpace(r) && perm < PGSIZE && from <= last < VPAGES
      requires forall vp: nat | from <= vp <= last :: !Present(Pte(M(), r, vp))
      requires from < UPAGES ==> last == from && pn in own && own[pn] == Hand
      modifies this
      ensures Mapping(r, old(M()), old(own), |old(free)|, from, k, pn, WithP(perm))
      ensures ok <==> |old(free)| >= old(TableCost(M(), r, from, last - from + 1))
      ensures if ok then k == last - from + 1 else k <= last - from
    {
      hide Inv, Lists, Run, Mapped, Tabled;
      var a, pa := from, pn;
      ghost var m0, own0, free0 := M(), own, |free|;
      k := 0;
      MappedNone(m0, own0, r, from, pn, WithP(perm));
      TabledNone(m0, r, from / ENTRIES);
      while true
        invariant from <= a <= last && a == from + k && pa == pn + k
        invariant Mapping(r, m0, own0, free0, from, k, pn, WithP(perm))
        decreases last - a
      {
        ok := MapStep(r, m0, own0, free0, from, k, a, pa, pn, perm);
        if !ok {
          CostMonotone(m0, r, from, k + 1, last - from + 1);
          return;
        }
        k := k + 1;
        if a == last {
          return;
        }
        a := a + 1;
        pa := pa + 1;
      }
    }

    /** Give back the page of a present user entry and clear the entry. */
    method ReleaseEntry(r: nat, vp: nat, t: nat, ghost m0: Ram, ghost own0: map<nat, Owner>, ghost lo: nat)
      requires Valid() && HasTable(M(), own, r, vp) && vp < UPAGES && t == TableOf(M(), own, r, vp)
      requires Present(Pte(M(), r, vp)) && lo <= vp
      requires Dealloced(m0, own0, M(), own, r, lo, vp)
      modifies this
      ensures Valid() && IsSpace(r) && Dealloced(m0, own0, M(), own, r, lo, vp + 1)
    {
      var p := Pn(mem[t][vp % ENTRIES]);
      ghost var m1, own1 := M(), own;
      UnmapInv(m1, own1, r, vp, p);
      assert OwnerOk(m1, own1, p);
      KFree(p);
      ghost var mem1, own2 := mem, own;
      var row: Page := mem[t][vp % ENTRIES := 0];
      mem := mem[t := row];
      assert forall q: nat | q < PHYSPAGES :: PageOk(mem1, q) ==> PageOk(mem, q);
      ListsKept(first, mem1, mem, freelist, free, own2, own);
      ClearStep(m0, own0, m1, own1, M(), r, lo, vp, p);
    }

    /** One round of deallocuvm: the next page to look at. */
    method DeallocRound(r: nat, vp: nat, ghost m0: Ram, ghost own0: map<nat, Owner>, ghost lo: nat, ghost hi: nat)
      returns (next: nat)
      requires Valid() && IsSpace(r) && lo <= vp < hi <= UPAGES && Dealloced(m0, own0, M(), own, r, lo, vp)
      modifies this
      ensures Valid() && IsSpace(r) && vp < next && Dealloced(m0, own0, M(), own, r, lo, Min(next, hi))
    {
      var t := Walk(r, vp, false);
      if t == 0 {
        next := (vp / ENTRIES + 1) * ENTRIES - 1;
        next := next + 1;
        NoTable(M(), r, vp, Min(next, hi));
        SkipStep(m0, own0, M(), own, r, lo, vp, Min(next, hi));
      } else {
        DeallocPage(r, vp, t, m0, own0, lo);
        next := vp + 1;
      }
    }

    /** A page whose table exists. */
    method DeallocPage(r: nat, vp: nat, t: nat, ghost m0: Ram, ghost own0: map<nat, Owner>, ghost lo: nat)
      requires Valid() && HasTable(M(), own, r, vp) && vp < UPAGES && t == TableOf(M(), own, r, vp) && lo <= vp
      requires Dealloced(m0, own0, M(), own, r, lo, vp)
      modifies this
      ensures Valid() && IsSpace(r) && Dealloced(m0, own0, M(), own, r, lo, vp + 1)
    {
      if Present(mem[t][vp % ENTRIES]) {
        ReleaseEntry(r, vp, t, m0, own0, lo);
      } else {
        assert !Present(Pte(M(), r, vp)) && NoneIn(M(), r, vp, vp + 1);
        SkipStep(m0, own0, M(), own, r, lo, vp, vp + 1);
      }
    }

    /** deallocuvm: jumps over missing tables, yet does what visiting every page would do. */
    method DeallocUvm(r: nat, oldsz: nat, newsz: nat) returns (sz: nat)
      requires Valid() && IsSpace(r) && oldsz <= KERNBASE
      modifies this
      ensures Valid() && IsSpace(r) && sz == if newsz >= oldsz then oldsz else newsz
      ensures Dealloced(old(M()), old(own), M(), own, r, PagesFor(newsz), PagesFor(oldsz))
    {
      ghost var m0, own0, lo, hi := M(), own, PagesFor(newsz), PagesFor(oldsz);
      DeallocStart(m0, own0, r, lo);
      if newsz >= oldsz {
        NothingToClear(m0, own0, r, lo, hi);
        return oldsz;
      }
      sz := newsz;
      var vp := (newsz + PGSIZE - 1) / PGSIZE;
      while vp * PGSIZE < oldsz
        invariant Valid() && IsSpace(r) && lo <= vp
        invariant Dealloced(m0, own0, M(), own, r, lo, Min(vp, hi))
        decreases hi - vp
      {
        assert vp < hi <= UPAGES;
        vp := DeallocRound(r, vp, m0, own0, lo, hi);
      }
    }

    ghost function Cut(r: nat, i: nat): Ram
      reads this
    {
      Ram(first, PHYSPAGES, mem, r, i)
    }

    /** One round of freevm's loop: the table of directory slot i, if any, is freed. */
    method FreeSlot(r: nat, i: nat)
      requires ListsOk() && i < ENTRIES && Cutting(Cut(r, i), own, r)
      modifies this
      ensures ListsOk() && Inv(Cut(r, i + 1), own) && NoUserPages(Cut(r, i + 1), own, r) && IsRoot(own, r)
      ensures own == WithoutSlot(old(own), r, i) && OwnedKept(old(M()), M(), own)
    {
      ghost var m0, own0 := Cut(r, i), own;
      assert PageOk(mem, r) && PdeOk(m0, own, r, i);
      assert forall q | q in own :: OwnerOk(m0, own, q) ==> q < PHYSPAGES;
      if Present(mem[r][i]) {
        var t := Pn(mem[r][i]);
        SlotTable(m0, own, r, t);
        KFree(t);
      } else {
        NoSlotTable(m0, own, r);
      }
      assert own == WithoutSlot(own0, r, i);
      CutInv(m0, own0, Cut(r, i + 1), own, r);
    }

    method FreeTables(r: nat, ghost m1: Ram, ghost own0: map<nat, Owner>)
      requires ListsOk() && Tearing(r, 0, m1, own0)
      modifies this
      ensures ListsOk() && Tearing(r, ENTRIES, m1, own0)
    {
      hide Inv, Lists, Uncut, OwnedKept;
      var i := 0;
      while i < ENTRIES
        invariant 0 <= i <= ENTRIES && ListsOk() && Tearing(r, i, m1, own0)
      {
        ghost var m2, own2 := M(), own;
        RootInRange(Cut(r, i), own, r);
        FreeSlot(r, i);
        UncutStep(m1, own0, m2, own2, M(), own, r, i);
        i := i + 1;
      }
    }

    /** freevm has dealt with the directory slots below i. */
    ghost predicate Tearing(r: nat, i: nat, m1: Ram, own0: map<nat, Owner>)
      reads this
    {
      && Inv(Cut(r, i), own) && NoUserPages(Cut(r, i), own, r) && IsRoot(own, r)
      && own == Uncut(own0, r, i) && OwnedKept(m1, M(), own)
    }

    /** freevm: every page of the address space goes back to the free list, once; no other page is touched. */
    method FreeVm(r: nat)
      requires Valid() && IsSpace(r)
      modifies this
      ensures Valid() && own == Rest(old(own), r) && OwnedKept(old(M()), M(), own)
      ensures forall p: nat | first <= p < PHYSPAGES ::
                p in free <==> p in old(free) || (p in old(own) && Belongs(old(own), p, r))
    {
      hide Inv, Chain, Dealloced;
      ghost var m0, own0 := M(), own;
      var sz := DeallocUvm(r, KERNBASE, 0);
      ghost var m1, own1 := M(), own;
      CutStart(m1, own1, r);
      CutFirst(m0, own0, m1, own1, r);
      FreeTables(r, m1, own0);
      ghost var m3, own3 := Cut(r, ENTRIES), own;
      KFree(r);
      UncutAll(m0, own0, m1, m3, own3, M(), r);
      FreedAll(first, old(mem), old(freelist), old(free), own0, mem, freelist, free, own, r);
    }

    /** Enter one line of the kmap table. */
    method MapKernel(r: nat, data: nat, k: nat) returns (ok: bool)
      requires Valid() && IsSpace(r) && 0x100 < data < PHYSPAGES && k < 4 && Built(M(), r, data, k)
      requires KernelSlots(M(), r, data, k)
      modifies this
      ensures Valid() && IsSpace(r) && Above(old(M()), old(own), M(), own, r)
      ensures ok <==> |old(free)| + KernelTables(data, k) >= KernelTables(data, k + 1)
      ensures ok ==> Built(M(), r, data, k + 1) && KernelSlots(M(), r, data, k + 1)
      ensures ok ==> |old(free)| + KernelTables(data, k) == |free| + KernelTables(data, k + 1)
    {
      hide Inv, Lists, Above, Tabled, Built, KernelSlots, Run, SlotsTo;
      var e := KernelMap(data)[k];
      ghost var m0 := M();
      KernelRoom(m0, r, data, k);
      KernelCost(m0, r, data, k);
      ghost var n;
      ok, n := MapPages(r, e.virt, Span(e), e.start / PGSIZE, e.perm);
      if ok {
        KernelStep(m0, M(), r, data, k, n);
        KernelSlotsStep(m0, M(), r, data, k, n);
      }
    }

    /**
     setupkvm: a directory with the kernel half filled in, or nothing at all; it takes the
     directory and 64 tables.
     */
    method SetupKvm(data: nat) returns (r: nat)
      requires Valid() && 0x100 < data < PHYSPAGES
      modifies this
      ensures Valid()
      ensures r != 0 <==> |old(free)| >= KERNEL_PAGES
      ensures r != 0 ==> |old(free)| == |free| + KERNEL_PAGES && KernelSlots(M(), r, data, 4)
      ensures r == 0 ==> own == old(own) && OwnedKept(old(M()), M(), own)
      ensures r != 0 ==> r !in old(own) && IsSpace(r) && Above(old(M()), old(own), M(), own, r)
      ensures r != 0 ==> Built(M(), r, data, 4)
    {
      ghost var m0, own0 := M(), own;
      r := KAlloc();
      if r == 0 {
        KeptSelf(m0, own0);
        return;
      }
      MakeRoot(r, m0, own0, data);
      var k := 0;
      while k < 4
        invariant 0 <= k <= 4 && Valid() && IsSpace(r) && Above(m0, own0, M(), own, r) && Built(M(), r, data, k)
        invariant KernelSlots(M(), r, data, k) && |old(free)| == |free| + 1 + KernelTables(data, k)
      {
        ghost var m1, own1 := M(), own;
        KernelTablesBound(data, k + 1);
        var ok := MapKernel(r, data, k);
        AboveTwice(m0, own0, m1, own1, M(), own, r);
        if !ok {
          Undone(m0, own0, M(), own, r);
          ghost var m2 := M();
          FreeVm(r);
          KeptTwice(m0, m2, M(), own);
          return 0;
        }
        k := k + 1;
      }
    }

    /** A zeroed page becomes an empty directory. */
    method MakeRoot(r: nat, ghost m0: Ram, ghost own0: map<nat, Owner>, ghost data: nat)
      requires Valid() && m0 == M() && r !in own0 && own == own0[r := Hand] && r < PHYSPAGES && Inv(m0, own0)
      requires 0x100 < data < PHYSPAGES
      modifies this`mem, this`own
      ensures Valid() && IsSpace(r) && Above(m0, own0, M(), own, r) && Built(M(), r, data, 0)
      ensures KernelSlots(M(), r, data, 0)
    {
      ghost var mem0, own1 := mem, own;
      mem := mem[r := Zeros()];
      assert forall q: nat | q < PHYSPAGES :: PageOk(mem0, q) ==> PageOk(mem, q);
      HandInv(m0, own, M(), r);
      RootInv(M(), own, r);
      EmptyBuilt(M(), r, data);
      own := own[r := Root];
      ListsKept(first, mem0, mem, freelist, free, own1, own);
      assert forall q | q in own0 :: OwnerOk(m0, own0, q) ==> AboveAt(m0, own0, M(), own, r, q);
    }

    /** A fresh page, filled and mapped at a user address; left is the page in hand when mapping fails. */
    method MapFresh(r: nat, vp: nat, page: Page, perm: nat) returns (ok: bool, left: nat)
      requires Valid() && IsSpace(r) && vp < UPAGES && |page| == ENTRIES && perm < PGSIZE && !Present(Pte(M(), r, vp))
      modifies this
      ensures Valid() && IsSpace(r)
      ensures ok <==> |old(free)| >= 1 + old(MissingOne(M(), r, vp / ENTRIES))
      ensures ok ==> |old(free)| == |free| + 1 + old(MissingOne(M(), r, vp / ENTRIES))
      ensures ok ==> Tabled(old(M()), M(), r, vp / ENTRIES, vp / ENTRIES + 1)
      ensures ok ==> MappedFresh(old(M()), old(own), M(), own, r, vp, page, WithP(perm))
      ensures !ok && left == 0 ==> mem == old(mem) && own == old(own)
      ensures !ok && left != 0 ==> left !in old(own) && own == old(own)[left := Hand] && OnlyPage(old(M()), M(), left)
      ensures !ok && left != 0 ==> first <= left < PHYSPAGES
    {
      ghost var m0, own0 := M(), own;
      var p := KAlloc();
      if p == 0 {
        return false, 0;
      }
      Fill(p, page);
      HandEntries2(m0, own0, M(), p, r);
      TabledPage(m0, own0, M(), p, r);
      ok := MapFilled(r, vp, p, perm, m0, own0);
      left := p;
    }

    /** mappages as allocuvm and copyuvm call it: one user page. */
    method MapUser(r: nat, vp: nat, p: nat, perm: nat) returns (ok: bool)
      requires Valid() && IsSpace(r) && vp < UPAGES && perm < PGSIZE && p in own && own[p] == Hand
      requires !Present(Pte(M(), r, vp))
      modifies this
      ensures Valid() && IsSpace(r)
      ensures ok <==> |old(free)| >= old(MissingOne(M(), r, vp / ENTRIES))
      ensures ok ==> |old(free)| == |free| + old(MissingOne(M(), r, vp / ENTRIES))
      ensures ok ==> Tabled(old(M()), M(), r, vp / ENTRIES, vp / ENTRIES + 1)
      ensures !ok ==> mem == old(mem) && own == old(own)
      ensures ok ==> Run(old(M()), M(), r, vp, 1, p, WithP(perm)) && Above(old(M()), old(own) - {p}, M(), own, r)
      ensures ok ==> p in own && own[p] == User(r, vp) && p < PHYSPAGES && mem[p] == old(mem)[p]
    {
      assert vp * PGSIZE / PGSIZE == vp && (vp * PGSIZE + PGSIZE - 1) / PGSIZE == vp;
      TabledNone(M(), r, vp / ENTRIES);
      CostStep(M(), M(), r, vp, 0);
      ghost var k;
      ok, k := MapPages(r, vp * PGSIZE, PGSIZE, p, perm);
    }

    /** Map the page in hand. */
    method MapFilled(r: nat, vp: nat, p: nat, perm: nat, ghost m0: Ram, ghost own0: map<nat, Owner>) returns (ok: bool)
      requires Valid() && Inv(m0, own0) && IsRoot(own0, r) && r < PHYSPAGES && vp < UPAGES && perm < PGSIZE
      requires p !in own0 && own == own0[p := Hand] && OnlyPage(m0, M(), p) && p < PHYSPAGES && SameEntries(m0, M(), r)
      requires r < m0.top && !Present(Pte(m0, r, vp)) && Tabled(m0, M(), r, 0, 0)
      modifies this
      ensures Valid() && IsSpace(r)
      ensures ok <==> |old(free)| >= MissingOne(m0, r, vp / ENTRIES)
      ensures ok ==> |old(free)| == |free| + MissingOne(m0, r, vp / ENTRIES)
      ensures ok ==> Tabled(m0, M(), r, vp / ENTRIES, vp / ENTRIES + 1)
      ensures !ok ==> mem == old(mem) && own == old(own)
      ensures ok ==> MappedFresh(m0, own0, M(), own, r, vp, old(mem)[p], WithP(perm))
    {
      hide Inv, Lists, Run, Above, MappedFresh;
      ghost var m1 := M();
      assert SameEntry(m0, m1, r, vp) && TabledAt(m0, m1, r, 0, 0, vp / ENTRIES);
      PutBack(own0, p);
      ok := MapUser(r, vp, p, perm);
      if ok {
        TabledSame(m0, m1, M(), r, vp / ENTRIES, vp / ENTRIES + 1);
        FreshMapped(m0, own0, m1, M(), own, r, vp, p, m1.mem[p], WithP(perm));
      }
    }

    /** Overwrite a page in hand. */
    method Fill(p: nat, page: Page)
      requires Valid() && p in own && own[p] == Hand && |page| == ENTRIES
      modifies this`mem
      ensures Valid() && p < PHYSPAGES && mem == old(mem)[p := page] && OnlyPage(old(M()), M(), p)
    {
      ghost var mem0, m0 := mem, M();
      mem := mem[p := page];
      assert forall q: nat | q < PHYSPAGES :: PageOk(mem0, q) ==> PageOk(mem, q);
      HandInv(m0, own, M(), p);
      ListsKept(first, mem0, mem, freelist, free, own, own);
    }

    /** Free a page in hand. */
    method DropHand(p: nat)
      requires Valid() && p in own && own[p] == Hand
      modifies this
      ensures Valid() && own == old(own) - {p} && OnlyPage(old(M()), M(), p)
    {
      ghost var m0, own0 := M(), own;
      KFree(p);
      HandInv(m0, own0, M(), p);
    }

    /** One round of allocuvm. */
    method AllocRound(r: nat, vp: nat, ghost m0: Ram, ghost own0: map<nat, Owner>, ghost free0: nat, ghost lo: nat)
      returns (ok: bool, left: nat)
      requires Growing(r, m0, own0, lo, vp, 0) && lo <= vp < UPAGES && !Present(Pte(m0, r, vp))
      requires Paid(r, m0, free0, lo, vp - lo)
      modifies this
      ensures Growing(r, m0, own0, lo, if ok then vp + 1 else vp, left) && (ok ==> left == 0)
      ensures ok <==> free0 >= GrowCost(m0, r, lo, vp + 1 - lo)
      ensures ok ==> Paid(r, m0, free0, lo, vp + 1 - lo)
    {
      CostStep(m0, M(), r, lo, vp - lo);
      assert own - {0} == own;
      assert GrownAt(m0, M(), r, lo, vp, vp);
      ghost var m1, own1 := M(), own;
      ok, left := MapFresh(r, vp, Zeros(), PTE_W + PTE_U);
      if ok {
        GrownStep(m0, own0, m1, own1, M(), own, r, lo, vp);
        TabledStep(m0, m1, M(), r, lo, vp - lo);
        left := 0;
        assert own - {0} == own;
      } else {
        GrownHand(m0, own0, m1, own1, M(), own, r, lo, vp, left);
      }
    }

    /**
     allocuvm: every new page zeroed and mapped if there are pages for them and their tables, else
     the address space as it was.
     */
    method AllocUvm(r: nat, oldsz: nat, newsz: nat) returns (sz: nat)
      requires Valid() && IsSpace(r) && (newsz < KERNBASE ==> NoneIn(M(), r, PagesFor(oldsz), PagesFor(newsz)))
      modifies this
      ensures Valid() && IsSpace(r) && (sz == 0 || sz == newsz || sz == oldsz)
      ensures newsz >= KERNBASE ==> sz == 0
      ensures newsz < KERNBASE && newsz < oldsz ==> sz == oldsz
      ensures newsz >= KERNBASE || newsz < oldsz ==> mem == old(mem) && own == old(own)
      ensures oldsz <= newsz < KERNBASE ==>
                sz == if |old(free)| >= old(GrowthCost(M(), r, PagesFor(oldsz), PagesFor(newsz))) then newsz else 0
      ensures oldsz <= newsz < KERNBASE && sz != 0 ==> sz == newsz
      ensures oldsz <= newsz < KERNBASE && sz != 0 ==>
                Grown(old(M()), old(own), M(), own, r, PagesFor(oldsz), PagesFor(newsz))
      ensures oldsz <= newsz < KERNBASE && sz == 0 ==> newsz == 0 || Restored(old(M()), old(own), M(), own, r)
    {
      if newsz >= KERNBASE {
        return 0;
      }
      if newsz < oldsz {
        return oldsz;
      }
      sz := GrowTo(r, oldsz, newsz);
    }

    /** Of the free0 free pages, n pages from lo on and their tables are gone. */
    ghost predicate Paid(r: nat, m0: Ram, free0: nat, lo: nat, n: nat)
      reads this
    {
      lo + n <= UPAGES && Tabled(m0, M(), r, lo / ENTRIES, TopSlot(lo, n)) && free0 == |free| + GrowCost(m0, r, lo, n)
    }

    lemma PaidNothing(r: nat, m0: Ram, lo: nat)
      requires Valid() && IsSpace(r) && m0 == M() && lo <= UPAGES
      ensures m0.Shape() && Paid(r, m0, |free|, lo, 0)
    {
      TabledNone(m0, r, lo / ENTRIES);
    }

    /** Growth has come to vp; left is a page in hand, if any. */
    ghost predicate Growing(r: nat, m0: Ram, own0: map<nat, Owner>, lo: nat, vp: nat, left: nat)
      reads this
    {
      Valid() && IsSpace(r) && Grown(m0, own0, M(), own - {left}, r, lo, vp)
      && (left != 0 ==> left in own && own[left] == Hand)
    }

    /** The loop of allocuvm. */
    method GrowTo(r: nat, oldsz: nat, newsz: nat) returns (sz: nat)
      requires Valid() && IsSpace(r) && oldsz <= newsz < KERNBASE && NoneIn(M(), r, PagesFor(oldsz), PagesFor(newsz))
      modifies this
      ensures Valid() && IsSpace(r)
              && sz == if |old(free)| >= old(GrowthCost(M(), r, PagesFor(oldsz), PagesFor(newsz))) then newsz else 0
      ensures sz != 0 ==> Grown(old(M()), old(own), M(), own, r, PagesFor(oldsz), PagesFor(newsz))
      ensures sz == 0 ==> newsz == 0 || Restored(old(M()), old(own), M(), own, r)
    {
      ghost var m0, own0 := M(), own;
      PagesForOrder(oldsz, newsz);
      var ok, left, vp := GrowPages(r, oldsz, newsz, m0, own0);
      if ok {
        assert own - {0} == own;
        return newsz;
      }
      RollBack(r, oldsz, newsz, left, m0, own0, vp);
      sz := 0;
    }

    /** Pages up to where memory ran out. */
    method GrowPages(r: nat, oldsz: nat, newsz: nat, ghost m0: Ram, ghost own0: map<nat, Owner>)
      returns (ok: bool, left: nat, vp: nat)
      requires Valid() && IsSpace(r) && oldsz <= newsz < KERNBASE && m0 == M() && own0 == own
      requires NoneIn(m0, r, PagesFor(oldsz), PagesFor(newsz))
      modifies this
      ensures PagesFor(oldsz) <= vp <= PagesFor(newsz)
      ensures ok <==> |old(free)| >= GrowthCost(m0, r, PagesFor(oldsz), PagesFor(newsz))
      ensures Growing(r, m0, own0, PagesFor(oldsz), vp, left) && (ok ==> left == 0 && vp == PagesFor(newsz))
    {
      hide Inv, Chain, Grown, Tabled, TableCost;
      ghost var lo, hi, free0 := PagesFor(oldsz), PagesFor(newsz), |free|;
      GrownStart(m0, own0, r, lo);
      PagesForOrder(oldsz, newsz);
      PaidNothing(r, m0, lo);
      vp := (oldsz + PGSIZE - 1) / PGSIZE;
      ok, left := true, 0;
      assert own - {0} == own;
      while ok && vp * PGSIZE < newsz
        invariant lo <= vp <= PagesFor(newsz) && Growing(r, m0, own0, lo, vp, left) && (ok ==> left == 0)
        invariant if ok then Paid(r, m0, free0, lo, vp - lo) else free0 < GrowthCost(m0, r, lo, hi)
        decreases ok, PagesFor(newsz) - vp
      {
        PagesForIs(newsz, vp);
        ok, left := AllocRound(r, vp, m0, own0, free0, lo);
        if ok {
          vp := vp + 1;
        } else {
          GrowCostMonotone(m0, r, lo, vp + 1 - lo, hi - lo);
        }
      }
      PagesForIs(newsz, vp);
    }

    /** The error path of allocuvm. */
    method RollBack(r: nat, oldsz: nat, newsz: nat, left: nat, ghost m0: Ram, ghost own0: map<nat, Owner>,
                    ghost vp: nat)
      requires Valid() && IsSpace(r) && oldsz <= newsz < KERNBASE && PagesFor(oldsz) <= vp <= PagesFor(newsz)
      requires Inv(m0, own0) && m0.cut == 0 && m0.top == PHYSPAGES && IsRoot(own0, r)
      requires NoneIn(m0, r, PagesFor(oldsz), PagesFor(newsz))
      requires Grown(m0, own0, M(), own - {left}, r, PagesFor(oldsz), vp)
      requires (left != 0 ==> left in own && own[left] == Hand)
      modifies this
      ensures Valid() && IsSpace(r) && Restored(m0, own0, M(), own, r)
    {
      ghost var m1, own1 := M(), own;
      var s := DeallocUvm(r, newsz, oldsz);
      ghost var m2, own2 := M(), own;
      GrownUndone(m0, own0, m1, own1, m2, own2, r, PagesFor(oldsz), vp, PagesFor(newsz), left);
      if left != 0 {
        DropHand(left);
        RestoredDrop(m0, own0, m2, own2, M(), r, left);
      } else {
        assert own2 - {left} == own2;
      }
    }

    /** A present page and the flags of its entry. */
    method ReadPage(r: nat, vp: nat) returns (page: Page, flags: nat)
      requires Valid() && IsSpace(r) && vp < UPAGES && Present(Pte(M(), r, vp))
      modifies this
      ensures Valid() && mem == old(mem) && own == old(own) && free == old(free)
      ensures Pn(Pte(M(), r, vp)) < PHYSPAGES && page == mem[Pn(Pte(M(), r, vp))] && |page| == ENTRIES
      ensures flags == Flags(Pte(M(), r, vp)) && flags < PGSIZE && WithP(flags) == flags
    {
      assert PteOk(M(), own, r, vp) && OwnerOk(M(), own, Pn(Pte(M(), r, vp)));
      var t := Walk(r, vp, false);
      var e := mem[t][vp % ENTRIES];
      assert e == Pte(M(), r, vp) && PageOk(mem, Pn(e));
      page, flags := mem[Pn(e)], Flags(e);
    }

    /** One round of copyuvm: page vp of the parent is copied, or memory ran out. */
    method CopyRound(r: nat, d: nat, vp: nat, ghost m0: Ram, ghost own0: map<nat, Owner>, ghost data: nat,
                     ghost mc: Ram, ghost free0: nat)
      returns (ok: bool)
      requires Copying(r, d, vp, m0, own0, data) && vp < UPAGES && Parent(m0, own0, r, d, vp)
      requires Paid(d, mc, free0, 0, vp)
      modifies this
      ensures Copying(r, d, if ok then vp + 1 else vp, m0, own0, data)
      ensures ok <==> free0 >= GrowCost(mc, d, 0, vp + 1)
      ensures ok ==> Paid(d, mc, free0, 0, vp + 1)
    {
      hide Lists, Above, Tabled, MappedFresh, OwnerOk, PdeOk, PteOk;
      CostStep(mc, M(), d, 0, vp);
      ghost var m1, own1 := M(), own;
      ParentSame(m0, own0, m1, own1, r, d, vp);
      assert CopiedAt(m0, r, m1, d, vp, data, vp);
      var page, flags := ReadPage(r, vp);
      var left;
      ok, left := MapFresh(d, vp, page, flags);
      if ok {
        CopyStep(m0, own0, r, m1, own1, M(), own, d, vp, data);
        TabledStep(mc, m1, M(), d, 0, vp);
      } else if left != 0 {
        DropHand(left);
        assert own == own1;
        CopyDrop(m0, own0, r, m1, own1, M(), d, vp, data, left);
      }
      StillRoot(m0, own0, M(), own, d, r);
    }

    ghost predicate Copying(r: nat, d: nat, vp: nat, m0: Ram, own0: map<nat, Owner>, data: nat)
      reads this
    {
      Valid() && IsSpace(r) && IsSpace(d) && Copied(m0, own0, r, M(), own, d, vp, data)
    }

    /**
     copyuvm: a child with its own copy of every page, if there are pages for the copies,
     their tables and the kernel half; otherwise no child and no page lost.
     */
    method CopyUvm(r: nat, sz: nat, data: nat) returns (d: nat)
      requires Valid() && IsSpace(r) && sz <= KERNBASE && 0x100 < data < PHYSPAGES
      requires forall vp: nat | vp < PagesFor(sz) && vp < VPAGES :: Present(Pte(M(), r, vp))
      modifies this
      ensures Valid()
      ensures d != 0 <==> |old(free)| >= KERNEL_PAGES + PagesFor(sz) + TablesFor(PagesFor(sz))
      ensures d != 0 ==> |old(free)| == |free| + KERNEL_PAGES + PagesFor(sz) + TablesFor(PagesFor(sz))
      ensures d == 0 ==> own == old(own) && OwnedKept(old(M()), M(), own)
      ensures d != 0 ==> IsSpace(d) && d !in old(own) && Copied(old(M()), old(own), r, M(), own, d, PagesFor(sz), data)
    {
      ghost var m0, own0 := M(), own;
      d := SetupKvm(data);
      if d == 0 {
        return;
      }
      CopyStart(m0, own0, r, M(), own, d, data);
      PagesForIs(sz, 0);
      TabledNone(M(), d, 0);
      NoUserTables(M(), d, data, PagesFor(sz));
      var ok, n := CopyPages(r, d, sz, m0, own0, data, M());
      if !ok {
        Undone(m0, own0, M(), own, d);
        ghost var m2 := M();
        FreeVm(d);
        KeptTwice(m0, m2, M(), own);
        d := 0;
      }
    }

    method CopyPages(r: nat, d: nat, sz: nat, ghost m0: Ram, ghost own0: map<nat, Owner>, ghost data: nat,
                     ghost mc: Ram)
      returns (ok: bool, vp: nat)
      requires Copying(r, d, 0, m0, own0, data) && sz <= KERNBASE && PagesFor(sz) <= UPAGES && mc == M()
      requires forall v: nat | v < PagesFor(sz) :: Parent(m0, own0, r, d, v)
      modifies this
      ensures Copying(r, d, vp, m0, own0, data) && (ok ==> vp == PagesFor(sz))
      ensures ok <==> |old(free)| >= GrowCost(mc, d, 0, PagesFor(sz))
      ensures ok ==> |old(free)| == |free| + GrowCost(mc, d, 0, PagesFor(sz))
    {
      hide Inv, Lists, Copied, Tabled, TableCost;
      ghost var free0 := |free|;
      PaidNothing(d, mc, 0);
      vp := 0;
      ok := true;
      PagesForIs(sz, 0);
      while ok && vp * PGSIZE < sz
        invariant vp <= PagesFor(sz) <= UPAGES && Copying(r, d, vp, m0, own0, data)
        invariant if ok then Paid(d, mc, free0, 0, vp) else free0 < GrowCost(mc, d, 0, PagesFor(sz))
        decreases ok, PagesFor(sz) - vp
      {
        PagesForIs(sz, vp);
        ok := CopyRound(r, d, vp, m0, own0, data, mc, free0);
        if ok {
          vp := vp + 1;
        } else {
          GrowCostMonotone(mc, d, 0, vp + 1, PagesFor(sz));
        }
      }
      PagesForIs(sz, vp);
    }
  }

  lemma PagesForOrder(a: nat, b: nat)
    requires a <= b
    ensures PagesFor(a) <= PagesFor(b) && (b < KERNBASE ==> PagesFor(b) <= UPAGES)
  {
    PagesForIs(b, 0);
  }

  /** n user pages from lo on, and the tables that they need. */
  ghost function GrowCost(m: Ram, r: nat, lo: nat, n: nat): nat
    requires m.Shape() && r < m.top && lo + n <= UPAGES
  {
    n + TableCost(m, r, lo, n)
  }

  ghost function GrowthCost(m: Ram, r: nat, lo: nat, hi: nat): nat
    requires m.Shape() && r < m.top && hi <= UPAGES
  {
    if lo <= hi then GrowCost(m, r, lo, hi - lo) else 0
  }

  lemma GrowCostMonotone(m: Ram, r: nat, lo: nat, k: nat, n: nat)
    requires m.Shape() && r < m.top && k <= n && lo + n <= UPAGES
    ensures GrowCost(m, r, lo, k) <= GrowCost(m, r, lo, n)
  {
    CostMonotone(m, r, lo, k, n);
  }

  /** The tables of n user pages. */
  function TablesFor(n: nat): nat {
    (n + ENTRIES - 1) / ENTRIES
  }

  /** A new address space has no tables for user pages. */
  lemma NoUserTables(m: Ram, d: nat, data: nat, n: nat)
    requires KernelSlots(m, d, data, 4) && n <= UPAGES
    ensures GrowCost(m, d, 0, n) == n + TablesFor(n)
  {
    assert TopSlot(0, n) == TablesFor(n) <= UPAGES / ENTRIES;
    forall i: nat | i < TablesFor(n) ensures !Present(Pde(m, d, i)) {
      assert KernelSlotAt(m, d, data, 4, i);
    }
    MissingAbove(m, d, 0, 0, TablesFor(n));
  }

  lemma Pushed(first: nat, mem: seq<Page>, head: nat, free: seq<nat>, own: map<nat, Owner>, p: nat)
    requires Lists(first, mem, head, free, own) && p in own && p < |mem| && first >= 1
    ensures Lists(first, mem[p := Junk(head)], p, [p] + free, own - {p})
  {
    var mem2, free2 := mem[p := Junk(head)], [p] + free;
    ChainKept(mem, mem2, head, free);
    assert free2[0] == p && free2[1..] == free;
    assert mem2[p][0] == head;
    assert forall q :: q in free2 <==> q == p || q in free;
  }

  lemma Popped(first: nat, mem: seq<Page>, head: nat, free: seq<nat>, own: map<nat, Owner>)
    requires Lists(first, mem, head, free, own) && head != 0
    ensures free != [] && free == [head] + free[1..] && head !in own && first <= head < PHYSPAGES && head < |mem|
    ensures |mem[head]| == ENTRIES
    ensures Lists(first, mem, mem[head][0], free[1..], own[head := Hand])
  {
    assert free[0] in free && free == [head] + free[1..];
    assert forall q | q in free :: q == head || q in free[1..];
    assert forall q | q in free[1..] :: q in free;
  }

  lemma FirstEntry(m0: Ram, m: Ram, own: map<nat, Owner>, r: nat, vp: nat, pn: nat, fl: nat)
    requires SameEntries(m0, m, r) && Maps(m, own, r, vp, pn, fl)
    ensures Run(m0, WithEntry(m, own, r, vp, Entry(pn, fl)), r, vp, 1, pn, fl)
  {
    assert SameEntry(m0, m, r, vp);
    var m2 := WithEntry(m, own, r, vp, Entry(pn, fl));
    forall n: nat | n < VPAGES ensures RunAt(m0, m2, r, vp, 1, pn, fl, n) {
      assert SameEntry(m0, m, r, n);
      WithEntryEntries(m, own, r, vp, Entry(pn, fl), r, n);
    }
  }

  lemma RunPte(m0: Ram, m: Ram, r: nat, vp0: nat, k: nat, pn: nat, fl: nat, a: nat)
    requires Run(m0, m, r, vp0, k, pn, fl) && a == vp0 + k < VPAGES
    ensures m.Shape() && r < m.top && Pte(m, r, a) == Pte(m0, r, a)
  {
    assert RunAt(m0, m, r, vp0, k, pn, fl, a);
  }

  lemma RunsJoin(m0: Ram, m: Ram, m2: Ram, r: nat, vp0: nat, k: nat, pn: nat, fl: nat)
    requires Run(m0, m, r, vp0, k, pn, fl) && Run(m, m2, r, vp0 + k, 1, pn + k, fl)
    ensures Run(m0, m2, r, vp0, k + 1, pn, fl)
  {
    var k2, vp1, pn1 := k + 1, vp0 + k, pn + k;
    forall n: nat | n < VPAGES ensures RunAt(m0, m2, r, vp0, k2, pn, fl, n) {
      assert RunAt(m0, m, r, vp0, k, pn, fl, n);
      assert RunAt(m, m2, r, vp1, 1, pn1, fl, n);
    }
  }

  // ---- deallocuvm ----

  function Min(a: nat, b: nat): nat {
    if a < b then a else b
  }

  ghost predicate UserIn(o: Owner, r: nat, lo: nat, hi: nat) {
    o.User? && o.r == r && lo <= o.vp < hi
  }

  ghost function Without(own: map<nat, Owner>, r: nat, lo: nat, hi: nat): map<nat, Owner> {
    map q | q in own && !UserIn(own[q], r, lo, hi) :: own[q]
  }

  ghost predicate ClearedAt(m: Ram, m2: Ram, r: nat, lo: nat, hi: nat, vp: nat)
    requires m.Shape() && m2.Shape() && r < m.top && r < m2.top && vp < VPAGES
  {
    Pte(m2, r, vp) == if lo <= vp < hi && Present(Pte(m, r, vp)) then 0 else Pte(m, r, vp)
  }

  ghost predicate SamePage(m: Ram, m2: Ram, q: nat) {
    q < |m.mem| && q < |m2.mem| && m2.mem[q] == m.mem[q]
  }

  ghost predicate DataKept(m: Ram, m2: Ram, own2: map<nat, Owner>, r: nat) {
    forall q | q in own2 && !(own2[q].Table? && own2[q].r == r) :: SamePage(m, m2, q)
  }

  /** Page by page: user pages lo..hi-1 of r lost entry and owner, and nothing else changed. */
  ghost predicate Dealloced(m: Ram, own: map<nat, Owner>, m2: Ram, own2: map<nat, Owner>, r: nat, lo: nat, hi: nat) {
    && m.Shape() && m2.Shape() && r < m.top == m2.top
    && own2 == Without(own, r, lo, hi)
    && (forall vp: nat | vp < VPAGES :: ClearedAt(m, m2, r, lo, hi, vp))
    && DataKept(m, m2, own2, r)
  }

  lemma DeallocStart(m: Ram, own: map<nat, Owner>, r: nat, lo: nat)
    requires Inv(m, own) && r < m.top
    ensures Dealloced(m, own, m, own, r, lo, lo)
  {
    forall q | q in own ensures SamePage(m, m, q) {
      assert OwnerOk(m, own, q);
    }
    assert Without(own, r, lo, lo) == own;
  }

  lemma NothingToClear(m: Ram, own: map<nat, Owner>, r: nat, lo: nat, hi: nat)
    requires Dealloced(m, own, m, own, r, lo, lo) && hi <= lo
    ensures Dealloced(m, own, m, own, r, lo, hi)
  {
    assert Without(own, r, lo, hi) == own;
    forall vp: nat | vp < VPAGES ensures ClearedAt(m, m, r, lo, hi, vp) {
      assert ClearedAt(m, m, r, lo, lo, vp);
    }
  }

  ghost predicate NoneIn(m: Ram, r: nat, lo: nat, hi: nat) {
    m.Shape() && r < m.top && forall vp: nat | lo <= vp < hi && vp < VPAGES :: !Present(Pte(m, r, vp))
  }

  /** A missing table means no entry up to the next table. */
  lemma NoTable(m: Ram, r: nat, vp: nat, b: nat)
    requires m.Shape() && r < m.top && vp < UPAGES && b <= (vp / ENTRIES + 1) * ENTRIES
    requires !Present(Pde(m, r, vp / ENTRIES))
    ensures NoneIn(m, r, vp, b)
  {
    forall v: nat | vp <= v < b ensures !Present(Pte(m, r, v)) {
      assert v / ENTRIES == vp / ENTRIES;
    }
  }

  /** Entries that are not present need no work. */
  lemma SkipStep(m0: Ram, own0: map<nat, Owner>, m: Ram, own: map<nat, Owner>, r: nat, lo: nat, b: nat, b2: nat)
    requires Inv(m, own) && m.cut == 0 && IsRoot(own, r) && Dealloced(m0, own0, m, own, r, lo, b)
    requires lo <= b <= b2 <= UPAGES
    requires NoneIn(m, r, b, b2)
    ensures Dealloced(m0, own0, m, own, r, lo, b2)
  {
    forall vp: nat | vp < VPAGES ensures ClearedAt(m0, m, r, lo, b2, vp) {
      assert ClearedAt(m0, m, r, lo, b, vp);
    }
    forall q | q in own0 ensures UserIn(own0[q], r, lo, b) <==> UserIn(own0[q], r, lo, b2) {
      if q in own {
        assert OwnerOk(m, own, q);
      }
    }
    assert Without(own0, r, lo, b2) == own;
  }

  /** One present entry: its page goes, and the rest stays as it was. */
  lemma ClearStep(m0: Ram, own0: map<nat, Owner>, m: Ram, own: map<nat, Owner>, m2: Ram, r: nat, lo: nat, vp: nat,
                  p: nat)
    requires HasTable(m, own, r, vp) && vp < UPAGES && Present(Pte(m, r, vp)) && p == Pn(Pte(m, r, vp)) && lo <= vp
    requires Dealloced(m0, own0, m, own, r, lo, vp)
    requires OnlyPage(WithEntry(m, own, r, vp, 0), m2, p)
    ensures Inv(m2, own - {p}) && Dealloced(m0, own0, m2, own - {p}, r, lo, vp + 1)
  {
    hide Inv, Without;
    var m1 := WithEntry(m, own, r, vp, 0);
    UnmapInv(m, own, r, vp, p);
    HandInv(m1, own[p := Hand], m2, p);
    assert own[p := Hand] - {p} == own - {p};
    assert IsRoot(own, r) && r != p && own[p] == User(r, vp);
    var hi := vp + 1;
    forall v: nat | v < VPAGES ensures ClearedAt(m0, m2, r, lo, hi, v) {
      ClearedEntry(m0, m, own, m1, m2, r, lo, vp, p, v);
    }
    ClearedOwners(m, own0, own, r, lo, vp, p);
    forall q | q in own - {p} && !(own[q].Table? && own[q].r == r) ensures SamePage(m0, m2, q) {
      assert SamePage(m0, m, q);
    }
  }

  lemma ClearedEntry(m0: Ram, m: Ram, own: map<nat, Owner>, m1: Ram, m2: Ram, r: nat, lo: nat, vp: nat, p: nat, v: nat)
    requires HasTable(m, own, r, vp) && m1 == WithEntry(m, own, r, vp, 0) && Present(Pte(m, r, vp)) && lo <= vp
    requires v < VPAGES
    requires p in own && p != r && Inv(m1, own[p := Hand]) && OnlyPage(m1, m2, p)
    requires m0.Shape() && r < m0.top && ClearedAt(m0, m, r, lo, vp, v)
    ensures ClearedAt(m0, m2, r, lo, vp + 1, v)
  {
    WithEntryEntries(m, own, r, vp, 0, r, v);
    HandEntries(m1, own[p := Hand], m2, p, r, v);
  }

  lemma ClearedOwners(m: Ram, own0: map<nat, Owner>, own: map<nat, Owner>, r: nat, lo: nat, vp: nat, p: nat)
    requires Inv(m, own) && r < m.top && lo <= vp < UPAGES && Present(Pte(m, r, vp)) && p == Pn(Pte(m, r, vp))
    requires IsRoot(own, r)
    requires own == Without(own0, r, lo, vp)
    ensures Without(own0, r, lo, vp + 1) == own - {p}
  {
    var hi := vp + 1;
    assert PteOk(m, own, r, vp);
    forall q | q in own0 ensures UserIn(own0[q], r, lo, hi) <==> UserIn(own0[q], r, lo, vp) || q == p {
      if q in own {
        assert OwnerOk(m, own, q);
      }
    }
    assert Without(own0, r, lo, hi) == own - {p};
  }

  lemma HandEntries(m: Ram, own: map<nat, Owner>, m2: Ram, p: nat, r: nat, vp: nat)
    requires Inv(m, own) && p in own && own[p] == Hand && OnlyPage(m, m2, p) && IsRoot(own, r) && vp < VPAGES
    ensures r < m.top && Pte(m2, r, vp) == Pte(m, r, vp)
  {
    assert forall q | q in own :: OwnerOk(m, own, q) ==> q < |m.mem|;
    HarmlessEntries(m, own, m2, r, vp);
  }

  // ---- freevm ----

  ghost function WithoutSlot(own: map<nat, Owner>, r: nat, i: nat): map<nat, Owner> {
    map q | q in own && own[q] != Table(r, i) :: own[q]
  }

  ghost predicate GoneBy(o: Owner, r: nat, i: nat) {
    (o.User? && o.r == r) || (o.Table? && o.r == r && o.i < i)
  }

  /** What is left once the user pages of r and its tables below slot i are gone. */
  ghost function Uncut(own: map<nat, Owner>, r: nat, i: nat): map<nat, Owner> {
    map q | q in own && !GoneBy(own[q], r, i) :: own[q]
  }

  /** The pages outside the address space r. */
  ghost function Rest(own: map<nat, Owner>, r: nat): map<nat, Owner> {
    map q | q in own && !Belongs(own, q, r) :: own[q]
  }

  ghost predicate OwnedKept(m: Ram, m2: Ram, own2: map<nat, Owner>) {
    forall q | q in own2 :: SamePage(m, m2, q)
  }

  lemma SlotTable(m: Ram, own: map<nat, Owner>, r: nat, t: nat)
    requires Cutting(m, own, r) && Present(Pde(m, r, m.cut)) && t == Pn(Pde(m, r, m.cut))
    ensures t in own && WithoutSlot(own, r, m.cut) == own - {t}
  {
    assert PdeOk(m, own, r, m.cut);
    assert forall q | q in own :: OwnerOk(m, own, q) && own[q] == Table(r, m.cut) ==> q == t;
  }

  lemma NoSlotTable(m: Ram, own: map<nat, Owner>, r: nat)
    requires Cutting(m, own, r) && !Present(Pde(m, r, m.cut))
    ensures WithoutSlot(own, r, m.cut) == own
  {
    assert forall q | q in own :: OwnerOk(m, own, q) ==> own[q] != Table(r, m.cut);
  }

  lemma CutFirst(m0: Ram, own0: map<nat, Owner>, m: Ram, own: map<nat, Owner>, r: nat)
    requires Inv(m0, own0) && Inv(m, own) && Dealloced(m0, own0, m, own, r, 0, UPAGES)
    ensures own == Uncut(own0, r, 0) && NoUserPages(m, own, r) && OwnedKept(m, m, own)
  {
    forall q | q in own0 ensures GoneBy(own0[q], r, 0) <==> UserIn(own0[q], r, 0, UPAGES) {
      assert OwnerOk(m0, own0, q);
    }
    forall q | q in own ensures SamePage(m, m, q) && !(own[q].User? && own[q].r == r) {
      assert OwnerOk(m, own, q);
    }
  }

  lemma UncutStep(m1: Ram, own0: map<nat, Owner>, m2: Ram, own2: map<nat, Owner>, m3: Ram, own3: map<nat, Owner>,
                  r: nat, i: nat)
    requires own2 == Uncut(own0, r, i) && OwnedKept(m1, m2, own2) && own3 == WithoutSlot(own2, r, i)
    requires OwnedKept(m2, m3, own3)
    ensures own3 == Uncut(own0, r, i + 1) && OwnedKept(m1, m3, own3)
  {
    var j := i + 1;
    assert own3 == Uncut(own0, r, j);
    forall q | q in own3 ensures SamePage(m1, m3, q) {
      assert SamePage(m1, m2, q) && SamePage(m2, m3, q);
    }
  }

  lemma UncutAll(m0: Ram, own0: map<nat, Owner>, m1: Ram, m3: Ram, own3: map<nat, Owner>, m4: Ram, r: nat)
    requires Inv(m0, own0) && IsRoot(own0, r) && Dealloced(m0, own0, m1, Uncut(own0, r, 0), r, 0, UPAGES)
    requires own3 == Uncut(own0, r, ENTRIES) && OwnedKept(m1, m3, own3) && IsRoot(own3, r)
    requires Inv(m3, own3) && m3.dr == r && m3.cut == ENTRIES && NoUserPages(m3, own3, r)
    requires m4.Shape() && m4.first == m3.first && m4.top == m3.top && m4.cut == 0 && OnlyDiffers(m3, m4, r)
    ensures Inv(m4, own3 - {r}) && own3 - {r} == Rest(own0, r) && OwnedKept(m0, m4, own3 - {r})
  {
    assert forall q | q in own3 :: OwnerOk(m3, own3, q) ==> q < m3.top;
    RootGone(m3, own3, m4, r);
    forall q | q in own0 ensures GoneBy(own0[q], r, ENTRIES) || q == r <==> Belongs(own0, q, r) {
      assert OwnerOk(m0, own0, q);
    }
    assert own3 - {r} == Rest(own0, r);
    forall q | q in own3 - {r} ensures SamePage(m0, m4, q) {
      assert SamePage(m1, m3, q) && q in Uncut(own0, r, 0) && SamePage(m0, m1, q);
    }
  }

  /** As lists: the free pages are the old ones and those of the address space. */
  lemma FreedAll(first: nat, mem: seq<Page>, head: nat, free: seq<nat>, own: map<nat, Owner>,
                 mem2: seq<Page>, head2: nat, free2: seq<nat>, own2: map<nat, Owner>, r: nat)
    requires Lists(first, mem, head, free, own) && Lists(first, mem2, head2, free2, own2) && own2 == Rest(own, r)
    ensures forall p: nat | first <= p < PHYSPAGES :: p in free2 <==> p in free || (p in own && Belongs(own, p, r))
  {
    forall p: nat | first <= p < PHYSPAGES ensures p in free2 <==> p in free || (p in own && Belongs(own, p, r)) {
      assert p in own || p in free;
      assert p in own2 || p in free2;
    }
  }

  ghost predicate OnlyDiffers(m: Ram, m2: Ram, p: nat) {
    |m.mem| == |m2.mem| && forall q | 0 <= q < |m.mem| && q != p :: m2.mem[q] == m.mem[q]
  }

  // ---- setupkvm ----

  const EXTMEM: nat := 0x100000
  const DEVSPACE: nat := 0xFE000000
  const PHYSTOP: nat := 0xE000000

  datatype KMap = KMap(virt: nat, start: nat, end: nat, perm: nat)

  /** The kmap table; data is the page at which the kernel's writable data starts. */
  function KernelMap(data: nat): (table: seq<KMap>)
    ensures |table| == 4
  {
    [KMap(KERNBASE, 0, EXTMEM, PTE_W),
     KMap(KERNBASE + EXTMEM, EXTMEM, data * PGSIZE, 0),
     KMap(KERNBASE + data * PGSIZE, data * PGSIZE, PHYSTOP, PTE_W),
     KMap(DEVSPACE, DEVSPACE, 0, PTE_W)]
  }

  /** phys_end - phys_start in 32-bit arithmetic. */
  function Span(e: KMap): nat {
    (e.end + 0x1_0000_0000 - e.start) % 0x1_0000_0000
  }

  /** What every kernel half holds: physical memory at KERNBASE, read-only text, devices in place. */
  function KernelPte(data: nat, vp: nat): nat {
    if vp < UPAGES then 0
    else if vp < UPAGES + PHYSPAGES then
      Entry(vp - UPAGES, if 0x100 <= vp - UPAGES < data then PTE_P else PTE_P + PTE_W)
    else if vp < 0xFE000 then 0
    else Entry(vp, PTE_P + PTE_W)
  }

  /** The first virtual page not covered by the first k lines of the table. */
  function Covered(data: nat, k: nat): nat {
    if k == 0 then UPAGES
    else if k == 1 then UPAGES + 0x100
    else if k == 2 then UPAGES + data
    else if k == 3 then UPAGES + PHYSPAGES
    else VPAGES
  }

  ghost predicate BuiltAt(m: Ram, r: nat, data: nat, k: nat, vp: nat)
    requires m.Shape() && r < m.top && vp < VPAGES
  {
    Pte(m, r, vp) == if vp < Covered(data, k) then KernelPte(data, vp) else 0
  }

  ghost predicate Built(m: Ram, r: nat, data: nat, k: nat) {
    m.Shape() && r < m.top && forall vp: nat | vp < VPAGES :: BuiltAt(m, r, data, k, vp)
  }

  /** A directory, and a table for each 4 MB of physical memory and of device space. */
  const KERNEL_PAGES: nat := 1 + 56 + 8

  /** The first directory slot behind physical memory, as far as the first k lines of the table map it. */
  function SlotsTo(data: nat, k: nat): nat {
    if k == 0 then 512 else if k == 1 then 513 else if k == 2 then 512 + (data - 1) / ENTRIES + 1 else 568
  }

  /** How many tables the first k lines take. */
  function KernelTables(data: nat, k: nat): nat {
    if k < 4 then SlotsTo(data, k) - 512 else 64
  }

  /** An empty directory. */
  lemma EmptyBuilt(m: Ram, r: nat, data: nat)
    requires m.Shape() && r < m.top && 0x100 < data < PHYSPAGES
    requires (forall vp: nat | vp < VPAGES :: Pte(m, r, vp) == 0) && (forall i: nat | i < ENTRIES :: Pde(m, r, i) == 0)
    ensures Built(m, r, data, 0) && KernelSlots(m, r, data, 0)
  {
  }

  lemma KernelTablesBound(data: nat, k: nat)
    requires 0x100 < data < PHYSPAGES && k <= 4
    ensures 512 <= SlotsTo(data, k) && KernelTables(data, k) <= 64 == KERNEL_PAGES - 1
  {
  }

  ghost predicate KernelSlotAt(m: Ram, r: nat, data: nat, k: nat, i: nat)
    requires m.Shape() && r < m.top && i < ENTRIES
  {
    Present(Pde(m, r, i)) <==> 512 <= i < SlotsTo(data, k) || (k == 4 && 1016 <= i)
  }

  ghost predicate KernelSlots(m: Ram, r: nat, data: nat, k: nat) {
    m.Shape() && r < m.top && 0x100 < data < PHYSPAGES && forall i: nat | i < ENTRIES :: KernelSlotAt(m, r, data, k, i)
  }

  /** The slots of line k: the first one may be shared with the line before. */
  lemma KernelLine(data: nat, k: nat)
    requires 0x100 < data < PHYSPAGES && k < 4
    ensures var e := KernelMap(data)[k];
            var vp0, n := e.virt / PGSIZE, (e.virt + Span(e) - 1) / PGSIZE - e.virt / PGSIZE + 1;
            && vp0 + n <= VPAGES && n >= 1
            && TopSlot(vp0, n) == (if k == 3 then ENTRIES else SlotsTo(data, k + 1))
            && (if k == 3 then vp0 / ENTRIES == 1016
                else 512 <= vp0 / ENTRIES <= SlotsTo(data, k) <= SlotsTo(data, k + 1))
  {
    var e := KernelMap(data)[k];
    assert e.virt / PGSIZE == if k == 3 then 0xFE000 else Covered(data, k);
    assert (e.virt + Span(e) - 1) / PGSIZE == if k == 3 then VPAGES - 1 else Covered(data, k + 1) - 1;
  }

  lemma KernelCost(m: Ram, r: nat, data: nat, k: nat)
    requires KernelSlots(m, r, data, k) && k < 4
    ensures var e := KernelMap(data)[k];
            var vp0, n := e.virt / PGSIZE, (e.virt + Span(e) - 1) / PGSIZE - e.virt / PGSIZE + 1;
            vp0 + n <= VPAGES && KernelTables(data, k + 1) == KernelTables(data, k) + TableCost(m, r, vp0, n)
  {
    KernelLine(data, k);
    var a := if k == 3 then 1016 else KernelMap(data)[k].virt / PGSIZE / ENTRIES;
    var top := if k == 3 then 1016 else SlotsTo(data, k);
    var b := if k == 3 then ENTRIES else SlotsTo(data, k + 1);
    forall i: nat | a <= i < b && i < ENTRIES ensures Present(Pde(m, r, i)) <==> i < top {
      assert KernelSlotAt(m, r, data, k, i);
    }
    MissingAbove(m, r, a, top, b);
  }

  lemma KernelSlotsStep(m: Ram, m2: Ram, r: nat, data: nat, k: nat, n: nat)
    requires KernelSlots(m, r, data, k) && k < 4
    requires var e := KernelMap(data)[k];
             n == (e.virt + Span(e) - 1) / PGSIZE - e.virt / PGSIZE + 1
             && Tabled(m, m2, r, e.virt / PGSIZE / ENTRIES, TopSlot(e.virt / PGSIZE, n))
    ensures KernelSlots(m2, r, data, k + 1)
  {
    KernelLine(data, k);
    var vp0, k2 := KernelMap(data)[k].virt / PGSIZE, k + 1;
    forall i: nat | i < ENTRIES ensures KernelSlotAt(m2, r, data, k2, i) {
      assert KernelSlotAt(m, r, data, k, i) && TabledAt(m, m2, r, vp0 / ENTRIES, TopSlot(vp0, n), i);
    }
  }

  lemma KernelRoom(m: Ram, r: nat, data: nat, k: nat)
    requires Built(m, r, data, k) && 0x100 < data < PHYSPAGES && k < 4
    ensures var e := KernelMap(data)[k];
            && Span(e) > 0 && e.virt / PGSIZE >= UPAGES && (e.virt + Span(e) - 1) / PGSIZE < VPAGES
            && forall vp: nat | e.virt / PGSIZE <= vp <= (e.virt + Span(e) - 1) / PGSIZE :: !Present(Pte(m, r, vp))
  {
    var e := KernelMap(data)[k];
    forall vp: nat | e.virt / PGSIZE <= vp <= (e.virt + Span(e) - 1) / PGSIZE && vp < VPAGES
      ensures !Present(Pte(m, r, vp))
    {
      assert BuiltAt(m, r, data, k, vp);
    }
  }

  lemma KernelStep(m: Ram, m2: Ram, r: nat, data: nat, k: nat, n: nat)
    requires Built(m, r, data, k) && 0x100 < data < PHYSPAGES && k < 4
    requires var e := KernelMap(data)[k];
             n == (e.virt + Span(e) - 1) / PGSIZE - e.virt / PGSIZE + 1
             && Run(m, m2, r, e.virt / PGSIZE, n, e.start / PGSIZE, WithP(e.perm))
    ensures Built(m2, r, data, k + 1)
  {
    var e, k2 := KernelMap(data)[k], k + 1;
    assert e.virt / PGSIZE == (if k == 3 then 0xFE000 else Covered(data, k))
           && e.virt / PGSIZE + n == Covered(data, k2);
    assert e.start / PGSIZE == if k == 3 then 0xFE000 else Covered(data, k) - UPAGES;
    forall vp: nat | vp < VPAGES ensures BuiltAt(m2, r, data, k2, vp) {
      assert BuiltAt(m, r, data, k, vp);
      assert RunAt(m, m2, r, e.virt / PGSIZE, n, e.start / PGSIZE, WithP(e.perm), vp);
    }
  }

  /** Giving back a new address space leads back to the pages before it. */
  lemma Undone(m0: Ram, own0: map<nat, Owner>, m: Ram, own: map<nat, Owner>, r: nat)
    requires Inv(m0, own0) && r !in own0 && Above(m0, own0, m, own, r)
    ensures Rest(own, r) == own0 && OwnedKept(m0, m, own0)
  {
    forall q | q in own0 ensures q in own && own[q] == own0[q] && !Belongs(own, q, r) && SamePage(m0, m, q) {
      assert AboveAt(m0, own0, m, own, r, q) && OwnerOk(m0, own0, q);
    }
    assert Rest(own, r) == own0;
  }

  lemma KeptSelf(m: Ram, own: map<nat, Owner>)
    requires Inv(m, own)
    ensures OwnedKept(m, m, own)
  {
    assert forall q | q in own :: OwnerOk(m, own, q) ==> SamePage(m, m, q);
  }

  lemma KeptTwice(m0: Ram, m: Ram, m2: Ram, own: map<nat, Owner>)
    requires OwnedKept(m0, m, own) && OwnedKept(m, m2, own)
    ensures OwnedKept(m0, m2, own)
  {
    forall q | q in own ensures SamePage(m0, m2, q) {
      assert SamePage(m0, m, q) && SamePage(m, m2, q);
    }
  }

  // ---- allocuvm ----

  ghost predicate SameEntry(m: Ram, m2: Ram, r: nat, vp: nat) {
    m.Shape() && m2.Shape() && r < m.top && r < m2.top && vp < VPAGES && Pte(m2, r, vp) == Pte(m, r, vp)
  }

  ghost predicate SameEntries(m: Ram, m2: Ram, r: nat) {
    forall vp: nat | vp < VPAGES :: SameEntry(m, m2, r, vp)
  }

  lemma HandEntries2(m: Ram, own: map<nat, Owner>, m2: Ram, p: nat, r: nat)
    requires Inv(m, own) && p !in own && m.first <= p < m.top && OnlyPage(m, m2, p) && IsRoot(own, r)
    ensures SameEntries(m, m2, r)
  {
    TakeInv(m, own, m, p);
    RootInRange(m, own, r);
    forall vp: nat | vp < VPAGES ensures SameEntry(m, m2, r, vp) {
      HandEntries(m, own[p := Hand], m2, p, r, vp);
    }
  }

  /** Exactly one new entry, leading to a new page with the given contents. */
  ghost predicate MappedFresh(m: Ram, own: map<nat, Owner>, m2: Ram, own2: map<nat, Owner>, r: nat, vp: nat, page: Page,
                              fl: nat)
  {
    && Above(m, own, m2, own2, r)
    && m.Shape() && m2.Shape() && r < m.top && r < m2.top && vp < VPAGES
    && (forall v: nat | v < VPAGES && v != vp :: SameEntry(m, m2, r, v))
    && LeadsTo(m2, r, vp, page, fl) && Pn(Pte(m2, r, vp)) !in own
  }

  ghost predicate LeadsTo(m: Ram, r: nat, vp: nat, page: Page, fl: nat)
    requires m.Shape() && r < m.top && vp < VPAGES
  {
    var e := Pte(m, r, vp);
    Present(e) && Flags(e) == fl && Pn(e) < |m.mem| && m.mem[Pn(e)] == page
  }

  lemma PutBack(own: map<nat, Owner>, p: nat)
    requires p !in own
    ensures own[p := Hand] - {p} == own
  {
  }

  lemma FreshMapped(m0: Ram, own0: map<nat, Owner>, m1: Ram, m2: Ram, own2: map<nat, Owner>, r: nat, vp: nat, p: nat,
                    page: Page, fl: nat)
    requires Inv(m0, own0) && IsRoot(own0, r) && p !in own0 && OnlyPage(m0, m1, p) && p < |m1.mem| && m1.mem[p] == page
    requires SameEntries(m0, m1, r)
    requires fl < PGSIZE && fl % 2 == 1 && vp < UPAGES && Run(m1, m2, r, vp, 1, p, fl)
    requires Above(m1, own0, m2, own2, r)
    requires p in own2 && own2[p] == User(r, vp) && p < |m2.mem| && m2.mem[p] == m1.mem[p]
    ensures MappedFresh(m0, own0, m2, own2, r, vp, page, fl)
  {
    RootInRange(m0, own0, r);
    EntryParts(p, fl);
    forall v: nat | v < VPAGES && v != vp ensures SameEntry(m0, m2, r, v) {
      assert SameEntry(m0, m1, r, v) && RunAt(m1, m2, r, vp, 1, p, fl, v);
    }
    assert RunAt(m1, m2, r, vp, 1, p, fl, vp);
    forall q | q in own0 ensures AboveAt(m0, own0, m2, own2, r, q) {
      assert AboveAt(m1, own0, m2, own2, r, q) && OwnerOk(m0, own0, q);
    }
  }

  ghost predicate GrownAt(m: Ram, m2: Ram, r: nat, lo: nat, b: nat, vp: nat)
    requires m.Shape() && m2.Shape() && r < m.top && r < m2.top && vp < VPAGES
  {
    if lo <= vp < b then LeadsTo(m2, r, vp, Zeros(), PTE_P + PTE_W + PTE_U) else Pte(m2, r, vp) == Pte(m, r, vp)
  }

  /** Pages lo..b-1 of r are new zeroed pages; every other entry and every old page is as before. */
  ghost predicate Grown(m: Ram, own: map<nat, Owner>, m2: Ram, own2: map<nat, Owner>, r: nat, lo: nat, b: nat) {
    && m.Shape() && m2.Shape() && r < m.top && r < m2.top
    && Above(m, own, m2, own2, r)
    && forall vp: nat | vp < VPAGES :: GrownAt(m, m2, r, lo, b, vp)
  }

  /** The user mapping and every data page are as before; at most empty page tables were added. */
  ghost predicate Restored(m: Ram, own: map<nat, Owner>, m2: Ram, own2: map<nat, Owner>, r: nat) {
    && m.Shape() && m2.Shape() && r < m.top && r < m2.top
    && Above(m, own, m2, own2, r)
    && (forall q | q in own2 && q !in own :: own2[q].Table? && own2[q].r == r)
    && (forall vp: nat | vp < VPAGES :: SameMapping(m, m2, r, vp))
  }

  ghost predicate SameMapping(m: Ram, m2: Ram, r: nat, vp: nat)
    requires m.Shape() && m2.Shape() && r < m.top && r < m2.top && vp < VPAGES
  {
    (Present(Pte(m2, r, vp)) <==> Present(Pte(m, r, vp)))
    && (Present(Pte(m, r, vp)) ==> Pte(m2, r, vp) == Pte(m, r, vp))
  }

  lemma GrownStart(m: Ram, own: map<nat, Owner>, r: nat, lo: nat)
    requires Inv(m, own) && r < m.top
    ensures Grown(m, own, m, own, r, lo, lo)
  {
    assert forall q | q in own :: OwnerOk(m, own, q) ==> AboveAt(m, own, m, own, r, q);
  }

  lemma GrownStep(m0: Ram, own0: map<nat, Owner>, m: Ram, own: map<nat, Owner>, m2: Ram, own2: map<nat, Owner>, r: nat,
                  lo: nat, vp: nat)
    requires Inv(m, own) && Grown(m0, own0, m, own, r, lo, vp) && lo <= vp && IsRoot(own, r) && vp < UPAGES
    requires MappedFresh(m, own, m2, own2, r, vp, Zeros(), PTE_P + PTE_W + PTE_U)
    ensures Grown(m0, own0, m2, own2, r, lo, vp + 1)
  {
    AboveTwice(m0, own0, m, own, m2, own2, r);
    var b := vp + 1;
    forall v: nat | v < VPAGES ensures GrownAt(m0, m2, r, lo, b, v) {
      assert GrownAt(m0, m, r, lo, vp, v);
      if v != vp {
        assert SameEntry(m, m2, r, v);
        if lo <= v < vp {
          assert PteOk(m, own, r, v);
          assert AboveAt(m, own, m2, own2, r, Pn(Pte(m, r, v)));
        }
      }
    }
  }

  /** A page left in hand changes nothing that was reached so far. */
  lemma GrownHand(m0: Ram, own0: map<nat, Owner>, m: Ram, own: map<nat, Owner>, m2: Ram, own2: map<nat, Owner>, r: nat,
                  lo: nat, vp: nat, left: nat)
    requires Inv(m, own) && m.first >= 1 && IsRoot(own, r) && Grown(m0, own0, m, own, r, lo, vp) && vp <= UPAGES
    requires left == 0 ==> m2 == m && own2 == own
    requires left != 0 ==> left !in own && own2 == own[left := Hand] && OnlyPage(m, m2, left) && m.first <= left < m.top
    ensures Grown(m0, own0, m2, own2 - {left}, r, lo, vp)
  {
    assert forall q | q in own :: OwnerOk(m, own, q) ==> q != 0;
    assert own2 - {left} == own;
    if left != 0 {
      HandEntries2(m, own, m2, left, r);
      forall v: nat | v < VPAGES ensures GrownAt(m0, m2, r, lo, vp, v) {
        assert GrownAt(m0, m, r, lo, vp, v) && SameEntry(m, m2, r, v);
        if lo <= v < vp {
          assert PteOk(m, own, r, v);
        }
      }
      forall q | q in own0 ensures AboveAt(m0, own0, m2, own, r, q) {
        assert AboveAt(m0, own0, m, own, r, q);
      }
    }
  }

  /** Undoing a partial growth restores the mapping; the page in hand stays in hand. */
  lemma GrownUndone(m0: Ram, own0: map<nat, Owner>, m1: Ram, own1: map<nat, Owner>, m2: Ram, own2: map<nat, Owner>,
                    r: nat, lo: nat, vp: nat, hi: nat, left: nat)
    requires Inv(m0, own0) && Inv(m1, own1) && IsRoot(own0, r) && lo <= vp <= hi <= UPAGES && NoneIn(m0, r, lo, hi)
    requires left in own1 ==> own1[left] == Hand
    requires Grown(m0, own0, m1, own1 - {left}, r, lo, vp) && Dealloced(m1, own1, m2, own2, r, lo, hi)
    ensures Restored(m0, own0, m2, own2 - {left}, r)
    ensures left in own1 ==> left in own2 && own2[left] == Hand
  {
    forall v: nat | v < VPAGES ensures SameMapping(m0, m2, r, v) {
      assert GrownAt(m0, m1, r, lo, vp, v) && ClearedAt(m1, m2, r, lo, hi, v);
    }
    forall q | q in own0 ensures AboveAt(m0, own0, m2, own2 - {left}, r, q) {
      UndonePage(m0, own0, m1, own1, own1 - {left}, m2, own2, r, lo, hi, left, q);
    }
    forall q | q in own2 - {left} && q !in own0 ensures own2[q].Table? && own2[q].r == r {
      UndoneOwner(m0, own0, m1, own1, own1 - {left}, r, lo, vp, hi, q);
    }
  }

  lemma UndonePage(m0: Ram, own0: map<nat, Owner>, m1: Ram, own1: map<nat, Owner>, ownA: map<nat, Owner>, m2: Ram,
                   own2: map<nat, Owner>, r: nat, lo: nat, hi: nat, left: nat, q: nat)
    requires Inv(m0, own0) && r < m0.top && hi <= UPAGES && NoneIn(m0, r, lo, hi) && ownA == own1 - {left}
    requires Above(m0, own0, m1, ownA, r) && Dealloced(m1, own1, m2, own2, r, lo, hi) && q in own0
    ensures AboveAt(m0, own0, m2, own2 - {left}, r, q)
  {
    assert AboveAt(m0, own0, m1, ownA, r, q) && OwnerOk(m0, own0, q);
    assert !UserIn(own1[q], r, lo, hi) && q in own2;
    if own0[q].Table? && own0[q].r == r {
      assert q < |m1.mem| == m1.top == |m2.mem|;
    } else {
      assert SamePage(m1, m2, q);
    }
  }

  lemma UndoneOwner(m0: Ram, own0: map<nat, Owner>, m1: Ram, own1: map<nat, Owner>, ownA: map<nat, Owner>, r: nat,
                    lo: nat, vp: nat, hi: nat, q: nat)
    requires Inv(m0, own0) && Inv(m1, own1) && IsRoot(own0, r) && lo <= vp <= hi && Grown(m0, own0, m1, ownA, r, lo, vp)
    requires q in own1 && q in ownA && ownA[q] == own1[q] && !UserIn(own1[q], r, lo, hi) && q !in own0
    ensures own1[q].Table? && own1[q].r == r
  {
    assert Belongs(ownA, q, r) && OwnerOk(m1, own1, q);
    if own1[q].User? {
      KnownPage(m0, own0, m1, ownA, r, lo, vp, own1[q].vp);
    }
  }

  /** Outside the grown range an entry leads to a page that was there before. */
  lemma KnownPage(m0: Ram, own0: map<nat, Owner>, m1: Ram, ownA: map<nat, Owner>, r: nat, lo: nat, b: nat, v: nat)
    requires Inv(m0, own0) && IsRoot(own0, r) && Grown(m0, own0, m1, ownA, r, lo, b) && v < UPAGES && !(lo <= v < b)
    requires Present(Pte(m1, r, v))
    ensures Pn(Pte(m1, r, v)) in own0
  {
    assert GrownAt(m0, m1, r, lo, b, v);
    assert PteOk(m0, own0, r, v);
  }

  lemma RestoredDrop(m0: Ram, own0: map<nat, Owner>, m: Ram, own: map<nat, Owner>, m2: Ram, r: nat, left: nat)
    requires Inv(m, own) && left in own && own[left] == Hand && OnlyPage(m, m2, left) && IsRoot(own, r)
    requires Restored(m0, own0, m, own - {left}, r)
    ensures Restored(m0, own0, m2, own - {left}, r)
  {
    var own2 := own - {left};
    forall v: nat | v < VPAGES ensures SameMapping(m0, m2, r, v) {
      assert SameMapping(m0, m, r, v);
      HandEntries(m, own, m2, left, r, v);
    }
    forall q | q in own0 ensures AboveAt(m0, own0, m2, own2, r, q) {
      assert AboveAt(m0, own0, m, own2, r, q);
    }
  }

  // ---- copyuvm ----

  ghost predicate Parent(m0: Ram, own0: map<nat, Owner>, r: nat, d: nat, vp: nat) {
    && Inv(m0, own0) && m0.cut == 0 && m0.top == PHYSPAGES && IsRoot(own0, r) && r < m0.top && d !in own0
    && vp < UPAGES && Present(Pte(m0, r, vp))
  }

  ghost predicate CopiedAt(m0: Ram, r: nat, m: Ram, d: nat, n: nat, data: nat, vp: nat)
    requires m0.Shape() && m.Shape() && r < m0.top && d < m.top && vp < VPAGES
  {
    if vp < n then
      var e := Pte(m0, r, vp);
      Pn(e) < |m0.mem| && LeadsTo(m, d, vp, m0.mem[Pn(e)], Flags(e))
    else Pte(m, d, vp) == KernelPte(data, vp)
  }

  /** The first n pages of d have the contents and flags of those of r; the rest of d is the kernel half. */
  ghost predicate Copied(m0: Ram, own0: map<nat, Owner>, r: nat, m: Ram, own: map<nat, Owner>, d: nat, n: nat,
                         data: nat)
  {
    && m0.Shape() && m.Shape() && r < m0.top && d < m.top == m0.top
    && Above(m0, own0, m, own, d)
    && forall vp: nat | vp < VPAGES :: CopiedAt(m0, r, m, d, n, data, vp)
  }

  lemma CopyStart(m0: Ram, own0: map<nat, Owner>, r: nat, m: Ram, own: map<nat, Owner>, d: nat, data: nat)
    requires Inv(m0, own0) && IsRoot(own0, r) && r < m0.top == m.top && d !in own0 && Above(m0, own0, m, own, d)
    requires Built(m, d, data, 4)
    ensures Copied(m0, own0, r, m, own, d, 0, data) && IsRoot(own, r)
  {
    forall vp: nat | vp < VPAGES ensures CopiedAt(m0, r, m, d, 0, data, vp) {
      assert BuiltAt(m, d, data, 4, vp);
    }
    assert AboveAt(m0, own0, m, own, d, r);
  }

  /** The parent is untouched while the child is built. */
  lemma ParentSame(m0: Ram, own0: map<nat, Owner>, m: Ram, own: map<nat, Owner>, r: nat, d: nat, vp: nat)
    requires Parent(m0, own0, r, d, vp) && Inv(m, own) && m.cut == 0 && m.top == m0.top && Above(m0, own0, m, own, d)
    ensures IsRoot(own, r) && Pte(m, r, vp) == Pte(m0, r, vp)
    ensures Pn(Pte(m0, r, vp)) < m0.top && m.mem[Pn(Pte(m0, r, vp))] == m0.mem[Pn(Pte(m0, r, vp))]
  {
    forall q | q in own0 ensures KeptPage(m0, own0, m, own, q) {
      assert AboveAt(m0, own0, m, own, d, q) && OwnerOk(m0, own0, q);
    }
    ForeignMappings(m0, own0, m, own, d, r, vp);
  }

  lemma CopyStep(m0: Ram, own0: map<nat, Owner>, r: nat, m: Ram, own: map<nat, Owner>, m2: Ram, own2: map<nat, Owner>,
                 d: nat, vp: nat, data: nat)
    requires Inv(m, own) && IsRoot(own, d) && Copied(m0, own0, r, m, own, d, vp, data) && vp < UPAGES && m2.top == m.top
    requires Pn(Pte(m0, r, vp)) < |m0.mem|
    requires MappedFresh(m, own, m2, own2, d, vp, m0.mem[Pn(Pte(m0, r, vp))], Flags(Pte(m0, r, vp)))
    ensures Copied(m0, own0, r, m2, own2, d, vp + 1, data)
  {
    AboveTwice(m0, own0, m, own, m2, own2, d);
    var n := vp + 1;
    forall v: nat | v < VPAGES ensures CopiedAt(m0, r, m2, d, n, data, v) {
      assert CopiedAt(m0, r, m, d, vp, data, v);
      if v != vp {
        assert SameEntry(m, m2, d, v);
        if v < vp {
          assert PteOk(m, own, d, v);
          assert AboveAt(m, own, m2, own2, d, Pn(Pte(m, d, v)));
        }
      }
    }
  }

  /** Giving back the page in hand does not disturb the copy. */
  lemma CopyDrop(m0: Ram, own0: map<nat, Owner>, r: nat, m: Ram, own: map<nat, Owner>, m2: Ram, d: nat, vp: nat,
                 data: nat, left: nat)
    requires Inv(m, own) && IsRoot(own, d) && Copied(m0, own0, r, m, own, d, vp, data) && vp <= UPAGES
    requires left !in own && m.first <= left < m.top && OnlyPage(m, m2, left)
    ensures Copied(m0, own0, r, m2, own, d, vp, data)
  {
    HandEntries2(m, own, m2, left, d);
    forall v: nat | v < VPAGES ensures CopiedAt(m0, r, m2, d, vp, data, v) {
      assert CopiedAt(m0, r, m, d, vp, data, v) && SameEntry(m, m2, d, v);
      if v < vp {
        assert PteOk(m, own, d, v);
      }
    }
    forall q | q in own0 ensures AboveAt(m0, own0, m2, own, d, q) {
      assert AboveAt(m0, own0, m, own, d, q);
    }
  }

  lemma StillRoot(m0: Ram, own0: map<nat, Owner>, m: Ram, own: map<nat, Owner>, d: nat, r: nat)
    requires Above(m0, own0, m, own, d) && IsRoot(own0, r)
    ensures IsRoot(own, r)
  {
    assert AboveAt(m0, own0, m, own, d, r);
  }

  /** Isolation: the child's pages are new, so they are none of the parent's, and the parent's did not change. */
  lemma CopyIsIsolated(m0: Ram, own0: map<nat, Owner>, r: nat, m: Ram, own: map<nat, Owner>, d: nat, n: nat, data: nat,
                       vp: nat, vp2: nat)
    requires Inv(m, own) && m.cut == 0 && IsRoot(own, d) && Parent(m0, own0, r, d, vp2)
    requires Copied(m0, own0, r, m, own, d, n, data)
    requires vp < n <= UPAGES
    ensures Pn(Pte(m, d, vp)) !in own0 && Pn(Pte(m, d, vp)) != Pn(Pte(m, r, vp2))
    ensures Pte(m, r, vp2) == Pte(m0, r, vp2) && Pn(Pte(m, r, vp2)) < m0.top
    ensures m.mem[Pn(Pte(m, r, vp2))] == m0.mem[Pn(Pte(m, r, vp2))]
  {
    ParentSame(m0, own0, m, own, r, d, vp2);
    assert CopiedAt(m0, r, m, d, n, data, vp);
    assert PteOk(m, own, d, vp) && PteOk(m0, own0, r, vp2);
    var p := Pn(Pte(m, d, vp));
    forall q | q in own0 ensures q in own && !(own[q].User? && own[q].r == d) {
      assert AboveAt(m0, own0, m, own, d, q) && OwnerOk(m0, own0, q);
    }
  }
}
