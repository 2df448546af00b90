/**
 Physical pages, two-level page tables (32-bit paging, section 4.3 of the Intel SDM,
 volume 3A) and who owns which page.

 Addresses are page numbers. A page holds 1024 words; an entry is a page number times
 4096 plus flags. A page directory entry leads to a table, a table entry to a page.
 */
module PageTables {

  const ENTRIES: nat := 1024
  const PGSIZE: nat := 4096
  /** KERNBASE as a page number: user pages are below it. */
  const UPAGES: nat := 0x80000
  const VPAGES: nat := 0x100000
  const PTE_P: nat := 1
  const PTE_W: nat := 2
  const PTE_U: nat := 4

  type Page = seq<nat>

  function Entry(pn: nat, flags: nat): nat {
    pn * PGSIZE + flags
  }

  predicate Present(e: nat) {
    e % 2 == 1
  }

  function Pn(e: nat): nat {
    e / PGSIZE
  }

  function Flags(e: nat): nat {
    e % PGSIZE
  }

  lemma EntryParts(pn: nat, flags: nat)
    requires flags < PGSIZE
    ensures Pn(Entry(pn, flags)) == pn && Flags(Entry(pn, flags)) == flags
    ensures (Present(Entry(pn, flags)) <==> flags % 2 == 1)
  {
  }

  /** What a page is used for: Hand is a page just allocated, Other a kernel stack, a pipe or the like. */
  datatype Owner = Root | Table(r: nat, i: nat) | User(r: nat, vp: nat) | Hand | Other

  /** Pages first..top-1 are managed by kalloc. Directory dr counts as empty below cut (while freevm runs). */
  datatype Ram = Ram(first: nat, top: nat, mem: seq<Page>, dr: nat, cut: nat) {
    ghost predicate Shape() {
      1 <= first <= top && |mem| == top && forall p: nat | p < top :: PageOk(mem, p)
    }
  }

  ghost predicate PageOk(mem: seq<Page>, p: nat) {
    p < |mem| && |mem[p]| == ENTRIES
  }

  ghost function Pde(m: Ram, r: nat, i: nat): nat
    requires m.Shape() && r < m.top && i < ENTRIES
  {
    assert PageOk(m.mem, r);
    if r == m.dr && i < m.cut then 0 else m.mem[r][i]
  }

  /** The entry for virtual page vp in directory r; 0 if there is no table for it. */
  ghost function Pte(m: Ram, r: nat, vp: nat): nat
    requires m.Shape() && r < m.top && vp < VPAGES
  {
    var d := Pde(m, r, vp / ENTRIES);
    if Present(d) && Pn(d) < m.top then assert PageOk(m.mem, Pn(d)); m.mem[Pn(d)][vp % ENTRIES] else 0
  }

  /** A directory entry leads to its table and grants everything; what is granted is decided in the table. */
  ghost predicate PdeOk(m: Ram, own: map<nat, Owner>, r: nat, i: nat)
    requires m.Shape() && r < m.top && i < ENTRIES
  {
    var d := Pde(m, r, i);
    Present(d) ==> Pn(d) in own && own[Pn(d)] == Table(r, i) && Flags(d) == PTE_P + PTE_W + PTE_U
  }

  ghost predicate PteOk(m: Ram, own: map<nat, Owner>, r: nat, vp: nat)
    requires m.Shape() && r < m.top && vp < UPAGES
  {
    var e := Pte(m, r, vp);
    Present(e) ==> Pn(e) in own && own[Pn(e)] == User(r, vp)
  }

  ghost predicate OwnerOk(m: Ram, own: map<nat, Owner>, p: nat)
    requires m.Shape() && p in own
  {
    && m.first <= p < m.top
    && match own[p]
       case Table(r, i) => r in own && own[r] == Root && r < m.top && i < ENTRIES && Present(Pde(m, r, i))
         && Pn(Pde(m, r, i)) == p
       case User(r, vp) => r in own && own[r] == Root && r < m.top && vp < UPAGES && Present(Pte(m, r, vp))
         && Pn(Pte(m, r, vp)) == p
       case _ => true
  }

  ghost predicate IsRoot(own: map<nat, Owner>, r: nat) {
    r in own && own[r] == Root
  }

  /**
   Every table and user page belongs to exactly the one entry that leads to it. The owner
   is a function of the page, so directories, tables and user pages are all disjoint.
   */
  ghost predicate Inv(m: Ram, own: map<nat, Owner>) {
    && m.Shape()
    && (forall p | p in own :: OwnerOk(m, own, p))
    && (forall r: nat, i: nat | IsRoot(own, r) && r < m.top && i < ENTRIES :: PdeOk(m, own, r, i))
    && (forall r: nat, vp: nat | IsRoot(own, r) && r < m.top && vp < UPAGES :: PteOk(m, own, r, vp))
  }

  lemma RootInRange(m: Ram, own: map<nat, Owner>, r: nat)
    requires Inv(m, own) && IsRoot(own, r)
    ensures m.first <= r < m.top
  {
    assert OwnerOk(m, own, r);
  }

  /** Two present user entries that lead to the same page are the same entry. */
  lemma UserPagesDistinct(m: Ram, own: map<nat, Owner>, r: nat, vp: nat, r2: nat, vp2: nat)
    requires Inv(m, own) && IsRoot(own, r) && IsRoot(own, r2) && vp < UPAGES && vp2 < UPAGES
    ensures r < m.top && r2 < m.top
    ensures Present(Pte(m, r, vp)) && Present(Pte(m, r2, vp2)) && Pn(Pte(m, r, vp)) == Pn(Pte(m, r2, vp2)) ==>
              r == r2 && vp == vp2
  {
    RootInRange(m, own, r);
    RootInRange(m, own, r2);
    assert PteOk(m, own, r, vp) && PteOk(m, own, r2, vp2);
  }

  // ---- A page that no directory or table uses may change freely ----

  /** m2 differs from m only in pages that are neither directories nor tables. */
  ghost predicate Harmless(m: Ram, own: map<nat, Owner>, m2: Ram) {
    && m2.Shape() && m2.first == m.first && m2.top == m.top && m2.dr == m.dr && m2.cut == m.cut
    && forall p | p in own && (own[p].Root? || own[p].Table?) :: p < |m.mem| && p < |m2.mem| && m2.mem[p] == m.mem[p]
  }

  lemma HarmlessEntries(m: Ram, own: map<nat, Owner>, m2: Ram, r: nat, vp: nat)
    requires Inv(m, own) && Harmless(m, own, m2) && IsRoot(own, r) && vp < VPAGES
    ensures r < m.top && Pde(m2, r, vp / ENTRIES) == Pde(m, r, vp / ENTRIES) && Pte(m2, r, vp) == Pte(m, r, vp)
  {
    RootInRange(m, own, r);
    assert PdeOk(m, own, r, vp / ENTRIES);
  }

  lemma HarmlessInv(m: Ram, own: map<nat, Owner>, m2: Ram)
    requires Inv(m, own) && Harmless(m, own, m2)
    ensures Inv(m2, own)
  {
    forall r: nat, i: nat | IsRoot(own, r) && r < m.top && i < ENTRIES ensures PdeOk(m2, own, r, i) {
      assert PdeOk(m, own, r, i);
      assert i * ENTRIES / ENTRIES == i;
      HarmlessEntries(m, own, m2, r, i * ENTRIES);
    }
    forall r: nat, vp: nat | IsRoot(own, r) && r < m.top && vp < UPAGES ensures PteOk(m2, own, r, vp) {
      assert PteOk(m, own, r, vp);
      HarmlessEntries(m, own, m2, r, vp);
    }
    forall p | p in own ensures OwnerOk(m2, own, p) {
      assert OwnerOk(m, own, p);
      match own[p]
      case Table(r, i) =>
        assert i * ENTRIES / ENTRIES == i;
        HarmlessEntries(m, own, m2, r, i * ENTRIES);
      case User(r, vp) =>
        HarmlessEntries(m, own, m2, r, vp);
      case _ =>
    }
  }

  // ---- Steps of the virtual-memory code, on values ----

  function Zeros(): (z: Page)
    ensures |z| == ENTRIES && forall k | 0 <= k < ENTRIES :: z[k] == 0
  {
    seq(ENTRIES, k => 0)
  }

  /** Page p belongs to the address space of directory r. */
  ghost predicate Belongs(own: map<nat, Owner>, p: nat, r: nat)
    requires p in own
  {
    p == r || (own[p].Table? && own[p].r == r) || (own[p].User? && own[p].r == r)
  }

  ghost predicate KeptPage(m: Ram, own: map<nat, Owner>, m2: Ram, own2: map<nat, Owner>, p: nat)
    requires p in own
  {
    p in own2 && own2[p] == own[p] && p < |m.mem| && p < |m2.mem| && m2.mem[p] == m.mem[p]
  }

  /** Pages outside the address space r keep their owners and contents. */
  ghost predicate Foreign(m: Ram, own: map<nat, Owner>, m2: Ram, own2: map<nat, Owner>, r: nat) {
    forall p | p in own && !Belongs(own, p, r) :: KeptPage(m, own, m2, own2, p)
  }

  /** The mappings of other directories are untouched. */
  lemma ForeignMappings(m: Ram, own: map<nat, Owner>, m2: Ram, own2: map<nat, Owner>, r: nat, r2: nat, vp: nat)
    requires Inv(m, own) && Inv(m2, own2) && Foreign(m, own, m2, own2, r) && m.cut == 0 && m2.cut == 0
    requires m.top == m2.top
    requires r in own ==> own[r] == Root
    requires IsRoot(own, r2) && r2 != r && vp < VPAGES
    ensures IsRoot(own2, r2) && r2 < m.top && Pte(m2, r2, vp) == Pte(m, r2, vp)
    ensures vp < UPAGES && Present(Pte(m, r2, vp)) ==> Pn(Pte(m, r2, vp)) < m.top
    ensures vp < UPAGES && Present(Pte(m, r2, vp)) ==> m2.mem[Pn(Pte(m, r2, vp))] == m.mem[Pn(Pte(m, r2, vp))]
  {
    RootInRange(m, own, r2);
    assert KeptPage(m, own, m2, own2, r2);
    assert PdeOk(m, own, r2, vp / ENTRIES);
    var d := Pde(m, r2, vp / ENTRIES);
    if Present(d) {
      assert KeptPage(m, own, m2, own2, Pn(d));
      assert OwnerOk(m, own, Pn(d));
    }
    if vp < UPAGES && Present(Pte(m, r2, vp)) {
      assert PteOk(m, own, r2, vp);
      assert OwnerOk(m, own, Pn(Pte(m, r2, vp)));
      assert KeptPage(m, own, m2, own2, Pn(Pte(m, r2, vp)));
    }
  }

  // walkpgdir with alloc: a zeroed page becomes the table of directory slot i.

  ghost predicate AddsTable(m: Ram, own: map<nat, Owner>, r: nat, i: nat, p: nat) {
    && Inv(m, own) && m.cut == 0 && IsRoot(own, r) && r < m.top && i < ENTRIES && !Present(Pde(m, r, i))
    && p in own && own[p] == Hand
  }

  ghost function WithTable(m: Ram, own: map<nat, Owner>, r: nat, i: nat, p: nat): (m2: Ram)
    requires AddsTable(m, own, r, i, p)
    ensures m2.Shape()
  {
    assert PageOk(m.mem, r) && OwnerOk(m, own, p);
    var mem2 := m.mem[p := Zeros()];
    var m2 := m.(mem := mem2[r := mem2[r][i := Entry(p, 7)]]);
    assert forall q: nat | q < m.top :: PageOk(m.mem, q) ==> PageOk(m2.mem, q);
    m2
  }

  lemma WithTableEntries(m: Ram, own: map<nat, Owner>, r: nat, i: nat, p: nat, r2: nat, vp: nat)
    requires AddsTable(m, own, r, i, p) && IsRoot(own, r2) && vp < VPAGES
    ensures var m2 := WithTable(m, own, r, i, p);
            && r2 < m.top
            && Pde(m2, r2, vp / ENTRIES)
                 == (if r2 == r && vp / ENTRIES == i then Entry(p, 7) else Pde(m, r2, vp / ENTRIES))
            && Pte(m2, r2, vp) == Pte(m, r2, vp)
  {
    RootInRange(m, own, r2);
    EntryParts(p, 7);
    assert OwnerOk(m, own, p);
    assert PdeOk(m, own, r2, vp / ENTRIES);
    var d := Pde(m, r2, vp / ENTRIES);
    var m2 := WithTable(m, own, r, i, p);
    assert m2.mem[p] == Zeros() && PageOk(m.mem, r) && PageOk(m.mem, r2);
    if Present(d) {
      assert OwnerOk(m, own, Pn(d));
      assert m2.mem[Pn(d)] == m.mem[Pn(d)];
    } else if r2 == r && vp / ENTRIES == i {
      assert Pde(m2, r, i) == Entry(p, 7);
      assert Pte(m2, r, vp) == Zeros()[vp % ENTRIES];
    }
  }

  lemma AddTableInv(m: Ram, own: map<nat, Owner>, r: nat, i: nat, p: nat)
    requires AddsTable(m, own, r, i, p)
    ensures Inv(WithTable(m, own, r, i, p), own[p := Table(r, i)])
  {
    var m2, own2 := WithTable(m, own, r, i, p), own[p := Table(r, i)];
    EntryParts(p, 7);
    forall r2: nat, j: nat | IsRoot(own2, r2) && r2 < m.top && j < ENTRIES ensures PdeOk(m2, own2, r2, j) {
      assert PdeOk(m, own, r2, j) && j * ENTRIES / ENTRIES == j;
      WithTableEntries(m, own, r, i, p, r2, j * ENTRIES);
    }
    forall r2: nat, vp: nat | IsRoot(own2, r2) && r2 < m.top && vp < UPAGES ensures PteOk(m2, own2, r2, vp) {
      assert PteOk(m, own, r2, vp);
      WithTableEntries(m, own, r, i, p, r2, vp);
    }
    forall q | q in own2 ensures OwnerOk(m2, own2, q) {
      WithTableOwner(m, own, r, i, p, q);
    }
  }

  lemma WithTableOwner(m: Ram, own: map<nat, Owner>, r: nat, i: nat, p: nat, q: nat)
    requires AddsTable(m, own, r, i, p) && q in own
    ensures OwnerOk(WithTable(m, own, r, i, p), own[p := Table(r, i)], q)
  {
    assert OwnerOk(m, own, q);
    EntryParts(p, 7);
    assert i * ENTRIES / ENTRIES == i;
    WithTableEntries(m, own, r, i, p, r, i * ENTRIES);
    match own[q]
    case Table(r2, j) =>
      assert j * ENTRIES / ENTRIES == j;
      WithTableEntries(m, own, r, i, p, r2, j * ENTRIES);
    case User(r2, vp) =>
      WithTableEntries(m, own, r, i, p, r2, vp);
    case _ =>
  }

  // Storing a table entry.

  ghost predicate HasTable(m: Ram, own: map<nat, Owner>, r: nat, vp: nat) {
    && Inv(m, own) && m.cut == 0 && IsRoot(own, r) && r < m.top && vp < VPAGES
    && Present(Pde(m, r, vp / ENTRIES))
  }

  ghost function TableOf(m: Ram, own: map<nat, Owner>, r: nat, vp: nat): (t: nat)
    requires HasTable(m, own, r, vp)
    ensures t in own && own[t] == Table(r, vp / ENTRIES) && t < m.top && PageOk(m.mem, t)
  {
    var t := Pn(Pde(m, r, vp / ENTRIES));
    assert PdeOk(m, own, r, vp / ENTRIES);
    assert OwnerOk(m, own, t);
    assert PageOk(m.mem, t);
    t
  }

  ghost function WithEntry(m: Ram, own: map<nat, Owner>, r: nat, vp: nat, e: nat): (m2: Ram)
    requires HasTable(m, own, r, vp)
    ensures m2.Shape()
  {
    var t := TableOf(m, own, r, vp);
    var row: Page := m.mem[t][vp % ENTRIES := e];
    var m2 := m.(mem := m.mem[t := row]);
    assert forall q: nat | q < m.top :: PageOk(m.mem, q) ==> PageOk(m2.mem, q);
    m2
  }

  lemma WithEntryEntries(m: Ram, own: map<nat, Owner>, r: nat, vp: nat, e: nat, r2: nat, vp2: nat)
    requires HasTable(m, own, r, vp) && IsRoot(own, r2) && vp2 < VPAGES
    ensures var m2 := WithEntry(m, own, r, vp, e);
            && r2 < m.top
            && Pde(m2, r2, vp2 / ENTRIES) == Pde(m, r2, vp2 / ENTRIES)
            && Pte(m2, r2, vp2) == if r2 == r && vp2 == vp then e else Pte(m, r2, vp2)
  {
    RootInRange(m, own, r2);
    var t := TableOf(m, own, r, vp);
    assert PdeOk(m, own, r2, vp2 / ENTRIES);
    var d := Pde(m, r2, vp2 / ENTRIES);
    if Present(d) {
      assert OwnerOk(m, own, Pn(d)) && PageOk(m.mem, Pn(d));
      if Pn(d) == t {
        assert r2 == r && vp2 / ENTRIES == vp / ENTRIES;
        assert vp2 % ENTRIES == vp % ENTRIES ==> vp2 == vp;
      }
    }
  }

  ghost predicate Maps(m: Ram, own: map<nat, Owner>, r: nat, vp: nat, pn: nat, fl: nat) {
    && HasTable(m, own, r, vp) && !Present(Pte(m, r, vp)) && fl < PGSIZE && fl % 2 == 1
    && (vp < UPAGES ==> pn in own && own[pn] == Hand)
  }

  ghost function Owning(own: map<nat, Owner>, r: nat, vp: nat, pn: nat): map<nat, Owner> {
    if vp < UPAGES then own[pn := User(r, vp)] else own
  }

  lemma MapInv(m: Ram, own: map<nat, Owner>, r: nat, vp: nat, pn: nat, fl: nat)
    requires Maps(m, own, r, vp, pn, fl)
    ensures Inv(WithEntry(m, own, r, vp, Entry(pn, fl)), Owning(own, r, vp, pn))
  {
    var e := Entry(pn, fl);
    var m2, own2 := WithEntry(m, own, r, vp, e), Owning(own, r, vp, pn);
    EntryParts(pn, fl);
    forall r2: nat, j: nat | IsRoot(own2, r2) && r2 < m.top && j < ENTRIES ensures PdeOk(m2, own2, r2, j) {
      assert PdeOk(m, own, r2, j) && j * ENTRIES / ENTRIES == j;
      WithEntryEntries(m, own, r, vp, e, r2, j * ENTRIES);
    }
    forall r2: nat, vp2: nat | IsRoot(own2, r2) && r2 < m.top && vp2 < UPAGES ensures PteOk(m2, own2, r2, vp2) {
      assert PteOk(m, own, r2, vp2);
      WithEntryEntries(m, own, r, vp, e, r2, vp2);
    }
    forall q | q in own2 ensures OwnerOk(m2, own2, q) {
      MapOwner(m, own, r, vp, pn, fl, q);
    }
  }

  lemma MapOwner(m: Ram, own: map<nat, Owner>, r: nat, vp: nat, pn: nat, fl: nat, q: nat)
    requires Maps(m, own, r, vp, pn, fl) && q in own
    ensures OwnerOk(WithEntry(m, own, r, vp, Entry(pn, fl)), Owning(own, r, vp, pn), q)
  {
    assert OwnerOk(m, own, q);
    EntryParts(pn, fl);
    WithEntryEntries(m, own, r, vp, Entry(pn, fl), r, vp);
    match own[q]
    case Table(r2, j) =>
      assert j * ENTRIES / ENTRIES == j;
      WithEntryEntries(m, own, r, vp, Entry(pn, fl), r2, j * ENTRIES);
    case User(r2, vp2) =>
      WithEntryEntries(m, own, r, vp, Entry(pn, fl), r2, vp2);
    case _ =>
  }

  /** Clearing a present user entry leaves its page in hand. */
  lemma UnmapInv(m: Ram, own: map<nat, Owner>, r: nat, vp: nat, p: nat)
    requires HasTable(m, own, r, vp) && vp < UPAGES && Present(Pte(m, r, vp)) && p == Pn(Pte(m, r, vp))
    ensures p in own && own[p] == User(r, vp)
    ensures Inv(WithEntry(m, own, r, vp, 0), own[p := Hand])
  {
    var m2, own2 := WithEntry(m, own, r, vp, 0), own[p := Hand];
    assert PteOk(m, own, r, vp);
    forall r2: nat, j: nat | IsRoot(own2, r2) && r2 < m.top && j < ENTRIES ensures PdeOk(m2, own2, r2, j) {
      assert PdeOk(m, own, r2, j) && j * ENTRIES / ENTRIES == j;
      WithEntryEntries(m, own, r, vp, 0, r2, j * ENTRIES);
    }
    forall r2: nat, vp2: nat | IsRoot(own2, r2) && r2 < m.top && vp2 < UPAGES ensures PteOk(m2, own2, r2, vp2) {
      assert PteOk(m, own, r2, vp2);
      WithEntryEntries(m, own, r, vp, 0, r2, vp2);
    }
    forall q | q in own2 ensures OwnerOk(m2, own2, q) {
      UnmapOwner(m, own, r, vp, p, q);
    }
  }

  lemma UnmapOwner(m: Ram, own: map<nat, Owner>, r: nat, vp: nat, p: nat, q: nat)
    requires HasTable(m, own, r, vp) && vp < UPAGES && Present(Pte(m, r, vp)) && p == Pn(Pte(m, r, vp))
    requires p in own && own[p] == User(r, vp) && q in own
    ensures OwnerOk(WithEntry(m, own, r, vp, 0), own[p := Hand], q)
  {
    assert OwnerOk(m, own, q);
    match own[q]
    case Table(r2, j) =>
      assert j * ENTRIES / ENTRIES == j;
      WithEntryEntries(m, own, r, vp, 0, r2, j * ENTRIES);
    case User(r2, vp2) =>
      WithEntryEntries(m, own, r, vp, 0, r2, vp2);
    case _ =>
  }

  // kalloc, kfree and new directories.

  /** Only page p may have changed. */
  ghost predicate OnlyPage(m: Ram, m2: Ram, p: nat) {
    && m2.Shape() && m2.first == m.first && m2.top == m.top && m2.dr == m.dr && m2.cut == m.cut && |m.mem| == |m2.mem|
    && forall q | 0 <= q < |m.mem| && q != p :: m2.mem[q] == m.mem[q]
  }

  lemma TakeInv(m: Ram, own: map<nat, Owner>, m2: Ram, p: nat)
    requires Inv(m, own) && p !in own && m.first <= p < m.top && OnlyPage(m, m2, p)
    ensures Inv(m2, own[p := Hand])
  {
    var own2 := own[p := Hand];
    assert forall q | q in own :: OwnerOk(m, own, q) ==> q < |m.mem|;
    HarmlessInv(m, own, m2);
    assert forall r: nat, i: nat | IsRoot(own2, r) && r < m.top && i < ENTRIES ::
             PdeOk(m2, own, r, i) ==> PdeOk(m2, own2, r, i);
    assert forall r: nat, vp: nat | IsRoot(own2, r) && r < m.top && vp < UPAGES ::
             PteOk(m2, own, r, vp) ==> PteOk(m2, own2, r, vp);
    assert forall q | q in own :: OwnerOk(m2, own, q) ==> OwnerOk(m2, own2, q);
    assert OwnerOk(m2, own2, p);
  }

  /** A page that no directory uses may be overwritten, and given back. */
  lemma HandInv(m: Ram, own: map<nat, Owner>, m2: Ram, p: nat)
    requires Inv(m, own) && p in own && (own[p] == Hand || own[p] == Other) && OnlyPage(m, m2, p)
    ensures Inv(m2, own) && Inv(m2, own - {p})
  {
    var own2 := own - {p};
    assert forall q | q in own :: OwnerOk(m, own, q) ==> q < |m.mem|;
    HarmlessInv(m, own, m2);
    assert forall r: nat, i: nat | IsRoot(own2, r) && r < m.top && i < ENTRIES ::
             PdeOk(m2, own, r, i) ==> PdeOk(m2, own2, r, i);
    assert forall r: nat, vp: nat | IsRoot(own2, r) && r < m.top && vp < UPAGES ::
             PteOk(m2, own, r, vp) ==> PteOk(m2, own2, r, vp);
    assert forall q | q in own2 :: OwnerOk(m2, own, q) ==> OwnerOk(m2, own2, q);
  }

  /** A zeroed page in hand is an empty directory. */
  lemma RootInv(m: Ram, own: map<nat, Owner>, r: nat)
    requires Inv(m, own) && m.cut == 0 && r in own && own[r] == Hand && r < m.top && m.mem[r] == Zeros()
    ensures Inv(m, own[r := Root])
    ensures forall vp: nat | vp < VPAGES :: Pte(m, r, vp) == 0
    ensures forall i: nat | i < ENTRIES :: Pde(m, r, i) == 0
  {
    var own2 := own[r := Root];
    forall i: nat | i < ENTRIES ensures Pde(m, r, i) == 0 {
    }
    forall r2: nat, i: nat | IsRoot(own2, r2) && r2 < m.top && i < ENTRIES ensures PdeOk(m, own2, r2, i) {
      if r2 != r {
        assert PdeOk(m, own, r2, i);
      }
    }
    forall r2: nat, vp: nat | IsRoot(own2, r2) && r2 < m.top && vp < UPAGES ensures PteOk(m, own2, r2, vp) {
      if r2 != r {
        assert PteOk(m, own, r2, vp);
      }
    }
    forall q | q in own ensures OwnerOk(m, own2, q) && q < m.top {
      assert OwnerOk(m, own, q);
    }
  }

  // freevm: tables are given back one directory slot after the other, then the directory itself.

  ghost predicate NoUserPages(m: Ram, own: map<nat, Owner>, r: nat) {
    forall p | p in own :: !(own[p].User? && own[p].r == r)
  }

  /** Before the first slot the directory is whole. */
  lemma CutStart(m: Ram, own: map<nat, Owner>, r: nat)
    requires Inv(m, own) && m.cut == 0
    ensures Inv(m.(dr := r), own)
  {
    var m2 := m.(dr := r);
    assert forall r2: nat, i: nat | r2 < m.top && i < ENTRIES :: Pde(m2, r2, i) == Pde(m, r2, i);
    assert forall r2: nat, vp: nat | r2 < m.top && vp < VPAGES :: Pte(m2, r2, vp) == Pte(m, r2, vp);
    assert forall r2: nat, i: nat | IsRoot(own, r2) && r2 < m.top && i < ENTRIES ::
             PdeOk(m, own, r2, i) ==> PdeOk(m2, own, r2, i);
    assert forall r2: nat, vp: nat | IsRoot(own, r2) && r2 < m.top && vp < UPAGES ::
             PteOk(m, own, r2, vp) ==> PteOk(m2, own, r2, vp);
    assert forall q | q in own :: OwnerOk(m, own, q) ==> OwnerOk(m2, own, q);
  }

  ghost predicate Cutting(m: Ram, own: map<nat, Owner>, r: nat) {
    Inv(m, own) && m.dr == r && m.cut < ENTRIES && IsRoot(own, r) && r < m.top && NoUserPages(m, own, r)
  }

  lemma CutEntries(m: Ram, own: map<nat, Owner>, m2: Ram, r: nat, r2: nat, vp: nat)
    requires Cutting(m, own, r) && IsRoot(own, r2) && vp < VPAGES
    requires m2.Shape() && m2.top == m.top && m2.dr == r && m2.cut == m.cut + 1
    requires forall q | q in own && own[q] != Table(r, m.cut) :: q < |m.mem| && q < |m2.mem| && m2.mem[q] == m.mem[q]
    ensures r2 < m.top
    ensures !(r2 == r && vp / ENTRIES == m.cut) ==> Pde(m2, r2, vp / ENTRIES) == Pde(m, r2, vp / ENTRIES)
    ensures !(r2 == r && vp / ENTRIES == m.cut) ==> Pte(m2, r2, vp) == Pte(m, r2, vp)
    ensures r2 == r && vp / ENTRIES == m.cut ==> Pde(m2, r2, vp / ENTRIES) == 0 && Pte(m2, r2, vp) == 0
  {
    RootInRange(m, own, r2);
    assert PdeOk(m, own, r2, vp / ENTRIES);
    if Present(Pde(m, r2, vp / ENTRIES)) {
      assert OwnerOk(m, own, Pn(Pde(m, r2, vp / ENTRIES)));
    }
  }

  /** One slot: its table, if there is one, is given back. */
  lemma CutInv(m: Ram, own: map<nat, Owner>, m2: Ram, own2: map<nat, Owner>, r: nat)
    requires Cutting(m, own, r) && m2.Shape() && m2.first == m.first && m2.top == m.top && m2.dr == r
    requires m2.cut == m.cut + 1
    requires own2 == (map q | q in own && own[q] != Table(r, m.cut) :: own[q])
    requires forall q | q in own2 :: q < |m.mem| && q < |m2.mem| && m2.mem[q] == m.mem[q]
    ensures Inv(m2, own2) && NoUserPages(m2, own2, r) && IsRoot(own2, r)
  {
    forall r2: nat, j: nat | IsRoot(own2, r2) && r2 < m.top && j < ENTRIES ensures PdeOk(m2, own2, r2, j) {
      assert PdeOk(m, own, r2, j) && j * ENTRIES / ENTRIES == j;
      CutEntries(m, own, m2, r, r2, j * ENTRIES);
    }
    forall r2: nat, vp: nat | IsRoot(own2, r2) && r2 < m.top && vp < UPAGES ensures PteOk(m2, own2, r2, vp) {
      assert PteOk(m, own, r2, vp);
      CutEntries(m, own, m2, r, r2, vp);
    }
    forall q | q in own2 ensures OwnerOk(m2, own2, q) {
      assert OwnerOk(m, own, q);
      match own[q]
      case Table(r2, j) =>
        assert j * ENTRIES / ENTRIES == j;
        CutEntries(m, own, m2, r, r2, j * ENTRIES);
      case User(r2, vp) =>
        CutEntries(m, own, m2, r, r2, vp);
      case _ =>
    }
  }

  /** The emptied directory is given back: nothing of the address space is left. */
  lemma RootGone(m: Ram, own: map<nat, Owner>, m2: Ram, r: nat)
    requires Inv(m, own) && m.dr == r && m.cut == ENTRIES && IsRoot(own, r) && NoUserPages(m, own, r)
    requires m2.Shape() && m2.first == m.first && m2.top == m.top && m2.cut == 0
    requires forall q | q in own && q != r :: q < |m.mem| && q < |m2.mem| && m2.mem[q] == m.mem[q]
    ensures Inv(m2, own - {r})
    ensures forall q | q in own - {r} :: !(own[q].User? && own[q].r == r) && !(own[q].Table? && own[q].r == r)
  {
    var own2 := own - {r};
    RootInRange(m, own, r);
    forall q | q in own2 ensures OwnerOk(m, own, q) && !(own[q].Table? && own[q].r == r) {
      assert OwnerOk(m, own, q);
    }
    forall r2: nat, vp: nat | IsRoot(own2, r2) && r2 < m.top && vp < VPAGES
      ensures Pde(m2, r2, vp / ENTRIES) == Pde(m, r2, vp / ENTRIES) && Pte(m2, r2, vp) == Pte(m, r2, vp)
    {
      assert PdeOk(m, own, r2, vp / ENTRIES);
    }
    forall r2: nat, j: nat | IsRoot(own2, r2) && r2 < m.top && j < ENTRIES
      ensures Pde(m2, r2, j) == Pde(m, r2, j) && PdeOk(m2, own2, r2, j)
    {
      assert PdeOk(m, own, r2, j) && j * ENTRIES / ENTRIES == j && j * ENTRIES < VPAGES;
    }
    forall r2: nat, vp: nat | IsRoot(own2, r2) && r2 < m.top && vp < UPAGES ensures PteOk(m2, own2, r2, vp) {
      assert PteOk(m, own, r2, vp);
    }
  }
}
