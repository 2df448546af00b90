/**
 What programs see: address translation as the processor does it (32-bit paging, section 4.3 of
 the Intel SDM, volume 3A), on the words of physical memory. The effects of vm.c, which Vm states
 page by page, are restated here for every virtual address.
 */
module Mmu {
  import opened PageTables
  import opened Vm

  /** write: user and kernel code may store; user: user code may access it at all. */
  datatype Access = Fault | Phys(pa: nat, write: bool, user: bool)

  /** The walk for address va with the directory in page cr3. */
  function Translate(mem: seq<Page>, cr3: nat, va: nat): Access {
    if cr3 >= |mem| || va / 0x40_0000 >= |mem[cr3]| then Fault
    else
      var pde := mem[cr3][va / 0x40_0000];
      var t := pde / 0x1000;
      if pde % 2 == 0 || t >= |mem| || va / 0x1000 % 0x400 >= |mem[t]| then Fault
      else
        var pte := mem[t][va / 0x1000 % 0x400];
        if pte % 2 == 0 then Fault
        else
          Phys(pte / 0x1000 * 0x1000 + va % 0x1000, pde / 2 % 2 == 1 && pte / 2 % 2 == 1,
               pde / 4 % 2 == 1 && pte / 4 % 2 == 1)
  }

  /** The word of physical memory at address pa; 0 if there is no memory there. */
  function WordAt(mem: seq<Page>, pa: nat): nat {
    if pa / 0x1000 < |mem| && pa % 0x1000 / 4 < |mem[pa / 0x1000]| then mem[pa / 0x1000][pa % 0x1000 / 4] else 0
  }

  /** An address space r of a sound memory. */
  ghost predicate Space(m: Ram, own: map<nat, Owner>, r: nat) {
    Inv(m, own) && IsRoot(own, r) && r < m.top && m.cut == 0
  }

  /** The access that a table entry grants at offset off of its page. */
  function Granted(e: nat, off: nat): Access {
    if !Present(e) then Fault else Phys(Pn(e) * PGSIZE + off, e / 2 % 2 == 1, e / 4 % 2 == 1)
  }

  lemma PageOf(va: nat)
    requires va < 0x1_0000_0000
    ensures va / PGSIZE < VPAGES && va / PGSIZE / ENTRIES == va / 0x40_0000 < ENTRIES
  {
  }

  lemma FlagBits(pn: nat, fl: nat)
    requires fl < PGSIZE
    ensures (pn * PGSIZE + fl) / 2 % 2 == fl / 2 % 2 && (pn * PGSIZE + fl) / 4 % 2 == fl / 4 % 2
  {
    assert pn * PGSIZE + fl == 2 * (pn * 2048) + fl == 4 * (pn * 1024) + fl;
    assert (2 * (pn * 2048) + fl) / 2 == pn * 2048 + fl / 2;
    assert (4 * (pn * 1024) + fl) / 4 == pn * 1024 + fl / 4;
    EvenPart(pn * 1024, fl / 2);
    EvenPart(pn * 512, fl / 4);
  }

  lemma EvenPart(a: nat, b: nat)
    ensures (2 * a + b) % 2 == b % 2
  {
  }

  lemma FullRights(d: nat)
    requires Flags(d) == PTE_P + PTE_W + PTE_U
    ensures d / 2 % 2 == 1 && d / 4 % 2 == 1
  {
    assert d == Pn(d) * PGSIZE + 7;
    FlagBits(Pn(d), 7);
  }

  /** The processor's walk finds the entry that Pte describes. */
  lemma WalkIsPte(m: Ram, own: map<nat, Owner>, r: nat, va: nat)
    requires Space(m, own, r) && va < 0x1_0000_0000
    ensures va / PGSIZE < VPAGES && Translate(m.mem, r, va) == Granted(Pte(m, r, va / PGSIZE), va % PGSIZE)
  {
    PageOf(va);
    var i := va / PGSIZE / ENTRIES;
    var d := Pde(m, r, i);
    assert PageOk(m.mem, r) && PdeOk(m, own, r, i);
    if Present(d) {
      assert OwnerOk(m, own, Pn(d)) && PageOk(m.mem, Pn(d));
      FullRights(d);
    }
  }

  lemma EntryGrants(pn: nat, fl: nat, off: nat)
    requires fl < PGSIZE && fl % 2 == 1
    ensures Granted(Entry(pn, fl), off) == Phys(pn * PGSIZE + off, fl / 2 % 2 == 1, fl / 4 % 2 == 1)
  {
    EntryParts(pn, fl);
    FlagBits(pn, fl);
  }

  /** mappages: k pages of addresses from vp0 on lead to k pages from pn on; every other address is as before. */
  lemma MappedAddresses(m0: Ram, own0: map<nat, Owner>, m: Ram, own: map<nat, Owner>, r: nat, vp0: nat, k: nat, pn: nat,
                        fl: nat, va: nat)
    requires Space(m0, own0, r) && Space(m, own, r) && Run(m0, m, r, vp0, k, pn, fl) && fl < PGSIZE && fl % 2 == 1
    requires va < 0x1_0000_0000
    ensures Translate(m.mem, r, va) ==
            if vp0 * 0x1000 <= va < (vp0 + k) * 0x1000
            then Phys(pn * 0x1000 + (va - vp0 * 0x1000), fl / 2 % 2 == 1, fl / 4 % 2 == 1)
            else Translate(m0.mem, r, va)
  {
    hide Inv, Translate, Granted;
    WalkIsPte(m0, own0, r, va);
    WalkIsPte(m, own, r, va);
    var vp := va / PGSIZE;
    assert RunAt(m0, m, r, vp0, k, pn, fl, vp);
    if vp0 <= vp < vp0 + k {
      EntryGrants(pn + (vp - vp0), fl, va % PGSIZE);
    }
  }

  /** deallocuvm: user addresses of the released pages fault; every other address is as before. */
  lemma ReleasedAddresses(m0: Ram, own0: map<nat, Owner>, m: Ram, own: map<nat, Owner>, r: nat, lo: nat, hi: nat,
                          va: nat)
    requires Space(m0, own0, r) && Space(m, own, r) && Dealloced(m0, own0, m, own, r, lo, hi) && va < 0x1_0000_0000
    ensures Translate(m.mem, r, va) == if lo * 0x1000 <= va < hi * 0x1000 then Fault else Translate(m0.mem, r, va)
  {
    hide Inv, Translate;
    WalkIsPte(m0, own0, r, va);
    WalkIsPte(m, own, r, va);
    assert ClearedAt(m0, m, r, lo, hi, va / PGSIZE);
  }

  /** allocuvm: the new addresses are readable and writable for the user and hold zeros; the others are as before. */
  lemma GrownAddresses(m0: Ram, own0: map<nat, Owner>, m: Ram, own: map<nat, Owner>, r: nat, lo: nat, b: nat, va: nat)
    requires Space(m0, own0, r) && Space(m, own, r) && Grown(m0, own0, m, own, r, lo, b) && va < 0x1_0000_0000
    ensures if lo * 0x1000 <= va < b * 0x1000
            then var a := Translate(m.mem, r, va); a.Phys? && a.write && a.user && WordAt(m.mem, a.pa) == 0
            else Translate(m.mem, r, va) == Translate(m0.mem, r, va)
  {
    hide Inv, Translate;
    WalkIsPte(m0, own0, r, va);
    WalkIsPte(m, own, r, va);
    var vp := va / PGSIZE;
    assert GrownAt(m0, m, r, lo, b, vp);
    if lo <= vp < b {
      LedTo(m, r, vp, Zeros(), 7, va % PGSIZE);
    }
  }

  /** An entry that leads to a page gives access to its words. */
  lemma LedTo(m: Ram, r: nat, vp: nat, page: Page, fl: nat, off: nat)
    requires m.Shape() && r < m.top && vp < VPAGES && LeadsTo(m, r, vp, page, fl) && |page| == ENTRIES && off < PGSIZE
    ensures var a := Granted(Pte(m, r, vp), off);
            && a.Phys? && a.write == (fl / 2 % 2 == 1) && a.user == (fl / 4 % 2 == 1)
            && WordAt(m.mem, a.pa) == page[off / 4]
  {
    var e := Pte(m, r, vp);
    assert e == Pn(e) * PGSIZE + Flags(e);
    FlagBits(Pn(e), Flags(e));
    var pa := Pn(e) * PGSIZE + off;
    assert pa / 0x1000 == Pn(e) && pa % 0x1000 == off;
  }

  /** The kernel's addresses: physical memory at 0x80000000, its text read-only, devices in place. */
  function KernelAccess(data: nat, va: nat): Access {
    if 0x8000_0000 <= va < 0x8E00_0000
    then Phys(va - 0x8000_0000, !(0x10_0000 <= va - 0x8000_0000 < data * 0x1000), false)
    else if 0xFE00_0000 <= va then Phys(va, true, false)
    else Fault
  }

  lemma KernelGrants(data: nat, va: nat)
    requires 0x100 < data < PHYSPAGES && va < 0x1_0000_0000
    ensures Granted(KernelPte(data, va / PGSIZE), va % PGSIZE) == KernelAccess(data, va)
  {
    hide Granted;
    var vp := va / PGSIZE;
    NoAccess(va % PGSIZE);
    if UPAGES <= vp < UPAGES + PHYSPAGES {
      EntryGrants(vp - UPAGES, if 0x100 <= vp - UPAGES < data then PTE_P else PTE_P + PTE_W, va % PGSIZE);
    } else if vp >= 0xFE000 {
      EntryGrants(vp, PTE_P + PTE_W, va % PGSIZE);
    }
  }

  /** setupkvm: these and no others, none of them for the user. */
  lemma KernelAddresses(m: Ram, own: map<nat, Owner>, r: nat, data: nat, va: nat)
    requires Space(m, own, r) && Built(m, r, data, 4) && 0x100 < data < PHYSPAGES && va < 0x1_0000_0000
    ensures Translate(m.mem, r, va) == KernelAccess(data, va)
  {
    hide Inv, Translate, Granted;
    WalkIsPte(m, own, r, va);
    assert BuiltAt(m, r, data, 4, va / PGSIZE);
    KernelGrants(data, va);
  }

  /**
   copyuvm: below n pages the child has the parent's rights and reads what the parent reads; above
   them it has the kernel's addresses only.
   */
  lemma CopiedAddresses(m0: Ram, own0: map<nat, Owner>, r: nat, m: Ram, own: map<nat, Owner>, d: nat, n: nat, data: nat,
                        va: nat)
    requires Space(m0, own0, r) && Space(m, own, d) && Copied(m0, own0, r, m, own, d, n, data) && n <= UPAGES
    requires 0x100 < data < PHYSPAGES && va < 0x1_0000_0000 && forall vp: nat | vp < n :: Present(Pte(m0, r, vp))
    ensures var a, b := Translate(m0.mem, r, va), Translate(m.mem, d, va);
            if va < n * 0x1000
            then && a.Phys? && b.Phys? && b.write == a.write && b.user == a.user
                 && WordAt(m.mem, b.pa) == WordAt(m0.mem, a.pa)
            else b == KernelAccess(data, va)
  {
    hide Inv, Translate, Granted, WordAt, KernelAccess;
    WalkIsPte(m0, own0, r, va);
    WalkIsPte(m, own, d, va);
    var vp := va / PGSIZE;
    assert CopiedAt(m0, r, m, d, n, data, vp);
    KernelGrants(data, va);
    if vp < n {
      var e := Pte(m0, r, vp);
      assert PageOk(m0.mem, Pn(e));
      LedTo(m, d, vp, m0.mem[Pn(e)], Flags(e), va % PGSIZE);
      LedTo(m0, r, vp, m0.mem[Pn(e)], Flags(e), va % PGSIZE);
    }
  }

  lemma NoAccess(off: nat)
    ensures Granted(0, off) == Fault
  {
  }

  /** No two user addresses, of the same program or of two, lead to the same byte. */
  lemma NothingShared(m: Ram, own: map<nat, Owner>, r: nat, r2: nat, va: nat, va2: nat)
    requires Space(m, own, r) && Space(m, own, r2) && va < 0x8000_0000 && va2 < 0x8000_0000
    ensures var a, b := Translate(m.mem, r, va), Translate(m.mem, r2, va2);
            a.Phys? && b.Phys? && a.pa == b.pa ==> r == r2 && va == va2
  {
    hide Translate;
    WalkIsPte(m, own, r, va);
    WalkIsPte(m, own, r2, va2);
    UserPagesDistinct(m, own, r, va / PGSIZE, r2, va2 / PGSIZE);
  }
}
