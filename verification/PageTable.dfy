/** Four-level page tables in physical memory, as modules/m3/x86-64.h lays them out:
    the address arithmetic, the walk, and the tree shape that keeps mappings independent. */
module PageTable {
  import opened Basics

  const PAGESIZE := 0x1000
  const MEMSIZE_PHYSICAL := 0x20_0000
  /** Number of virtual pages a four-level table can describe: 9 index bits a level. */
  const VPAGES := 0x10_0000_0000
  const TWO48 := 0x1_0000_0000_0000

  /** One word of a page table: entry `index` of the table at physical address `table`.
      Tables are page-aligned, so two different slots never overlap. */
  datatype Slot = Slot(table: int, index: int)

  /** The words of physical memory that were ever written; every other word reads as 0. */
  type Memory = map<Slot, int>

  /** The three permission bits PTE_P, PTE_W and PTE_U of an entry or of a request. */
  datatype Rights = Rights(present: bool, write: bool, user: bool) {
    function And(that: Rights): Rights {
      Rights(present && that.present, write && that.write, user && that.user)
    }
    predicate Covers(that: Rights) {
      (that.present ==> present) && (that.write ==> write) && (that.user ==> user)
    }
  }

  const ALL_RIGHTS := Rights(true, true, true)
  const PTE_PWU := 7

  function RightsOf(e: int): Rights {
    Rights(e % 2 == 1, (e / 2) % 2 == 1, (e / 4) % 2 == 1)
  }

  /** PTE_ADDR. */
  function PteAddr(e: int): int {
    e / PAGESIZE * PAGESIZE
  }

  /** The mask and shift expressions of the header are the divisions used here. */
  lemma MasksAreDivisions(e: bv64, f: bv64)
    ensures e & 0xFFF == e % 0x1000
    ensures e & 0xFFFF_FFFF_FFFF_F000 == e / 0x1000 * 0x1000
    ensures (e & 1 != 0 <==> e % 2 == 1) && (e & 2 != 0 <==> e / 2 % 2 == 1) && (e & 4 != 0 <==> e / 4 % 2 == 1)
    ensures (e >> 39) & 0x1FF == e / 0x80_0000_0000 % 512 && (e >> 30) & 0x1FF == e / 0x4000_0000 % 512
    ensures (e >> 21) & 0x1FF == e / 0x20_0000 % 512 && (e >> 12) & 0x1FF == e / 0x1000 % 512
    ensures e & 0xFFF == 0 && f < 0x1000 ==> e | f == e + f
  {
  }

  /** `pageindex(addr, level)`: nine bits of the address. */
  function PageIndex(addr: nat, level: int): int
    requires 0 <= level <= 3
  {
    if level == 0 then addr / 0x80_0000_0000 % 512
    else if level == 1 then addr / 0x4000_0000 % 512
    else if level == 2 then addr / 0x20_0000 % 512
    else addr / 0x1000 % 512
  }

  /** The virtual page an address lies in; bits 48 and up take no part in the walk. */
  function Vpn(addr: nat): (v: nat)
    ensures v < VPAGES
  {
    addr / PAGESIZE % VPAGES
  }

  /** The number, counted from the left, of the table that serves page `v` at `level`. */
  function Tag(v: nat, level: int): nat
    requires 0 <= level <= 4
  {
    if level == 4 then v
    else if level == 3 then v / 0x200
    else if level == 2 then v / 0x4_0000
    else if level == 1 then v / 0x800_0000
    else 0
  }

  function Index(v: nat, level: int): int
    requires 0 <= level <= 3
  {
    Tag(v, level + 1) % 512
  }

  lemma TagSplits(v: nat, level: int)
    requires v < VPAGES && 0 <= level <= 3
    ensures Tag(v, level + 1) == Tag(v, level) * 512 + Index(v, level)
  {
  }

  lemma DivCompose(a: nat, c: nat)
    requires c in {0x200, 0x4_0000, 0x800_0000}
    ensures a / (0x1000 * c) == a / 0x1000 / c
  {
  }

  /** Dropping bits 48 and up of the address does not change an index. */
  lemma HighBitsDrop(h: nat, v: nat, c: nat)
    requires c in {1, 0x200, 0x4_0000, 0x800_0000}
    ensures (h * VPAGES + v) / c % 512 == v / c % 512
  {
    var k := if c == 1 then VPAGES else if c == 0x200 then 0x800_0000 else if c == 0x4_0000 then 0x4_0000 else 0x200;
    DivShift(h * k, v, c);
    ModShift(h * (k / 512), v / c);
  }

  lemma DivShift(k: nat, v: nat, c: nat)
    requires c in {1, 0x200, 0x4_0000, 0x800_0000}
    ensures (k * c + v) / c == k + v / c
  {
  }

  lemma ModShift(k: nat, w: nat)
    ensures (k * 512 + w) % 512 == w % 512
  {
  }

  lemma PageIndexIsIndex(addr: nat, level: int)
    requires 0 <= level <= 3
    ensures PageIndex(addr, level) == Index(Vpn(addr), level)
  {
    var c := if level == 0 then 0x800_0000 else if level == 1 then 0x4_0000 else if level == 2 then 0x200 else 1;
    if level < 3 {
      DivCompose(addr, c);
    }
    HighBitsDrop(addr / PAGESIZE / VPAGES, Vpn(addr), c);
  }

  /** The indices of an address that is put together from them: nine bits a level above the page offset. */
  lemma AddressParts(high: nat, i0: nat, i1: nat, i2: nat, i3: nat, off: nat)
    requires i0 < 512 && i1 < 512 && i2 < 512 && i3 < 512 && off < PAGESIZE
    ensures var addr := ((((high * 512 + i0) * 512 + i1) * 512 + i2) * 512 + i3) * PAGESIZE + off;
            && PageIndex(addr, 0) == i0 && PageIndex(addr, 1) == i1 && PageIndex(addr, 2) == i2 && PageIndex(addr, 3) == i3
            && addr % PAGESIZE == off
  {
    var r3 := i3 * PAGESIZE + off;
    var r2 := i2 * 0x20_0000 + r3;
    var r1 := i1 * 0x4000_0000 + r2;
    PartAt(high, i0, r1, 0x80_0000_0000);
    PartAt(high * 512 + i0, i1, r2, 0x4000_0000);
    PartAt((high * 512 + i0) * 512 + i1, i2, r3, 0x20_0000);
    PartAt(((high * 512 + i0) * 512 + i1) * 512 + i2, i3, off, 0x1000);
  }

  lemma PartAt(a: nat, i: nat, rest: nat, s: nat)
    requires s in {0x80_0000_0000, 0x4000_0000, 0x20_0000, 0x1000} && i < 512 && rest < s
    ensures ((a * 512 + i) * s + rest) / s % 512 == i && ((a * 512 + i) * s + rest) % s == rest
  {
    QuotientBy(a * 512 + i, rest, s);
    ModShift(a, i);
  }

  lemma QuotientBy(q: nat, rest: nat, s: nat)
    requires s in {0x80_0000_0000, 0x4000_0000, 0x20_0000, 0x1000} && rest < s
    ensures (q * s + rest) / s == q && (q * s + rest) % s == rest
  {
  }

  function Load(mem: Memory, t: int, i: int): int {
    if Slot(t, i) in mem then mem[Slot(t, i)] else 0
  }

  /** `memset(t, 0, PAGESIZE)`: every word of the page at `t` reads as 0 again. */
  function ClearPage(mem: Memory, t: int): Memory {
    map s | s in mem && s.table != t :: mem[s]
  }

  /** The table that serves page `v` at `level`, or None when an entry above it is not present. */
  function Walk(mem: Memory, root: int, v: nat, level: nat): Option<int>
    requires level <= 3
  {
    if level == 0 then Some(root)
    else
      var up := Walk(mem, root, v, level - 1);
      if up.None? then None
      else
        var e := Load(mem, up.value, Index(v, level - 1));
        if RightsOf(e).present then Some(PteAddr(e)) else None
  }

  /** The rights that the entries above level `level` leave to page `v`. */
  function PathRights(mem: Memory, root: int, v: nat, level: nat): Rights
    requires level <= 3
  {
    if level == 0 then ALL_RIGHTS
    else
      var up := Walk(mem, root, v, level - 1);
      var above := PathRights(mem, root, v, level - 1);
      if up.None? then above.(present := false)
      else above.And(RightsOf(Load(mem, up.value, Index(v, level - 1))))
  }

  /** What a page is mapped to: the physical page's address and the effective rights. */
  datatype Frame = Frame(pa: int, rights: Rights)

  /** The abstract view of a table: a partial map from virtual pages to frames. */
  function Translate(mem: Memory, root: int, v: nat): Option<Frame> {
    var t := Walk(mem, root, v, 3);
    if t.None? then None
    else
      var e := Load(mem, t.value, Index(v, 3));
      if RightsOf(e).present
      then Some(Frame(PteAddr(e), PathRights(mem, root, v, 3).And(RightsOf(e))))
      else None
  }

  /** Where a table sits in the tree: its level, and its number among the tables of that level. */
  datatype Label = Label(level: int, tag: int)

  ghost predicate ChildLabelled(mem: Memory, shape: map<int, Label>, t: int, i: int)
    requires t in shape
  {
    var e := Load(mem, t, i);
    RightsOf(e).present ==>
      PteAddr(e) in shape && shape[PteAddr(e)] == Label(shape[t].level + 1, shape[t].tag * 512 + i)
  }

  /** The tables below `root` form a tree: every table has one label, the label of a present
      entry's target is determined by the entry's place, and so no table is reached by two paths. */
  ghost predicate Tree(mem: Memory, root: int, shape: map<int, Label>) {
    && root in shape && shape[root] == Label(0, 0)
    && (forall t :: t in shape ==> 0 <= t < MEMSIZE_PHYSICAL && t % PAGESIZE == 0 && 0 <= shape[t].level <= 3)
    && (forall t, i :: t in shape && shape[t].level < 3 && 0 <= i < 512 ==> ChildLabelled(mem, shape, t, i))
  }

  lemma {:induction false} WalkIsLabelled(mem: Memory, root: int, shape: map<int, Label>, v: nat, level: nat)
    requires Tree(mem, root, shape) && v < VPAGES && level <= 3
    ensures var t := Walk(mem, root, v, level);
            t.Some? ==> t.value in shape && shape[t.value] == Label(level, Tag(v, level))
  {
    if level > 0 && Walk(mem, root, v, level).Some? {
      WalkIsLabelled(mem, root, shape, v, level - 1);
      var up := Walk(mem, root, v, level - 1).value;
      assert ChildLabelled(mem, shape, up, Index(v, level - 1));
      TagSplits(v, level - 1);
    }
  }

  /** Non-sharing: in a tree, two pages reach the same table only along the same path. */
  lemma TreeDoesNotShare(mem: Memory, root: int, shape: map<int, Label>, u: nat, v: nat, l: nat, m: nat)
    requires Tree(mem, root, shape) && u < VPAGES && v < VPAGES && l <= 3 && m <= 3
    requires Walk(mem, root, u, l).Some? && Walk(mem, root, u, l) == Walk(mem, root, v, m)
    ensures l == m && Tag(u, l) == Tag(v, m)
  {
    WalkIsLabelled(mem, root, shape, u, l);
    WalkIsLabelled(mem, root, shape, v, m);
  }

  /** The walk down to a level-4 table reads only the upper 27 bits of the page number. */
  lemma {:induction false} WalkByTag(mem: Memory, root: int, u: nat, v: nat, level: nat)
    requires level <= 3 && Tag(u, 3) == Tag(v, 3)
    ensures Walk(mem, root, u, level) == Walk(mem, root, v, level)
    ensures PathRights(mem, root, u, level) == PathRights(mem, root, v, level)
  {
    if level > 0 {
      WalkByTag(mem, root, u, v, level - 1);
      assert Index(u, level - 1) == Index(v, level - 1) by {
        TagPrefix(u, level);
        TagPrefix(v, level);
      }
    }
  }

  lemma TagPrefix(v: nat, level: nat)
    requires 1 <= level <= 3
    ensures Tag(v, level) == Tag(v, 3) / (if level == 3 then 1 else if level == 2 then 0x200 else 0x4_0000)
  {
  }

  /** Writing a word of a table at a lower level than `level` leaves the walk to `level` alone. */
  lemma {:induction false} WalkFrame(mem: Memory, root: int, shape: map<int, Label>, s: Slot, e: int, v: nat, level: nat)
    requires Tree(mem, root, shape) && v < VPAGES && level <= 3
    requires s.table in shape && shape[s.table].level >= level
    ensures Walk(mem[s := e], root, v, level) == Walk(mem, root, v, level)
    ensures PathRights(mem[s := e], root, v, level) == PathRights(mem, root, v, level)
  {
    if level > 0 {
      WalkFrame(mem, root, shape, s, e, v, level - 1);
      WalkIsLabelled(mem, root, shape, v, level - 1);
    }
  }

  /** Writing a leaf entry changes the translation of that one page and of no other. */
  lemma LeafWrite(mem: Memory, root: int, shape: map<int, Label>, v: nat, e: int)
    requires Tree(mem, root, shape) && v < VPAGES && Walk(mem, root, v, 3).Some?
    ensures var mem' := mem[Slot(Walk(mem, root, v, 3).value, Index(v, 3)) := e];
            && Tree(mem', root, shape)
            && (forall u: nat :: u < VPAGES ==>
                  Walk(mem', root, u, 3) == Walk(mem, root, u, 3) && PathRights(mem', root, u, 3) == PathRights(mem, root, u, 3))
            && (forall u: nat :: u < VPAGES && u != v ==> Translate(mem', root, u) == Translate(mem, root, u))
            && Translate(mem', root, v) ==
                 (if RightsOf(e).present
                  then Some(Frame(PteAddr(e), PathRights(mem, root, v, 3).And(RightsOf(e)))) else None)
  {
    var t := Walk(mem, root, v, 3).value;
    var s := Slot(t, Index(v, 3));
    var mem' := mem[s := e];
    WalkIsLabelled(mem, root, shape, v, 3);
    forall t', i | t' in shape && shape[t'].level < 3 && 0 <= i < 512
      ensures ChildLabelled(mem', shape, t', i)
    {
      assert ChildLabelled(mem, shape, t', i);
    }
    forall u: nat | u < VPAGES
      ensures Walk(mem', root, u, 3) == Walk(mem, root, u, 3)
      ensures PathRights(mem', root, u, 3) == PathRights(mem, root, u, 3)
      ensures u != v ==> Translate(mem', root, u) == Translate(mem, root, u)
    {
      WalkFrame(mem, root, shape, s, e, u, 3);
      if u != v && Walk(mem, root, u, 3) == Some(t) {
        TreeDoesNotShare(mem, root, shape, u, v, 3, 3);
        TagSplits(u, 3);
        TagSplits(v, 3);
      }
    }
  }

  /** The two stores of `lookup_l4pagetable` that attach a new table. */
  function Hang(mem: Memory, s: Slot, page: int): Memory {
    ClearPage(mem[s := PteAddr(page) + PTE_PWU], page)
  }

  /** The parts of a word that is a page number, nine bits and the three permission bits. */
  lemma WordParts(k: int, rest: int, low: int)
    requires 0 <= rest < 512 && 0 <= low < 8
    ensures PteAddr(PAGESIZE * k + 8 * rest + low) == PAGESIZE * k
    ensures RightsOf(PAGESIZE * k + 8 * rest + low) == RightsOf(low)
  {
    var e := PAGESIZE * k + 8 * rest + low;
    assert e / PAGESIZE == k;
    EightfoldRights(512 * k + rest, low);
  }

  lemma EightfoldRights(h: int, low: int)
    requires 0 <= low < 8
    ensures RightsOf(8 * h + low) == RightsOf(low)
  {
    Quotient(8 * h + low, 2, 4 * h + low / 2);
    Quotient(8 * h + low, 4, 2 * h + low / 4);
    Parity(4 * h, low);
    Parity(2 * h, low / 2);
    Parity(h, low / 4);
  }

  /** Bit 0 of an entry is PTE_P, bit 1 is PTE_W and bit 2 is PTE_U. */
  lemma RightsBits(h: int, u: int, w: int, p: int)
    requires 0 <= u <= 1 && 0 <= w <= 1 && 0 <= p <= 1
    ensures RightsOf(8 * h + 4 * u + 2 * w + p) == Rights(p == 1, w == 1, u == 1)
  {
    EightfoldRights(h, 4 * u + 2 * w + p);
  }

  lemma Quotient(e: int, c: int, q: int)
    requires (c == 2 || c == 4) && c * q <= e < c * q + c
    ensures e / c == q
  {
  }

  lemma Parity(h: int, x: int)
    ensures (2 * h + x) % 2 == x % 2
  {
  }

  lemma PwuEntry(page: nat)
    requires page % PAGESIZE == 0
    ensures PteAddr(page + PTE_PWU) == page && RightsOf(page + PTE_PWU) == ALL_RIGHTS
  {
    WordParts(page / PAGESIZE, 0, PTE_PWU);
  }

  /** The words of memory after `Hang`: the new page is empty, and one entry leads to it. */
  lemma HangLoad(mem: Memory, s: Slot, page: nat, t: int, i: int)
    requires page % PAGESIZE == 0
    ensures Load(Hang(mem, s, page), t, i) ==
              if t == page then 0 else if Slot(t, i) == s then page + PTE_PWU else Load(mem, t, i)
  {
    assert PteAddr(page) == page;
  }

  /** The walk one level further down, from its entry. */
  lemma WalkVia(mem: Memory, root: int, u: nat, level: nat, t: int, e: int)
    requires level <= 2 && Walk(mem, root, u, level) == Some(t) && Load(mem, t, Index(u, level)) == e
    ensures Walk(mem, root, u, level + 1) == if RightsOf(e).present then Some(PteAddr(e)) else None
    ensures PathRights(mem, root, u, level + 1) == PathRights(mem, root, u, level).And(RightsOf(e))
  {
  }

  lemma WalkEnds(mem: Memory, root: int, u: nat, level: nat)
    requires level <= 2 && Walk(mem, root, u, level).None?
    ensures Walk(mem, root, u, level + 1).None?
  {
  }

  /** `page` is fit to be hung under entry `s` of the table that serves page `v` at `level`. */
  ghost predicate CanHang(mem: Memory, root: int, shape: map<int, Label>, v: nat, level: nat, page: nat, s: Slot)
    requires level <= 2
  {
    && Tree(mem, root, shape) && v < VPAGES && page !in shape && page % PAGESIZE == 0
    && Walk(mem, root, v, level) == Some(s.table) && s.index == Index(v, level)
    && Walk(mem, root, v, level + 1).None?
  }

  /** After `Hang`, the walk to `m` is what it was, or a missing table is now the new one. */
  ghost predicate HangSame(mem: Memory, mem': Memory, root: int, page: nat, u: nat, m: nat)
    requires m <= 3
  {
    if Walk(mem, root, u, m).Some?
    then Walk(mem', root, u, m) == Walk(mem, root, u, m) && PathRights(mem', root, u, m) == PathRights(mem, root, u, m)
    else Walk(mem', root, u, m).None? || Walk(mem', root, u, m) == Some(page)
  }

  /** A walk that had already ended ends in the new, empty table at the latest. */
  lemma HangBelow(mem: Memory, root: int, s: Slot, page: nat, u: nat, m: nat)
    requires page % PAGESIZE == 0 && m <= 2 && Walk(mem, root, u, m).None?
    requires HangSame(mem, Hang(mem, s, page), root, page, u, m)
    ensures HangSame(mem, Hang(mem, s, page), root, page, u, m + 1)
  {
    var mem' := Hang(mem, s, page);
    WalkEnds(mem, root, u, m);
    if Walk(mem', root, u, m).None? {
      WalkEnds(mem', root, u, m);
    } else {
      HangLoad(mem, s, page, page, Index(u, m));
      WalkVia(mem', root, u, m, page, 0);
    }
  }

  /** A walk that goes on reads the entry it read before, or the new one. */
  lemma HangAlong(mem: Memory, root: int, shape: map<int, Label>, v: nat, level: nat, page: nat, s: Slot, u: nat, m: nat, t: int)
    requires level <= 2 && CanHang(mem, root, shape, v, level, page, s) && u < VPAGES && m <= 2
    requires Walk(mem, root, u, m) == Some(t) && HangSame(mem, Hang(mem, s, page), root, page, u, m)
    ensures HangSame(mem, Hang(mem, s, page), root, page, u, m + 1)
  {
    var mem', here := Hang(mem, s, page), Slot(t, Index(u, m));
    var e := Load(mem, t, here.index);
    WalkIsLabelled(mem, root, shape, u, m);
    HangLoad(mem, s, page, t, here.index);
    WalkVia(mem, root, u, m, t, e);
    if here == s {
      WalkVia(mem, root, v, level, t, e);
      PwuEntry(page);
      WalkVia(mem', root, u, m, t, page + PTE_PWU);
    } else {
      WalkVia(mem', root, u, m, t, e);
    }
  }

  /** After `Hang`, a walk that existed is unchanged, and a new one ends in the new table. */
  lemma {:induction false} HangWalk(mem: Memory, root: int, shape: map<int, Label>, v: nat, level: nat, page: nat, s: Slot, u: nat, m: nat)
    requires level <= 2 && CanHang(mem, root, shape, v, level, page, s) && u < VPAGES && m <= 3
    ensures HangSame(mem, Hang(mem, s, page), root, page, u, m)
  {
    if m > 0 {
      HangWalk(mem, root, shape, v, level, page, s, u, m - 1);
      var up := Walk(mem, root, u, m - 1);
      if up.Some? {
        HangAlong(mem, root, shape, v, level, page, s, u, m - 1, up.value);
      } else {
        HangBelow(mem, root, s, page, u, m - 1);
      }
    }
  }

  /** Hanging a cleared, unused page under a non-present entry at `level` adds a table to the tree. */
  lemma HangTree(mem: Memory, root: int, shape: map<int, Label>, v: nat, level: nat, page: nat, s: Slot)
    requires level <= 2 && CanHang(mem, root, shape, v, level, page, s) && page < MEMSIZE_PHYSICAL
    ensures Tree(Hang(mem, s, page), root, shape[page := Label(level + 1, Tag(v, level + 1))])
  {
    var shape' := shape[page := Label(level + 1, Tag(v, level + 1))];
    var mem' := Hang(mem, s, page);
    WalkIsLabelled(mem, root, shape, v, level);
    TagSplits(v, level);
    PwuEntry(page);
    forall t, i | t in shape' && shape'[t].level < 3 && 0 <= i < 512
      ensures ChildLabelled(mem', shape', t, i)
    {
      HangLoad(mem, s, page, t, i);
      if t != page && Slot(t, i) != s {
        assert ChildLabelled(mem, shape, t, i);
      }
    }
  }

  /** ... it is the table the walk now reaches, with the rights the path above it leaves ... */
  lemma HangReaches(mem: Memory, root: int, shape: map<int, Label>, v: nat, level: nat, page: nat, s: Slot)
    requires level <= 2 && CanHang(mem, root, shape, v, level, page, s)
    ensures Walk(Hang(mem, s, page), root, v, level + 1) == Some(page)
    ensures PathRights(Hang(mem, s, page), root, v, level + 1) == PathRights(mem, root, v, level)
  {
    HangWalk(mem, root, shape, v, level, page, s, v, level);
    WalkIsLabelled(mem, root, shape, v, level);
    HangLoad(mem, s, page, s.table, s.index);
    PwuEntry(page);
    WalkVia(Hang(mem, s, page), root, v, level, s.table, page + PTE_PWU);
    assert PathRights(mem, root, v, level).And(ALL_RIGHTS) == PathRights(mem, root, v, level);
  }

  /** ... and no translation changes. */
  lemma HangTranslates(mem: Memory, root: int, shape: map<int, Label>, v: nat, level: nat, page: nat, s: Slot, u: nat)
    requires level <= 2 && CanHang(mem, root, shape, v, level, page, s) && u < VPAGES
    ensures Translate(Hang(mem, s, page), root, u) == Translate(mem, root, u)
  {
    HangWalk(mem, root, shape, v, level, page, s, u, 3);
    WalkIsLabelled(mem, root, shape, v, level);
    var t := Walk(mem, root, u, 3);
    if t.Some? {
      WalkIsLabelled(mem, root, shape, u, 3);
      HangLoad(mem, s, page, t.value, Index(u, 3));
    } else {
      HangLoad(mem, s, page, page, Index(u, 3));
    }
  }

  /** No entry above level 4 withholds a right from what is below it. */
  ghost predicate OpenTables(mem: Memory, shape: map<int, Label>) {
    forall t, i :: t in shape && shape[t].level < 3 && 0 <= i < 512 && RightsOf(Load(mem, t, i)).present ==>
      RightsOf(Load(mem, t, i)) == ALL_RIGHTS
  }

  lemma HangOpen(mem: Memory, shape: map<int, Label>, s: Slot, page: nat, place: Label)
    requires OpenTables(mem, shape) && page !in shape && page % PAGESIZE == 0
    ensures OpenTables(Hang(mem, s, page), shape[page := place])
  {
    var mem', shape' := Hang(mem, s, page), shape[page := place];
    PwuEntry(page);
    forall t, i | t in shape' && shape'[t].level < 3 && 0 <= i < 512 && RightsOf(Load(mem', t, i)).present
      ensures RightsOf(Load(mem', t, i)) == ALL_RIGHTS
    {
      HangLoad(mem, s, page, t, i);
    }
  }
}
