/** `virtual_memory_map`, `lookup_l4pagetable`, `virtual_memory_lookup` and
    `virtual_memory_init` of modules/m3/k-hardware.c. */
module VirtualMemory {
  import opened Basics
  import opened PageTable

  /** The C conversion of an unsigned value to a 32-bit `int`. */
  function ToInt32(x: int): int {
    (x + 0x8000_0000) % 0x1_0000_0000 - 0x8000_0000
  }

  /** The `vamapping` record. */
  datatype VaMapping = VaMapping(pn: int, pa: int, perm: Rights)

  const NO_RIGHTS := Rights(false, false, false)
  const UNMAPPED := VaMapping(-1, TWO64 - 1, NO_RIGHTS)

  /** What `virtual_memory_lookup` reports for the byte address `x`. */
  function Lookup(mem: Memory, root: int, x: nat): VaMapping {
    match Translate(mem, root, Vpn(x))
    case None => UNMAPPED
    case Some(f) => VaMapping(ToInt32(f.pa / PAGESIZE), f.pa + x % PAGESIZE, f.rights)
  }

  /** The answer from the four entries on the path: all present, and it is the last one's page with the rights
      that all four grant; otherwise it is the record {-1, (uintptr_t) -1, 0}. */
  lemma LookupByEntries(mem: Memory, root: int, x: nat, e0: int, e1: int, e2: int, e3: int)
    requires e0 == Load(mem, root, PageIndex(x, 0)) && e1 == Load(mem, PteAddr(e0), PageIndex(x, 1))
    requires e2 == Load(mem, PteAddr(e1), PageIndex(x, 2)) && e3 == Load(mem, PteAddr(e2), PageIndex(x, 3))
    ensures var r0, r1, r2, r3 := RightsOf(e0), RightsOf(e1), RightsOf(e2), RightsOf(e3);
            var l := Lookup(mem, root, x);
            if r0.present && r1.present && r2.present && r3.present
            then l.pn == ToInt32(e3 / PAGESIZE) && l.pa == PteAddr(e3) + x % PAGESIZE && l.perm.present
                 && (l.perm.write <==> r0.write && r1.write && r2.write && r3.write)
                 && (l.perm.user <==> r0.user && r1.user && r2.user && r3.user)
            else l.pn == -1 && l.pa == 0xFFFF_FFFF_FFFF_FFFF && !l.perm.present && !l.perm.write && !l.perm.user
  {
    var v := Vpn(x);
    PageIndexIsIndex(x, 0);
    PageIndexIsIndex(x, 1);
    PageIndexIsIndex(x, 2);
    PageIndexIsIndex(x, 3);
    assert Walk(mem, root, v, 0) == Some(root) && PathRights(mem, root, v, 0) == ALL_RIGHTS;
    WalkVia(mem, root, v, 0, root, e0);
    if !RightsOf(e0).present {
      WalkStops(mem, root, v, 1);
    } else {
      WalkVia(mem, root, v, 1, PteAddr(e0), e1);
      if !RightsOf(e1).present {
        WalkStops(mem, root, v, 2);
      } else {
        WalkVia(mem, root, v, 2, PteAddr(e1), e2);
      }
    }
  }

  /** For frames in physical memory, a page number below 0 means exactly that the page is not mapped. */
  lemma NegativeMeansUnmapped(mem: Memory, root: int, x: nat)
    requires var t := Translate(mem, root, Vpn(x)); t.Some? ==> 0 <= t.value.pa < MEMSIZE_PHYSICAL
    ensures Lookup(mem, root, x).pn < 0 <==> Translate(mem, root, Vpn(x)).None?
  {
    var t := Translate(mem, root, Vpn(x));
    if t.Some? {
      ToInt32Parts(0, t.value.pa / PAGESIZE);
    }
  }

  datatype Outcome = Ok | Fail | Panic

  /** The first cached index equals the initial -1 although no table was looked up yet. */
  predicate SentinelClash(va: nat) {
    ToInt32(va / 0x20_0000) == -1
  }

  lemma NoClashBelow48Bits(va: nat)
    requires va < TWO48
    ensures !SentinelClash(va)
  {
  }

  /** The conversion, from the high and the low 32 bits. */
  lemma ToInt32Parts(h: int, l: int)
    requires 0 <= l < 0x1_0000_0000
    ensures ToInt32(h * 0x1_0000_0000 + l) == if l < 0x8000_0000 then l else l - 0x1_0000_0000
  {
    if l < 0x8000_0000 {
      Mod32(h, l + 0x8000_0000);
    } else {
      Mod32(h + 1, l - 0x8000_0000);
    }
  }

  lemma Mod32(h: int, l: int)
    requires 0 <= l < 0x1_0000_0000
    ensures (h * 0x1_0000_0000 + l) % 0x1_0000_0000 == l
  {
  }

  /** Exactly which addresses clash; those of the top 2 MB do. */
  lemma ClashExactly(va: nat)
    requires va < TWO64
    ensures SentinelClash(va) <==> va / 0x20_0000 % 0x1_0000_0000 == 0xFFFF_FFFF
    ensures va >= TWO64 - 0x20_0000 ==> SentinelClash(va)
  {
    var q := va / 0x20_0000;
    ToInt32Parts(q / 0x1_0000_0000, q % 0x1_0000_0000);
    if va >= TWO64 - 0x20_0000 {
      assert q == 0x7FF_FFFF_FFFF;
      ToInt32Parts(0x7FF, 0xFFFF_FFFF);
    }
  }

  /** The assertions at the head of `virtual_memory_map`. */
  predicate ArgumentsMakeSense(root: int, va: nat, pa: nat, sz: nat, perm: int) {
    && va % PAGESIZE == 0 && sz % PAGESIZE == 0 && va + sz <= TWO64
    && (RightsOf(perm).present ==> pa % PAGESIZE == 0 && pa + sz < TWO64 && pa + sz <= MEMSIZE_PHYSICAL)
    && 0 <= perm < 0x1000 && root % PAGESIZE == 0
  }

  /** ... by their numbers. */
  lemma ArgumentsExactly(root: int, va: nat, pa: nat, sz: nat, perm: int)
    ensures ArgumentsMakeSense(root, va, pa, sz, perm) <==>
              && va % 0x1000 == 0 && sz % 0x1000 == 0 && va + sz <= 0x1_0000_0000_0000_0000
              && 0 <= perm < 0x1000 && root % 0x1000 == 0
              && (perm % 2 == 1 ==> pa % 0x1000 == 0 && pa + sz <= 0x20_0000)
  {
  }

  /** Offset of `x` in a range that starts at `va`; the walk ignores address bits 48 and up. */
  function Offset(x: int, va: int): int {
    (x - va) % TWO48
  }

  /** The finite-map specification of a map request of `sz` bytes, byte by byte. */
  function Remapped(before: Memory, root: int, va: nat, pa: nat, sz: nat, want: Rights, x: nat): VaMapping {
    var off := Offset(x, va);
    if off >= sz then Lookup(before, root, x)
    else if !want.present then UNMAPPED
    else VaMapping((pa + off) / PAGESIZE, pa + off, want)
  }

  /** The same specification page by page, for the first `k` pages of the request. */
  function RemappedPage(before: Memory, root: int, v: nat, pa: nat, k: nat, want: Rights, u: nat): Option<Frame> {
    var j := (u - v) % VPAGES;
    if j >= k then Translate(before, root, u)
    else if want.present then Some(Frame(pa + PAGESIZE * j, want))
    else None
  }

  function Leaf(pa: int, want: Rights): Option<Frame> {
    if want.present then Some(Frame(pa, want)) else None
  }

  lemma OffsetByPage(x: nat, va: nat)
    requires va % PAGESIZE == 0
    ensures Offset(x, va) == PAGESIZE * ((Vpn(x) - Vpn(va)) % VPAGES) + x % PAGESIZE
  {
    var p, q, o := x / PAGESIZE, va / PAGESIZE, x % PAGESIZE;
    var d := (p - q) % VPAGES;
    assert (Vpn(x) - Vpn(va)) % VPAGES == d by {
      ModDiff(p, q);
    }
    assert p - q == (p - q) / VPAGES * VPAGES + d;
    assert x - va == TWO48 * ((p - q) / VPAGES) + (PAGESIZE * d + o);
    ModUnique(x - va, (p - q) / VPAGES, PAGESIZE * d + o);
  }

  lemma ModUnique(a: int, q: int, r: int)
    requires a == TWO48 * q + r && 0 <= r < TWO48
    ensures a % TWO48 == r
  {
  }

  lemma ModDiff(p: nat, q: nat)
    ensures (p % VPAGES - q % VPAGES) % VPAGES == (p - q) % VPAGES
  {
    var h := p / VPAGES - q / VPAGES;
    assert p - q == h * VPAGES + (p % VPAGES - q % VPAGES);
  }

  /** Page-wise agreement with the specification is byte-wise agreement. */
  lemma PagesGiveBytes(before: Memory, after: Memory, root: int, va: nat, pa: nat, k: nat, want: Rights, x: nat)
    requires va % PAGESIZE == 0
    requires want.present ==> pa % PAGESIZE == 0 && pa + PAGESIZE * k <= MEMSIZE_PHYSICAL
    requires Translate(after, root, Vpn(x)) == RemappedPage(before, root, Vpn(va), pa, k, want, Vpn(x))
    ensures Lookup(after, root, x) == Remapped(before, root, va, pa, PAGESIZE * k, want, x)
  {
    OffsetByPage(x, va);
    var j := (Vpn(x) - Vpn(va)) % VPAGES;
    if j < k && want.present {
      assert (pa + Offset(x, va)) / PAGESIZE == (pa + PAGESIZE * j) / PAGESIZE;
      assert ToInt32((pa + PAGESIZE * j) / PAGESIZE) == (pa + PAGESIZE * j) / PAGESIZE;
    }
  }

  /** One more page: only the page `k` places after `v` is affected. */
  lemma NextPage(before: Memory, root: int, v: nat, pa: nat, k: nat, want: Rights, w: nat, u: nat)
    requires v < VPAGES && u < VPAGES && w == (v + k) % VPAGES
    requires want.present ==> k < VPAGES
    ensures u != w ==> RemappedPage(before, root, v, pa, k + 1, want, u) == RemappedPage(before, root, v, pa, k, want, u)
    ensures RemappedPage(before, root, v, pa, k + 1, want, w) ==
              (if want.present then Some(Frame(pa + PAGESIZE * k, want)) else None)
  {
    if k < VPAGES {
      var j := (u - v) % VPAGES;
      assert j == if u >= v then u - v else u - v + VPAGES;
      assert w == if v + k < VPAGES then v + k else v + k - VPAGES;
      assert (w - v) % VPAGES == k by {
        if v + k >= VPAGES {
          assert w - v == k - VPAGES;
        }
      }
    }
  }

  lemma VpnAdvance(va: nat, k: nat)
    requires va % PAGESIZE == 0
    ensures Vpn(va + PAGESIZE * k) == (Vpn(va) + k) % VPAGES
  {
    var p := va / PAGESIZE;
    assert (va + PAGESIZE * k) / PAGESIZE == p + k;
    ModAdd(p, k);
  }

  lemma ModAdd(p: nat, k: nat)
    ensures (p + k) % VPAGES == (p % VPAGES + k) % VPAGES
  {
    assert p + k == p / VPAGES * VPAGES + (p % VPAGES + k);
  }

  /** Once an entry on the path is missing, so is every table below it. */
  lemma {:induction false} WalkStops(mem: Memory, root: int, v: nat, level: nat)
    requires level <= 3 && Walk(mem, root, v, level).None?
    ensures Walk(mem, root, v, 3).None?
    decreases 3 - level
  {
    if level < 3 {
      WalkStops(mem, root, v, level + 1);
    }
  }

  /** `PathRights` has the present bit exactly when the walk succeeds. */
  lemma {:induction false} PathPresent(mem: Memory, root: int, v: nat, level: nat)
    requires level <= 3
    ensures PathRights(mem, root, v, level).present <==> Walk(mem, root, v, level).Some?
  {
    if level > 0 {
      PathPresent(mem, root, v, level - 1);
    }
  }

  lemma PackedEntry(pa: nat, perm: nat)
    requires pa % PAGESIZE == 0 && perm < 0x1000
    ensures PteAddr(pa + perm) == pa && RightsOf(pa + perm) == RightsOf(perm)
  {
    WordParts(pa / PAGESIZE, perm / 8, perm % 8);
    WordParts(0, perm / 8, perm % 8);
  }

  /** The index that `virtual_memory_map` caches names the level-4 table of a page. */
  lemma CachedIndex(a: nat)
    requires a % PAGESIZE == 0
    ensures Tag(Vpn(a), 3) == a / 0x20_0000 % 0x800_0000
  {
    DivCompose(a, 0x200);
    var p := a / PAGESIZE;
    var h, v := p / VPAGES, p % VPAGES;
    DivShift(h * 0x800_0000, v, 0x200);
  }

  /** On consecutive pages, equal truncated indices are equal indices. */
  lemma CacheHit(a: nat)
    requires a % PAGESIZE == 0 && ToInt32((a + PAGESIZE) / 0x20_0000) == ToInt32(a / 0x20_0000)
    ensures (a + PAGESIZE) / 0x20_0000 == a / 0x20_0000
  {
    var q := a / 0x20_0000;
    assert q <= (a + PAGESIZE) / 0x20_0000 <= q + 1;
    NextDiffers(q);
  }

  lemma NextDiffers(q: int)
    ensures ToInt32(q + 1) != ToInt32(q)
  {
    var h, l := q / 0x1_0000_0000, q % 0x1_0000_0000;
    ToInt32Parts(h, l);
    if l < 0xFFFF_FFFF {
      ToInt32Parts(h, l + 1);
    } else {
      ToInt32Parts(h + 1, 0);
    }
  }

  lemma SameTable(a: nat)
    requires a % PAGESIZE == 0 && ToInt32((a + PAGESIZE) / 0x20_0000) == ToInt32(a / 0x20_0000)
    ensures Tag(Vpn(a), 3) == Tag(Vpn(a + PAGESIZE), 3)
  {
    CacheHit(a);
    CachedIndex(a);
    CachedIndex(a + PAGESIZE);
  }

  /** Two memories hold the same mapping of every page. */
  ghost predicate SameView(before: Memory, after: Memory, root: int) {
    forall u: nat :: u < VPAGES ==> Translate(after, root, u) == Translate(before, root, u)
  }

  /** The first `k` pages of the request are mapped as specified and no other page has changed. */
  ghost predicate Served(before: Memory, after: Memory, root: int, va: nat, pa: nat, k: nat, want: Rights) {
    forall u: nat :: u < VPAGES ==> Translate(after, root, u) == RemappedPage(before, root, Vpn(va), pa, k, want, u)
  }

  lemma ServedNext(before: Memory, was: Memory, now: Memory, root: int, va: nat, pa: nat, k: nat, want: Rights, a: nat, p: nat)
    requires va % PAGESIZE == 0 && a == va + PAGESIZE * k && (want.present ==> k < VPAGES && p == pa + PAGESIZE * k)
    requires Served(before, was, root, va, pa, k, want)
    requires forall u: nat :: u < VPAGES && u != Vpn(a) ==> Translate(now, root, u) == Translate(was, root, u)
    requires Translate(now, root, Vpn(a)) == Leaf(p, want)
    ensures Served(before, now, root, va, pa, k + 1, want)
  {
    var w := Vpn(va + PAGESIZE * k);
    VpnAdvance(va, k);
    forall u: nat | u < VPAGES
      ensures Translate(now, root, u) == RemappedPage(before, root, Vpn(va), pa, k + 1, want, u)
    {
      NextPage(before, root, Vpn(va), pa, k, want, w, u);
    }
  }

  /** Every 64-bit address looks up as the request of `sz` bytes specifies. */
  ghost predicate BytesServed(before: Memory, after: Memory, root: int, va: nat, pa: nat, sz: nat, want: Rights) {
    forall x: nat :: x < TWO64 ==> Lookup(after, root, x) == Remapped(before, root, va, pa, sz, want, x)
  }

  lemma ServedBytes(before: Memory, after: Memory, root: int, va: nat, pa: nat, k: nat, want: Rights)
    requires va % PAGESIZE == 0
    requires want.present ==> pa % PAGESIZE == 0 && pa + PAGESIZE * k <= MEMSIZE_PHYSICAL
    requires Served(before, after, root, va, pa, k, want)
    ensures BytesServed(before, after, root, va, pa, PAGESIZE * k, want)
  {
    forall x: nat | x < TWO64
      ensures Lookup(after, root, x) == Remapped(before, root, va, pa, PAGESIZE * k, want, x)
    {
      PagesGiveBytes(before, after, root, va, pa, k, want, x);
    }
  }

  lemma NothingServed(mem: Memory, root: int, va: nat, pa: nat, want: Rights)
    ensures BytesServed(mem, mem, root, va, pa, 0, want)
  {
  }

  /** Where the loop starts to look tables up: at once, or after a clash at the next 2 MB boundary. */
  function ServedFrom(va: nat): (from: nat)
    ensures from >= va
  {
    if SentinelClash(va) then (va / 0x20_0000 + 1) * 0x20_0000 else va
  }

  /** How many pages are skipped before that. */
  function Skipped(va: nat): nat {
    (ServedFrom(va) - va) / PAGESIZE
  }

  function Minus(a: nat, b: nat): nat {
    if a >= b then a - b else 0
  }

  lemma SkippedPages(va: nat)
    requires va % PAGESIZE == 0
    ensures ServedFrom(va) == va + PAGESIZE * Skipped(va) && ServedFrom(va) % PAGESIZE == 0
    ensures Skipped(va) > 0 <==> SentinelClash(va)
  {
    var p, q := va / PAGESIZE, va / 0x20_0000;
    assert va == PAGESIZE * p;
    if SentinelClash(va) {
      BoundaryPages(p, q);
    }
  }

  lemma BoundaryPages(p: nat, q: nat)
    requires q == PAGESIZE * p / 0x20_0000
    ensures var d := (q + 1) * 0x20_0000 - PAGESIZE * p;
            d / PAGESIZE == 512 * (q + 1) - p > 0 && d == PAGESIZE * (d / PAGESIZE)
  {
    var n := 512 * (q + 1) - p;
    assert (q + 1) * 0x20_0000 - PAGESIZE * p == PAGESIZE * n;
  }

  /** The clashing index changes exactly at that boundary. */
  lemma SkipEnds(va: nat, k: nat, skipped: nat)
    requires SentinelClash(va) && va % PAGESIZE == 0 && k <= skipped == Skipped(va)
    ensures ToInt32((va + PAGESIZE * k) / 0x20_0000) == -1 <==> k < skipped
  {
    SkippedPages(va);
    var q := va / 0x20_0000;
    assert (va + PAGESIZE * k) / 0x20_0000 == if k < skipped then q else q + 1;
  }

  lemma OffsetShift(x: nat, va: nat, d: nat)
    ensures Offset(x, va) == (Offset(x, va + d) + d) % TWO48
  {
    var a := x - va;
    assert a == (a - d) / TWO48 * TWO48 + ((a - d) % TWO48 + d);
    ModPeriod((a - d) / TWO48, (a - d) % TWO48 + d);
  }

  lemma ModPeriod(q: int, r: int)
    ensures (q * TWO48 + r) % TWO48 == r % TWO48
  {
  }

  /** Unmapping after a clash does what was asked exactly when the bytes it skipped were unmapped before. */
  lemma ClashHonoured(before: Memory, after: Memory, root: int, va: nat, pa: nat, sz: nat, want: Rights)
    requires SentinelClash(va) && !want.present
    requires BytesServed(before, after, root, ServedFrom(va), pa, Minus(sz, ServedFrom(va) - va), want)
    ensures BytesServed(before, after, root, va, pa, sz, want) <==>
              forall x: nat :: x < TWO64 && Offset(x, va) < sz && Offset(x, ServedFrom(va)) >= Minus(sz, ServedFrom(va) - va) ==>
                Lookup(before, root, x) == UNMAPPED
  {
    var from := ServedFrom(va);
    var rest := Minus(sz, from - va);
    forall x: nat | x < TWO64
      ensures Lookup(after, root, x) == if Offset(x, from) >= rest then Lookup(before, root, x) else UNMAPPED
      ensures Offset(x, from) < rest ==> Offset(x, va) < sz
    {
      assert Lookup(after, root, x) == Remapped(before, root, from, pa, rest, want, x);
      OffsetShift(x, va, from - va);
    }
    if BytesServed(before, after, root, va, pa, sz, want) {
      forall x: nat | x < TWO64 && Offset(x, va) < sz && Offset(x, from) >= rest
        ensures Lookup(before, root, x) == UNMAPPED
      {
        assert Lookup(after, root, x) == Remapped(before, root, va, pa, sz, want, x);
      }
    }
  }

  /** The tables above level 4 hold the same entries. */
  ghost predicate UpperSame(before: Memory, after: Memory, shape: map<int, Label>) {
    forall t, i :: t in shape && shape[t].level < 3 ==> Load(after, t, i) == Load(before, t, i)
  }

  /** Where the five tables of `virtual_memory_init` stand. */
  function KernelShape(base: int): map<int, Label> {
    map[base := Label(0, 0), base + PAGESIZE := Label(1, 0), base + 2 * PAGESIZE := Label(2, 0),
        base + 3 * PAGESIZE := Label(3, 0), base + 4 * PAGESIZE := Label(3, 1)]
  }

  /** The entry at `index` of a table above level 4, as `virtual_memory_init` writes it. */
  function KernelEntry(base: int, t: int, index: int): int {
    if t == base && index == 0 then base + PAGESIZE + PTE_PWU
    else if t == base + PAGESIZE && index == 0 then base + 2 * PAGESIZE + PTE_PWU
    else if t == base + 2 * PAGESIZE && index == 0 then base + 3 * PAGESIZE + PTE_PWU
    else if t == base + 2 * PAGESIZE && index == 1 then base + 4 * PAGESIZE + PTE_PWU
    else 0
  }

  ghost predicate KernelUpper(mem: Memory, base: int) {
    forall t, i :: t in {base, base + PAGESIZE, base + 2 * PAGESIZE} ==> Load(mem, t, i) == KernelEntry(base, t, i)
  }

  /** The identity mapping of physical memory, open to everyone; everything else unmapped. */
  function Identity(x: nat): VaMapping {
    var a := x % TWO48;
    if a < MEMSIZE_PHYSICAL then VaMapping(a / PAGESIZE, a, ALL_RIGHTS) else UNMAPPED
  }

  lemma KernelUpperIsTree(mem: Memory, base: nat)
    requires base % PAGESIZE == 0 && base + 5 * PAGESIZE <= MEMSIZE_PHYSICAL && KernelUpper(mem, base)
    ensures Tree(mem, base, KernelShape(base)) && OpenTables(mem, KernelShape(base))
  {
    var shape := KernelShape(base);
    PwuEntry(base + PAGESIZE);
    PwuEntry(base + 2 * PAGESIZE);
    PwuEntry(base + 3 * PAGESIZE);
    PwuEntry(base + 4 * PAGESIZE);
    forall t, i | t in shape && shape[t].level < 3 && 0 <= i < 512
      ensures ChildLabelled(mem, shape, t, i)
      ensures RightsOf(Load(mem, t, i)).present ==> RightsOf(Load(mem, t, i)) == ALL_RIGHTS
    {
      assert Load(mem, t, i) == KernelEntry(base, t, i);
    }
  }

  /** Which pages have a level-4 table: those of the first 4 MB. */
  lemma KernelWalk(mem: Memory, base: nat, v: nat)
    requires base % PAGESIZE == 0 && KernelUpper(mem, base) && v < VPAGES
    ensures v < 0x200 ==> Walk(mem, base, v, 3) == Some(base + 3 * PAGESIZE)
    ensures 0x200 <= v < 0x400 ==> Walk(mem, base, v, 3) == Some(base + 4 * PAGESIZE)
    ensures 0x400 <= v ==> Walk(mem, base, v, 3).None?
  {
    PwuEntry(base + PAGESIZE);
    PwuEntry(base + 2 * PAGESIZE);
    PwuEntry(base + 3 * PAGESIZE);
    PwuEntry(base + 4 * PAGESIZE);
    assert Load(mem, base, Index(v, 0)) == KernelEntry(base, base, Index(v, 0));
    if Index(v, 0) != 0 {
      WalkStops(mem, base, v, 1);
    } else {
      assert Walk(mem, base, v, 0) == Some(base);
      assert Walk(mem, base, v, 1) == Some(base + PAGESIZE);
      if Index(v, 1) != 0 {
        assert Load(mem, base + PAGESIZE, Index(v, 1)) == 0;
        WalkStops(mem, base, v, 2);
      } else {
        assert Load(mem, base + PAGESIZE, 0) == base + 2 * PAGESIZE + PTE_PWU;
        assert Walk(mem, base, v, 2) == Some(base + 2 * PAGESIZE);
        assert Load(mem, base + 2 * PAGESIZE, Index(v, 2)) == KernelEntry(base, base + 2 * PAGESIZE, Index(v, 2));
      }
    }
  }

  lemma UpperSameKeeps(before: Memory, after: Memory, base: nat)
    requires KernelUpper(before, base) && UpperSame(before, after, KernelShape(base))
    ensures KernelUpper(after, base)
  {
  }

  ghost predicate EmptyLeaves(mem: Memory, base: int) {
    forall t, i :: t in {base + 3 * PAGESIZE, base + 4 * PAGESIZE} ==> Load(mem, t, i) == 0
  }

  lemma EmptyTables(mem: Memory, base: nat, v: nat)
    requires base % PAGESIZE == 0 && KernelUpper(mem, base) && v < VPAGES
    requires EmptyLeaves(mem, base)
    ensures Translate(mem, base, v).None?
  {
    KernelWalk(mem, base, v);
  }

  lemma IdentityServed(before: Memory, after: Memory, base: nat)
    requires base % PAGESIZE == 0 && KernelUpper(before, base) && EmptyLeaves(before, base)
    requires BytesServed(before, after, base, 0, 0, MEMSIZE_PHYSICAL, RightsOf(PTE_PWU))
    ensures forall x: nat :: x < TWO64 ==> Lookup(after, base, x) == Identity(x)
  {
    forall x: nat | x < TWO64
      ensures Lookup(after, base, x) == Identity(x)
    {
      EmptyTables(before, base, Vpn(x));
      assert Lookup(after, base, x) == Remapped(before, base, 0, 0, MEMSIZE_PHYSICAL, RightsOf(PTE_PWU), x);
    }
  }

  lemma StillAligned(a: nat, k: nat)
    requires a % PAGESIZE == 0
    ensures (a + PAGESIZE * k) % PAGESIZE == 0
  {
  }

  class Machine {
    /** Physical memory, as far as it holds page tables. */
    var mem: Memory
    /** The answers the allocator gives, in order; 0, or the end of the list, is NULL. */
    const answers: seq<nat>
    /** How many times the allocator has been called. */
    var taken: nat
    /** The label of every table of the page table in use. */
    ghost var shape: map<int, Label>

    constructor (answers: seq<nat>)
      ensures this.answers == answers && mem == map[] && taken == 0 && shape == map[]
    {
      this.answers := answers;
      mem, taken, shape := map[], 0, map[];
    }

    function Answer(call: nat): nat {
      if call < |answers| then answers[call] else 0
    }

    /** Fresh allocator: from now on it hands out no page twice, and no page that is already a table. */
    ghost predicate FreshPool()
      reads this
    {
      forall c: nat :: c >= taken && Answer(c) != 0 ==>
        Answer(c) !in shape && forall d: nat :: d > c ==> Answer(d) != Answer(c)
    }

    ghost predicate Valid(root: int)
      reads this
    {
      Tree(mem, root, shape) && FreshPool()
    }

    /** No entry above level 4 withholds a right, so no request is refused for its permissions. */
    ghost predicate Open()
      reads this
    {
      OpenTables(mem, shape)
    }

    /** Whatever the allocator hands out is a page of physical memory. */
    ghost predicate GoodPages() {
      forall c: nat :: Answer(c) % PAGESIZE == 0 && Answer(c) < MEMSIZE_PHYSICAL
    }

    /** `virtual_memory_lookup`. */
    method VirtualMemoryLookup(root: int, va: nat) returns (vam: VaMapping)
      ensures vam == Lookup(mem, root, va)
    {
      var pt, pe, perms := root, 0, ALL_RIGHTS;
      var i := 0;
      ghost var v := Vpn(va);
      while i <= 3 && perms.present
        invariant 0 <= i <= 4
        invariant i <= 3 && perms.present ==> Walk(mem, root, v, i) == Some(pt) && PathRights(mem, root, v, i) == perms
        invariant i <= 3 && !perms.present ==> Walk(mem, root, v, 3).None?
        invariant i == 4 ==> Walk(mem, root, v, 3).Some?
        invariant i == 4 ==> pe == Load(mem, Walk(mem, root, v, 3).value, Index(v, 3))
        invariant i == 4 ==> perms == PathRights(mem, root, v, 3).And(RightsOf(pe))
        invariant i > 0 && perms.present ==> RightsOf(pe).present
        decreases 4 - i
      {
        PageIndexIsIndex(va, i);
        pe := Load(mem, pt, PageIndex(va, i));
        perms := perms.And(RightsOf(pe));
        pt := PteAddr(pe);
        i := i + 1;
        if i <= 3 {
          PathPresent(mem, root, v, i);
          if !perms.present {
            WalkStops(mem, root, v, i);
          }
        }
      }
      PathPresent(mem, root, v, 3);
      vam := UNMAPPED;
      if perms.present {
        vam := VaMapping(ToInt32(pe / PAGESIZE), PteAddr(pe) + va % PAGESIZE, perms);
      }
    }

    /** The two stores that attach the page `page`, fresh from the allocator, at entry `s`. */
    method AttachTable(root: int, ghost v: nat, ghost level: nat, s: Slot, page: nat)
      requires Valid(root) && v < VPAGES && level <= 2
      requires Walk(mem, root, v, level) == Some(s.table) && s.index == Index(v, level)
      requires Walk(mem, root, v, level + 1).None?
      requires page !in shape && page < MEMSIZE_PHYSICAL && page % PAGESIZE == 0 && page != 0
      requires forall c: nat :: c >= taken ==> Answer(c) != page
      modifies this`mem, this`shape
      ensures Valid(root) && (old(Open()) ==> Open())
      ensures SameView(old(mem), mem, root)
      ensures Walk(mem, root, v, level + 1) == Some(page)
      ensures PathRights(mem, root, v, level + 1) == PathRights(old(mem), root, v, level)
      ensures forall t, i :: Load(mem, t, i) == if t == page then 0 else if Slot(t, i) == s then page + 7 else Load(old(mem), t, i)
    {
      forall t, i
        ensures Load(Hang(mem, s, page), t, i) == if t == page then 0 else if Slot(t, i) == s then page + 7 else Load(mem, t, i)
      {
        HangLoad(mem, s, page, t, i);
      }
      HangTree(mem, root, shape, v, level, page, s);
      HangReaches(mem, root, shape, v, level, page, s);
      forall u: nat | u < VPAGES
        ensures Translate(Hang(mem, s, page), root, u) == Translate(mem, root, u)
      {
        HangTranslates(mem, root, shape, v, level, page, s, u);
      }
      if Open() {
        HangOpen(mem, shape, s, page, Label(level + 1, Tag(v, level + 1)));
      }
      mem := mem[s := PteAddr(page) + PTE_PWU];
      mem := ClearPage(mem, page);
      shape := shape[page := Label(level + 1, Tag(v, level + 1))];
    }

    /** One call of the allocator; 0 is NULL. */
    method Allocate() returns (page: nat)
      requires FreshPool()
      modifies this`taken
      ensures FreshPool() && taken == old(taken) + 1 && page == Answer(old(taken))
      ensures page != 0 ==> page !in shape && forall c: nat :: c >= taken ==> Answer(c) != page
    {
      page := Answer(taken);
      taken := taken + 1;
    }

    /** One round of the loop of `lookup_l4pagetable`: from the table `pt` at `level` to the next. */
    method NextTable(root: int, va: nat, level: nat, pt: int, want: Rights, hasAllocator: bool)
      returns (panic: bool, next: Option<int>)
      requires Valid(root) && level <= 2 && Walk(mem, root, Vpn(va), level) == Some(pt)
      requires PathRights(mem, root, Vpn(va), level).Covers(want)
      modifies this
      ensures old(Open()) && (hasAllocator ==> GoodPages()) ==> !panic && Open()
      ensures taken >= old(taken)
      ensures !want.present || !hasAllocator ==> mem == old(mem) && taken == old(taken) && shape == old(shape)
      ensures !want.write && !want.user && (!want.present || !hasAllocator) ==> !panic
      ensures !panic ==> Valid(root) && SameView(old(mem), mem, root)
      ensures !panic ==> next == Walk(mem, root, Vpn(va), level + 1)
      ensures !panic && next.Some? ==> PathRights(mem, root, Vpn(va), level + 1).Covers(want)
      ensures !panic && next.None? && want.present && hasAllocator ==> taken > old(taken) && Answer(taken - 1) == 0
    {
      ghost var v := Vpn(va);
      PageIndexIsIndex(va, level);
      panic, next := false, None;
      var s := Slot(pt, PageIndex(va, level));
      var pe := Load(mem, s.table, s.index);
      if RightsOf(pe).present {
        WalkIsLabelled(mem, root, shape, v, level + 1);
        WalkIsLabelled(mem, root, shape, v, level);
      } else {
        if !want.present || !hasAllocator {
          return;
        }
        var page := Allocate();
        if page == 0 {
          return;
        }
        if page % PAGESIZE != 0 || page >= MEMSIZE_PHYSICAL {
          panic := true;
          return;
        }
        AttachTable(root, v, level, s, page);
        return false, Some(page);
      }
      if PteAddr(pe) >= MEMSIZE_PHYSICAL
         || (want.write && !RightsOf(pe).write) || (want.user && !RightsOf(pe).user) {
        panic := true;
        return;
      }
      next := Some(PteAddr(pe));
    }

    /** The walk for page `v` stands at table `pt` of `level`, and nothing mapped has changed. */
    ghost predicate Reached(before: Memory, calls: nat, root: int, v: nat, level: nat, pt: int, want: Rights, mayAlloc: bool)
      requires level <= 3
      reads this
    {
      && Valid(root) && SameView(before, mem, root) && taken >= calls
      && Walk(mem, root, v, level) == Some(pt) && PathRights(mem, root, v, level).Covers(want)
      && (!mayAlloc ==> mem == before && taken == calls)
    }

    /** The level-4 table of page `v` is missing and could not be made, and nothing mapped has changed. */
    ghost predicate Missing(before: Memory, calls: nat, root: int, v: nat, mayAlloc: bool)
      reads this
    {
      && Valid(root) && SameView(before, mem, root) && taken >= calls
      && Walk(mem, root, v, 3).None?
      && (if mayAlloc then (taken > calls && Answer(taken - 1) == 0) else mem == before && taken == calls)
    }

    method Descend(ghost before: Memory, ghost calls: nat, root: int, va: nat, level: nat, pt: int,
                   want: Rights, hasAllocator: bool) returns (panic: bool, next: Option<int>)
      requires level <= 2 && Reached(before, calls, root, Vpn(va), level, pt, want, want.present && hasAllocator)
      modifies this
      ensures old(Open()) && (hasAllocator ==> GoodPages()) ==> !panic && Open()
      ensures taken >= calls
      ensures !hasAllocator ==> shape == old(shape)
      ensures !(want.present && hasAllocator) ==> mem == before && taken == calls && (!want.write && !want.user ==> !panic)
      ensures !panic && next.Some? ==>
                Reached(before, calls, root, Vpn(va), level + 1, next.value, want, want.present && hasAllocator)
      ensures !panic && next.None? ==> Missing(before, calls, root, Vpn(va), want.present && hasAllocator)
    {
      panic, next := NextTable(root, va, level, pt, want, hasAllocator);
      if !panic && next.None? {
        WalkStops(mem, root, Vpn(va), level + 1);
      }
    }

    /** `lookup_l4pagetable`: find, and if allowed create, the level-4 table of `va`. */
    method LookupL4(root: int, va: nat, want: Rights, hasAllocator: bool) returns (panic: bool, l4: Option<int>)
      requires Valid(root)
      modifies this
      ensures old(Open()) && (hasAllocator ==> GoodPages()) ==> !panic && Open()
      ensures taken >= old(taken)
      ensures !hasAllocator ==> shape == old(shape)
      ensures !(want.present && hasAllocator) ==> mem == old(mem) && taken == old(taken) && (!want.write && !want.user ==> !panic)
      ensures !panic && l4.Some? ==>
                Reached(old(mem), old(taken), root, Vpn(va), 3, l4.value, want, want.present && hasAllocator)
      ensures !panic && l4.None? ==> Missing(old(mem), old(taken), root, Vpn(va), want.present && hasAllocator)
    {
      var pt := root;
      panic, l4 := false, None;
      for i := 0 to 3
        invariant !panic && (!hasAllocator ==> shape == old(shape))
        invariant old(Open()) && (hasAllocator ==> GoodPages()) ==> Open()
        invariant Reached(old(mem), old(taken), root, Vpn(va), i, pt, want, want.present && hasAllocator)
      {
        var next;
        panic, next := Descend(old(mem), old(taken), root, va, i, pt, want, hasAllocator);
        if panic || next.None? {
          return;
        }
        pt := next.value;
      }
      l4 := Some(pt);
    }

    /** The store of one leaf entry in the loop of `virtual_memory_map`. */
    method StoreLeaf(root: int, va: nat, l4: int, e: int)
      requires Valid(root) && Walk(mem, root, Vpn(va), 3) == Some(l4)
      modifies this`mem
      ensures Valid(root) && UpperSame(old(mem), mem, shape) && mem == old(mem)[Slot(l4, PageIndex(va, 3)) := e]
      ensures forall u: nat :: u < VPAGES ==> Walk(mem, root, u, 3) == Walk(old(mem), root, u, 3)
      ensures forall u: nat :: u < VPAGES ==> PathRights(mem, root, u, 3) == PathRights(old(mem), root, u, 3)
      ensures forall u: nat :: u < VPAGES && u != Vpn(va) ==> Translate(mem, root, u) == Translate(old(mem), root, u)
      ensures Translate(mem, root, Vpn(va)) ==
                if RightsOf(e).present
                then Some(Frame(PteAddr(e), PathRights(old(mem), root, Vpn(va), 3).And(RightsOf(e)))) else None
    {
      LeafWrite(mem, root, shape, Vpn(va), e);
      PageIndexIsIndex(va, 3);
      WalkIsLabelled(mem, root, shape, Vpn(va), 3);
      mem := mem[Slot(l4, PageIndex(va, 3)) := e];
    }

    /** The body of the loop of `virtual_memory_map` once the level-4 table is known. */
    method MapPage(root: int, va: nat, pa: nat, perm: int, want: Rights, l4: Option<int>) returns (r: Outcome)
      requires Valid(root) && 0 <= perm < 0x1000 && want == RightsOf(perm)
      requires l4.Some? ==> l4 == Walk(mem, root, Vpn(va), 3) && PathRights(mem, root, Vpn(va), 3).Covers(want)
      requires want.present ==> pa % PAGESIZE == 0
      modifies this`mem
      ensures Valid(root) && UpperSame(old(mem), mem, shape)
      ensures r == if want.present && l4.None? then Fail else Ok
      ensures l4.None? ==> mem == old(mem)
      ensures l4.Some? ==> mem == old(mem)[Slot(l4.value, PageIndex(va, 3)) := if want.present then pa + perm else perm]
      ensures forall u: nat :: u < VPAGES ==> Walk(mem, root, u, 3) == Walk(old(mem), root, u, 3)
      ensures forall u: nat :: u < VPAGES ==> PathRights(mem, root, u, 3) == PathRights(old(mem), root, u, 3)
      ensures forall u: nat :: u < VPAGES && u != Vpn(va) ==> Translate(mem, root, u) == Translate(old(mem), root, u)
      ensures l4.Some? ==> Translate(mem, root, Vpn(va)) == Leaf(pa, want)
    {
      r := Ok;
      if want.present && l4.Some? {
        PackedEntry(pa, perm);
        PathPresent(mem, root, Vpn(va), 3);
        StoreLeaf(root, va, l4.value, pa + perm);
      } else if l4.Some? {
        StoreLeaf(root, va, l4.value, perm);
      } else if want.present {
        r := Fail;
      }
    }

    /** What is known of the cached table after the loop served the page at `a`. */
    ghost predicate Cached(root: int, a: nat, want: Rights, last: int, l4: Option<int>)
      reads this
    {
      && last == ToInt32(a / 0x20_0000)
      && l4 == Walk(mem, root, Vpn(a), 3)
      && (l4.Some? ==> PathRights(mem, root, Vpn(a), 3).Covers(want))
    }

    /** A cache hit on the next page: the cached table is the one a walk would find. */
    lemma CacheIsRight(root: int, a: nat, want: Rights, last: int, l4: Option<int>)
      requires a % PAGESIZE == 0 && Cached(root, a, want, last, l4)
      requires ToInt32((a + PAGESIZE) / 0x20_0000) == last
      ensures Cached(root, a + PAGESIZE, want, last, l4)
    {
      SameTable(a);
      WalkByTag(mem, root, Vpn(a), Vpn(a + PAGESIZE), 3);
    }

    /** One round of the loop of `virtual_memory_map`: the page at `va`, through the cache. */
    method MapStep(root: int, va: nat, pa: nat, perm: int, want: Rights, hasAllocator: bool, last: int, l4: Option<int>)
      returns (r: Outcome, last': int, l4': Option<int>)
      requires Valid(root) && 0 <= perm < 0x1000 && want == RightsOf(perm)
      requires want.present ==> pa % PAGESIZE == 0
      requires last == ToInt32(va / 0x20_0000) ==> l4.None? || Cached(root, va, want, last, l4)
      modifies this
      ensures old(Open()) && (hasAllocator ==> GoodPages()) ==> r != Panic && Open()
      ensures !hasAllocator ==> shape == old(shape) && UpperSame(old(mem), mem, shape)
      ensures taken >= old(taken) && last' == ToInt32(va / 0x20_0000)
      ensures !want.present ==> taken == old(taken) && r != Fail
      ensures want == NO_RIGHTS ==> r != Panic
      ensures r != Panic ==> Valid(root)
      ensures r == Fail ==> SameView(old(mem), mem, root) && want.present && l4'.None?
      ensures r == Fail && last != last' && hasAllocator ==> taken > old(taken) && Answer(taken - 1) == 0
      ensures r == Ok ==>
                forall u: nat :: u < VPAGES && u != Vpn(va) ==> Translate(mem, root, u) == Translate(old(mem), root, u)
      ensures last == last' ==> l4' == l4
      ensures last == last' && l4.None? ==>
                mem == old(mem) && r == if want.present then Fail else Ok
      ensures r != Panic && (last != last' || old(Cached(root, va, want, last, l4))) ==>
                Cached(root, va, want, last', l4')
      ensures r == Ok && (last != last' || old(Cached(root, va, want, last, l4))) ==>
                Translate(mem, root, Vpn(va)) == Leaf(pa, want)
    {
      last', l4' := ToInt32(va / 0x20_0000), l4;
      if last' != last {
        var panic;
        panic, l4' := LookupL4(root, va, want, hasAllocator);
        if panic {
          return Panic, last', l4';
        }
      }
      r := MapPage(root, va, pa, perm, want, l4');
    }

    /** The loop invariant of `virtual_memory_map` after `k` pages, the last of them at `prev`: `skipped` pages
        have an index that equals the sentinel, `skip` says that only such pages have been seen, and after
        them the request is served from `from` on. */
    ghost predicate Progress(before: Memory, root: int, from: nat, pa: nat, k: nat, want: Rights,
                             skipped: nat, skip: bool, prev: nat, last: int, l4: Option<int>)
      reads this
    {
      && (k == 0 ==> last == -1 && l4 == None && (skip <==> skipped > 0))
      && (skip ==> k <= skipped && last == -1 && l4 == None && mem == before)
      && (k > 0 && want.present ==> skipped == 0 && l4.Some?)
      && (k > 0 && !skip ==> Cached(root, prev, want, last, l4))
      && (!skip ==> k >= skipped && Served(before, mem, root, from, pa, k - skipped, want))
    }

    /** `MapStep` inside the loop: page number `k` of the request, at address `va`. */
    method MapRound(ghost before: Memory, ghost calls: nat, root: int, ghost va0: nat, ghost pa0: nat, ghost k: nat,
                    ghost from: nat, ghost skipped: nat, ghost skip: bool, ghost prev: nat,
                    va: nat, pa: nat, perm: int, want: Rights, hasAllocator: bool, last: int, l4: Option<int>)
      returns (r: Outcome, last': int, l4': Option<int>, ghost skip': bool)
      requires Valid(root) && 0 <= perm < 0x1000 && want == RightsOf(perm) && taken >= calls
      requires va0 % PAGESIZE == 0 && va == va0 + PAGESIZE * k
      requires from % PAGESIZE == 0 && from == va0 + PAGESIZE * skipped
      requires k > 0 ==> va == prev + PAGESIZE
      requires if skip then ToInt32(va / 0x20_0000) == -1 <==> k < skipped else k == 0 ==> ToInt32(va / 0x20_0000) != -1
      requires want.present ==> pa0 % PAGESIZE == 0 && pa == pa0 + PAGESIZE * k && k < VPAGES
      requires Progress(before, root, from, pa0, k, want, skipped, skip, prev, last, l4)
      modifies this
      ensures old(Open()) && (hasAllocator ==> GoodPages()) ==> r != Panic && Open()
      ensures !hasAllocator ==> shape == old(shape) && UpperSame(old(mem), mem, shape)
      ensures taken >= calls && (!want.present ==> taken == old(taken) && r != Fail)
      ensures want == NO_RIGHTS ==> r != Panic
      ensures skip && k == 0 && want.present ==> r == Fail
      ensures r == Ok ==> Valid(root) && Progress(before, root, from, pa0, k + 1, want, skipped, skip', va, last', l4')
      ensures r == Ok && skip' ==> skip
      ensures r == Fail ==> Valid(root) && want.present
      ensures r == Fail && skipped > 0 ==> k == 0 && mem == before
      ensures r == Fail && skipped == 0 ==>
                && Served(before, mem, root, va0, pa0, k, want) && Walk(mem, root, Vpn(va), 3).None?
                && (hasAllocator ==> (taken > calls && Answer(taken - 1) == 0))
    {
      ghost var was := mem;
      skip' := skip && k < skipped;
      if want.present {
        StillAligned(pa0, k);
      }
      if k > 0 && !skip && last == ToInt32(va / 0x20_0000) {
        StillAligned(va0, k - 1);
        CacheIsRight(root, prev, want, last, l4);
      }
      r, last', l4' := MapStep(root, va, pa, perm, want, hasAllocator, last, l4);
      if r == Ok && !skip' {
        ServedNext(before, was, mem, root, from, pa0, k - skipped, want, va, pa);
      }
    }

    /** The loop of `virtual_memory_map`, after its assertions; `k` pages are done, and it stops at `at`. */
    method MapLoop(root: int, va0: nat, pa0: nat, sz0: nat, ghost n: nat, perm: int, want: Rights, hasAllocator: bool)
      returns (r: Outcome, ghost k: nat, ghost at: nat)
      requires Valid(root) && 0 <= perm < 0x1000 && want == RightsOf(perm)
      requires va0 % PAGESIZE == 0 && sz0 == PAGESIZE * n
      requires want.present ==> pa0 % PAGESIZE == 0 && pa0 + sz0 <= MEMSIZE_PHYSICAL
      modifies this
      ensures old(Open()) && (hasAllocator ==> GoodPages()) ==> r != Panic && Open()
      ensures !hasAllocator ==> shape == old(shape) && UpperSame(old(mem), mem, shape)
      ensures r != Panic ==> Valid(root) && taken >= old(taken)
      ensures r == Ok ==> PAGESIZE * k == sz0
      ensures r == Fail ==> at == va0 + PAGESIZE * k
      ensures r == Ok ==> Served(old(mem), mem, root, ServedFrom(va0), pa0, Minus(k, Skipped(va0)), want)
      ensures r == Fail ==> PAGESIZE * k < sz0 && want.present
      ensures r == Fail && SentinelClash(va0) ==> k == 0 && mem == old(mem)
      ensures r == Fail && !SentinelClash(va0) ==>
                && Served(old(mem), mem, root, va0, pa0, k, want)
                && Walk(mem, root, Vpn(at), 3).None? && (hasAllocator ==> taken > old(taken) && Answer(taken - 1) == 0)
      ensures !want.present ==> taken == old(taken) && r != Fail
      ensures want == NO_RIGHTS ==> r == Ok
      ensures SentinelClash(va0) && sz0 > 0 && want.present ==> r == Fail
    {
      var va: nat, pa: nat, sz: nat := va0, pa0, sz0;
      var last, l4: Option<int> := -1, None;
      k, at := 0, va0;
      ghost var from, skipped := ServedFrom(va0), Skipped(va0);
      ghost var prev: nat, skip := 0, SentinelClash(va0);
      SkippedPages(va0);
      while sz != 0
        invariant k <= n && sz == PAGESIZE * (n - k)
        invariant va == va0 + PAGESIZE * k && pa == pa0 + PAGESIZE * k
        invariant k > 0 ==> prev == va0 + PAGESIZE * (k - 1)
        invariant skip ==> SentinelClash(va0)
        invariant !hasAllocator ==> shape == old(shape) && UpperSame(old(mem), mem, shape)
        invariant old(Open()) && (hasAllocator ==> GoodPages()) ==> Open()
        invariant Valid(root) && taken >= old(taken)
        invariant !want.present ==> taken == old(taken)
        invariant Progress(old(mem), root, from, pa0, k, want, skipped, skip, prev, last, l4)
        decreases sz
      {
        if skip {
          SkipEnds(va0, k, skipped);
        }
        r, last, l4, skip := MapRound(old(mem), old(taken), root, va0, pa0, k, from, skipped, skip, prev,
                                va, pa, perm, want, hasAllocator, last, l4);
        at := va;
        if r != Ok {
          return;
        }
        prev := va;
        // a 64-bit wrap can only happen after the last page, or on a `pa` that is ignored
        va, pa, sz := va + PAGESIZE, pa + PAGESIZE, sz - PAGESIZE;
        k := k + 1;
      }
      r := Ok;
    }

    /** `virtual_memory_map`. The ghost result `done` counts the bytes served before a failure. */
    method VirtualMemoryMap(root: int, va0: nat, pa0: nat, sz0: nat, perm: int, hasAllocator: bool)
      returns (r: Outcome, ghost done: nat)
      requires Valid(root) && va0 < TWO64 && pa0 < TWO64 && sz0 < TWO64
      modifies this
      ensures old(Open()) && (hasAllocator ==> GoodPages()) && ArgumentsMakeSense(root, va0, pa0, sz0, perm) ==> r != Panic && Open()
      ensures !hasAllocator ==> shape == old(shape) && UpperSame(old(mem), mem, shape)
      ensures !ArgumentsMakeSense(root, va0, pa0, sz0, perm) ==> r == Panic
      ensures r != Panic ==> Valid(root) && taken >= old(taken)
      // success: the finite-map specification, for every 64-bit address
      ensures r == Ok && !SentinelClash(va0) ==> BytesServed(old(mem), mem, root, va0, pa0, sz0, RightsOf(perm))
      // failure: exactly the first `done` bytes, and the table of the next page is missing
      ensures r == Fail ==> done < sz0 && done % PAGESIZE == 0 && RightsOf(perm).present
      ensures r == Fail ==> BytesServed(old(mem), mem, root, va0, pa0, done, RightsOf(perm))
      ensures r == Fail && !SentinelClash(va0) ==>
                Walk(mem, root, Vpn(va0 + done), 3).None? && (hasAllocator ==> taken > old(taken) && Answer(taken - 1) == 0)
      // unmapping never allocates and never fails
      ensures !RightsOf(perm).present ==> taken == old(taken) && r != Fail
      ensures perm == 0 && ArgumentsMakeSense(root, va0, pa0, sz0, perm) ==> r == Ok
      // the sentinel clash: a map is refused whatever the table holds, an unmap skips up to the next 2 MB boundary
      ensures SentinelClash(va0) && sz0 > 0 && RightsOf(perm).present && ArgumentsMakeSense(root, va0, pa0, sz0, perm) ==>
                r == Fail && mem == old(mem)
      ensures SentinelClash(va0) && r == Ok ==>
                BytesServed(old(mem), mem, root, ServedFrom(va0), pa0, Minus(sz0, ServedFrom(va0) - va0), RightsOf(perm))
    {
      done := 0;
      if !ArgumentsMakeSense(root, va0, pa0, sz0, perm) {
        return Panic, done;
      }
      ghost var k, at;
      r, k, at := MapLoop(root, va0, pa0, sz0, sz0 / PAGESIZE, perm, RightsOf(perm), hasAllocator);
      done := PAGESIZE * k;
      SkippedPages(va0);
      if r == Ok {
        ServedBytes(old(mem), mem, root, ServedFrom(va0), pa0, Minus(k, Skipped(va0)), RightsOf(perm));
      } else if r == Fail && !SentinelClash(va0) {
        ServedBytes(old(mem), mem, root, va0, pa0, k, RightsOf(perm));
      } else if r == Fail {
        NothingServed(mem, root, va0, pa0, RightsOf(perm));
      }
    }

    /** The stores of `virtual_memory_init`: clear the five tables at `base` and link them. */
    method LinkKernelTables(base: nat)
      requires base % PAGESIZE == 0
      modifies this`mem
      ensures KernelUpper(mem, base) && EmptyLeaves(mem, base)
    {
      mem := map s | s in mem && !(base <= s.table < base + 5 * PAGESIZE) :: mem[s];
      mem := mem[Slot(base, 0) := base + PAGESIZE + PTE_PWU];
      mem := mem[Slot(base + PAGESIZE, 0) := base + 2 * PAGESIZE + PTE_PWU];
      mem := mem[Slot(base + 2 * PAGESIZE, 0) := base + 3 * PAGESIZE + PTE_PWU];
      mem := mem[Slot(base + 2 * PAGESIZE, 1) := base + 4 * PAGESIZE + PTE_PWU];
    }

    /** `virtual_memory_init`: afterwards physical memory is identity-mapped and nothing else is. */
    method VirtualMemoryInit(base: nat)
      requires base % PAGESIZE == 0 && base + 5 * PAGESIZE <= MEMSIZE_PHYSICAL
      requires forall c: nat :: c >= taken && Answer(c) != 0 ==>
                 Answer(c) !in KernelShape(base) && forall d: nat :: d > c ==> Answer(d) != Answer(c)
      modifies this
      ensures Valid(base) && Open() && shape == KernelShape(base) && KernelUpper(mem, base)
      ensures forall x: nat :: x < TWO64 ==> Lookup(mem, base, x) == Identity(x)
    {
      LinkKernelTables(base);
      shape := KernelShape(base);
      KernelUpperIsTree(mem, base);
      ghost var empty, done := mem, 0;
      NoClashBelow48Bits(0);
      var r;
      r, done := VirtualMemoryMap(base, 0, 0, MEMSIZE_PHYSICAL, PTE_PWU, false);
      UpperSameKeeps(empty, mem, base);
      if r == Fail {
        KernelWalk(mem, base, Vpn(0 + done));
        assert false;
      }
      IdentityServed(empty, mem, base);
    }
  }
}
