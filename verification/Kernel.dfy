/** The WeensyOS kernel of modules/m3/kernel.c and its loader, modules/m3/k-loader.c:
    page ownership, process setup, traps, scheduling, and the kernel's own self-checks.
    Processes act on kernel state only through traps. */
module Kernel {
  import opened Basics
  import opened PageTable
  import opened VirtualMemory

  const NPROC := 16
  const NPAGES := 512
  const KERNEL_START_ADDR := 0x4_0000
  const KERNEL_STACK_TOP := 0x8_0000
  const PROC_START_ADDR := 0x10_0000
  const PROC_SIZE := 0x4_0000
  const IOPHYSMEM := 0xA_0000
  const EXTPHYSMEM := 0x10_0000

  const MEMSIZE_VIRTUAL := 0x30_0000
  const HZ := 100
  /** How many entries `memstate_colors` has: one for each owner from PO_KERNEL on. */
  const COLORS := 18

  const PO_FREE := 0
  const PO_RESERVED := -1
  const PO_KERNEL := -2

  const INT_PAGEFAULT := 14
  const INT_TIMER := 32
  const INT_SYS_PANIC := 48
  const INT_SYS_GETPID := 49
  const INT_SYS_YIELD := 50
  const INT_SYS_PAGE_ALLOC := 51

  datatype PageInfo = PageInfo(owner: int, refcount: int)

  datatype ProcState = Free | Runnable | Blocked | Broken

  /** The registers the kernel looks at. */
  datatype Registers = Registers(rax: int, rdi: nat, rip: nat, rsp: nat, intno: int, err: nat)

  datatype Proc = Proc(pid: int, regs: Registers, state: ProcState, pagetable: nat)

  /** What the linker decides: where the kernel's data, end, page tables and checked functions are. */
  datatype Layout = Layout(startData: nat, end: nat, tables: nat, intHandler: nat, mapFunction: nat)

  predicate GoodLayout(l: Layout) {
    && KERNEL_START_ADDR <= l.tables && l.tables % PAGESIZE == 0 && l.tables + 5 * PAGESIZE <= l.end
    && l.end <= KERNEL_STACK_TOP - PAGESIZE
    && l.intHandler < MEMSIZE_PHYSICAL && l.mapFunction < MEMSIZE_PHYSICAL
  }

  /** `physical_memory_isreserved`. */
  predicate IsReserved(pa: nat) {
    pa == 0 || IOPHYSMEM <= pa < EXTPHYSMEM
  }

  /** The owner `pageinfo_init` gives to the page at `addr`. */
  function InitialOwner(l: Layout, addr: nat): int {
    if IsReserved(addr) then PO_RESERVED
    else if (KERNEL_START_ADDR <= addr < l.end) || addr == KERNEL_STACK_TOP - PAGESIZE then PO_KERNEL
    else PO_FREE
  }

  function InitialInfo(l: Layout, pn: nat): PageInfo {
    var owner := InitialOwner(l, pn * PAGESIZE);
    PageInfo(owner, if owner != PO_FREE then 1 else 0)
  }

  function Pn(addr: int): int {
    addr / PAGESIZE
  }

  /** How many of the first `n` processes use the kernel page table; `pending` is one being set up. */
  function Users(procs: seq<Proc>, pending: int, n: nat): nat
    requires n <= |procs|
  {
    if n == 0 then 0
    else Users(procs, pending, n - 1) + if procs[n - 1].state != Free || n - 1 == pending then 1 else 0
  }

  lemma {:induction false} UsersCongruence(p: seq<Proc>, a: int, q: seq<Proc>, b: int, n: nat)
    requires n <= |p| && n <= |q|
    requires forall i :: 0 <= i < n ==> (p[i].state != Free || i == a <==> q[i].state != Free || i == b)
    ensures Users(p, a, n) == Users(q, b, n)
  {
    if n > 0 {
      UsersCongruence(p, a, q, b, n - 1);
    }
  }

  lemma {:induction false} UsersPlusOne(p: seq<Proc>, a: int, n: nat)
    requires n <= |p| && 0 <= a < |p| && p[a].state == Free
    ensures Users(p, a, n) == Users(p, -1, n) + if a < n then 1 else 0
  {
    if n > 0 {
      UsersPlusOne(p, a, n - 1);
    }
  }

  lemma {:induction false} NoUsers(p: seq<Proc>, n: nat)
    requires n <= |p| && forall i :: 0 <= i < n ==> p[i].state == Free
    ensures Users(p, -1, n) == 0
  {
    if n > 0 {
      NoUsers(p, n - 1);
    }
  }

  /** Number of free physical pages among the first `n`. */
  function FreePages(info: seq<PageInfo>, n: nat): nat
    requires n <= |info|
  {
    if n == 0 then 0
    else FreePages(info, n - 1) + if info[n - 1].refcount == 0 then 1 else 0
  }

  lemma {:induction false} FreePagesUpdate(info: seq<PageInfo>, pn: nat, x: PageInfo, n: nat)
    requires n <= |info| && pn < |info| && info[pn].refcount == 0 && x.refcount != 0
    ensures FreePages(info[pn := x], n) == FreePages(info, n) - if pn < n then 1 else 0
  {
    if n > 0 {
      FreePagesUpdate(info, pn, x, n - 1);
    }
  }

  /** `FreePages` counts the free pages, and `Users` the processes that use the kernel table. */
  lemma FreePagesCounts(info: seq<PageInfo>, n: nat)
    requires n <= |info|
    ensures FreePages(info, n) == |set pn | 0 <= pn < n && info[pn].refcount == 0|
  {
    var p := pn => 0 <= pn < |info| && info[pn].refcount == 0;
    CountFree(info, p, n);
    assert Those(p, n) == set pn | 0 <= pn < n && info[pn].refcount == 0;
  }

  lemma {:induction false} CountFree(info: seq<PageInfo>, p: int -> bool, n: nat)
    requires n <= |info| && forall i :: 0 <= i < |info| ==> p(i) == (info[i].refcount == 0)
    ensures FreePages(info, n) == |Those(p, n)|
  {
    if n > 0 {
      CountFree(info, p, n - 1);
      ThoseStep(p, n);
    }
  }

  lemma UsersCounts(procs: seq<Proc>, pending: int, n: nat)
    requires n <= |procs|
    ensures Users(procs, pending, n) == |set i | 0 <= i < n && (procs[i].state != Free || i == pending)|
  {
    var p := i => 0 <= i < |procs| && (procs[i].state != Free || i == pending);
    CountUsers(procs, pending, p, n);
    assert Those(p, n) == set i | 0 <= i < n && (procs[i].state != Free || i == pending);
  }

  lemma {:induction false} CountUsers(procs: seq<Proc>, pending: int, p: int -> bool, n: nat)
    requires n <= |procs| && forall i :: 0 <= i < |procs| ==> p(i) == (procs[i].state != Free || i == pending)
    ensures Users(procs, pending, n) == |Those(p, n)|
  {
    if n > 0 {
      CountUsers(procs, pending, p, n - 1);
      ThoseStep(p, n);
    }
  }

  /** Setting up pages never changes who owns a page that is in use. */
  ghost predicate OwnersKept(before: seq<PageInfo>, after: seq<PageInfo>) {
    |before| == |after| &&
    forall pn :: 0 <= pn < |before| && before[pn].refcount > 0 ==> after[pn].owner == before[pn].owner && after[pn].refcount > 0
  }

  predicate UsesTable(p: Proc, i: int, pending: int) {
    p.state != Free || i == pending
  }

  /** Who owns what. `pending` is the process that `process_setup` is working on, or -1. */
  ghost predicate Balanced(l: Layout, info: seq<PageInfo>, procs: seq<Proc>, pending: int) {
    && GoodLayout(l) && |info| == NPAGES && |procs| == NPROC
    && (forall i :: 0 <= i < NPROC ==> procs[i].pid == i)
    && procs[0].state == Free && pending != 0
    && (forall i :: 0 <= i < NPROC && UsesTable(procs[i], i, pending) ==> procs[i].pagetable == l.tables)
    && info[Pn(l.tables)] == PageInfo(PO_KERNEL, 1 + Users(procs, pending, NPROC))
    && (forall pn :: Pn(l.tables) < pn <= Pn(l.tables) + 4 ==> info[pn] == PageInfo(PO_KERNEL, 1))
    && (forall pn :: 0 <= pn < NPAGES ==> info[pn].refcount >= 0 && (info[pn].refcount > 0 ==> info[pn].owner >= PO_KERNEL))
    && (forall pn :: 0 <= pn < NPAGES && info[pn].refcount > 0 && info[pn].owner >= 0 ==>
          0 < info[pn].owner < NPROC && UsesTable(procs[info[pn].owner], info[pn].owner, pending))
    && (forall pn :: 0 <= pn < NPAGES && InitialOwner(l, pn * PAGESIZE) != PO_FREE ==>
          info[pn].refcount > 0 && info[pn].owner == InitialOwner(l, pn * PAGESIZE))
  }

  /** A free page given to a live process keeps the books balanced and costs one free page. */
  lemma AssignBalances(l: Layout, info: seq<PageInfo>, procs: seq<Proc>, pending: int, pn: int, pid: int)
    requires Balanced(l, info, procs, pending) && 0 <= pn < NPAGES && info[pn].refcount == 0
    requires 0 < pid < NPROC && UsesTable(procs[pid], pid, pending)
    ensures Balanced(l, info[pn := PageInfo(pid, 1)], procs, pending)
    ensures OwnersKept(info, info[pn := PageInfo(pid, 1)])
    ensures FreePages(info[pn := PageInfo(pid, 1)], NPAGES) == FreePages(info, NPAGES) - 1
  {
    FreePagesUpdate(info, pn, PageInfo(pid, 1), NPAGES);
  }

  /** Changing a descriptor without changing who uses the kernel table keeps the books balanced. */
  lemma DescriptorBalances(l: Layout, info: seq<PageInfo>, procs: seq<Proc>, a: int, b: int, i: int, p: Proc)
    requires Balanced(l, info, procs, a) && 0 < i < NPROC && p.pid == i && b != 0
    requires UsesTable(p, i, b) <==> UsesTable(procs[i], i, a)
    requires UsesTable(p, i, b) ==> p.pagetable == l.tables
    requires forall j :: 0 <= j < NPROC && j != i ==> (UsesTable(procs[j], j, a) <==> UsesTable(procs[j], j, b))
    ensures Balanced(l, info, procs[i := p], b)
  {
    UsersCongruence(procs, a, procs[i := p], b, NPROC);
  }

  /** `process_setup` takes a reference to the kernel table for the process it sets up. */
  lemma SetupBalances(l: Layout, info: seq<PageInfo>, procs: seq<Proc>, i: int, p: Proc)
    requires Balanced(l, info, procs, -1) && 0 < i < NPROC && procs[i].state == Free
    requires p.pid == i && p.state == Free && p.pagetable == l.tables
    ensures var k := Pn(l.tables);
            Balanced(l, info[k := PageInfo(info[k].owner, info[k].refcount + 1)], procs[i := p], i)
  {
    UsersPlusOne(procs, i, NPROC);
    UsersCongruence(procs, i, procs[i := p], i, NPROC);
  }

  /** Mapping a page of physical memory to itself again changes nothing. */
  lemma IdentityRemapped(before: Memory, after: Memory, root: int, addr: nat)
    requires addr % PAGESIZE == 0 && addr + PAGESIZE <= MEMSIZE_PHYSICAL
    requires forall x: nat :: x < TWO64 ==> Lookup(before, root, x) == Identity(x)
    requires BytesServed(before, after, root, addr, addr, PAGESIZE, ALL_RIGHTS)
    ensures forall x: nat :: x < TWO64 ==> Lookup(after, root, x) == Identity(x)
  {
    forall x: nat | x < TWO64
      ensures Lookup(after, root, x) == Identity(x)
    {
      assert Lookup(after, root, x) == Remapped(before, root, addr, addr, PAGESIZE, ALL_RIGHTS, x);
      var off := Offset(x, addr);
      if off < PAGESIZE {
        assert x == addr + off + TWO48 * ((x - addr) / TWO48);
        ModUnique(x, (x - addr) / TWO48, addr + off);
      }
    }
  }

  /** A page of physical memory has a level-4 table, so that mapping it cannot fail. */
  lemma KernelReaches(mem: Memory, base: nat, addr: nat, done: nat)
    requires base % PAGESIZE == 0 && KernelUpper(mem, base) && addr % PAGESIZE == 0 && addr < MEMSIZE_PHYSICAL
    requires done < PAGESIZE && done % PAGESIZE == 0
    ensures Walk(mem, base, Vpn(addr + done), 3).Some?
  {
    assert done == 0;
    KernelWalk(mem, base, Vpn(addr));
  }

  /** How a trap ends: a process runs again, the kernel has panicked, or it spins with nothing to run. */
  datatype Verdict = Running(pid: int) | Halted | Spinning

  /** PFERR_USER in a page fault's error code. */
  predicate FromUser(regs: Registers) {
    regs.err / 4 % 2 == 1
  }

  /** The traps on which `exception` panics. */
  predicate Fatal(regs: Registers) {
    || regs.intno == INT_SYS_PANIC
    || (regs.intno == INT_PAGEFAULT && !FromUser(regs))
    || regs.intno !in {INT_SYS_GETPID, INT_SYS_YIELD, INT_SYS_PAGE_ALLOC, INT_TIMER, INT_PAGEFAULT}
  }

  /** A page-allocation trap that will succeed. */
  predicate Grants(regs: Registers, info: seq<PageInfo>)
    requires |info| == NPAGES
  {
    regs.intno == INT_SYS_PAGE_ALLOC &&
    regs.rdi % PAGESIZE == 0 && regs.rdi < MEMSIZE_PHYSICAL && info[Pn(regs.rdi)].refcount == 0
  }

  function AfterAlloc(regs: Registers, pid: int, info: seq<PageInfo>): seq<PageInfo>
    requires |info| == NPAGES
  {
    if Grants(regs, info) then info[Pn(regs.rdi) := PageInfo(pid, 1)] else info
  }

  /** The tick counter is 32 bits wide. */
  function AfterTick(regs: Registers, ticks: nat): nat {
    if regs.intno == INT_TIMER then (ticks + 1) % 0x1_0000_0000 else ticks
  }

  /** The traps after which the same process goes on running. */
  predicate Returns(regs: Registers) {
    regs.intno == INT_SYS_GETPID || regs.intno == INT_SYS_PAGE_ALLOC
  }

  /** The descriptor of the process that trapped, after a trap that is not fatal. */
  function AfterTrap(p: Proc, info: seq<PageInfo>): Proc
    requires |info| == NPAGES
  {
    if p.regs.intno == INT_SYS_GETPID then WithRax(p, p.pid)
    else if p.regs.intno == INT_SYS_PAGE_ALLOC then WithRax(p, if Grants(p.regs, info) then 0 else -1)
    else if p.regs.intno == INT_PAGEFAULT then WithState(p, Broken)
    else p
  }

  /** Which traps are fatal, and after which the same process goes on, by their numbers. */
  lemma TrapKinds(regs: Registers)
    ensures Fatal(regs) <==> regs.intno == 48 || (regs.intno == 14 && regs.err / 4 % 2 == 0) || regs.intno !in {14, 32, 49, 50, 51}
    ensures Returns(regs) <==> regs.intno == 49 || regs.intno == 51
  {
  }

  /** `sys_getpid` answers the caller's number and does nothing else. */
  lemma GetPidEffect(regs: Registers, p: Proc, info: seq<PageInfo>)
    requires |info| == NPAGES
    ensures regs.intno == 49 ==>
              AfterTrap(p.(regs := regs), info) == p.(regs := regs.(rax := p.pid)) && AfterAlloc(regs, p.pid, info) == info
  {
  }

  /** `sys_page_alloc` answers 0 and gives the caller the page, if it is free, and otherwise -1. */
  lemma AllocEffect(regs: Registers, p: Proc, info: seq<PageInfo>)
    requires |info| == NPAGES
    ensures regs.intno == 51 && regs.rdi % 0x1000 == 0 && regs.rdi < 0x20_0000 && info[regs.rdi / 0x1000].refcount == 0 ==>
              && AfterTrap(p.(regs := regs), info) == p.(regs := regs.(rax := 0))
              && AfterAlloc(regs, p.pid, info) == info[regs.rdi / 0x1000 := PageInfo(p.pid, 1)] != info
    ensures regs.intno == 51 && !(regs.rdi % 0x1000 == 0 && regs.rdi < 0x20_0000 && info[regs.rdi / 0x1000].refcount == 0) ==>
              AfterTrap(p.(regs := regs), info) == p.(regs := regs.(rax := -1)) && AfterAlloc(regs, p.pid, info) == info
  {
    if regs.rdi < 0x20_0000 && info[regs.rdi / 0x1000].refcount == 0 {
      var pn := regs.rdi / 0x1000;
      assert info[pn := PageInfo(p.pid, 1)][pn].refcount == 1;
    }
  }

  /** A page fault breaks the process; the timer and `sys_yield` leave it as it is. */
  lemma OtherEffect(regs: Registers, p: Proc, info: seq<PageInfo>)
    requires |info| == NPAGES
    ensures regs.intno == 14 ==> AfterTrap(p.(regs := regs), info) == p.(regs := regs, state := Broken)
    ensures regs.intno == 32 || regs.intno == 50 ==> AfterTrap(p.(regs := regs), info) == p.(regs := regs)
    ensures regs.intno != 51 ==> AfterAlloc(regs, p.pid, info) == info
  {
  }

  const ZERO_REGS := Registers(0, 0, 0, 0, 0, 0)

  function WithRip(p: Proc, rip: nat): Proc {
    p.(regs := p.regs.(rip := rip))
  }

  function WithRsp(p: Proc, rsp: nat): Proc {
    p.(regs := p.regs.(rsp := rsp))
  }

  function WithRax(p: Proc, rax: int): Proc {
    p.(regs := p.regs.(rax := rax))
  }

  function WithState(p: Proc, state: ProcState): Proc {
    p.(state := state)
  }

  /** One loadable part of a program image: `bytes` is the image from the segment's file offset on. */
  datatype Segment = Segment(load: bool, va: nat, filesz: nat, memsz: nat, bytes: seq<int>)

  datatype Image = Image(entry: nat, segments: seq<Segment>)

  /** The program header rules, and an image that holds the bytes the loader reads. */
  predicate GoodSegment(ph: Segment) {
    ph.filesz <= ph.memsz && ph.va + ph.memsz < TWO64 && ph.va % PAGESIZE + ph.filesz <= |ph.bytes|
  }

  function RoundDown(a: nat): nat {
    a / PAGESIZE * PAGESIZE
  }

  /** The pages of a segment are those from `FirstPage` up to, not including, `EndPage`. */
  function FirstPage(ph: Segment): nat {
    ph.va / PAGESIZE
  }

  function EndPage(ph: Segment): nat {
    (ph.va + ph.memsz + PAGESIZE - 1) / PAGESIZE
  }

  lemma PageCovered(ph: Segment, n: nat)
    ensures n * PAGESIZE < ph.va + ph.memsz <==> n < EndPage(ph)
  {
  }

  predicate IsFree(info: seq<PageInfo>, pn: nat) {
    pn < |info| && info[pn].refcount == 0
  }

  predicate AllFree(info: seq<PageInfo>, first: nat, end: nat) {
    forall pn: nat :: first <= pn < end ==> IsFree(info, pn)
  }

  /** Every page the segment covers exists and is free. */
  predicate CanLoad(info: seq<PageInfo>, ph: Segment)
    requires |info| == NPAGES
  {
    AllFree(info, FirstPage(ph), EndPage(ph))
  }

  lemma LoadFits(info: seq<PageInfo>, ph: Segment)
    requires |info| == NPAGES && CanLoad(info, ph) && RoundDown(ph.va) < ph.va + ph.memsz
    ensures ph.va + ph.memsz <= MEMSIZE_PHYSICAL
  {
    PageCovered(ph, FirstPage(ph));
    assert IsFree(info, EndPage(ph) - 1);
  }

  /** The pages of the segment belong to `pid` and no other page has changed. */
  ghost predicate Assigned(before: seq<PageInfo>, after: seq<PageInfo>, pid: int, first: nat, end: nat) {
    |before| == |after| == NPAGES &&
    forall pn :: 0 <= pn < NPAGES ==> after[pn] == if first <= pn < end then PageInfo(pid, 1) else before[pn]
  }

  /** What the loader leaves at address `x` of memory. */
  function LoadedByte(before: seq<int>, ph: Segment, x: nat): int
    requires x < |before| && GoodSegment(ph)
  {
    if RoundDown(ph.va) <= x < ph.va + ph.filesz then ph.bytes[x - RoundDown(ph.va)]
    else if ph.va + ph.filesz <= x < ph.va + ph.memsz then 0
    else before[x]
  }

  /** What loading the segment makes of memory: its file bytes, if the segment is page-aligned, and zeros up
      to its memory size; nothing else changes from the start of its first page on. */
  ghost predicate Filled(before: seq<int>, after: seq<int>, ph: Segment)
    requires GoodSegment(ph)
  {
    && |before| == |after| && (ph.memsz > 0 ==> ph.va + ph.memsz <= |after|)
    && (forall x :: 0 <= x < |after| && ph.va + ph.filesz <= x < ph.va + ph.memsz ==> after[x] == 0)
    && (ph.va % 0x1000 == 0 ==> forall x :: 0 <= x < |after| && ph.va <= x < ph.va + ph.filesz ==> after[x] == ph.bytes[x - ph.va])
    && (forall x :: 0 <= x < |after| && !(ph.va - ph.va % 0x1000 <= x < ph.va + ph.memsz) ==> after[x] == before[x])
  }

  lemma LoadedIsFilled(before: seq<int>, after: seq<int>, ph: Segment)
    requires GoodSegment(ph) && |before| == |after| && (RoundDown(ph.va) < ph.va + ph.memsz ==> ph.va + ph.memsz <= |after|)
    requires forall x :: 0 <= x < |after| ==> after[x] == LoadedByte(before, ph, x)
    ensures Filled(before, after, ph)
  {
    assert RoundDown(ph.va) == ph.va - ph.va % 0x1000;
  }

  /** The segment's file bytes land where the program header says they should. */
  ghost predicate Faithful(before: seq<int>, ph: Segment) {
    GoodSegment(ph) && ph.va + ph.memsz <= |before| &&
    forall k :: 0 <= k < ph.filesz ==> LoadedByte(before, ph, ph.va + k) == ph.bytes[k]
  }

  /** Loading is faithful for every image content exactly when the segment is page-aligned or empty:
      on an unaligned segment the copy starts at the rounded-down address. */
  lemma FaithfulIffAligned(before: seq<int>, va: nat, filesz: nat, memsz: nat)
    requires filesz <= memsz && va + memsz <= |before| <= MEMSIZE_PHYSICAL
    ensures (forall bytes: seq<int> :: |bytes| == va % PAGESIZE + filesz ==> Faithful(before, Segment(true, va, filesz, memsz, bytes)))
            <==> va % PAGESIZE == 0 || filesz == 0
  {
    if va % PAGESIZE != 0 && filesz > 0 {
      var bytes := seq(va % PAGESIZE + filesz, i => i);
      var ph := Segment(true, va, filesz, memsz, bytes);
      assert LoadedByte(before, ph, va + 0) == va % PAGESIZE != ph.bytes[0];
      assert !Faithful(before, ph);
    }
  }

  /** Page `pn` is one that loading the segment assigns. */
  predicate Covers(ph: Segment, pn: int) {
    ph.load && FirstPage(ph) <= pn < EndPage(ph)
  }

  predicate CoversAddress(ph: Segment, x: int) {
    ph.load && RoundDown(ph.va) <= x < ph.va + ph.memsz
  }

  lemma AddressCovered(ph: Segment, x: nat)
    requires CoversAddress(ph, x)
    ensures Covers(ph, x / PAGESIZE)
  {
  }

  ghost predicate Apart(a: Segment, b: Segment) {
    forall pn :: Covers(a, pn) ==> !Covers(b, pn)
  }

  /** The first `k` segments need only free pages, and no page twice. */
  ghost predicate Placeable(info: seq<PageInfo>, segs: seq<Segment>, k: nat)
    requires k <= |segs|
  {
    && (forall i, pn: nat :: 0 <= i < k && Covers(segs[i], pn) ==> IsFree(info, pn))
    && (forall i, j :: 0 <= i < j < k ==> Apart(segs[i], segs[j]))
  }

  predicate SomeCovers(segs: seq<Segment>, k: nat, pn: int)
    requires k <= |segs|
  {
    exists i :: 0 <= i < k && Covers(segs[i], pn)
  }

  /** The pages of the first `k` segments belong to `pid`, and no other page has changed. */
  ghost predicate AssignedAll(before: seq<PageInfo>, after: seq<PageInfo>, pid: int, segs: seq<Segment>, k: nat)
    requires k <= |segs|
  {
    |before| == |after| == NPAGES &&
    forall pn :: 0 <= pn < NPAGES ==> after[pn] == if SomeCovers(segs, k, pn) then PageInfo(pid, 1) else before[pn]
  }

  /** With `k` segments loaded, the next one loads exactly when the pages it needs were free at the
      start and belong to no segment before it. */
  lemma NextPlaceable(before: seq<PageInfo>, now: seq<PageInfo>, pid: int, segs: seq<Segment>, k: nat)
    requires k < |segs| && segs[k].load && AssignedAll(before, now, pid, segs, k) && Placeable(before, segs, k)
    ensures CanLoad(now, segs[k]) <==> Placeable(before, segs, k + 1)
  {
    if CanLoad(now, segs[k]) {
      forall pn: nat | Covers(segs[k], pn)
        ensures IsFree(before, pn) && !SomeCovers(segs, k, pn)
      {
        assert IsFree(now, pn);
      }
    }
    if Placeable(before, segs, k + 1) {
      assert forall i :: 0 <= i < k ==> Apart(segs[i], segs[k]);
      forall pn: nat | FirstPage(segs[k]) <= pn < EndPage(segs[k])
        ensures IsFree(now, pn)
      {
        assert Covers(segs[k], pn) && IsFree(before, pn);
      }
    }
  }

  lemma NextAssigned(before: seq<PageInfo>, now: seq<PageInfo>, after: seq<PageInfo>, pid: int, segs: seq<Segment>, k: nat)
    requires k < |segs| && AssignedAll(before, now, pid, segs, k)
    requires if segs[k].load then Assigned(now, after, pid, FirstPage(segs[k]), EndPage(segs[k])) else after == now
    ensures AssignedAll(before, after, pid, segs, k + 1)
  {
    forall pn | 0 <= pn < NPAGES
      ensures after[pn] == if SomeCovers(segs, k + 1, pn) then PageInfo(pid, 1) else before[pn]
    {
      assert SomeCovers(segs, k + 1, pn) <==> SomeCovers(segs, k, pn) || Covers(segs[k], pn);
    }
  }

  /** Process `pid` owns the segment's pages, and they hold the image's bytes and then zeros. */
  ghost predicate Resident(info: seq<PageInfo>, m: seq<int>, pid: int, ph: Segment)
    requires GoodSegment(ph)
  {
    && |info| == NPAGES && |m| == MEMSIZE_PHYSICAL
    && (forall pn :: Covers(ph, pn) ==> 0 <= pn < NPAGES && info[pn].owner == pid && info[pn].refcount > 0)
    && (forall x :: 0 <= x < |m| && CoversAddress(ph, x) ==> m[x] == LoadedByte(m, ph, x))
  }

  /** The segment's bytes as the program header describes them: the image's, if the segment is aligned, and
      then zeros. */
  ghost predicate Imaged(m: seq<int>, ph: Segment)
    requires GoodSegment(ph)
  {
    ph.load ==>
      && (ph.memsz > 0 ==> ph.va + ph.memsz <= |m|)
      && (forall x :: 0 <= x < |m| && ph.va + ph.filesz <= x < ph.va + ph.memsz ==> m[x] == 0)
      && (ph.va % 0x1000 == 0 ==> forall x :: 0 <= x < |m| && ph.va <= x < ph.va + ph.filesz ==> m[x] == ph.bytes[x - ph.va])
  }

  lemma ResidentIsImaged(info: seq<PageInfo>, m: seq<int>, pid: int, ph: Segment)
    requires GoodSegment(ph) && Resident(info, m, pid, ph)
    ensures Imaged(m, ph)
  {
    if ph.load && ph.memsz > 0 {
      AddressCovered(ph, ph.va + ph.memsz - 1);
      assert 0 <= (ph.va + ph.memsz - 1) / PAGESIZE < NPAGES;
    }
  }

  lemma AllImaged(info: seq<PageInfo>, m: seq<int>, pid: int, segs: seq<Segment>)
    requires forall i :: 0 <= i < |segs| ==> GoodSegment(segs[i]) && Resident(info, m, pid, segs[i])
    ensures forall i :: 0 <= i < |segs| ==> Imaged(m, segs[i])
  {
    forall i | 0 <= i < |segs|
      ensures Imaged(m, segs[i])
    {
      ResidentIsImaged(info, m, pid, segs[i]);
    }
  }

  /** Bytes of pages that are in use have not changed. */
  ghost predicate UsedKept(before: seq<int>, after: seq<int>, info: seq<PageInfo>) {
    |before| == |after| &&
    forall x :: 0 <= x < |before| && 0 <= Pn(x) < |info| && info[Pn(x)].refcount > 0 ==> after[x] == before[x]
  }

  /** The bytes of the five page tables have not changed. */
  ghost predicate TablesKept(l: Layout, before: seq<int>, after: seq<int>) {
    |before| == |after| &&
    forall x :: 0 <= x < |before| && l.tables <= x < l.tables + 5 * PAGESIZE ==> after[x] == before[x]
  }

  /** The page tables are never free, so what leaves used pages alone leaves them alone. */
  lemma TablesAreUsed(l: Layout, info: seq<PageInfo>, procs: seq<Proc>, pending: int, before: seq<int>, after: seq<int>)
    requires Balanced(l, info, procs, pending) && UsedKept(before, after, info)
    ensures TablesKept(l, before, after)
  {
    forall x | 0 <= x < |before| && l.tables <= x < l.tables + 5 * PAGESIZE
      ensures after[x] == before[x]
    {
      assert Pn(l.tables) <= Pn(x) <= Pn(l.tables) + 4 < NPAGES;
      assert info[Pn(x)].refcount > 0;
    }
  }

  /** What is resident stays resident while pages in use keep their owner and their bytes. */
  lemma ResidentKept(info: seq<PageInfo>, m: seq<int>, info': seq<PageInfo>, m': seq<int>, pid: int, ph: Segment)
    requires GoodSegment(ph) && Resident(info, m, pid, ph) && OwnersKept(info, info') && UsedKept(m, m', info)
    ensures Resident(info', m', pid, ph)
  {
    forall x | 0 <= x < |m'| && CoversAddress(ph, x)
      ensures m'[x] == LoadedByte(m', ph, x)
    {
      AddressCovered(ph, x);
      assert m'[x] == m[x] == LoadedByte(m, ph, x);
    }
  }

  lemma UsedKeptTwice(a: seq<int>, b: seq<int>, c: seq<int>, info: seq<PageInfo>, info': seq<PageInfo>)
    requires UsedKept(a, b, info) && OwnersKept(info, info') && UsedKept(b, c, info')
    ensures UsedKept(a, c, info)
  {
  }

  /** Loading writes to the pages it was given only, and leaves the segment resident. */
  lemma LoadedIsResident(info: seq<PageInfo>, info': seq<PageInfo>, m: seq<int>, m': seq<int>, pid: int, ph: Segment)
    requires GoodSegment(ph) && ph.load && |m| == |m'| == MEMSIZE_PHYSICAL && |info| == NPAGES && CanLoad(info, ph)
    requires Assigned(info, info', pid, FirstPage(ph), EndPage(ph))
    requires forall x :: 0 <= x < |m| ==> m'[x] == LoadedByte(m, ph, x)
    ensures Resident(info', m', pid, ph) && UsedKept(m, m', info)
  {
    forall pn | Covers(ph, pn)
      ensures 0 <= pn < NPAGES && info'[pn].owner == pid && info'[pn].refcount > 0
    {
      assert IsFree(info, pn);
    }
    forall x | 0 <= x < |m| && info[Pn(x)].refcount > 0
      ensures m'[x] == m[x]
    {
      assert !IsFree(info, Pn(x));
      if CoversAddress(ph, x) {
        AddressCovered(ph, x);
      }
    }
  }

  /** The first `k` segments are where they belong, and nothing that was in use has been touched. */
  ghost predicate Loaded(before: seq<PageInfo>, was: seq<int>, info: seq<PageInfo>, m: seq<int>, pid: int, segs: seq<Segment>, k: nat)
    requires k <= |segs| && forall i :: 0 <= i < |segs| ==> GoodSegment(segs[i])
  {
    && OwnersKept(before, info) && UsedKept(was, m, before)
    && AssignedAll(before, info, pid, segs, k) && Placeable(before, segs, k)
    && forall i :: 0 <= i < k ==> Resident(info, m, pid, segs[i])
  }

  lemma NextLoaded(before: seq<PageInfo>, was: seq<int>, info: seq<PageInfo>, m: seq<int>, info': seq<PageInfo>, m': seq<int>,
                   pid: int, segs: seq<Segment>, k: nat)
    requires k < |segs| && forall i :: 0 <= i < |segs| ==> GoodSegment(segs[i])
    requires Loaded(before, was, info, m, pid, segs, k)
    requires OwnersKept(info, info') && UsedKept(m, m', info)
    requires if segs[k].load then
               && Assigned(info, info', pid, FirstPage(segs[k]), EndPage(segs[k]))
               && Placeable(before, segs, k + 1) && Resident(info', m', pid, segs[k])
             else info' == info && |info| == NPAGES && |m'| == MEMSIZE_PHYSICAL
    ensures Loaded(before, was, info', m', pid, segs, k + 1)
  {
    UsedKeptTwice(was, m, m', before, info);
    NextAssigned(before, info, info', pid, segs, k);
    forall i | 0 <= i < k
      ensures Resident(info', m', pid, segs[i])
    {
      ResidentKept(info, m, info', m', pid, segs[i]);
    }
  }

  /** The two accounts give every page the same owner and agree on which pages are free. */
  ghost predicate SameUse(a: seq<PageInfo>, b: seq<PageInfo>) {
    |a| == |b| && forall pn :: 0 <= pn < |a| ==>
      a[pn].owner == b[pn].owner && (a[pn].refcount == 0 <==> b[pn].refcount == 0) && (a[pn].refcount > 0 <==> b[pn].refcount > 0)
  }

  lemma SameUsePlaceable(a: seq<PageInfo>, b: seq<PageInfo>, segs: seq<Segment>, k: nat)
    requires SameUse(a, b) && k <= |segs|
    ensures Placeable(a, segs, k) <==> Placeable(b, segs, k)
  {
    assert forall pn: nat :: IsFree(a, pn) <==> IsFree(b, pn);
  }

  /** The pages set aside for process `pid`, the last of which is its stack. */
  function FirstProcessPage(pid: int): int {
    Pn(PROC_START_ADDR) + Pn(PROC_SIZE) * (pid - 1)
  }

  function StackPage(pid: int): int {
    FirstProcessPage(pid + 1) - 1
  }

  /** The stack page is the process's, if it was free; nothing else changes. */
  ghost predicate StackGiven(before: seq<PageInfo>, after: seq<PageInfo>, pid: int) {
    |before| == |after| == NPAGES && 0 <= StackPage(pid) < NPAGES &&
    after == before[StackPage(pid) := if before[StackPage(pid)].refcount == 0 then PageInfo(pid, 1) else before[StackPage(pid)]]
  }

  /** What `process_setup` leaves behind: the program resident, pages in use untouched, and only the
      program's pages, the stack page and the count of the kernel table changed. */
  ghost predicate SetUp(l: Layout, before: seq<PageInfo>, after: seq<PageInfo>, m: seq<int>, m': seq<int>, pid: int, segs: seq<Segment>)
    requires forall i :: 0 <= i < |segs| ==> GoodSegment(segs[i])
  {
    && OwnersKept(before, after) && UsedKept(m, m', before) && |before| == NPAGES
    && (forall i :: 0 <= i < |segs| ==> Resident(after, m', pid, segs[i]))
    && 0 <= StackPage(pid) < NPAGES && after[StackPage(pid)].refcount != 0
    && (forall pn :: 0 <= pn < NPAGES && pn != Pn(l.tables) && pn != StackPage(pid) && !SomeCovers(segs, |segs|, pn) ==>
          after[pn] == before[pn])
  }

  function NewProcess(l: Layout, pid: nat, image: Image): Proc {
    Launched(WithRip(Proc(pid, ZERO_REGS, Free, l.tables), image.entry), pid)
  }

  function Launched(p: Proc, pid: nat): Proc {
    WithState(WithRsp(p, PROC_START_ADDR + PROC_SIZE * pid), Runnable)
  }

  /** A new process starts at its program's entry, with its stack at the end of its own pages, and with the
      kernel's page table. */
  lemma NewProcessIs(l: Layout, pid: nat, image: Image)
    ensures var p := NewProcess(l, pid, image);
            && p.pid == pid && p.state == Runnable && p.pagetable == l.tables
            && p.regs.rip == image.entry && p.regs.rsp == 0x10_0000 + 0x4_0000 * pid
            && p.regs.rax == 0 && p.regs.rdi == 0 && p.regs.intno == 0 && p.regs.err == 0
  {
  }

  lemma SetUpComplete(l: Layout, info: seq<PageInfo>, info1: seq<PageInfo>, info2: seq<PageInfo>, info3: seq<PageInfo>,
                      m: seq<int>, m': seq<int>, pid: int, segs: seq<Segment>)
    requires forall i :: 0 <= i < |segs| ==> GoodSegment(segs[i])
    requires SameUse(info, info1) && forall pn :: 0 <= pn < |info| && pn != Pn(l.tables) ==> info1[pn] == info[pn]
    requires OwnersKept(info1, info2) && UsedKept(m, m', info1) && AssignedAll(info1, info2, pid, segs, |segs|)
    requires forall i :: 0 <= i < |segs| ==> Resident(info2, m', pid, segs[i])
    requires OwnersKept(info2, info3) && StackGiven(info2, info3, pid)
    ensures SetUp(l, info, info3, m, m', pid, segs)
  {
    forall i | 0 <= i < |segs|
      ensures Resident(info3, m', pid, segs[i])
    {
      ResidentKept(info2, m', info3, m', pid, segs[i]);
    }
  }

  // ---------- booting ----------

  predicate GoodImages(images: seq<Image>) {
    forall i, j :: 0 <= i < |images| && 0 <= j < |images[i].segments| ==> GoodSegment(images[i].segments[j])
  }

  /** Each program stays inside the pages set aside for its process, and its segments share no page. */
  ghost predicate WellPlaced(images: seq<Image>) {
    forall i :: 0 <= i < |images| ==> WellPlacedImage(images[i], i + 1)
  }

  ghost predicate WellPlacedImage(image: Image, pid: int) {
    && (forall j, pn :: 0 <= j < |image.segments| && Covers(image.segments[j], pn) ==> FirstProcessPage(pid) <= pn < StackPage(pid))
    && (forall j, k :: 0 <= j < k < |image.segments| ==> Apart(image.segments[j], image.segments[k]))
  }

  /** The first `n` programs are resident. */
  ghost predicate AllResident(info: seq<PageInfo>, m: seq<int>, images: seq<Image>, n: nat)
    requires n <= |images| && GoodImages(images)
  {
    forall i, j :: 0 <= i < n && 0 <= j < |images[i].segments| ==> Resident(info, m, i + 1, images[i].segments[j])
  }

  predicate FreeFrom(info: seq<PageInfo>, first: int) {
    |info| == NPAGES && forall pn :: 0 <= pn < NPAGES && pn >= first ==> info[pn].refcount == 0
  }

  lemma WellPlacedNext(info: seq<PageInfo>, images: seq<Image>, i: nat)
    requires i < |images| <= 4 && WellPlaced(images) && FreeFrom(info, FirstProcessPage(i + 1))
    ensures Placeable(info, images[i].segments, |images[i].segments|)
  {
    assert WellPlacedImage(images[i], i + 1);
  }

  /** Setting up one more process leaves the earlier ones resident, and the later ones' pages free. */
  lemma ResidentNext(l: Layout, info: seq<PageInfo>, info': seq<PageInfo>, m: seq<int>, m': seq<int>, images: seq<Image>, i: nat)
    requires i < |images| <= 4 && GoodImages(images) && GoodLayout(l) && AllResident(info, m, images, i)
    requires SetUp(l, info, info', m, m', i + 1, images[i].segments)
    ensures AllResident(info', m', images, i + 1)
    ensures WellPlaced(images) && FreeFrom(info, FirstProcessPage(i + 1)) ==> FreeFrom(info', FirstProcessPage(i + 2))
  {
    forall h, j | 0 <= h < i + 1 && 0 <= j < |images[h].segments|
      ensures Resident(info', m', h + 1, images[h].segments[j])
    {
      if h < i {
        ResidentKept(info, m, info', m', h + 1, images[h].segments[j]);
      }
    }
    if WellPlaced(images) {
      assert WellPlacedImage(images[i], i + 1);
    }
  }

  // ---------- the scheduler ----------

  /** The first runnable process cyclically after `pid`, in at most `left` probes. */
  function NextRunnable(procs: seq<Proc>, pid: int, left: nat): (next: Option<int>)
    requires |procs| == NPROC && 0 <= pid < NPROC
    decreases left
  {
    if left == 0 then None
    else
      var q := (pid + 1) % NPROC;
      if procs[q].state == Runnable then Some(q) else NextRunnable(procs, q, left - 1)
  }

  /** How many probes `schedule` needs to reach `p` from `cur`: 1 to NPROC. */
  function Distance(cur: int, p: int): int {
    if p > cur then p - cur else p - cur + NPROC
  }

  /** The pick is runnable, and no process at a smaller distance is. */
  lemma {:induction false} NextIsNearest(procs: seq<Proc>, cur: int, left: nat, p: int)
    requires |procs| == NPROC && 0 <= cur < NPROC && 0 <= p < NPROC
    requires procs[p].state == Runnable && Distance(cur, p) <= left
    ensures var next := NextRunnable(procs, cur, left);
            && next.Some? && 0 <= next.value < NPROC && procs[next.value].state == Runnable
            && 1 <= Distance(cur, next.value) <= Distance(cur, p)
    decreases left
  {
    var q := (cur + 1) % NPROC;
    assert q == if cur + 1 < NPROC then cur + 1 else 0;
    if procs[q].state != Runnable {
      NextIsNearest(procs, q, left - 1, p);
    }
  }

  /** Each call of `schedule` either runs `p` or brings the current process closer to it. */
  lemma ScheduleApproaches(procs: seq<Proc>, cur: int, p: int)
    requires |procs| == NPROC && 0 <= cur < NPROC && 0 <= p < NPROC && procs[p].state == Runnable
    ensures var next := NextRunnable(procs, cur, NPROC);
            next.Some? && 0 <= next.value < NPROC &&
            (next.value == p || Distance(next.value, p) < Distance(cur, p))
  {
    NextIsNearest(procs, cur, NPROC, p);
    var n := NextRunnable(procs, cur, NPROC).value;
    assert n != p ==> Distance(n, p) == Distance(cur, p) - Distance(cur, n);
  }

  /** Fairness: along any sequence of calls of `schedule`, whatever happens to the other processes in
      between, a process that stays runnable runs within NPROC calls. */
  lemma {:induction false} ScheduleIsFair(tables: seq<seq<Proc>>, picks: seq<int>, p: int) returns (k: nat)
    requires |picks| == |tables| + 1 && 0 <= picks[0] < NPROC && 0 <= p < NPROC
    requires forall i :: 0 <= i < |tables| ==> |tables[i]| == NPROC && tables[i][p].state == Runnable
    requires forall i :: 0 <= i <= |tables| ==> 0 <= picks[i] < NPROC
    requires forall i :: 0 <= i < |tables| ==> NextRunnable(tables[i], picks[i], NPROC) == Some(picks[i + 1])
    requires |tables| >= Distance(picks[0], p)
    ensures 1 <= k <= Distance(picks[0], p) <= NPROC && k < |picks| && picks[k] == p
    decreases Distance(picks[0], p)
  {
    ScheduleApproaches(tables[0], picks[0], p);
    if picks[1] == p {
      k := 1;
    } else {
      var j := ScheduleIsFair(tables[1..], picks[1..], p);
      k := j + 1;
    }
  }

  /** The calls of `schedule` in a run: the process tables they saw, and the processes they ran one after
      the other, starting with the one that ran before. */
  ghost predicate IsHistory(tables: seq<seq<Proc>>, picks: seq<int>) {
    && |picks| == |tables| + 1
    && (forall i :: 0 <= i < |picks| ==> 0 <= picks[i] < NPROC)
    && (forall i :: 0 <= i < |tables| ==> |tables[i]| == NPROC)
    && (forall i :: 0 <= i < |tables| ==> NextRunnable(tables[i], picks[i], NPROC) == Some(picks[i + 1]))
  }

  /** Process `p` is runnable at NPROC calls of `schedule` in a row, from number `a` on. */
  ghost predicate StaysRunnable(tables: seq<seq<Proc>>, p: int, a: int) {
    0 <= p < NPROC && 0 <= a && a + NPROC <= |tables| &&
    forall i :: a <= i < a + NPROC ==> |tables[i]| == NPROC && tables[i][p].state == Runnable
  }

  ghost predicate Picked(picks: seq<int>, p: int, a: int) {
    exists k :: a < k <= a + NPROC && 0 <= k < |picks| && picks[k] == p
  }

  ghost predicate IsFair(tables: seq<seq<Proc>>, picks: seq<int>) {
    forall p, a :: StaysRunnable(tables, p, a) ==> Picked(picks, p, a)
  }

  lemma HistoryIsFair(tables: seq<seq<Proc>>, picks: seq<int>)
    requires IsHistory(tables, picks)
    ensures IsFair(tables, picks)
  {
    forall p, a | StaysRunnable(tables, p, a)
      ensures Picked(picks, p, a)
    {
      var k := ScheduleIsFair(tables[a..a + NPROC], picks[a..a + NPROC + 1], p);
      assert picks[a + k] == p;
    }
  }

  lemma ExtendHistory(tables: seq<seq<Proc>>, picks: seq<int>, table: seq<Proc>, pick: int)
    requires IsHistory(tables, picks) && |table| == NPROC && 0 <= pick < NPROC
    requires NextRunnable(table, picks[|tables|], NPROC) == Some(pick)
    ensures IsHistory(tables + [table], picks + [pick])
  {
    var tables', picks' := tables + [table], picks + [pick];
    forall i | 0 <= i < |tables'|
      ensures NextRunnable(tables'[i], picks'[i], NPROC) == Some(picks'[i + 1])
    {
      assert i < |tables| ==> tables'[i] == tables[i] && picks'[i] == picks[i] && picks'[i + 1] == picks[i + 1];
    }
  }

  /** How many of the first `n` traps call `schedule`. */
  function Switches(traps: seq<Registers>, n: nat): nat
    requires n <= |traps|
  {
    if n == 0 then 0 else Switches(traps, n - 1) + if Returns(traps[n - 1]) then 0 else 1
  }

  /** The loop of `schedule`. One round of NPROC failed probes is the end: the kernel changes nothing
      while it spins, so no later round can differ. */
  method Probe(procs: seq<Proc>, cur: int) returns (next: Option<int>)
    requires |procs| == NPROC && 0 <= cur < NPROC
    ensures next == NextRunnable(procs, cur, NPROC)
    ensures next.Some? ==> 0 <= next.value < NPROC && procs[next.value].state == Runnable
  {
    var pid, left := cur, NPROC;
    while left > 0
      invariant 0 <= pid < NPROC && 0 <= left
      invariant NextRunnable(procs, cur, NPROC) == NextRunnable(procs, pid, left)
    {
      pid, left := (pid + 1) % NPROC, left - 1;
      if procs[pid].state == Runnable {
        return Some(pid);
      }
    }
    next := None;
  }

  // ---------- what the kernel's self-checks demand ----------

  /** The addresses whose mapping `check_page_table_mappings` looks up, one a page. */
  function KernelAddress(k: nat): nat {
    KERNEL_START_ADDR + PAGESIZE * k
  }

  ghost predicate MappedToItself(mem: Memory, pt: int, va: nat, writable: bool) {
    Lookup(mem, pt, va).pa == va && (writable ==> Lookup(mem, pt, va).perm.write)
  }

  /** Kernel memory and the kernel stack are identity-mapped; data and stack are writable. */
  ghost predicate MappingsPass(l: Layout, mem: Memory, pt: int) {
    && PteAddr(pt) == pt
    && (forall k: nat :: KernelAddress(k) < l.end ==>
          MappedToItself(mem, pt, KernelAddress(k), KernelAddress(k) >= l.startData))
    && MappedToItself(mem, pt, KERNEL_STACK_TOP - PAGESIZE, true)
  }

  /** The table at `pt` has this owner and count, and every table below it has this owner and count 1. */
  ghost predicate TableOwned(mem: Memory, info: seq<PageInfo>, pt: int, level: nat, owner: int, refcount: int)
    requires |info| == NPAGES && level <= 3
    decreases 3 - level, 1
  {
    && 0 <= Pn(pt) < NPAGES && info[Pn(pt)] == PageInfo(owner, refcount)
    && (level < 3 ==> forall i :: 0 <= i < 512 && Load(mem, pt, i) != 0 ==> EntryOwned(mem, info, pt, i, level, owner))
  }

  ghost predicate EntryOwned(mem: Memory, info: seq<PageInfo>, pt: int, i: int, level: nat, owner: int)
    requires |info| == NPAGES && level < 3
    decreases 3 - level, 0
  {
    TableOwned(mem, info, PteAddr(Load(mem, pt, i)), level + 1, owner, 1)
  }

  /** How many of the first `n` processes use the table at `pt`. */
  function Sharers(procs: seq<Proc>, pt: nat, n: nat): nat
    requires n <= |procs|
  {
    if n == 0 then 0
    else Sharers(procs, pt, n - 1) + if procs[n - 1].state != Free && procs[n - 1].pagetable == pt then 1 else 0
  }

  lemma {:induction false} SharersAreUsers(l: Layout, info: seq<PageInfo>, procs: seq<Proc>, n: nat)
    requires Balanced(l, info, procs, -1) && n <= NPROC
    ensures Sharers(procs, l.tables, n) == Users(procs, -1, n)
  {
    if n > 0 {
      SharersAreUsers(l, info, procs, n - 1);
      assert UsesTable(procs[n - 1], n - 1, -1) <==> procs[n - 1].state != Free;
    }
  }

  lemma SharersCounts(procs: seq<Proc>, pt: nat, n: nat)
    requires n <= |procs|
    ensures Sharers(procs, pt, n) == |set i | 0 <= i < n && procs[i].state != Free && procs[i].pagetable == pt|
  {
    var p := i => 0 <= i < |procs| && procs[i].state != Free && procs[i].pagetable == pt;
    CountSharers(procs, pt, p, n);
    assert Those(p, n) == set i | 0 <= i < n && procs[i].state != Free && procs[i].pagetable == pt;
  }

  lemma {:induction false} CountSharers(procs: seq<Proc>, pt: nat, p: int -> bool, n: nat)
    requires n <= |procs| && forall i :: 0 <= i < |procs| ==> p(i) == (procs[i].state != Free && procs[i].pagetable == pt)
    ensures Sharers(procs, pt, n) == |Those(p, n)|
  {
    if n > 0 {
      CountSharers(procs, pt, p, n - 1);
      ThoseStep(p, n);
    }
  }

  /** The kernel table belongs to the kernel and counts 1 plus its users; any other belongs to `pid`. */
  ghost predicate OwnershipPasses(l: Layout, mem: Memory, info: seq<PageInfo>, procs: seq<Proc>, pt: nat, pid: int)
    requires |info| == NPAGES && |procs| == NPROC
  {
    if pt == l.tables then TableOwned(mem, info, pt, 0, PO_KERNEL, 1 + Sharers(procs, pt, NPROC))
    else TableOwned(mem, info, pt, 0, pid, 1)
  }

  ghost predicate OwnTablePasses(l: Layout, mem: Memory, info: seq<PageInfo>, procs: seq<Proc>, i: int)
    requires |info| == NPAGES && |procs| == NPROC && 0 <= i < NPROC
  {
    procs[i].state != Free && procs[i].pagetable != l.tables ==>
      MappingsPass(l, mem, procs[i].pagetable) && OwnershipPasses(l, mem, info, procs, procs[i].pagetable, i)
  }

  /** A page in use that belongs to a process belongs to a live one. */
  predicate OwnerAlive(info: seq<PageInfo>, procs: seq<Proc>, pn: int)
    requires |info| == NPAGES && |procs| == NPROC && 0 <= pn < NPAGES
  {
    info[pn].refcount > 0 && info[pn].owner >= 0 ==> info[pn].owner < NPROC && procs[info[pn].owner].state != Free
  }

  /** The mapping check, address by address. */
  lemma MappingsMean(l: Layout, mem: Memory, pt: int)
    ensures MappingsPass(l, mem, pt) <==>
              && pt % 0x1000 == 0
              && (forall va: nat :: 0x4_0000 <= va < l.end && va % 0x1000 == 0 ==>
                    Lookup(mem, pt, va).pa == va && (va >= l.startData ==> Lookup(mem, pt, va).perm.write))
              && Lookup(mem, pt, 0x7_F000).pa == 0x7_F000 && Lookup(mem, pt, 0x7_F000).perm.write
  {
    forall va: nat | 0x4_0000 <= va < l.end && va % 0x1000 == 0
      ensures va == KernelAddress((va - 0x4_0000) / 0x1000)
    {
    }
    if MappingsPass(l, mem, pt) {
      forall va: nat | 0x4_0000 <= va < l.end && va % 0x1000 == 0
        ensures Lookup(mem, pt, va).pa == va && (va >= l.startData ==> Lookup(mem, pt, va).perm.write)
      {
        assert MappedToItself(mem, pt, KernelAddress((va - 0x4_0000) / 0x1000), va >= l.startData);
      }
    }
  }

  ghost predicate Owns(info: seq<PageInfo>, pt: int, owner: int, refcount: int)
    requires |info| == NPAGES
  {
    0 <= pt / 0x1000 < NPAGES && info[pt / 0x1000].owner == owner && info[pt / 0x1000].refcount == refcount
  }

  /** The table that entry `i` of the table at `pt` leads to. */
  function Child(mem: Memory, pt: int, i: int): int {
    Load(mem, pt, i) / 0x1000 * 0x1000
  }

  /** The ownership check, path by path: the root, and every table that nonzero entries lead to. */
  lemma OwnershipMeans(mem: Memory, info: seq<PageInfo>, pt: int, owner: int, refcount: int)
    requires |info| == NPAGES
    ensures TableOwned(mem, info, pt, 0, owner, refcount) <==>
              && Owns(info, pt, owner, refcount)
              && (forall i :: 0 <= i < 512 && Load(mem, pt, i) != 0 ==> Level2Owned(mem, info, Child(mem, pt, i), owner))
  {
    forall i | 0 <= i < 512
      ensures EntryOwned(mem, info, pt, i, 0, owner) <==> Level2Owned(mem, info, Child(mem, pt, i), owner)
    {
      Level2Means(mem, info, Child(mem, pt, i), owner);
    }
  }

  ghost predicate Level2Owned(mem: Memory, info: seq<PageInfo>, t: int, owner: int)
    requires |info| == NPAGES
  {
    && Owns(info, t, owner, 1)
    && (forall i :: 0 <= i < 512 && Load(mem, t, i) != 0 ==> Owns(info, Child(mem, t, i), owner, 1))
    && (forall i, j :: 0 <= i < 512 && 0 <= j < 512 && Load(mem, t, i) != 0 && Load(mem, Child(mem, t, i), j) != 0 ==>
          Owns(info, Child(mem, Child(mem, t, i), j), owner, 1))
  }

  lemma Level2Means(mem: Memory, info: seq<PageInfo>, t: int, owner: int)
    requires |info| == NPAGES
    ensures TableOwned(mem, info, t, 1, owner, 1) <==> Level2Owned(mem, info, t, owner)
  {
    forall i | 0 <= i < 512
      ensures EntryOwned(mem, info, t, i, 1, owner) <==>
                && Owns(info, Child(mem, t, i), owner, 1)
                && forall j :: 0 <= j < 512 && Load(mem, Child(mem, t, i), j) != 0 ==> Owns(info, Child(mem, Child(mem, t, i), j), owner, 1)
    {
      Level3Means(mem, info, Child(mem, t, i), owner);
    }
  }

  lemma Level3Means(mem: Memory, info: seq<PageInfo>, t: int, owner: int)
    requires |info| == NPAGES
    ensures TableOwned(mem, info, t, 2, owner, 1) <==>
              && Owns(info, t, owner, 1)
              && forall j :: 0 <= j < 512 && Load(mem, t, j) != 0 ==> Owns(info, Child(mem, t, j), owner, 1)
  {
    forall j | 0 <= j < 512
      ensures EntryOwned(mem, info, t, j, 2, owner) <==> Owns(info, Child(mem, t, j), owner, 1)
    {
    }
  }

  // ---------- what drawing memory on the console demands ----------

  /** The colour of page `pn` is in the table of colours. */
  predicate HasColor(info: seq<PageInfo>, pn: int) {
    0 <= pn < |info| && 0 <= (if info[pn].refcount == 0 then PO_FREE else info[pn].owner) - PO_KERNEL < COLORS
  }

  /** An address that is mapped is mapped into physical memory, to a page that has a colour. */
  ghost predicate Drawable(mem: Memory, info: seq<PageInfo>, pt: int, va: nat) {
    var vam := Lookup(mem, pt, va);
    vam.pn >= 0 ==> vam.pa < MEMSIZE_PHYSICAL && HasColor(info, vam.pn)
  }

  /** All that `memshow_virtual` asserts of the table at `pt`. */
  ghost predicate Shows(mem: Memory, info: seq<PageInfo>, pt: int) {
    PteAddr(pt) == pt && forall k: nat :: PAGESIZE * k < MEMSIZE_VIRTUAL ==> Drawable(mem, info, pt, PAGESIZE * k)
  }

  /** All that `check_virtual_memory` asserts. */
  ghost predicate SelfChecks(l: Layout, mem: Memory, info: seq<PageInfo>, procs: seq<Proc>)
    requires |info| == NPAGES && |procs| == NPROC
  {
    && procs[0].state == Free
    && MappingsPass(l, mem, l.tables) && OwnershipPasses(l, mem, info, procs, l.tables, -1)
    && (forall i :: 0 <= i < NPROC ==> OwnTablePasses(l, mem, info, procs, i))
    && (forall pn :: 0 <= pn < NPAGES ==> OwnerAlive(info, procs, pn))
  }

  /** The self-check, condition by condition. */
  lemma SelfChecksMean(l: Layout, mem: Memory, info: seq<PageInfo>, procs: seq<Proc>)
    requires |info| == NPAGES && |procs| == NPROC
    ensures SelfChecks(l, mem, info, procs) <==>
              && procs[0].state == Free && MappingsPass(l, mem, l.tables)
              && TableOwned(mem, info, l.tables, 0, -2, 1 + |set i | 0 <= i < NPROC && procs[i].state != Free && procs[i].pagetable == l.tables|)
              && (forall i :: 0 <= i < NPROC && procs[i].state != Free && procs[i].pagetable != l.tables ==>
                    MappingsPass(l, mem, procs[i].pagetable) && TableOwned(mem, info, procs[i].pagetable, 0, i, 1))
              && (forall pn :: 0 <= pn < NPAGES && info[pn].refcount > 0 && info[pn].owner >= 0 ==>
                    info[pn].owner < 16 && procs[info[pn].owner].state != Free)
  {
    SharersCounts(procs, l.tables, NPROC);
    assert forall i :: 0 <= i < NPROC ==> (OwnTablePasses(l, mem, info, procs, i) <==>
             (procs[i].state != Free && procs[i].pagetable != l.tables ==>
                MappingsPass(l, mem, procs[i].pagetable) && TableOwned(mem, info, procs[i].pagetable, 0, i, 1)));
    assert forall pn :: 0 <= pn < NPAGES ==> (OwnerAlive(info, procs, pn) <==>
             (info[pn].refcount > 0 && info[pn].owner >= 0 ==> info[pn].owner < 16 && procs[info[pn].owner].state != Free));
  }

  /** Free pages have a colour, and so do the kernel's, reserved ones, and those of the 16 processes. */
  lemma ColorsExactly(info: seq<PageInfo>, pn: int)
    requires 0 <= pn < |info|
    ensures HasColor(info, pn) <==> info[pn].refcount == 0 || -2 <= info[pn].owner <= 15
  {
  }

  class Kernel {
    const layout: Layout
    const vm: Machine
    const ram: array<int>
    var pageinfo: seq<PageInfo>
    var processes: seq<Proc>
    var current: int
    var ticks: nat
    /** When the console last changed, and the process it shows. */
    var lastTicks: nat
    var showing: nat

    /** The kernel page table maps physical memory to itself, through the five static tables. */
    ghost predicate Mapped()
      reads this, vm
    {
      && vm.Valid(layout.tables) && vm.Open()
      && vm.shape == KernelShape(layout.tables) && KernelUpper(vm.mem, layout.tables)
      && forall x: nat :: x < TWO64 ==> Lookup(vm.mem, layout.tables, x) == Identity(x)
    }

    predicate Uses(i: int, pending: int)
      requires 0 <= i < |processes|
      reads this
    {
      UsesTable(processes[i], i, pending)
    }

    ghost predicate Accounts(pending: int)
      reads this
    {
      Balanced(layout, pageinfo, processes, pending)
    }

    ghost predicate Inv(pending: int)
      reads this, vm
    {
      ram.Length == MEMSIZE_PHYSICAL && Mapped() && Accounts(pending)
    }

    constructor (layout: Layout)
      ensures this.layout == layout && fresh(vm) && fresh(ram) && ram.Length == MEMSIZE_PHYSICAL
      ensures vm.answers == [] && vm.taken == 0
    {
      this.layout := layout;
      vm := new Machine([]);
      ram := new int[MEMSIZE_PHYSICAL](_ => 0);
      pageinfo, processes, current, ticks := [], [], 0, 0;
      lastTicks, showing := 0, 1;
    }

    /** `assign_physical_page`: 0 and the page is the owner's, or -1 and nothing happens. */
    method AssignPhysicalPage(addr: nat, owner: int) returns (r: int)
      requires |pageinfo| == NPAGES
      modifies this`pageinfo
      ensures r == 0 || r == -1
      ensures r == 0 <==> addr % PAGESIZE == 0 && addr < MEMSIZE_PHYSICAL && old(pageinfo)[Pn(addr)].refcount == 0
      ensures r == 0 ==> pageinfo == old(pageinfo)[Pn(addr) := PageInfo(owner, 1)]
      ensures r == -1 ==> pageinfo == old(pageinfo)
    {
      if addr % PAGESIZE != 0 || addr >= MEMSIZE_PHYSICAL || pageinfo[Pn(addr)].refcount != 0 {
        return -1;
      }
      pageinfo := pageinfo[Pn(addr) := PageInfo(owner, 1)];
      r := 0;
    }

    lemma IdentityAt(x: nat)
      requires Mapped() && x < MEMSIZE_PHYSICAL
      ensures Lookup(vm.mem, layout.tables, x) == VaMapping(x / PAGESIZE, x, ALL_RIGHTS)
    {
      assert x % TWO48 == x;
      assert Lookup(vm.mem, layout.tables, x) == Identity(x);
    }

    /** The kernel functions and the table itself are mapped where they are. */
    ghost predicate Switchable(pt: nat)
      reads this, vm
    {
      && pt % PAGESIZE == 0
      && Lookup(vm.mem, pt, layout.intHandler).pa == layout.intHandler
      && Lookup(vm.mem, layout.tables, pt).pa == pt
      && Lookup(vm.mem, pt, layout.tables).pa == layout.tables
      && Lookup(vm.mem, pt, layout.mapFunction).pa == layout.mapFunction
    }

    lemma KernelTableSwitchable()
      requires GoodLayout(layout) && Mapped()
      ensures Switchable(layout.tables)
    {
      IdentityAt(layout.intHandler);
      IdentityAt(layout.tables);
      IdentityAt(layout.mapFunction);
    }

    /** `set_pagetable` up to the hardware instruction; false is a failed assertion. */
    method SetPagetable(pt: nat) returns (ok: bool)
      ensures ok <==> Switchable(pt)
      ensures ok <==> pt % 0x1000 == 0 && Lookup(vm.mem, pt, layout.intHandler).pa == layout.intHandler
                      && Lookup(vm.mem, layout.tables, pt).pa == pt && Lookup(vm.mem, pt, layout.tables).pa == layout.tables
                      && Lookup(vm.mem, pt, layout.mapFunction).pa == layout.mapFunction
    {
      var h := vm.VirtualMemoryLookup(pt, layout.intHandler);
      var p := vm.VirtualMemoryLookup(layout.tables, pt);
      var k := vm.VirtualMemoryLookup(pt, layout.tables);
      var m := vm.VirtualMemoryLookup(pt, layout.mapFunction);
      ok := pt % PAGESIZE == 0 && h.pa == layout.intHandler && p.pa == pt
            && k.pa == layout.tables && m.pa == layout.mapFunction;
    }

    /** `virtual_memory_map(kernel_pagetable, addr, addr, PAGESIZE, P|W|U, NULL)`. */
    method MapIdentity(addr: nat) returns (r: Outcome)
      requires GoodLayout(layout) && Mapped() && addr % PAGESIZE == 0 && addr < MEMSIZE_PHYSICAL
      modifies vm
      ensures r == Ok && Mapped()
    {
      ghost var before, done := vm.mem, 0;
      NoClashBelow48Bits(addr);
      r, done := vm.VirtualMemoryMap(layout.tables, addr, addr, PAGESIZE, PTE_PWU, false);
      UpperSameKeeps(before, vm.mem, layout.tables);
      if r == Fail {
        KernelReaches(vm.mem, layout.tables, addr, done);
        assert false;
      }
      IdentityRemapped(before, vm.mem, layout.tables, addr);
    }

    /** `pageinfo_init`: page 0 and the pages from 0xA0 to 0xFF are reserved, the kernel's image and its stack
        page are the kernel's, and everything else is free. */
    method PageInfoInit()
      requires GoodLayout(layout)
      modifies this`pageinfo
      ensures |pageinfo| == NPAGES
      ensures forall pn :: 0 <= pn < NPAGES ==>
                pageinfo[pn] == (if pn == 0 || 0xA0 <= pn < 0x100 then PageInfo(-1, 1)
                                 else if (0x40 <= pn && pn * 0x1000 < layout.end) || pn == 0x7F then PageInfo(-2, 1)
                                 else PageInfo(0, 0))
      ensures forall pn :: 0 <= pn < NPAGES ==> pageinfo[pn] == InitialInfo(layout, pn)
    {
      var addr := 0;
      pageinfo := [];
      while addr < MEMSIZE_PHYSICAL
        invariant addr == PAGESIZE * |pageinfo| && addr <= MEMSIZE_PHYSICAL
        invariant forall pn :: 0 <= pn < |pageinfo| ==> pageinfo[pn] == InitialInfo(layout, pn)
      {
        var owner := PO_FREE;
        if IsReserved(addr) {
          owner := PO_RESERVED;
        } else if (addr >= KERNEL_START_ADDR && addr < layout.end) || addr == KERNEL_STACK_TOP - PAGESIZE {
          owner := PO_KERNEL;
        }
        pageinfo := pageinfo + [PageInfo(owner, if owner != PO_FREE then 1 else 0)];
        addr := addr + PAGESIZE;
      }
    }

    /** Give the free page at `addr` to process `pid` and map it, as `page_alloc` and the loader do. */
    method AssignAndMap(addr: nat, pid: int, ghost pending: int) returns (r: int)
      requires Inv(pending) && 0 < pid < NPROC && Uses(pid, pending)
      modifies this`pageinfo, vm
      ensures Inv(pending) && OwnersKept(old(pageinfo), pageinfo)
      ensures r == 0 || r == -1
      ensures r == 0 <==> addr % PAGESIZE == 0 && addr < MEMSIZE_PHYSICAL && old(pageinfo)[Pn(addr)].refcount == 0
      ensures r == 0 ==> pageinfo == old(pageinfo)[Pn(addr) := PageInfo(pid, 1)]
      ensures r == 0 ==> FreePages(pageinfo, NPAGES) == FreePages(old(pageinfo), NPAGES) - 1
      ensures r == -1 ==> pageinfo == old(pageinfo)
    {
      r := AssignPhysicalPage(addr, pid);
      if r >= 0 {
        AssignBalances(layout, old(pageinfo), processes, pending, Pn(addr), pid);
        var m := MapIdentity(addr);
        assert m == Ok;
      }
    }

    /** `memcpy` into physical memory, seen through the identity mapping. */
    method MemCpy(dst: nat, src: seq<int>, n: nat)
      requires n <= |src| && (n > 0 ==> dst + n <= ram.Length)
      modifies ram
      ensures forall x :: 0 <= x < ram.Length ==> ram[x] == if dst <= x < dst + n then src[x - dst] else old(ram[x])
    {
      var d := 0;
      while d < n
        invariant d <= n
        invariant forall x :: 0 <= x < ram.Length ==> ram[x] == if dst <= x < dst + d then src[x - dst] else old(ram[x])
      {
        ram[dst + d] := src[d];
        d := d + 1;
      }
    }

    method MemSet(dst: nat, c: int, n: nat)
      requires n > 0 ==> dst + n <= ram.Length
      modifies ram
      ensures forall x :: 0 <= x < ram.Length ==> ram[x] == if dst <= x < dst + n then c else old(ram[x])
    {
      var d := 0;
      while d < n
        invariant d <= n
        invariant forall x :: 0 <= x < ram.Length ==> ram[x] == if dst <= x < dst + d then c else old(ram[x])
      {
        ram[dst + d] := c;
        d := d + 1;
      }
    }

    /** One page of the loop below. */
    method AssignNext(ghost before: seq<PageInfo>, addr: nat, pid: int, ghost first: nat, ghost n: nat, ghost pending: int)
      returns (r: int)
      requires Inv(pending) && 0 < pid < NPROC && Uses(pid, pending) && addr == n * PAGESIZE && first <= n
      requires OwnersKept(before, pageinfo) && Assigned(before, pageinfo, pid, first, n) && AllFree(before, first, n)
      modifies this`pageinfo, vm
      ensures Inv(pending) && OwnersKept(before, pageinfo)
      ensures r == 0 || r == -1
      ensures r == 0 <==> IsFree(before, n)
      ensures r == 0 ==> Assigned(before, pageinfo, pid, first, n + 1) && AllFree(before, first, n + 1)
      ensures r == -1 ==> pageinfo == old(pageinfo)
    {
      assert Pn(addr) == n;
      r := AssignAndMap(addr, pid, pending);
    }

    /** The allocation loop of `program_load_segment`. On failure it stops at the first page that is not
        free, with the pages before it assigned. */
    method AssignPages(pid: int, ph: Segment, ghost pending: int) returns (r: int, ghost stop: nat)
      requires Inv(pending) && 0 < pid < NPROC && Uses(pid, pending)
      modifies this`pageinfo, vm
      ensures Inv(pending) && OwnersKept(old(pageinfo), pageinfo)
      ensures r == 0 || r == -1
      ensures r == 0 <==> CanLoad(old(pageinfo), ph)
      ensures Assigned(old(pageinfo), pageinfo, pid, FirstPage(ph), if r == 0 then EndPage(ph) else stop)
      ensures r == -1 ==> FirstPage(ph) <= stop < EndPage(ph) && AllFree(old(pageinfo), FirstPage(ph), stop) && !IsFree(old(pageinfo), stop)
    {
      var addr := RoundDown(ph.va);
      ghost var first, last := FirstPage(ph), EndPage(ph);
      stop := first;
      PageCovered(ph, stop);
      while addr < ph.va + ph.memsz
        invariant addr == stop * PAGESIZE && first <= stop && (stop == first || stop <= last)
        invariant addr < ph.va + ph.memsz <==> stop < last
        invariant Inv(pending) && OwnersKept(old(pageinfo), pageinfo)
        invariant Assigned(old(pageinfo), pageinfo, pid, first, stop) && AllFree(old(pageinfo), first, stop)
      {
        r := AssignNext(old(pageinfo), addr, pid, first, stop, pending);
        if r < 0 {
          return;
        }
        addr, stop := addr + PAGESIZE, stop + 1;
        PageCovered(ph, stop);
      }
      r := 0;
    }

    /** The copy and the clearing at the end of `program_load_segment`. */
    method CopySegment(ph: Segment)
      requires GoodSegment(ph) && (RoundDown(ph.va) < ph.va + ph.memsz ==> ph.va + ph.memsz <= ram.Length)
      modifies ram
      ensures forall x :: 0 <= x < ram.Length ==> ram[x] == LoadedByte(old(ram[..]), ph, x)
      ensures Filled(old(ram[..]), ram[..], ph)
    {
      var va, endFile, endMem := RoundDown(ph.va), ph.va + ph.filesz, ph.va + ph.memsz;
      MemCpy(va, ph.bytes, endFile - va);
      MemSet(endFile, 0, endMem - endFile);
      LoadedIsFilled(old(ram[..]), ram[..], ph);
    }

    /** `program_load_segment`. */
    method ProgramLoadSegment(pid: int, ph: Segment, ghost pending: int) returns (r: int, ghost stop: nat)
      requires Inv(pending) && 0 < pid < NPROC && Uses(pid, pending) && GoodSegment(ph)
      modifies this`pageinfo, vm, ram
      ensures Inv(pending) && OwnersKept(old(pageinfo), pageinfo)
      ensures r == 0 || r == -1
      ensures r == 0 <==> CanLoad(old(pageinfo), ph)
      ensures Assigned(old(pageinfo), pageinfo, pid, FirstPage(ph), if r == 0 then EndPage(ph) else stop)
      ensures r == -1 ==> FirstPage(ph) <= stop < EndPage(ph) && AllFree(old(pageinfo), FirstPage(ph), stop) && !IsFree(old(pageinfo), stop)
      ensures r == 0 ==> forall x :: 0 <= x < ram.Length ==> ram[x] == LoadedByte(old(ram[..]), ph, x)
      ensures r == 0 ==> Filled(old(ram[..]), ram[..], ph)
      ensures r == 0 ==> forall x :: RoundDown(ph.va) <= x < ph.va + ph.memsz ==>
                Lookup(vm.mem, processes[pid].pagetable, x) == VaMapping(Pn(x), x, ALL_RIGHTS)
      ensures r == -1 ==> ram[..] == old(ram[..])
    {
      r, stop := AssignPages(pid, ph, pending);
      if r < 0 {
        return;
      }
      var ok := SetPagetable(processes[pid].pagetable);
      assert ok by {
        KernelTableSwitchable();
      }
      if RoundDown(ph.va) < ph.va + ph.memsz {
        LoadFits(old(pageinfo), ph);
      }
      CopySegment(ph);
      ok := SetPagetable(layout.tables);
      assert ok by {
        KernelTableSwitchable();
      }
      forall x | RoundDown(ph.va) <= x < ph.va + ph.memsz
        ensures Lookup(vm.mem, processes[pid].pagetable, x) == VaMapping(Pn(x), x, ALL_RIGHTS)
      {
        IdentityAt(x);
      }
    }

    /** One round of the loop of `program_load`. */
    method LoadNext(ghost before: seq<PageInfo>, ghost was: seq<int>, pid: int, ghost segs: seq<Segment>, ph: Segment,
                    ghost k: nat, ghost pending: int)
      returns (r: int)
      requires Inv(pending) && 0 < pid < NPROC && Uses(pid, pending)
      requires k < |segs| && ph == segs[k] && (forall i :: 0 <= i < |segs| ==> GoodSegment(segs[i]))
      requires Loaded(before, was, pageinfo, ram[..], pid, segs, k)
      modifies this`pageinfo, vm, ram
      ensures Inv(pending) && (r == 0 || r == -1)
      ensures r == 0 ==> Loaded(before, was, pageinfo, ram[..], pid, segs, k + 1)
      ensures r == -1 ==> !Placeable(before, segs, k + 1) && ram[..] == old(ram[..])
    {
      ghost var info, m := pageinfo, ram[..];
      r := 0;
      if ph.load {
        NextPlaceable(before, info, pid, segs, k);
        ghost var stop;
        r, stop := ProgramLoadSegment(pid, ph, pending);
        if r < 0 {
          return;
        }
        LoadedIsResident(info, pageinfo, m, ram[..], pid, ph);
      }
      NextLoaded(before, was, info, m, pageinfo, ram[..], pid, segs, k);
    }

    /** `program_load`: every loadable segment in turn, then the entry point. It succeeds exactly when all
        the pages it needs are free and no two segments share one. */
    method ProgramLoad(pid: int, image: Image, ghost pending: int) returns (r: int)
      requires Inv(pending) && 0 < pid < NPROC && Uses(pid, pending)
      requires forall i :: 0 <= i < |image.segments| ==> GoodSegment(image.segments[i])
      modifies this`pageinfo, this`processes, vm, ram
      ensures Inv(pending) && (r == 0 || r == -1)
      ensures r == 0 <==> Placeable(old(pageinfo), image.segments, |image.segments|)
      ensures r == 0 ==> Loaded(old(pageinfo), old(ram[..]), pageinfo, ram[..], pid, image.segments, |image.segments|)
      ensures UsedKept(old(ram[..]), ram[..], old(pageinfo)) && TablesKept(layout, old(ram[..]), ram[..])
      ensures r == 0 ==> forall i :: 0 <= i < |image.segments| ==> Imaged(ram[..], image.segments[i])
      ensures processes == if r == 0 then old(processes)[pid := WithRip(old(processes)[pid], image.entry)] else old(processes)
    {
      var i := 0;
      while i < |image.segments|
        invariant 0 <= i <= |image.segments|
        invariant Inv(pending) && processes == old(processes)
        invariant Loaded(old(pageinfo), old(ram[..]), pageinfo, ram[..], pid, image.segments, i)
      {
        r := LoadNext(old(pageinfo), old(ram[..]), pid, image.segments, image.segments[i], i, pending);
        if r < 0 {
          TablesAreUsed(layout, old(pageinfo), processes, pending, old(ram[..]), ram[..]);
          return;
        }
        i := i + 1;
      }
      TablesAreUsed(layout, old(pageinfo), processes, pending, old(ram[..]), ram[..]);
      AllImaged(pageinfo, ram[..], pid, image.segments);
      DescriptorBalances(layout, pageinfo, processes, pending, pending, pid, WithRip(processes[pid], image.entry));
      processes := processes[pid := WithRip(processes[pid], image.entry)];
      r := 0;
    }

    /** `process_setup`; false is the failed assertion on `program_load`'s result. It fails exactly when
        some page the program needs is not free, or is needed twice. */
    method ProcessSetup(pid: int, image: Image) returns (ok: bool)
      requires Inv(-1) && 1 <= pid <= 4 && processes[pid].state == Free
      requires forall i :: 0 <= i < |image.segments| ==> GoodSegment(image.segments[i])
      modifies this`pageinfo, this`processes, vm, ram
      ensures ok <==> Placeable(old(pageinfo), image.segments, |image.segments|)
      ensures ok ==> Inv(-1) && SetUp(layout, old(pageinfo), pageinfo, old(ram[..]), ram[..], pid, image.segments)
      ensures ok ==> processes == old(processes)[pid := NewProcess(layout, pid, image)]
    {
      ghost var info, m := pageinfo, ram[..];
      ghost var info1;
      var r;
      r, info1 := Prepare(pid, image);
      if r < 0 {
        return false;
      }
      ghost var info2 := pageinfo;
      GiveStack(pid);
      SetUpComplete(layout, info, info1, info2, pageinfo, m, ram[..], pid, image.segments);
      ok := true;
    }

    /** `process_setup` up to the assertion; `counted` is the page accounts before the program is loaded. */
    method Prepare(pid: int, image: Image) returns (r: int, ghost counted: seq<PageInfo>)
      requires Inv(-1) && 1 <= pid <= 4 && processes[pid].state == Free
      requires forall i :: 0 <= i < |image.segments| ==> GoodSegment(image.segments[i])
      modifies this`pageinfo, this`processes, vm, ram
      ensures Inv(pid) && (r == 0 || r == -1)
      ensures r == 0 <==> Placeable(old(pageinfo), image.segments, |image.segments|)
      ensures SameUse(old(pageinfo), counted)
      ensures forall pn :: 0 <= pn < NPAGES && pn != Pn(layout.tables) ==> counted[pn] == old(pageinfo)[pn]
      ensures r == 0 ==> Loaded(counted, old(ram[..]), pageinfo, ram[..], pid, image.segments, |image.segments|)
      ensures r == 0 ==> processes == old(processes)[pid := WithRip(Proc(pid, ZERO_REGS, Free, layout.tables), image.entry)]
    {
      ghost var info := pageinfo;
      AddUser(pid);
      counted := pageinfo;
      SameUsePlaceable(info, counted, image.segments, |image.segments|);
      r := ProgramLoad(pid, image, pid);
    }

    method MarkRunnable(pid: int)
      requires Inv(pid) && 1 <= pid <= 4
      modifies this`processes
      ensures Inv(-1) && processes == old(processes)[pid := WithState(old(processes)[pid], Runnable)]
    {
      DescriptorBalances(layout, pageinfo, processes, pid, -1, pid, WithState(processes[pid], Runnable));
      processes := processes[pid := WithState(processes[pid], Runnable)];
    }

    /** `process_init`, and one more user of the kernel page table. */
    method AddUser(pid: int)
      requires Inv(-1) && 1 <= pid <= 4 && processes[pid].state == Free
      modifies this`pageinfo, this`processes
      ensures Inv(pid) && SameUse(old(pageinfo), pageinfo)
      ensures forall pn :: 0 <= pn < NPAGES && pn != Pn(layout.tables) ==> pageinfo[pn] == old(pageinfo)[pn]
      ensures processes == old(processes)[pid := Proc(pid, ZERO_REGS, Free, layout.tables)]
    {
      var p := Proc(pid, ZERO_REGS, Free, layout.tables);
      var k := Pn(layout.tables);
      SetupBalances(layout, pageinfo, processes, pid, p);
      processes := processes[pid := p];
      pageinfo := pageinfo[k := PageInfo(pageinfo[k].owner, pageinfo[k].refcount + 1)];
    }

    /** The rest of `process_setup`: a stack page, unless it is taken (the result of
        `assign_physical_page` is not looked at), and the process is runnable. */
    method GiveStack(pid: int)
      requires Inv(pid) && 1 <= pid <= 4
      modifies this`pageinfo, this`processes, vm
      ensures Inv(-1) && OwnersKept(old(pageinfo), pageinfo)
      ensures processes == old(processes)[pid := Launched(old(processes)[pid], pid)]
      ensures StackGiven(old(pageinfo), pageinfo, pid)
    {
      var rsp := PROC_START_ADDR + PROC_SIZE * pid;
      SetRsp(pid, rsp);
      AssignStack(pid, rsp - PAGESIZE);
      MarkRunnable(pid);
    }

    method AssignStack(pid: int, stackPage: nat)
      requires Inv(pid) && 1 <= pid <= 4 && stackPage == PROC_START_ADDR + PROC_SIZE * pid - PAGESIZE
      modifies this`pageinfo, vm
      ensures Inv(pid) && OwnersKept(old(pageinfo), pageinfo) && StackGiven(old(pageinfo), pageinfo, pid)
    {
      assert Pn(stackPage) == StackPage(pid);
      var r := AssignPhysicalPage(stackPage, pid);
      if r == 0 {
        AssignBalances(layout, old(pageinfo), processes, pid, StackPage(pid), pid);
      }
      var m := MapIdentity(stackPage);
    }

    method SetRsp(pid: int, rsp: nat)
      requires Inv(pid) && 1 <= pid <= 4
      modifies this`processes
      ensures Inv(pid) && processes == old(processes)[pid := WithRsp(old(processes)[pid], rsp)]
    {
      DescriptorBalances(layout, pageinfo, processes, pid, pid, pid, WithRsp(processes[pid], rsp));
      processes := processes[pid := WithRsp(processes[pid], rsp)];
    }

    /** `kernel`, up to the first `run`: hardware and page accounting, then the processes.
        `images` are the programs to start as processes 1, 2, ...; false is a failed assertion. */
    method Boot(images: seq<Image>) returns (ok: bool)
      requires GoodLayout(layout) && ram.Length == MEMSIZE_PHYSICAL && vm.answers == []
      requires 1 <= |images| <= 4 && GoodImages(images)
      modifies this, vm, ram
      ensures WellPlaced(images) ==> ok
      ensures ok ==> Started(images, |images|) && current == 1
      ensures ok ==> forall i, j :: 0 <= i < |images| && 0 <= j < |images[i].segments| ==> Imaged(ram[..], images[i].segments[j])
    {
      InitKernel();
      var i := 0;
      while i < |images|
        invariant 0 <= i <= |images| && Started(images, i)
        invariant WellPlaced(images) ==> FreeFrom(pageinfo, FirstProcessPage(i + 1))
      {
        ok := StartProcess(images, i);
        if !ok {
          return;
        }
        i := i + 1;
      }
      BootImaged(images);
      ok := Run(1);
    }

    lemma BootImaged(images: seq<Image>)
      requires GoodImages(images) && Started(images, |images|)
      ensures forall i, j :: 0 <= i < |images| && 0 <= j < |images[i].segments| ==> Imaged(ram[..], images[i].segments[j])
    {
      forall i, j | 0 <= i < |images| && 0 <= j < |images[i].segments|
        ensures Imaged(ram[..], images[i].segments[j])
      {
        ResidentIsImaged(pageinfo, ram[..], i + 1, images[i].segments[j]);
      }
    }

    /** The first `n` programs are loaded and runnable. */
    ghost predicate Started(images: seq<Image>, n: nat)
      requires n <= |images| && GoodImages(images)
      reads this, vm, ram
    {
      && Inv(-1) && AllResident(pageinfo, ram[..], images, n)
      && forall p :: 0 <= p < NPROC ==> processes[p].state == if 1 <= p <= n then Runnable else Free
    }

    method StartProcess(images: seq<Image>, i: nat) returns (ok: bool)
      requires i < |images| <= 4 && GoodImages(images) && Started(images, i)
      modifies this`pageinfo, this`processes, vm, ram
      ensures ok ==> Started(images, i + 1)
      ensures WellPlaced(images) && FreeFrom(old(pageinfo), FirstProcessPage(i + 1)) ==>
                ok && FreeFrom(pageinfo, FirstProcessPage(i + 2))
    {
      ghost var info, m := pageinfo, ram[..];
      if WellPlaced(images) && FreeFrom(info, FirstProcessPage(i + 1)) {
        WellPlacedNext(info, images, i);
      }
      ok := ProcessSetup(i + 1, images[i]);
      if ok {
        ResidentNext(layout, info, pageinfo, m, ram[..], images, i);
      }
    }

    /** The first half of `kernel`: memory mapped, pages accounted for, no process yet. */
    method InitKernel()
      requires GoodLayout(layout) && ram.Length == MEMSIZE_PHYSICAL && vm.answers == []
      modifies this, vm
      ensures Inv(-1) && FreeFrom(pageinfo, FirstProcessPage(1))
      ensures forall p :: 0 <= p < NPROC ==> processes[p].state == Free
    {
      vm.VirtualMemoryInit(layout.tables);
      PageInfoInit();
      processes := seq(NPROC, i => Proc(i, ZERO_REGS, Free, 0));
      NoUsers(processes, NPROC);
      KernelPagesOwned();
    }

    lemma KernelPagesOwned()
      requires GoodLayout(layout) && |pageinfo| == NPAGES
      requires forall pn :: 0 <= pn < NPAGES ==> pageinfo[pn] == InitialInfo(layout, pn)
      ensures forall pn :: Pn(layout.tables) <= pn <= Pn(layout.tables) + 4 ==> pageinfo[pn] == PageInfo(PO_KERNEL, 1)
    {
    }

    /** `run`, up to the return to user mode; false is a failed assertion. */
    method Run(pid: int) returns (ok: bool)
      requires |processes| == NPROC && 0 <= pid < NPROC
      modifies this`current
      ensures Inv(-1) && processes[pid].state == Runnable ==> ok
      ensures ok ==> current == pid && processes[pid].state == Runnable
    {
      if processes[pid].state != Runnable {
        return false;
      }
      current := pid;
      ok := SetPagetable(processes[pid].pagetable);
      if Inv(-1) {
        KernelTableSwitchable();
      }
    }

    /** `schedule`: probe the processes cyclically after the current one. */
    method Schedule() returns (v: Verdict)
      requires Inv(-1) && 0 <= current < NPROC
      modifies this`current
      ensures v == match NextRunnable(processes, old(current), NPROC)
                   case Some(p) => Running(p)
                   case None => Spinning
      ensures v.Running? ==> current == v.pid && 0 < v.pid < NPROC && processes[v.pid].state == Runnable
      ensures v.Spinning? ==> current == old(current) && forall p :: 0 <= p < NPROC ==> processes[p].state != Runnable
    {
      var next := Probe(processes, current);
      if next.None? {
        forall p | 0 <= p < NPROC
          ensures processes[p].state != Runnable
        {
          if processes[p].state == Runnable {
            NextIsNearest(processes, current, NPROC, p);
          }
        }
        return Spinning;
      }
      var ok := Run(next.value);
      assert ok;
      v := Running(next.value);
    }

    /** A nonzero entry above level 4 of the kernel table leads to another kernel-owned table. */
    lemma EntryLeadsToTable(pt: int, index: int)
      requires Inv(-1) && pt in vm.shape && vm.shape[pt].level < 3 && Load(vm.mem, pt, index) != 0
      ensures var next := PteAddr(Load(vm.mem, pt, index));
              && next in vm.shape && next != layout.tables && vm.shape[next].level == vm.shape[pt].level + 1
              && 0 <= Pn(next) < NPAGES && pageinfo[Pn(next)] == PageInfo(PO_KERNEL, 1)
    {
      var base := layout.tables;
      assert Load(vm.mem, pt, index) == KernelEntry(base, pt, index);
      PwuEntry(base + PAGESIZE);
      PwuEntry(base + 2 * PAGESIZE);
      PwuEntry(base + 3 * PAGESIZE);
      PwuEntry(base + 4 * PAGESIZE);
    }

    /** Under the invariant the subtree of every kernel table passes the ownership check. */
    lemma {:induction false} KernelTableOwned(pt: int, level: nat, refcount: int)
      requires Inv(-1) && pt in vm.shape && vm.shape[pt].level == level
      requires 0 <= Pn(pt) < NPAGES && pageinfo[Pn(pt)] == PageInfo(PO_KERNEL, refcount)
      ensures TableOwned(vm.mem, pageinfo, pt, level, PO_KERNEL, refcount)
      decreases 3 - level
    {
      if level < 3 {
        forall index | 0 <= index < 512 && Load(vm.mem, pt, index) != 0
          ensures EntryOwned(vm.mem, pageinfo, pt, index, level, PO_KERNEL)
        {
          EntryLeadsToTable(pt, index);
          KernelTableOwned(PteAddr(Load(vm.mem, pt, index)), level + 1, 1);
        }
      }
    }

    /** `check_page_table_ownership_level`; false is a failed assertion. */
    method CheckOwnershipLevel(pt: int, level: nat, owner: int, refcount: int) returns (ok: bool)
      requires |pageinfo| == NPAGES && level <= 3
      ensures ok <==> TableOwned(vm.mem, pageinfo, pt, level, owner, refcount)
      decreases 3 - level
    {
      if !(0 <= Pn(pt) < NPAGES) || pageinfo[Pn(pt)].owner != owner || pageinfo[Pn(pt)].refcount != refcount {
        return false;
      }
      if level < 3 {
        var index := 0;
        while index < 512
          invariant 0 <= index <= 512
          invariant forall i :: 0 <= i < index && Load(vm.mem, pt, i) != 0 ==> EntryOwned(vm.mem, pageinfo, pt, i, level, owner)
        {
          if Load(vm.mem, pt, index) != 0 {
            ok := CheckOwnershipLevel(PteAddr(Load(vm.mem, pt, index)), level + 1, owner, 1);
            if !ok {
              assert !EntryOwned(vm.mem, pageinfo, pt, index, level, owner);
              return;
            }
          }
          index := index + 1;
        }
      }
      ok := true;
    }

    lemma KernelMappingsPass()
      requires GoodLayout(layout) && Mapped()
      ensures MappingsPass(layout, vm.mem, layout.tables)
    {
      forall k: nat | KernelAddress(k) < layout.end
        ensures MappedToItself(vm.mem, layout.tables, KernelAddress(k), KernelAddress(k) >= layout.startData)
      {
        IdentityAt(KernelAddress(k));
      }
      IdentityAt(KERNEL_STACK_TOP - PAGESIZE);
    }

    /** `check_page_table_mappings`; false is a failed assertion. */
    method CheckMappings(pt: nat) returns (ok: bool)
      ensures ok <==> MappingsPass(layout, vm.mem, pt)
    {
      if PteAddr(pt) != pt {
        return false;
      }
      var va := KERNEL_START_ADDR;
      ghost var n: nat := 0;
      while va < layout.end
        invariant va == KernelAddress(n)
        invariant forall k: nat :: k < n ==>
                    MappedToItself(vm.mem, pt, KernelAddress(k), KernelAddress(k) >= layout.startData)
      {
        ok := CheckAddress(pt, va, va >= layout.startData);
        if !ok {
          return;
        }
        va, n := va + PAGESIZE, n + 1;
      }
      ok := CheckAddress(pt, KERNEL_STACK_TOP - PAGESIZE, true);
    }

    method CheckAddress(pt: nat, va: nat, writable: bool) returns (ok: bool)
      ensures ok <==> MappedToItself(vm.mem, pt, va, writable)
    {
      var vam := vm.VirtualMemoryLookup(pt, va);
      ok := vam.pa == va && (writable ==> vam.perm.write);
    }

    /** `check_page_table_ownership`; false is a failed assertion. */
    method CheckOwnership(pt: nat, pid: int) returns (ok: bool)
      requires |pageinfo| == NPAGES && |processes| == NPROC
      ensures ok <==> OwnershipPasses(layout, vm.mem, pageinfo, processes, pt, pid)
    {
      var owner, expected := pid, 1;
      if pt == layout.tables {
        owner := PO_KERNEL;
        for x := 0 to NPROC
          invariant expected == 1 + Sharers(processes, layout.tables, x)
        {
          if processes[x].state != Free && processes[x].pagetable == layout.tables {
            expected := expected + 1;
          }
        }
      }
      ok := CheckOwnershipLevel(pt, 0, owner, expected);
    }

    /** The kernel's self-check holds in every state the kernel can be in. */
    lemma InvariantPassesChecks()
      requires Inv(-1)
      ensures SelfChecks(layout, vm.mem, pageinfo, processes)
    {
      KernelMappingsPass();
      SharersAreUsers(layout, pageinfo, processes, NPROC);
      KernelTableOwned(layout.tables, 0, 1 + Users(processes, -1, NPROC));
    }

    /** `check_virtual_memory`; false is a failed assertion. */
    method CheckVirtualMemory() returns (ok: bool)
      requires |pageinfo| == NPAGES && |processes| == NPROC
      ensures ok <==> SelfChecks(layout, vm.mem, pageinfo, processes)
    {
      if processes[0].state != Free {
        return false;
      }
      ok := CheckMappings(layout.tables);
      if !ok {
        return;
      }
      ok := CheckOwnership(layout.tables, -1);
      if !ok {
        return;
      }
      ok := CheckProcessTables();
      if !ok {
        return;
      }
      for pn := 0 to NPAGES
        invariant forall k :: 0 <= k < pn ==> OwnerAlive(pageinfo, processes, k)
      {
        if pageinfo[pn].refcount > 0 && pageinfo[pn].owner >= 0 {
          if pageinfo[pn].owner >= NPROC || processes[pageinfo[pn].owner].state == Free {
            assert !OwnerAlive(pageinfo, processes, pn);
            return false;
          }
        }
      }
      ok := true;
    }

    /** The loop of `check_virtual_memory` over processes with a page table of their own. */
    method CheckProcessTables() returns (ok: bool)
      requires |pageinfo| == NPAGES && |processes| == NPROC
      ensures ok <==> forall i :: 0 <= i < NPROC ==> OwnTablePasses(layout, vm.mem, pageinfo, processes, i)
    {
      for pid := 0 to NPROC
        invariant forall i :: 0 <= i < pid ==> OwnTablePasses(layout, vm.mem, pageinfo, processes, i)
      {
        if processes[pid].state != Free && processes[pid].pagetable != layout.tables {
          ok := CheckMappings(processes[pid].pagetable);
          if ok {
            ok := CheckOwnership(processes[pid].pagetable, pid);
          }
          if !ok {
            assert !OwnTablePasses(layout, vm.mem, pageinfo, processes, pid);
            return;
          }
        }
      }
      ok := true;
    }

    lemma PagesHaveColors()
      requires Inv(-1)
      ensures forall pn :: 0 <= pn < NPAGES ==> HasColor(pageinfo, pn)
    {
    }

    /** Under the invariant the table of every live process can be drawn. */
    lemma LiveTablesShow(i: int)
      requires Inv(-1) && 0 <= i < NPROC && processes[i].state != Free
      ensures Shows(vm.mem, pageinfo, processes[i].pagetable)
    {
      assert UsesTable(processes[i], i, -1);
      PagesHaveColors();
      forall k: nat | PAGESIZE * k < MEMSIZE_VIRTUAL
        ensures Drawable(vm.mem, pageinfo, layout.tables, PAGESIZE * k)
      {
        assert Lookup(vm.mem, layout.tables, PAGESIZE * k) == Identity(PAGESIZE * k);
      }
    }

    /** `memshow_physical`, up to the drawing; false is an index outside the table of colours. */
    method MemshowPhysical() returns (ok: bool)
      requires |pageinfo| == NPAGES
      ensures ok <==> forall pn :: 0 <= pn < NPAGES ==> HasColor(pageinfo, pn)
    {
      for pn := 0 to NPAGES
        invariant forall k :: 0 <= k < pn ==> HasColor(pageinfo, k)
      {
        var owner := pageinfo[pn].owner;
        if pageinfo[pn].refcount == 0 {
          owner := PO_FREE;
        }
        if !(0 <= owner - PO_KERNEL < COLORS) {
          assert !HasColor(pageinfo, pn);
          return false;
        }
      }
      ok := true;
    }

    /** The body of the loop of `memshow_virtual`. */
    method DrawAddress(pt: nat, va: nat) returns (ok: bool)
      ensures ok <==> Drawable(vm.mem, pageinfo, pt, va)
    {
      var vam := vm.VirtualMemoryLookup(pt, va);
      ok := vam.pn < 0 || (vam.pa < MEMSIZE_PHYSICAL && HasColor(pageinfo, vam.pn));
    }

    /** `memshow_virtual`, up to the drawing; false is a failed assertion. */
    method MemshowVirtual(pt: nat) returns (ok: bool)
      ensures ok <==> Shows(vm.mem, pageinfo, pt)
    {
      if PteAddr(pt) != pt {
        return false;
      }
      var va := 0;
      ghost var n: nat := 0;
      while va < MEMSIZE_VIRTUAL
        invariant va == PAGESIZE * n
        invariant forall k: nat :: k < n ==> Drawable(vm.mem, pageinfo, pt, PAGESIZE * k)
      {
        ok := DrawAddress(pt, va);
        if !ok {
          return;
        }
        va, n := va + PAGESIZE, n + 1;
      }
      ok := true;
    }

    /** `memshow_virtual_animate`: after half a second the next process, and in any case the first one from
        there on that is not gone. `skipped` counts those that are. */
    method MemshowVirtualAnimate() returns (ok: bool, ghost skipped: nat)
      requires |processes| == NPROC
      modifies this`lastTicks, this`showing
      ensures var switch := old(lastTicks) == 0 || (ticks - old(lastTicks)) % 0x1_0000_0000 >= 50;
              var from := if switch then old(showing) + 1 else old(showing);
              && lastTicks == (if switch then ticks else old(lastTicks)) && showing == (from + skipped) % 16
              && (forall k :: from <= k < from + skipped ==> processes[k % 16].state == Free)
      ensures old(showing) < 16 && (exists i :: 0 <= i < 16 && processes[i].state != Free) ==> processes[showing].state != Free
      ensures ok <==> (processes[showing].state != Free ==> Shows(vm.mem, pageinfo, processes[showing].pagetable))
    {
      if lastTicks == 0 || (ticks - lastTicks) % 0x1_0000_0000 >= HZ / 2 {
        lastTicks := ticks;
        showing := showing + 1;
      }
      skipped := SkipDead();
      ok := true;
      if processes[showing].state != Free {
        ok := MemshowVirtual(processes[showing].pagetable);
      }
    }

    /** The loop of `memshow_virtual_animate`. */
    method SkipDead() returns (ghost skipped: nat)
      requires |processes| == NPROC
      modifies this`showing
      ensures showing == (old(showing) + skipped) % 16
      ensures forall k :: old(showing) <= k < old(showing) + skipped ==> processes[k % 16].state == Free
      ensures old(showing) <= 16 && (exists i :: 0 <= i < 16 && processes[i].state != Free) ==> processes[showing].state != Free
    {
      skipped := 0;
      while showing <= 2 * NPROC && processes[showing % NPROC].state == Free
        invariant showing == old(showing) + skipped && (old(showing) <= 16 ==> showing <= 33)
        invariant forall k :: old(showing) <= k < showing ==> processes[k % 16].state == Free
        decreases 2 * NPROC + 1 - showing
      {
        showing, skipped := showing + 1, skipped + 1;
      }
      if showing > 2 * NPROC && old(showing) <= 16 {
        forall i | 0 <= i < 16
          ensures processes[i].state == Free
        {
          assert (16 + i) % 16 == i;
        }
      }
      showing := showing % NPROC;
    }

    /** Checks and drawing at the head of `exception`; the kernel's assertions hold. */
    method CheckAndShow()
      requires Inv(-1)
      modifies this`lastTicks, this`showing
      ensures Inv(-1)
    {
      var ok := CheckVirtualMemory();
      assert ok by {
        InvariantPassesChecks();
      }
      ok := MemshowPhysical();
      assert ok by {
        PagesHaveColors();
      }
      ghost var skipped;
      ok, skipped := MemshowVirtualAnimate();
      if processes[showing].state != Free {
        LiveTablesShow(showing);
      }
      assert ok;
    }

    /** The system calls that answer in %rax and return to the caller. */
    method Answer(regs: Registers)
      requires Inv(-1) && 0 < current < NPROC && processes[current].state == Runnable && processes[current].regs == regs
      requires Returns(regs)
      modifies this`pageinfo, this`processes, vm
      ensures Inv(-1) && OwnersKept(old(pageinfo), pageinfo)
      ensures processes == old(processes)[current := AfterTrap(old(processes)[current], old(pageinfo))]
      ensures pageinfo == AfterAlloc(regs, current, old(pageinfo))
      ensures FreePages(pageinfo, NPAGES) == FreePages(old(pageinfo), NPAGES) - if Grants(regs, old(pageinfo)) then 1 else 0
    {
      var p := processes[current];
      if regs.intno == INT_SYS_GETPID {
        SetCurrent(WithRax(p, p.pid));
      } else {
        var r := AssignAndMap(regs.rdi, current, -1);
        SetCurrent(WithRax(p, r));
      }
    }

    /** The switch of `exception` and what follows it, on a trap that is not fatal. */
    method Handle(regs: Registers) returns (v: Verdict)
      requires Inv(-1) && 0 < current < NPROC && processes[current].state == Runnable && processes[current].regs == regs
      requires !Fatal(regs)
      modifies this, vm
      ensures Inv(-1) && OwnersKept(old(pageinfo), pageinfo)
      ensures v.Running? ==> current == v.pid && 0 < current < NPROC && processes[current].state == Runnable
      ensures v == Spinning ==> forall i :: 0 <= i < NPROC ==> processes[i].state != Runnable
      ensures v == if Returns(regs) then Running(old(current))
                   else match NextRunnable(processes, old(current), NPROC) case Some(p) => Running(p) case None => Spinning
      ensures processes == old(processes)[old(current) := AfterTrap(old(processes)[old(current)], old(pageinfo))]
      ensures pageinfo == AfterAlloc(regs, old(current), old(pageinfo)) && ticks == AfterTick(regs, old(ticks))
      ensures FreePages(pageinfo, NPAGES) == FreePages(old(pageinfo), NPAGES) - if Grants(regs, old(pageinfo)) then 1 else 0
    {
      if Returns(regs) {
        Answer(regs);
        var ok := Run(current);
        assert ok;
        return Running(current);
      }
      if regs.intno == INT_PAGEFAULT {
        SetCurrent(WithState(processes[current], Broken));
      } else if regs.intno == INT_TIMER {
        ticks := (ticks + 1) % 0x1_0000_0000;
      }
      v := Schedule();
    }

    /** Store the current process's descriptor; it stays in use, so the books stay balanced. */
    method SetCurrent(p: Proc)
      requires Inv(-1) && 0 < current < NPROC && processes[current].state != Free
      requires p.pid == current && p.state != Free && p.pagetable == layout.tables
      modifies this`processes
      ensures Inv(-1) && processes == old(processes)[current := p]
    {
      DescriptorBalances(layout, pageinfo, processes, -1, -1, current, p);
      processes := processes[current := p];
    }

    /** The head of `exception`: save the registers, switch tables, run the self-checks. */
    method EnterKernel(regs: Registers)
      requires Inv(-1) && 0 < current < NPROC && processes[current].state == Runnable
      modifies this`processes, this`lastTicks, this`showing
      ensures Inv(-1) && processes == old(processes)[current := old(processes)[current].(regs := regs)]
    {
      SetCurrent(processes[current].(regs := regs));
      var ok := SetPagetable(layout.tables);
      assert ok by {
        KernelTableSwitchable();
      }
      if regs.intno != INT_PAGEFAULT || FromUser(regs) {
        CheckAndShow();
      }
    }

    /** `exception`, in terms of what a trap makes of a process and of the page accounts. */
    method Dispatch(regs: Registers) returns (v: Verdict)
      requires Inv(-1) && 0 < current < NPROC && processes[current].state == Runnable
      modifies this, vm
      ensures Inv(-1) && OwnersKept(old(pageinfo), pageinfo)
      ensures v.Running? ==> current == v.pid && 0 < current < NPROC && processes[current].state == Runnable
      ensures v == Spinning ==> forall i :: 0 <= i < NPROC ==> processes[i].state != Runnable
      ensures v == if Fatal(regs) then Halted else if Returns(regs) then Running(old(current))
                   else match NextRunnable(processes, old(current), NPROC) case Some(p) => Running(p) case None => Spinning
      ensures processes == old(processes)[old(current) :=
                if Fatal(regs) then old(processes)[old(current)].(regs := regs)
                else AfterTrap(old(processes)[old(current)].(regs := regs), old(pageinfo))]
      ensures pageinfo == if Fatal(regs) then old(pageinfo) else AfterAlloc(regs, old(current), old(pageinfo))
      ensures ticks == AfterTick(regs, old(ticks))
      ensures FreePages(pageinfo, NPAGES) ==
                FreePages(old(pageinfo), NPAGES) - if !Fatal(regs) && Grants(regs, old(pageinfo)) then 1 else 0
    {
      EnterKernel(regs);
      if Fatal(regs) {
        return Halted;
      }
      v := Handle(regs);
    }

    /** `exception`. The kernel's assertions hold on the way; it halts only on the traps it means to. */
    method Exception(regs: Registers) returns (v: Verdict)
      requires Inv(-1) && 0 < current < NPROC && processes[current].state == Runnable
      modifies this, vm
      ensures Inv(-1) && OwnersKept(old(pageinfo), pageinfo)
      // who runs next
      ensures v == Halted <==> regs.intno == 48 || (regs.intno == 14 && regs.err / 4 % 2 == 0) || regs.intno !in {14, 32, 49, 50, 51}
      ensures v.Running? ==> current == v.pid && 0 < current < NPROC && processes[current].state == Runnable
      ensures v.Running? && regs.intno in {14, 32, 50} ==> NextRunnable(processes, old(current), NPROC) == Some(v.pid)
      ensures v == Spinning ==> forall i :: 0 <= i < NPROC ==> processes[i].state != Runnable
      // what the trap does to its process and to the pages
      ensures forall i :: 0 <= i < NPROC && i != old(current) ==> processes[i] == old(processes)[i]
      ensures regs.intno == 49 ==>
                && v == Running(old(current)) && pageinfo == old(pageinfo)
                && processes[old(current)] == old(processes)[old(current)].(regs := regs.(rax := old(current)))
      ensures regs.intno == 51 && regs.rdi % 0x1000 == 0 && regs.rdi < 0x20_0000 && old(pageinfo)[regs.rdi / 0x1000].refcount == 0 ==>
                && v == Running(old(current)) && pageinfo == old(pageinfo)[regs.rdi / 0x1000 := PageInfo(old(current), 1)]
                && processes[old(current)] == old(processes)[old(current)].(regs := regs.(rax := 0))
      ensures regs.intno == 51 && !(regs.rdi % 0x1000 == 0 && regs.rdi < 0x20_0000 && old(pageinfo)[regs.rdi / 0x1000].refcount == 0) ==>
                && v == Running(old(current)) && pageinfo == old(pageinfo)
                && processes[old(current)] == old(processes)[old(current)].(regs := regs.(rax := -1))
      ensures regs.intno == 14 && regs.err / 4 % 2 == 1 ==>
                && v != Running(old(current)) && pageinfo == old(pageinfo)
                && processes[old(current)] == old(processes)[old(current)].(regs := regs, state := Broken)
      ensures regs.intno == 32 || regs.intno == 50 ==>
                && v.Running? && pageinfo == old(pageinfo)
                && processes[old(current)] == old(processes)[old(current)].(regs := regs)
      ensures v == Halted ==> pageinfo == old(pageinfo) && processes[old(current)] == old(processes)[old(current)].(regs := regs)
      // the clock and the free pages
      ensures ticks == if regs.intno == 32 then (old(ticks) + 1) % 0x1_0000_0000 else old(ticks)
      ensures FreePages(pageinfo, NPAGES) == FreePages(old(pageinfo), NPAGES) - if pageinfo == old(pageinfo) then 0 else 1
    {
      v := Dispatch(regs);
      TrapKinds(regs);
      GetPidEffect(regs, old(processes)[old(current)], old(pageinfo));
      AllocEffect(regs, old(processes)[old(current)], old(pageinfo));
      OtherEffect(regs, old(processes)[old(current)], old(pageinfo));
      if regs.intno == 32 || regs.intno == 50 {
        assert processes[old(current)].state == Runnable;
        NextIsNearest(processes, old(current), NPROC, old(current));
      }
    }

    /** Any run of the kernel from a booted state: traps are served until the kernel halts or spins.
        The page accounts balance over the whole run, and no page changes hands. `tables` and `picks` record
        the calls of `schedule`: a process that stays runnable is picked within NPROC of them. */
    method Serve(traps: seq<Registers>) returns (v: Verdict, granted: nat, ghost tables: seq<seq<Proc>>, ghost picks: seq<int>)
      requires Inv(-1) && 0 < current < NPROC && processes[current].state == Runnable
      modifies this, vm
      ensures Inv(-1) && OwnersKept(old(pageinfo), pageinfo)
      ensures granted == FreePages(old(pageinfo), NPAGES) - FreePages(pageinfo, NPAGES)
      ensures granted <= FreePages(old(pageinfo), NPAGES)
      ensures v == Halted ==> exists t :: t in traps && Fatal(t)
      ensures IsHistory(tables, picks) && IsFair(tables, picks) && picks[0] == old(current)
      ensures v.Running? ==> |tables| == Switches(traps, |traps|) && picks[|tables|] == v.pid == current
    {
      v, granted := Running(current), 0;
      tables, picks := [], [current];
      for i := 0 to |traps|
        invariant Inv(-1) && OwnersKept(old(pageinfo), pageinfo)
        invariant v == Running(current) && 0 < current < NPROC && processes[current].state == Runnable
        invariant granted == FreePages(old(pageinfo), NPAGES) - FreePages(pageinfo, NPAGES)
        invariant IsHistory(tables, picks) && |tables| == Switches(traps, i) && picks[0] == old(current) && picks[|tables|] == current
      {
        var g;
        v, g, tables, picks := ServeOne(traps[i], tables, picks);
        granted := granted + g;
        if !v.Running? {
          break;
        }
      }
      HistoryIsFair(tables, picks);
    }

    /** One trap of a run, with the record of the calls of `schedule` so far. */
    method ServeOne(regs: Registers, ghost tables: seq<seq<Proc>>, ghost picks: seq<int>)
      returns (v: Verdict, granted: nat, ghost tables': seq<seq<Proc>>, ghost picks': seq<int>)
      requires Inv(-1) && 0 < current < NPROC && processes[current].state == Runnable
      requires IsHistory(tables, picks) && picks[|tables|] == current
      modifies this, vm
      ensures Inv(-1) && OwnersKept(old(pageinfo), pageinfo)
      ensures FreePages(pageinfo, NPAGES) == FreePages(old(pageinfo), NPAGES) - granted
      ensures v == Halted <==> Fatal(regs)
      ensures v.Running? ==> v.pid == current && 0 < current < NPROC && processes[current].state == Runnable
      ensures IsHistory(tables', picks') && picks'[0] == picks[0]
      ensures v.Running? ==> |tables'| == |tables| + (if Returns(regs) then 0 else 1) && picks'[|tables'|] == current
    {
      ghost var was := pageinfo;
      granted := if regs.intno == 51 && regs.rdi % 0x1000 == 0 && regs.rdi < 0x20_0000 && pageinfo[regs.rdi / 0x1000].refcount == 0 then 1 else 0;
      tables', picks' := tables, picks;
      v := Exception(regs);
      assert pageinfo == was <==> granted == 0;
      if v.Running? && !Returns(regs) {
        ExtendHistory(tables, picks, processes, current);
        tables', picks' := tables + [processes], picks + [current];
      }
    }
  }
}
