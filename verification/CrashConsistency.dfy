/** Remote calls against servers that crash and restart: modules/m5/labrpc/labrpc.go (`processReq`,
    `isServerDead`, `AddServer`, `DeleteServer`) together with `crash1` and `start1` of
    modules/m5/raft/config.go and the persisters they copy. Request threads, handlers, dead instances
    and the test driver interleave step by step; drops and delays are choices of the run. */
module CrashConsistency {
  import opened Basics

  /** One `Save`: who made it (a request, or -1 for the server's own work) and what it stored. */
  datatype Rec = Rec(req: int, value: int)

  /** One incarnation of a server, with its own persister object `pers`. History: `base` is what the
      persister held when the instance was made, `copied` how many saves it held when `crash1` copied it. */
  datatype Inst = Inst(name: int, pers: nat, base: seq<Rec>, copied: Option<nat>)

  datatype Handler = NotStarted | Running | Returned

  /** Where a request's thread stands in `processReq`. */
  datatype ReqPc =
    | Sent
    | Located                   // has read an enabled end and a live server
    | Waiting                   // dispatched, in the select loop
    | Finishing(replyOK: bool)  // left the loop, before the last `isServerDead`
    | Passed                    // that check found the server alive
    | Replied                   // the call returned true
    | Failed                    // the call returned false

  /** `inst` is the server instance found, or -1. The handler runs on even when the thread gives up. */
  datatype Request = Request(end: int, pc: ReqPc, handler: Handler, inst: int)

  /** Where the driver stands in `crash1` or `start1` of server `i`; `restart` says that it is in `start1`. */
  datatype Driver =
    | Idle
    | Deleted(i: int, restart: bool)  // after DeleteServer
    | Copied(i: int, restart: bool)   // after the first Copy
    | Ready(i: int)                   // crash1 is over, start1 goes on
    | Fresh(i: int)                   // start1 has its own copy
    | Made(i: int, inst: nat)         // Make has returned

  /** `heap` holds, for every persister ever made, all its saves in order; its content is the last one. */
  datatype World = World(
    enabled: map<int, bool>, connections: map<int, int>, servers: map<int, nat>,
    heap: seq<seq<Rec>>, insts: seq<Inst>, saved: map<int, nat>, requests: seq<Request>, driver: Driver)

  const START := World(map[], map[], map[], [], [], map[], [], Idle)

  datatype Action =
    | Issue(end: int) | Locate(r: nat) | Drop(r: nat) | Dispatch(r: nat)
    | HandlerSave(r: nat, value: int) | HandlerReturn(r: nat) | OwnSave(s: nat, value: int)
    | Receive(r: nat) | Timeout(r: nat) | FinalCheck(r: nat) | Reply(r: nat, drop: bool)
    | Enable(end: int, on: bool) | Connect(end: int, name: int)
    | Delete(i: int, restart: bool) | CopySaved | Refresh | StartCopy | Make | AddServer

  /** `isServerDead` for a request that instance `s` is serving. */
  predicate IsServerDead(w: World, end: int, s: nat)
    requires s < |w.insts|
  {
    var name := w.insts[s].name;
    end !in w.enabled || !w.enabled[end] || name !in w.servers || w.servers[name] != s
  }

  /** `readEndnameInfo`: the live server an enabled end leads to. */
  function Lookup(w: World, end: int): Option<nat> {
    if end in w.enabled && w.enabled[end] && end in w.connections && w.connections[end] in w.servers
    then Some(w.servers[w.connections[end]]) else None
  }

  predicate Enabled(w: World, a: Action) {
    match a
    case Issue(_) => true
    case Locate(r) => r < |w.requests| && w.requests[r].pc == Sent
    case Drop(r) => r < |w.requests| && w.requests[r].pc == Located
    case Dispatch(r) => r < |w.requests| && w.requests[r].pc == Located
    case HandlerSave(r, _) => r < |w.requests| && w.requests[r].handler == Running
    case HandlerReturn(r) => r < |w.requests| && w.requests[r].handler == Running
    case OwnSave(s, _) => s < |w.insts|
    case Receive(r) => r < |w.requests| && w.requests[r].pc == Waiting && w.requests[r].handler == Returned
    case Timeout(r) => r < |w.requests| && w.requests[r].pc == Waiting
    case FinalCheck(r) => r < |w.requests| && w.requests[r].pc.Finishing?
    case Reply(r, _) => r < |w.requests| && w.requests[r].pc == Passed
    case Enable(_, _) => true
    case Connect(_, _) => true
    case Delete(_, _) => w.driver == Idle
    case CopySaved => w.driver.Deleted?
    case Refresh => w.driver.Copied?
    case StartCopy => w.driver.Ready?
    case Make => w.driver.Fresh?
    case AddServer => w.driver.Made?
  }

  /** References are in range. */
  ghost predicate FormedStore(heap: seq<seq<Rec>>, insts: seq<Inst>, saved: map<int, nat>, servers: map<int, nat>, driver: Driver) {
    && (forall s :: 0 <= s < |insts| ==> insts[s].pers < |heap|)
    && (forall i :: i in saved ==> saved[i] < |heap|)
    && (forall i :: i in servers ==> servers[i] < |insts|)
    && (driver.Fresh? ==> driver.i in saved)
    && (driver.Made? ==> driver.inst < |insts|)
  }

  predicate FormedRequest(q: Request, insts: nat) {
    && q.inst < insts
    && (q.pc.Sent? || q.pc.Failed? || q.inst >= 0)
    && (q.handler != NotStarted ==> q.inst >= 0)
    && (q.pc == Finishing(true) ==> q.handler == Returned)
    && (q.pc == Sent ==> q.handler == NotStarted && q.inst == -1)
    && (q.pc == Located ==> q.handler == NotStarted)
    && (q.pc == Failed && q.inst < 0 ==> q.handler == NotStarted)
  }

  ghost predicate FormedRequests(requests: seq<Request>, insts: nat) {
    forall r :: 0 <= r < |requests| ==> FormedRequest(requests[r], insts)
  }

  ghost predicate Formed(w: World) {
    FormedStore(w.heap, w.insts, w.saved, w.servers, w.driver) && FormedRequests(w.requests, |w.insts|)
  }

  function SetReq(w: World, r: nat, q: Request): World
    requires r < |w.requests|
  {
    w.(requests := w.requests[r := q])
  }

  /** `Persister.Save` on the persister of instance `s`. */
  function Save(w: World, s: nat, x: Rec): World
    requires s < |w.insts| && w.insts[s].pers < |w.heap|
  {
    var p := w.insts[s].pers;
    w.(heap := w.heap[p := w.heap[p] + [x]])
  }

  /** `cfg.saved[i] = <a new persister holding content>`. */
  function Supersede(w: World, i: int, content: seq<Rec>): World {
    w.(heap := w.heap + [content], saved := w.saved[i := |w.heap|])
  }

  /** Note in the history that `crash1` has copied the persister of server `i`'s instance. */
  function MarkCopied(heap: seq<seq<Rec>>, insts: seq<Inst>, i: int): seq<Inst> {
    seq(|insts|, s requires 0 <= s < |insts| =>
      var x := insts[s];
      if x.name == i && x.copied == None then x.(copied := Some(|Content(heap, x.pers)|)) else x)
  }

  function Content(heap: seq<seq<Rec>>, p: nat): seq<Rec> {
    if p < |heap| then heap[p] else []
  }

  function Do(w: World, a: Action): World
    requires Formed(w) && Enabled(w, a)
  {
    match a
    case Issue(end) => w.(requests := w.requests + [Request(end, Sent, NotStarted, -1)])
    case Locate(r) =>
      var q := w.requests[r];
      (match Lookup(w, q.end)
       case Some(s) => SetReq(w, r, q.(pc := Located, inst := s))
       case None => SetReq(w, r, q.(pc := Failed)))
    case Drop(r) => SetReq(w, r, w.requests[r].(pc := Failed))
    case Dispatch(r) => SetReq(w, r, w.requests[r].(pc := Waiting, handler := Running))
    case HandlerSave(r, v) => Save(w, w.requests[r].inst, Rec(r, v))
    case HandlerReturn(r) => SetReq(w, r, w.requests[r].(handler := Returned))
    case OwnSave(s, v) => Save(w, s, Rec(-1, v))
    case Receive(r) => SetReq(w, r, w.requests[r].(pc := Finishing(true)))
    case Timeout(r) =>
      var q := w.requests[r];
      if IsServerDead(w, q.end, q.inst) then SetReq(w, r, q.(pc := Finishing(false))) else w
    case FinalCheck(r) =>
      var q := w.requests[r];
      SetReq(w, r, q.(pc := if !q.pc.replyOK || IsServerDead(w, q.end, q.inst) then Failed else Passed))
    case Reply(r, drop) => SetReq(w, r, w.requests[r].(pc := if drop then Failed else Replied))
    case Enable(end, on) => w.(enabled := w.enabled[end := on])
    case Connect(end, name) => w.(connections := w.connections[end := name])
    case Delete(i, restart) => w.(servers := w.servers - {i}, driver := Deleted(i, restart))
    case CopySaved =>
      var i := w.driver.i;
      var w' := w.(driver := Copied(i, w.driver.restart));
      if i in w.saved then Supersede(w'.(insts := MarkCopied(w.heap, w.insts, i)), i, w.heap[w.saved[i]]) else w'
    case Refresh =>
      var i := w.driver.i;
      var w' := w.(driver := if w.driver.restart then Ready(i) else Idle);
      if i in w.saved then Supersede(w', i, w.heap[w.saved[i]]) else w'
    case StartCopy =>
      var i := w.driver.i;
      Supersede(w.(driver := Fresh(i)), i, if i in w.saved then w.heap[w.saved[i]] else [])
    case Make =>
      var i := w.driver.i;
      var p := w.saved[i];
      w.(insts := w.insts + [Inst(i, p, w.heap[p], None)], driver := Made(i, |w.insts|))
    case AddServer => w.(servers := w.servers[w.driver.i := w.driver.inst], driver := Idle)
  }

  // ---------- the invariant ----------

  /** No persister is shared: a dead instance's saves reach nobody else's persister. */
  ghost predicate Isolated(insts: seq<Inst>, saved: map<int, nat>) {
    && (forall s, t :: 0 <= s < t < |insts| ==> insts[s].pers != insts[t].pers)
    && (forall i, j :: i in saved && j in saved && i != j ==> saved[i] != saved[j])
    && (forall i, s :: i in saved && 0 <= s < |insts| && saved[i] == insts[s].pers ==>
          insts[s].name == i && insts[s].copied == None)
  }

  /** The driver is past the copy and has not made the next instance yet. */
  predicate Between(d: Driver) {
    d.Copied? || d.Ready? || d.Fresh?
  }

  /** An instance that has not been copied is the one `saved` points to, and only such an instance serves;
      a server that is being crashed or started does not serve. */
  ghost predicate Owned(insts: seq<Inst>, saved: map<int, nat>, servers: map<int, nat>, d: Driver) {
    && (forall s :: 0 <= s < |insts| && insts[s].copied == None ==>
          insts[s].name in saved && saved[insts[s].name] == insts[s].pers && (Between(d) ==> d.i != insts[s].name))
    && (forall i :: i in servers ==>
          servers[i] < |insts| && insts[servers[i]].name == i && insts[servers[i]].copied == None)
    && (d.Made? ==> d.inst < |insts| && insts[d.inst].name == d.i && insts[d.inst].copied == None)
    && (d.Deleted? || Between(d) ==> d.i !in servers)
  }

  /** The saves of instance `x` that `crash1` copied. */
  function Legacy(heap: seq<seq<Rec>>, x: Inst): seq<Rec> {
    var log := Content(heap, x.pers);
    if x.copied.Some? && x.copied.value <= |log| then log[..x.copied.value] else log
  }

  /** What was copied from an instance is the beginning of all that its server holds later. */
  ghost predicate Inherited(heap: seq<seq<Rec>>, insts: seq<Inst>, saved: map<int, nat>) {
    && (forall s :: 0 <= s < |insts| && insts[s].copied.Some? ==>
          && insts[s].copied.value <= |Content(heap, insts[s].pers)|
          && insts[s].name in saved && Legacy(heap, insts[s]) <= Content(heap, saved[insts[s].name]))
    && (forall s, t :: 0 <= s < t < |insts| && insts[s].name == insts[t].name ==>
          insts[s].copied.Some? && Legacy(heap, insts[s]) <= insts[t].base)
    && (forall s :: 0 <= s < |insts| ==> insts[s].base <= Content(heap, insts[s].pers))
  }

  ghost predicate NoLateSave(heap: seq<seq<Rec>>, x: Inst, r: int) {
    x.copied.Some? ==>
      forall k :: x.copied.value <= k < |Content(heap, x.pers)| ==> Content(heap, x.pers)[k].req != r
  }

  /** An acknowledged request's handler is over, and it saved nothing after the copy. */
  ghost predicate Acked(heap: seq<seq<Rec>>, insts: seq<Inst>, requests: seq<Request>) {
    forall r :: 0 <= r < |requests| && (requests[r].pc == Passed || requests[r].pc == Replied) ==>
      requests[r].handler == Returned && 0 <= requests[r].inst < |insts| && NoLateSave(heap, insts[requests[r].inst], r)
  }

  ghost predicate Inv(w: World) {
    && Formed(w) && Isolated(w.insts, w.saved) && Owned(w.insts, w.saved, w.servers, w.driver)
    && Inherited(w.heap, w.insts, w.saved) && Acked(w.heap, w.insts, w.requests)
  }

  lemma StartInv()
    ensures Inv(START)
  {
  }

  // ---------- every step keeps it ----------

  /** A step that moves one request along. */
  lemma RequestKeeps(w: World, r: nat, q: Request)
    requires Inv(w) && r < |w.requests| && FormedRequest(q, |w.insts|)
    requires q.pc == Passed || q.pc == Replied ==> q.handler == Returned && NoLateSave(w.heap, w.insts[q.inst], r)
    ensures Inv(SetReq(w, r, q))
  {
  }

  /** The request's end is enabled, and its server's name still leads to the instance that served it. */
  predicate ServesStill(w: World, q: Request) {
    && q.end in w.enabled && w.enabled[q.end]
    && 0 <= q.inst < |w.insts| && w.insts[q.inst].name in w.servers && w.servers[w.insts[q.inst].name] == q.inst
  }

  /** The check the code's comment insists on: a request passes only while its server's persister
      has not been copied. */
  lemma FinalCheckKeeps(w: World, r: nat)
    requires Inv(w) && Enabled(w, FinalCheck(r))
    ensures Inv(Do(w, FinalCheck(r)))
    ensures Do(w, FinalCheck(r)).requests[r].pc == Passed ==>
              w.requests[r].handler == Returned && 0 <= w.requests[r].inst < |w.insts| && w.insts[w.requests[r].inst].copied == None
    ensures Do(w, FinalCheck(r)).requests[r].pc == if w.requests[r].pc.replyOK && ServesStill(w, w.requests[r]) then Passed else Failed
  {
    var q := w.requests[r];
    assert FormedRequest(q, |w.insts|);
    if q.pc.replyOK && !IsServerDead(w, q.end, q.inst) {
      assert w.insts[q.inst].copied == None;
    }
    RequestKeeps(w, r, Do(w, FinalCheck(r)).requests[r]);
  }

  /** A `Save` by instance `s` appends to its own persister, so what was copied stays what it was. */
  lemma SaveInherited(w: World, s: nat, x: Rec)
    requires Inv(w) && s < |w.insts|
    ensures Inherited(Save(w, s, x).heap, w.insts, w.saved)
  {
    var heap := Save(w, s, x).heap;
    assert forall q: nat :: Content(w.heap, q) <= Content(heap, q);
    assert forall t :: 0 <= t < |w.insts| && w.insts[t].copied.Some? ==> Legacy(heap, w.insts[t]) == Legacy(w.heap, w.insts[t]);
  }

  /** It is never the late save of an acknowledged request: that request's handler has returned. */
  lemma SaveAcked(w: World, s: nat, x: Rec)
    requires Inv(w) && s < |w.insts|
    requires x.req == -1 || (0 <= x.req < |w.requests| && w.requests[x.req].handler == Running)
    ensures Acked(Save(w, s, x).heap, w.insts, w.requests)
  {
    var heap := Save(w, s, x).heap;
    forall r | 0 <= r < |w.requests| && (w.requests[r].pc == Passed || w.requests[r].pc == Replied)
      ensures NoLateSave(heap, w.insts[w.requests[r].inst], r)
    {
      assert NoLateSave(w.heap, w.insts[w.requests[r].inst], r);
    }
  }

  lemma SaveKeeps(w: World, s: nat, x: Rec)
    requires Inv(w) && s < |w.insts|
    requires x.req == -1 || (0 <= x.req < |w.requests| && w.requests[x.req].handler == Running)
    ensures Inv(Save(w, s, x))
  {
    SaveInherited(w, s, x);
    SaveAcked(w, s, x);
  }

  /** `crash1` up to DeleteServer. */
  lemma DeleteKeeps(w: World, i: int, restart: bool)
    requires Inv(w) && w.driver == Idle
    ensures Inv(Do(w, Delete(i, restart)))
  {
    DeleteOwned(w.insts, w.saved, w.servers, i, restart);
  }

  lemma DeleteOwned(insts: seq<Inst>, saved: map<int, nat>, servers: map<int, nat>, i: int, restart: bool)
    requires Owned(insts, saved, servers, Idle)
    ensures Owned(insts, saved, servers - {i}, Deleted(i, restart))
  {
  }

  /** A new persister for server `i` belongs to no instance. */
  lemma FreshIsolated(insts: seq<Inst>, saved: map<int, nat>, n: nat, i: int)
    requires forall s, t :: 0 <= s < t < |insts| ==> insts[s].pers != insts[t].pers
    requires forall j, k :: j in saved && k in saved && j != k ==> saved[j] != saved[k]
    requires forall j, s :: j in saved && j != i && 0 <= s < |insts| && saved[j] == insts[s].pers ==>
               insts[s].name == j && insts[s].copied == None
    requires forall s :: 0 <= s < |insts| ==> insts[s].pers < n
    requires forall j :: j in saved ==> saved[j] < n
    ensures Isolated(insts, saved[i := n])
  {
  }

  /** It holds what the old one held, so nothing inherited is lost. */
  lemma FreshInherited(heap: seq<seq<Rec>>, insts: seq<Inst>, saved: map<int, nat>, i: int)
    requires Inherited(heap, insts, saved)
    requires forall s :: 0 <= s < |insts| ==> insts[s].pers < |heap|
    requires forall j :: j in saved ==> saved[j] < |heap|
    ensures Inherited(heap + [if i in saved then heap[saved[i]] else []], insts, saved[i := |heap|])
  {
    var heap' := heap + [if i in saved then heap[saved[i]] else []];
    assert forall q: nat :: q < |heap| ==> Content(heap', q) == Content(heap, q);
    assert forall s :: 0 <= s < |insts| ==> Legacy(heap', insts[s]) == Legacy(heap, insts[s]);
  }

  lemma FreshAcked(heap: seq<seq<Rec>>, insts: seq<Inst>, requests: seq<Request>, content: seq<Rec>)
    requires Acked(heap, insts, requests) && forall s :: 0 <= s < |insts| ==> insts[s].pers < |heap|
    ensures Acked(heap + [content], insts, requests)
  {
    forall r | 0 <= r < |requests| && (requests[r].pc == Passed || requests[r].pc == Replied)
      ensures NoLateSave(heap + [content], insts[requests[r].inst], r)
    {
      var x := insts[requests[r].inst];
      assert NoLateSave(heap, x, r);
      assert Content(heap + [content], x.pers) == Content(heap, x.pers);
    }
  }

  lemma SupersedeOwned(w: World, i: int, d: Driver)
    requires Inv(w) && Between(w.driver) && w.driver.i == i
    requires d == Idle || (Between(d) && d.i == i)
    ensures Isolated(w.insts, w.saved[i := |w.heap|])
    ensures Owned(w.insts, w.saved[i := |w.heap|], w.servers, d)
  {
    FreshIsolated(w.insts, w.saved, |w.heap|, i);
  }

  /** The copies of `crash1` after the first and of `start1`: no instance owns the persister they replace. */
  lemma SupersedeKeeps(w: World, i: int, d: Driver)
    requires Inv(w) && Between(w.driver) && w.driver.i == i
    requires d == Idle || (Between(d) && d.i == i)
    ensures Inv(Supersede(w.(driver := d), i, if i in w.saved then w.heap[w.saved[i]] else []))
  {
    SupersedeOwned(w, i, d);
    FreshInherited(w.heap, w.insts, w.saved, i);
    FreshAcked(w.heap, w.insts, w.requests, if i in w.saved then w.heap[w.saved[i]] else []);
  }

  /** The moment of the copy: everything saved so far becomes the instance's legacy. */
  lemma MarkKeeps(w: World, i: int)
    requires Inv(w) && w.driver.Deleted? && w.driver.i == i && i in w.saved
    ensures var w' := w.(insts := MarkCopied(w.heap, w.insts, i), driver := Copied(i, w.driver.restart));
            && FormedRequests(w'.requests, |w'.insts|)
            && FormedStore(w'.heap, w'.insts, w'.saved, w'.servers, w'.driver)
            && Inherited(w'.heap, w'.insts, w'.saved) && Acked(w'.heap, w'.insts, w'.requests)
  {
    var insts := MarkCopied(w.heap, w.insts, i);
    forall s | 0 <= s < |insts| && insts[s] != w.insts[s]
      ensures Legacy(w.heap, insts[s]) == Content(w.heap, insts[s].pers)
      ensures insts[s].name == i && Content(w.heap, insts[s].pers) == Content(w.heap, w.saved[i])
    {
    }
  }

  lemma CopyOwned(w: World, i: int)
    requires Inv(w) && w.driver.Deleted? && w.driver.i == i && i in w.saved
    ensures Owned(MarkCopied(w.heap, w.insts, i), w.saved[i := |w.heap|], w.servers, Copied(i, w.driver.restart))
  {
  }

  lemma CopyIsolated(w: World, i: int)
    requires Inv(w) && w.driver.Deleted? && w.driver.i == i && i in w.saved
    ensures Isolated(MarkCopied(w.heap, w.insts, i), w.saved[i := |w.heap|])
  {
    FreshIsolated(MarkCopied(w.heap, w.insts, i), w.saved, |w.heap|, i);
  }

  lemma CopyInherited(w: World, i: int)
    requires Inv(w) && w.driver.Deleted? && w.driver.i == i && i in w.saved
    ensures Inherited(w.heap + [w.heap[w.saved[i]]], MarkCopied(w.heap, w.insts, i), w.saved[i := |w.heap|])
    ensures Acked(w.heap + [w.heap[w.saved[i]]], MarkCopied(w.heap, w.insts, i), w.requests)
  {
    MarkKeeps(w, i);
    FreshInherited(w.heap, MarkCopied(w.heap, w.insts, i), w.saved, i);
    FreshAcked(w.heap, MarkCopied(w.heap, w.insts, i), w.requests, w.heap[w.saved[i]]);
  }

  lemma CopyLegacy(w: World)
    requires Inv(w) && Enabled(w, CopySaved)
    ensures var w' := Do(w, CopySaved);
            forall s :: 0 <= s < |w.insts| && w.insts[s].name == w.driver.i ==>
              && w'.insts[s].copied.Some?
              && (w.insts[s].copied == None ==>
                    Legacy(w'.heap, w'.insts[s]) == Content(w.heap, w.insts[s].pers) == Held(w', w.driver.i))
  {
    forall s | 0 <= s < |w.insts| && w.insts[s].name == w.driver.i && w.insts[s].copied == None
      ensures w.driver.i in w.saved && w.saved[w.driver.i] == w.insts[s].pers
    {
    }
  }

  /** The copy of `crash1`: every instance of the server now has a legacy; for the one that had none, it is
      all that instance ever saved, and it is what the server holds. */
  lemma CopyKeeps(w: World)
    requires Inv(w) && Enabled(w, CopySaved)
    ensures Inv(Do(w, CopySaved))
    ensures var w' := Do(w, CopySaved);
            forall s :: 0 <= s < |w.insts| && w.insts[s].name == w.driver.i ==>
              && w'.insts[s].copied.Some?
              && (w.insts[s].copied == None ==>
                    Legacy(w'.heap, w'.insts[s]) == Content(w.heap, w.insts[s].pers) == Held(w', w.driver.i))
  {
    var i := w.driver.i;
    CopyLegacy(w);
    if i in w.saved {
      CopyOwned(w, i);
      CopyIsolated(w, i);
      CopyInherited(w, i);
    }
  }

  lemma MakeOwned(w: World, x: Inst)
    requires Inv(w) && w.driver.Fresh? && x.name == w.driver.i && x.copied == None && x.pers == w.saved[x.name]
    ensures Isolated(w.insts + [x], w.saved)
    ensures Owned(w.insts + [x], w.saved, w.servers, Made(x.name, |w.insts|))
  {
  }

  lemma MakeInherited(w: World, x: Inst)
    requires Inv(w) && w.driver.Fresh? && x.name == w.driver.i && x.copied == None && x.pers == w.saved[x.name]
    requires x.base == w.heap[x.pers]
    ensures Inherited(w.heap, w.insts + [x], w.saved) && Acked(w.heap, w.insts + [x], w.requests)
  {
    assert forall s :: 0 <= s < |w.insts| ==> (w.insts + [x])[s] == w.insts[s];
  }

  lemma MakeKeeps(w: World)
    requires Inv(w) && Enabled(w, Make)
    ensures Inv(Do(w, Make))
  {
    var i := w.driver.i;
    var x := Inst(i, w.saved[i], w.heap[w.saved[i]], None);
    MakeOwned(w, x);
    MakeInherited(w, x);
    forall r | 0 <= r < |w.requests|
      ensures FormedRequest(w.requests[r], |w.insts| + 1)
    {
      assert FormedRequest(w.requests[r], |w.insts|);
    }
  }

  lemma AddServerKeeps(w: World)
    requires Inv(w) && Enabled(w, AddServer)
    ensures Inv(Do(w, AddServer))
  {
  }

  lemma LocateKeeps(w: World, r: nat)
    requires Inv(w) && Enabled(w, Locate(r))
    ensures Inv(Do(w, Locate(r)))
  {
    var q := w.requests[r];
    assert FormedRequest(q, |w.insts|);
    if Lookup(w, q.end).Some? {
      var name := w.connections[q.end];
      assert name in w.servers && w.servers[name] < |w.insts|;
      RequestKeeps(w, r, q.(pc := Located, inst := w.servers[name]));
    } else {
      RequestKeeps(w, r, q.(pc := Failed));
    }
  }

  lemma ReplyKeeps(w: World, r: nat, drop: bool)
    requires Inv(w) && Enabled(w, Reply(r, drop))
    ensures Inv(Do(w, Reply(r, drop)))
  {
    assert FormedRequest(w.requests[r], |w.insts|);
    RequestKeeps(w, r, w.requests[r].(pc := if drop then Failed else Replied));
  }

  lemma HandlerReturnKeeps(w: World, r: nat)
    requires Inv(w) && Enabled(w, HandlerReturn(r))
    ensures Inv(Do(w, HandlerReturn(r)))
  {
    assert FormedRequest(w.requests[r], |w.insts|);
    RequestKeeps(w, r, w.requests[r].(handler := Returned));
  }

  predicate MovesRequest(a: Action) {
    a.Drop? || a.Dispatch? || a.Receive? || a.Timeout?
  }

  lemma MoveKeeps(w: World, a: Action)
    requires Inv(w) && Enabled(w, a) && MovesRequest(a)
    ensures Inv(Do(w, a))
  {
    var q := w.requests[a.r];
    assert FormedRequest(q, |w.insts|);
    if Do(w, a) != w {
      RequestKeeps(w, a.r, match a
                           case Drop(_) => q.(pc := Failed)
                           case Dispatch(_) => q.(pc := Waiting, handler := Running)
                           case Receive(_) => q.(pc := Finishing(true))
                           case _ => q.(pc := Finishing(false)));
    }
  }

  lemma DriverKeeps(w: World, a: Action)
    requires Inv(w) && Enabled(w, a) && (a.Refresh? || a.StartCopy?)
    ensures Inv(Do(w, a))
  {
    var i := w.driver.i;
    if a.StartCopy? {
      SupersedeKeeps(w, i, Fresh(i));
    } else if i in w.saved {
      SupersedeKeeps(w, i, if w.driver.restart then Ready(i) else Idle);
    }
  }

  lemma OutsideKeeps(w: World, a: Action)
    requires Inv(w) && Enabled(w, a) && (a.Issue? || a.Enable? || a.Connect?)
    ensures Inv(Do(w, a))
  {
  }

  /** Every step of every thread keeps the invariant. */
  lemma StepKeeps(w: World, a: Action)
    requires Inv(w) && Enabled(w, a)
    ensures Inv(Do(w, a))
  {
    if MovesRequest(a) {
      MoveKeeps(w, a);
    } else if a.HandlerSave? {
      assert FormedRequest(w.requests[a.r], |w.insts|);
      SaveKeeps(w, w.requests[a.r].inst, Rec(a.r, a.value));
    } else if a.OwnSave? {
      SaveKeeps(w, a.s, Rec(-1, a.value));
    } else if a.Issue? || a.Enable? || a.Connect? {
      OutsideKeeps(w, a);
    } else {
      ServerStepKeeps(w, a);
    }
  }

  lemma ServerStepKeeps(w: World, a: Action)
    requires Inv(w) && Enabled(w, a)
    requires a.Locate? || a.FinalCheck? || a.HandlerReturn? || a.Reply? || a.Delete? || a.CopySaved? || a.Refresh? || a.StartCopy? || a.Make? || a.AddServer?
    ensures Inv(Do(w, a))
  {
    match a {
      case Locate(r) => LocateKeeps(w, r);
      case FinalCheck(r) => FinalCheckKeeps(w, r);
      case HandlerReturn(r) => HandlerReturnKeeps(w, r);
      case Reply(r, drop) => ReplyKeeps(w, r, drop);
      case Delete(i, restart) => DeleteKeeps(w, i, restart);
      case CopySaved => CopyKeeps(w);
      case Make => MakeKeeps(w);
      case AddServer => AddServerKeeps(w);
      case _ => DriverKeeps(w, a);
    }
  }

  // ---------- whole runs ----------

  ghost predicate IsRun(w: World, acts: seq<Action>)
    requires Formed(w)
    decreases |acts|
  {
    acts == [] || (Enabled(w, acts[0]) && Formed(Do(w, acts[0])) && IsRun(Do(w, acts[0]), acts[1..]))
  }

  ghost function End(w: World, acts: seq<Action>): (end: World)
    requires Formed(w) && IsRun(w, acts)
    ensures Formed(end)
    decreases |acts|
  {
    if acts == [] then w else End(Do(w, acts[0]), acts[1..])
  }

  lemma {:induction false} RunsKeep(w: World, acts: seq<Action>)
    requires Inv(w) && IsRun(w, acts)
    ensures Inv(End(w, acts))
    decreases |acts|
  {
    if acts != [] {
      StepKeeps(w, acts[0]);
      RunsKeep(Do(w, acts[0]), acts[1..]);
    }
  }

  /** A run, cut after its first `k` steps. */
  lemma {:induction false} RunPrefix(w: World, acts: seq<Action>, k: nat)
    requires Formed(w) && IsRun(w, acts) && k <= |acts|
    ensures IsRun(w, acts[..k])
    ensures k < |acts| ==> Enabled(End(w, acts[..k]), acts[k]) && Formed(Do(End(w, acts[..k]), acts[k]))
    decreases |acts|
  {
    if k > 0 {
      RunPrefix(Do(w, acts[0]), acts[1..], k - 1);
      assert acts[..k][1..] == acts[1..][..k - 1] && acts[..k][0] == acts[0];
    } else {
      assert acts[..0] == [];
    }
  }

  lemma {:induction false} RunStep(w: World, acts: seq<Action>, k: nat)
    requires Formed(w) && IsRun(w, acts) && k < |acts|
    ensures IsRun(w, acts[..k]) && IsRun(w, acts[..k + 1])
    ensures Enabled(End(w, acts[..k]), acts[k]) && End(w, acts[..k + 1]) == Do(End(w, acts[..k]), acts[k])
    decreases |acts|
  {
    RunPrefix(w, acts, k);
    RunPrefix(w, acts, k + 1);
    if k > 0 {
      RunStep(Do(w, acts[0]), acts[1..], k - 1);
      assert acts[..k][1..] == acts[1..][..k - 1] && acts[..k][0] == acts[0];
      assert acts[..k + 1][1..] == acts[1..][..k] && acts[..k + 1][0] == acts[0];
    } else {
      assert acts[..0] == [] && acts[..1] == [acts[0]] && acts[..1][1..] == [];
    }
  }

  predicate IsAcked(w: World, r: nat) {
    r < |w.requests| && (w.requests[r].pc == Passed || w.requests[r].pc == Replied)
  }

  /** A request becomes acknowledged by passing the last check only. */
  lemma AckStep(w: World, a: Action, r: nat)
    requires Inv(w) && Enabled(w, a) && IsAcked(Do(w, a), r)
    ensures r < |w.requests| && Do(w, a).requests[r].end == w.requests[r].end && Do(w, a).requests[r].inst == w.requests[r].inst
    ensures IsAcked(w, r) || (a == FinalCheck(r) && w.requests[r].handler == Returned && ServesStill(w, w.requests[r]))
  {
    if a.FinalCheck? {
      FinalCheckAcks(w, a.r, r);
    } else {
      OthersDoNotAck(w, a, r);
    }
  }

  lemma FinalCheckAcks(w: World, s: nat, r: nat)
    requires Formed(w) && Enabled(w, FinalCheck(s)) && IsAcked(Do(w, FinalCheck(s)), r)
    ensures r < |w.requests| && Do(w, FinalCheck(s)).requests[r].end == w.requests[r].end
            && Do(w, FinalCheck(s)).requests[r].inst == w.requests[r].inst
    ensures IsAcked(w, r) || (s == r && w.requests[r].handler == Returned && ServesStill(w, w.requests[r]))
  {
    FinalCheckAnswers(w, s);
  }

  /** The last check, exactly. */
  lemma FinalCheckAnswers(w: World, r: nat)
    requires Formed(w) && Enabled(w, FinalCheck(r))
    ensures Do(w, FinalCheck(r)) ==
              w.(requests := w.requests[r := w.requests[r].(pc := if w.requests[r].pc.replyOK && ServesStill(w, w.requests[r]) then Passed else Failed)])
    ensures w.requests[r].pc.replyOK ==> w.requests[r].handler == Returned
  {
    assert FormedRequest(w.requests[r], |w.insts|);
  }

  lemma OthersDoNotAck(w: World, a: Action, r: nat)
    requires Formed(w) && Enabled(w, a) && !a.FinalCheck? && IsAcked(Do(w, a), r)
    ensures IsAcked(w, r) && Do(w, a).requests[r].end == w.requests[r].end && Do(w, a).requests[r].inst == w.requests[r].inst
  {
  }

  /** At step `j` request `r` took its last check, over an enabled end and with its own instance serving. */
  ghost predicate CheckedAt(acts: seq<Action>, r: nat, q: Request, j: nat)
    requires Formed(START) && IsRun(START, acts)
  {
    && j < |acts| && acts[j] == FinalCheck(r) && IsRun(START, acts[..j])
    && var w := End(START, acts[..j]);
       r < |w.requests| && w.requests[r].end == q.end && w.requests[r].inst == q.inst
       && w.requests[r].handler == Returned && ServesStill(w, w.requests[r])
  }

  lemma {:induction false} AckedWasChecked(acts: seq<Action>, r: nat, n: nat) returns (j: nat)
    requires Formed(START) && IsRun(START, acts) && n <= |acts| && IsRun(START, acts[..n]) && IsAcked(End(START, acts[..n]), r)
    ensures CheckedAt(acts, r, End(START, acts[..n]).requests[r], j)
    decreases n
  {
    assert acts[..0] == [];
    if n == 0 {
      assert false;
    }
    RunStep(START, acts, n - 1);
    var w := End(START, acts[..n - 1]);
    StartInv();
    RunsKeep(START, acts[..n - 1]);
    AckStep(w, acts[n - 1], r);
    if IsAcked(w, r) {
      j := AckedWasChecked(acts, r, n - 1);
    } else {
      j := n - 1;
    }
  }

  /** If a call returned true, then, after its handler had returned, its end was enabled and the server's name led
      to the very instance that served it. */
  lemma RepliedWasLive(acts: seq<Action>, r: nat) returns (j: nat)
    requires Formed(START) && IsRun(START, acts)
    requires r < |End(START, acts).requests| && End(START, acts).requests[r].pc == Replied
    ensures CheckedAt(acts, r, End(START, acts).requests[r], j)
  {
    assert acts[..|acts|] == acts;
    j := AckedWasChecked(acts, r, |acts|);
  }

  /** A request is given the live server its end leads to. If the end is disabled or unconnected, or there is no
      server, it fails before any handler starts. */
  lemma LocateAnswers(w: World, r: nat)
    requires Inv(w) && Enabled(w, Locate(r))
    ensures var q, q' := w.requests[r], Do(w, Locate(r)).requests[r];
            if q.end in w.enabled && w.enabled[q.end] && q.end in w.connections && w.connections[q.end] in w.servers
            then q' == q.(pc := Located, inst := w.servers[w.connections[q.end]])
            else q' == q.(pc := Failed) && q'.handler == NotStarted
  {
    assert FormedRequest(w.requests[r], |w.insts|);
  }

  /** A dropped request fails before any handler starts, and a dropped reply fails the call. */
  lemma DropsFail(w: World, r: nat)
    requires Formed(w)
    ensures Enabled(w, Drop(r)) ==> Do(w, Drop(r)).requests[r] == w.requests[r].(pc := Failed) && w.requests[r].handler == NotStarted
    ensures Enabled(w, Reply(r, true)) ==> Do(w, Reply(r, true)).requests[r] == w.requests[r].(pc := Failed)
    ensures Enabled(w, Reply(r, false)) ==> Do(w, Reply(r, false)).requests[r] == w.requests[r].(pc := Replied)
  {
    if r < |w.requests| {
      assert FormedRequest(w.requests[r], |w.insts|);
    }
  }

  /** What the driver does to the ends. */
  lemma EndsAreSwitched(w: World, end: int, name: int, on: bool)
    requires Formed(w)
    ensures Do(w, Connect(end, name)) == w.(connections := w.connections[end := name])
    ensures Do(w, Enable(end, on)) == w.(enabled := w.enabled[end := on])
  {
  }

  /** Once its end is disabled, a request finds no server, and does not pass its last check. */
  lemma DisabledEndFails(w: World, r: nat)
    requires Formed(w) && r < |w.requests| && w.requests[r].end in w.enabled && !w.enabled[w.requests[r].end]
    ensures Enabled(w, Locate(r)) ==> Do(w, Locate(r)).requests[r].pc == Failed
    ensures Enabled(w, FinalCheck(r)) ==> Do(w, FinalCheck(r)).requests[r].pc == Failed
  {
    if Enabled(w, FinalCheck(r)) {
      FinalCheckAnswers(w, r);
    }
  }

  lemma FailedStep(w: World, a: Action, r: nat)
    requires Formed(w) && Enabled(w, a) && r < |w.requests| && w.requests[r].pc == Failed && w.requests[r].handler == NotStarted
    ensures r < |Do(w, a).requests| && Do(w, a).requests[r] == w.requests[r]
  {
  }

  /** A request that failed without a handler stays so for ever. */
  lemma {:induction false} FailedForEver(w: World, acts: seq<Action>, r: nat)
    requires Formed(w) && IsRun(w, acts) && r < |w.requests| && w.requests[r].pc == Failed && w.requests[r].handler == NotStarted
    ensures r < |End(w, acts).requests| && End(w, acts).requests[r] == w.requests[r]
    decreases |acts|
  {
    if acts != [] {
      FailedStep(w, acts[0], r);
      FailedForEver(Do(w, acts[0]), acts[1..], r);
    }
  }

  /** A request that waits for a server that is gone, or over an end that is disabled, gives up: the next timeout
      ends its wait, and its last check fails it. */
  lemma DeadServerFails(w: World, r: nat)
    requires Inv(w) && Enabled(w, Timeout(r)) && !ServesStill(w, w.requests[r])
    ensures var w' := Do(w, Timeout(r));
            && Formed(w') && Enabled(w', FinalCheck(r))
            && Do(w', FinalCheck(r)).requests[r] == w.requests[r].(pc := Failed)
  {
    assert FormedRequest(w.requests[r], |w.insts|);
    StepKeeps(w, Timeout(r));
  }

  /** A timeout while the server lives changes nothing. */
  lemma LiveServerWaits(w: World, r: nat)
    requires Inv(w) && Enabled(w, Timeout(r)) && ServesStill(w, w.requests[r])
    ensures Do(w, Timeout(r)) == w
  {
  }

  /** Crash consistency of acknowledged calls: if a call returned true, every save its handler made on the
      instance that served it came before the copy of any later `crash1` of that server, and is there, at
      the same place, in what every later instance of the server starts from. */
  lemma AcknowledgedSavesSurvive(acts: seq<Action>, r: nat, k: nat, t: nat)
    requires Formed(START) && IsRun(START, acts)
    requires var w := End(START, acts);
             && r < |w.requests| && w.requests[r].pc == Replied
             && k < |Content(w.heap, w.insts[w.requests[r].inst].pers)|
             && Content(w.heap, w.insts[w.requests[r].inst].pers)[k].req == r
             && t < |w.insts|
    ensures var w := End(START, acts);
            var s := w.requests[r].inst;
            && (w.insts[s].copied.Some? ==> k < w.insts[s].copied.value)
            && (s < t && w.insts[t].name == w.insts[s].name ==>
                  k < |w.insts[t].base| && w.insts[t].base[k] == Content(w.heap, w.insts[s].pers)[k])
  {
    StartInv();
    RunsKeep(START, acts);
    var w := End(START, acts);
    var s := w.requests[r].inst;
    assert NoLateSave(w.heap, w.insts[s], r);
    if s < t && w.insts[t].name == w.insts[s].name {
      assert Legacy(w.heap, w.insts[s])[k] == Content(w.heap, w.insts[s].pers)[k];
    }
  }

  /** Instances cannot disturb each other: whatever one saves, every other instance's persister holds what
      it held. */
  lemma SavesAreIsolated(acts: seq<Action>, s: nat, x: Rec, t: nat)
    requires Formed(START) && IsRun(START, acts)
    requires var w := End(START, acts); s < |w.insts| && t < |w.insts| && s != t
    ensures var w := End(START, acts);
            Content(Save(w, s, x).heap, w.insts[t].pers) == Content(w.heap, w.insts[t].pers)
  {
    StartInv();
    RunsKeep(START, acts);
    OthersKeepContent(End(START, acts), s, x, t);
  }

  lemma OthersKeepContent(w: World, s: nat, x: Rec, t: nat)
    requires Inv(w) && s < |w.insts| && t < |w.insts| && s != t
    ensures Content(Save(w, s, x).heap, w.insts[t].pers) == Content(w.heap, w.insts[t].pers)
  {
    assert w.insts[s].pers != w.insts[t].pers;
  }

  /** A dead instance cannot disturb its successor: once its persister has been copied, nothing it saves
      changes what any next instance will be given. */
  lemma DeadSavesAreIsolated(acts: seq<Action>, s: nat, x: Rec, i: int)
    requires Formed(START) && IsRun(START, acts)
    requires var w := End(START, acts); s < |w.insts| && w.insts[s].copied.Some?
    ensures var w := End(START, acts); Held(Save(w, s, x), i) == Held(w, i)
  {
    StartInv();
    RunsKeep(START, acts);
    DeadKeepsHeld(End(START, acts), s, x, i);
  }

  lemma DeadKeepsHeld(w: World, s: nat, x: Rec, i: int)
    requires Inv(w) && s < |w.insts| && w.insts[s].copied.Some?
    ensures Held(Save(w, s, x), i) == Held(w, i)
  {
  }

  /** What the next instance of server `i` would start from. */
  function Held(w: World, i: int): seq<Rec> {
    if i in w.saved then Content(w.heap, w.saved[i]) else []
  }

  // ---------- calls can succeed, and restarts do carry the state over ----------

  /** Some run leads from `w` to `u`, and both are as the invariant demands. */
  ghost predicate Leads(w: World, u: World) {
    Inv(w) && Inv(u) && Reaches(w, u)
  }

  ghost predicate Reaches(w: World, u: World)
    requires Formed(w)
  {
    exists acts :: RunTo(w, acts, u)
  }

  ghost predicate RunTo(w: World, acts: seq<Action>, u: World)
    requires Formed(w)
  {
    IsRun(w, acts) && End(w, acts) == u
  }

  lemma {:induction false} RunExtends(w: World, acts: seq<Action>, u: World, a: Action)
    requires Formed(w) && RunTo(w, acts, u) && Enabled(u, a) && Formed(Do(u, a))
    ensures RunTo(w, acts + [a], Do(u, a))
    decreases |acts|
  {
    if acts == [] {
      assert acts + [a] == [a] && [a][1..] == [];
      assert IsRun(Do(u, a), []);
    } else {
      RunExtends(Do(w, acts[0]), acts[1..], u, a);
      assert (acts + [a])[0] == acts[0] && (acts + [a])[1..] == acts[1..] + [a];
    }
  }

  lemma Extend(w: World, u: World, a: Action, v: World)
    requires Leads(w, u) && Enabled(u, a) && v == Do(u, a)
    ensures Leads(w, v)
  {
    StepKeeps(u, a);
    ReachesNext(w, u, a);
  }

  lemma ReachesNext(w: World, u: World, a: Action)
    requires Formed(w) && Formed(u) && Reaches(w, u) && Enabled(u, a) && Formed(Do(u, a))
    ensures Reaches(w, Do(u, a))
  {
    var acts :| RunTo(w, acts, u);
    RunExtends(w, acts, u, a);
  }

  lemma ReachesSelf(w: World)
    requires Formed(w)
    ensures Reaches(w, w)
  {
    assert RunTo(w, [], w);
  }

  /** The world with one more request, which is at `pc`. */
  function WithCall(w: World, end: int, pc: ReqPc, handler: Handler, inst: int): World {
    w.(requests := w.requests + [Request(end, pc, handler, inst)])
  }

  lemma CallIssued(w: World, end: int)
    requires Inv(w)
    ensures Leads(w, WithCall(w, end, Sent, NotStarted, -1))
  {
    ReachesSelf(w);
    Extend(w, w, Issue(end), WithCall(w, end, Sent, NotStarted, -1));
  }

  lemma CallLocated(w: World, end: int, s: nat)
    requires Lookup(w, end) == Some(s) && Leads(w, WithCall(w, end, Sent, NotStarted, -1))
    ensures Leads(w, WithCall(w, end, Located, NotStarted, s))
  {
    Extend(w, WithCall(w, end, Sent, NotStarted, -1), Locate(|w.requests|), WithCall(w, end, Located, NotStarted, s));
  }

  lemma CallDispatched(w: World, end: int, s: nat)
    requires Leads(w, WithCall(w, end, Located, NotStarted, s))
    ensures Leads(w, WithCall(w, end, Waiting, Running, s))
  {
    Extend(w, WithCall(w, end, Located, NotStarted, s), Dispatch(|w.requests|), WithCall(w, end, Waiting, Running, s));
  }

  lemma CallSaves(w: World, end: int, s: nat, value: int)
    requires s < |w.insts| && Leads(w, WithCall(w, end, Waiting, Running, s))
    ensures w.insts[s].pers < |w.heap|
    ensures Leads(w, WithCall(Save(w, s, Rec(|w.requests|, value)), end, Waiting, Running, s))
  {
    Extend(w, WithCall(w, end, Waiting, Running, s), HandlerSave(|w.requests|, value),
           WithCall(Save(w, s, Rec(|w.requests|, value)), end, Waiting, Running, s));
  }

  lemma CallReturned(w: World, u: World, end: int, s: nat)
    requires |u.requests| == |w.requests| && Leads(w, WithCall(u, end, Waiting, Running, s))
    ensures Leads(w, WithCall(u, end, Waiting, Returned, s))
  {
    Extend(w, WithCall(u, end, Waiting, Running, s), HandlerReturn(|u.requests|), WithCall(u, end, Waiting, Returned, s));
  }

  lemma CallReceived(w: World, u: World, end: int, s: nat)
    requires Leads(w, WithCall(u, end, Waiting, Returned, s))
    ensures Leads(w, WithCall(u, end, Finishing(true), Returned, s))
  {
    Extend(w, WithCall(u, end, Waiting, Returned, s), Receive(|u.requests|), WithCall(u, end, Finishing(true), Returned, s));
  }

  lemma CallPasses(w: World, u: World, end: int, s: nat)
    requires s < |u.insts| && !IsServerDead(u, end, s) && Leads(w, WithCall(u, end, Finishing(true), Returned, s))
    ensures Leads(w, WithCall(u, end, Passed, Returned, s))
  {
    Extend(w, WithCall(u, end, Finishing(true), Returned, s), FinalCheck(|u.requests|), WithCall(u, end, Passed, Returned, s));
  }

  lemma CallReplied(w: World, u: World, end: int, s: nat)
    requires Leads(w, WithCall(u, end, Passed, Returned, s))
    ensures Leads(w, WithCall(u, end, Replied, Returned, s))
  {
    Extend(w, WithCall(u, end, Passed, Returned, s), Reply(|u.requests|, false), WithCall(u, end, Replied, Returned, s));
  }

  lemma Alive(w: World, end: int, s: nat, value: int)
    requires Inv(w) && Lookup(w, end) == Some(s)
    ensures s < |w.insts| && w.insts[s].pers < |w.heap| && !IsServerDead(Save(w, s, Rec(|w.requests|, value)), end, s)
  {
    var name := w.connections[end];
    assert name in w.servers && w.servers[name] == s;
  }

  /** From every state the machine can be in, a call over an enabled end to a live server can save and be
      acknowledged, with no other effect than the save. */
  lemma CallsCanSucceed(w: World, end: int, s: nat, value: int)
    requires Inv(w) && Lookup(w, end) == Some(s)
    ensures s < |w.insts| && w.insts[s].pers < |w.heap|
    ensures var p := w.insts[s].pers;
            Leads(w, w.(heap := w.heap[p := w.heap[p] + [Rec(|w.requests|, value)]],
                        requests := w.requests + [Request(end, Replied, Returned, s)]))
  {
    Alive(w, end, s, value);
    var u := Save(w, s, Rec(|w.requests|, value));
    CallIssued(w, end);
    CallLocated(w, end, s);
    CallDispatched(w, end, s);
    CallSaves(w, end, s, value);
    CallReturned(w, u, end, s);
    CallReceived(w, u, end, s);
    CallPasses(w, u, end, s);
    CallReplied(w, u, end, s);
  }

  /** The driver goes on copying: `a` is its next step for server `i`. */
  predicate Copies(d: Driver, i: int, a: Action) {
    (d == Deleted(i, true) && a == CopySaved) || (d == Copied(i, true) && a == Refresh) || (d == Ready(i) && a == StartCopy)
  }

  lemma CopyHolds(u: World, i: int, a: Action)
    requires Formed(u) && Copies(u.driver, i, a)
    ensures Held(Do(u, a), i) == Held(u, i) && |Do(u, a).insts| == |u.insts| && Do(u, a).requests == u.requests
    ensures Do(u, a).driver == if a == CopySaved then Copied(i, true) else if a == Refresh then Ready(i) else Fresh(i)
  {
  }

  /** The driver's copies pass on what is held. */
  lemma CopyPassesOn(w: World, u: World, i: int, a: Action) returns (v: World)
    requires Leads(w, u) && Copies(u.driver, i, a)
    ensures Leads(w, v) && Held(v, i) == Held(u, i) && |v.insts| == |u.insts| && v.requests == u.requests
    ensures v.driver == if a == CopySaved then Copied(i, true) else if a == Refresh then Ready(i) else Fresh(i)
  {
    CopyHolds(u, i, a);
    v := Do(u, a);
    Extend(w, u, a, v);
  }

  lemma MakePassesOn(w: World, u: World, i: int) returns (v: World)
    requires Leads(w, u) && u.driver == Fresh(i)
    ensures Leads(w, v) && v.driver == Made(i, |u.insts|) && |v.insts| == |u.insts| + 1 && v.requests == u.requests
    ensures v.insts[|u.insts|].name == i && v.insts[|u.insts|].base == Held(u, i)
  {
    v := Do(u, Make);
    Extend(w, u, Make, v);
  }

  lemma DeleteStarts(w: World, i: int) returns (v: World)
    requires Inv(w) && w.driver == Idle
    ensures Leads(w, v) && v.driver == Deleted(i, true) && Held(v, i) == Held(w, i) && v.insts == w.insts && v.requests == w.requests
  {
    v := Do(w, Delete(i, true));
    ReachesSelf(w);
    Extend(w, w, Delete(i, true), v);
  }

  lemma AddEnds(w: World, u: World, i: int) returns (v: World)
    requires Leads(w, u) && u.driver.Made? && u.driver.i == i
    ensures Leads(w, v) && v == u.(driver := Idle, servers := u.servers[i := u.driver.inst])
  {
    v := Do(u, AddServer);
    Extend(w, u, AddServer, v);
  }

  /** From every state with an idle driver, server `i` can be restarted, and its new instance starts from
      exactly what was held for it. */
  lemma RestartCarriesOver(w: World, i: int) returns (u: World)
    requires Inv(w) && w.driver == Idle
    ensures Leads(w, u) && u.driver == Idle && u.requests == w.requests
    ensures |u.insts| == |w.insts| + 1 && i in u.servers && u.servers[i] == |w.insts|
    ensures u.insts[|w.insts|].name == i && u.insts[|w.insts|].base == Held(w, i)
  {
    u := DeleteStarts(w, i);
    u := CopyPassesOn(w, u, i, CopySaved);
    u := CopyPassesOn(w, u, i, Refresh);
    u := CopyPassesOn(w, u, i, StartCopy);
    u := MakePassesOn(w, u, i);
    u := AddEnds(w, u, i);
  }
}
