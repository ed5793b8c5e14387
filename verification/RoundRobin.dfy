/** The scheduling loop of assignments/a2/scheduling_rr/main.c, one iteration at a time, with the
    slice of the picked thread taken as done. `TurnPassing` shows that the threads really behave so. */
module RoundRobin {
  import opened Basics

  /** Arrival times (any sign), burst times and quantum; the program accepts up to ten threads. */
  datatype Input = Input(at: seq<int>, bt: seq<int>, q: int)

  predicate Accepted(inp: Input) {
    |inp.at| == |inp.bt| >= 1 && inp.q > 0 && forall k :: 0 <= k < |inp.bt| ==> inp.bt[k] > 0
  }

  /** The scheduler's variables at the head of its loop; `finish` is -1 until a thread is done. */
  datatype State = State(now: int, i: int, rem: seq<int>, finish: seq<int>)

  function Init(inp: Input): State {
    State(0, 0, inp.bt, seq(|inp.bt|, _ => -1))
  }

  ghost predicate Shaped(inp: Input, s: State) {
    Accepted(inp) && |s.rem| == |s.finish| == |inp.bt| && 0 <= s.i < |inp.bt|
  }

  predicate Runnable(inp: Input, rem: seq<int>, now: int, k: int)
    requires |rem| == |inp.at| && 0 <= k < |rem|
  {
    rem[k] > 0 && inp.at[k] <= now
  }

  /** The do-while search: `left` probes starting at `i`. */
  function Pick(inp: Input, rem: seq<int>, now: int, i: int, left: nat): Option<int>
    requires |rem| == |inp.at| && 0 <= i < |rem|
    decreases left
  {
    if left == 0 then None
    else if Runnable(inp, rem, now, i) then Some(i)
    else Pick(inp, rem, now, (i + 1) % |rem|, left - 1)
  }

  /** The search for the next arrival among the first `k` threads, with its -1 sentinel. */
  function NextArrival(inp: Input, rem: seq<int>, k: nat): int
    requires |rem| == |inp.at| && k <= |rem|
  {
    if k == 0 then -1
    else
      var best := NextArrival(inp, rem, k - 1);
      if rem[k - 1] > 0 && (best == -1 || inp.at[k - 1] < best) then inp.at[k - 1] else best
  }

  /** The loop body after a slice of `g` units of thread `p`. */
  function AfterSlice(inp: Input, s: State, p: int, g: int): State
    requires 0 <= p < |s.rem| == |s.finish|
  {
    var rem, now := s.rem[p := s.rem[p] - g], s.now + g;
    State(now, (p + 1) % |s.rem|, rem, if rem[p] == 0 && s.finish[p] == -1 then s.finish[p := now] else s.finish)
  }

  /** One iteration of the scheduling loop. */
  function Step(inp: Input, s: State): State
    requires |s.rem| == |s.finish| == |inp.at| && 0 <= s.i < |s.rem|
  {
    match Pick(inp, s.rem, s.now, s.i, |s.rem|)
    case None =>
      var next := NextArrival(inp, s.rem, |s.rem|);
      if next > s.now then s.(now := next) else s
    case Some(p) =>
      if 0 <= p < |s.rem| then AfterSlice(inp, s, p, Min(s.rem[p], inp.q)) else s
  }

  /** Cyclic distance from the scheduler's pointer to thread `k`. */
  function Distance(i: int, k: int, n: int): int {
    if k >= i then k - i else k - i + n
  }

  lemma Next(i: int, n: int)
    requires 0 <= i < n
    ensures (i + 1) % n == if i + 1 < n then i + 1 else 0
  {
    if i + 1 < n {
      assert (i + 1) % n == i + 1;
    }
  }

  /** The pick is runnable and no runnable thread is closer to the pointer. */
  lemma {:induction false} PickIsNearest(inp: Input, rem: seq<int>, now: int, i: int, left: nat, k: int)
    requires |rem| == |inp.at| && 0 <= i < |rem| && 0 <= k < |rem|
    requires Runnable(inp, rem, now, k) && Distance(i, k, |rem|) < left
    ensures var p := Pick(inp, rem, now, i, left);
            && p.Some? && 0 <= p.value < |rem| && Runnable(inp, rem, now, p.value)
            && Distance(i, p.value, |rem|) <= Distance(i, k, |rem|)
    decreases left
  {
    if !Runnable(inp, rem, now, i) {
      Next(i, |rem|);
      PickIsNearest(inp, rem, now, (i + 1) % |rem|, left - 1, k);
    }
  }

  lemma {:induction false} PickIsRunnable(inp: Input, rem: seq<int>, now: int, i: int, left: nat)
    requires |rem| == |inp.at| && 0 <= i < |rem|
    ensures var p := Pick(inp, rem, now, i, left);
            p.Some? ==> 0 <= p.value < |rem| && Runnable(inp, rem, now, p.value)
    decreases left
  {
    if left > 0 && !Runnable(inp, rem, now, i) {
      Next(i, |rem|);
      PickIsRunnable(inp, rem, now, (i + 1) % |rem|, left - 1);
    }
  }

  /** When every unfinished thread arrives at a non-negative time, -1 means exactly "none seen". */
  lemma {:induction false} NextArrivalIsLeast(inp: Input, rem: seq<int>, k: nat)
    requires |rem| == |inp.at| && k <= |rem|
    requires forall j :: 0 <= j < k && rem[j] > 0 ==> inp.at[j] >= 0
    ensures var a := NextArrival(inp, rem, k);
            && (a == -1 <==> forall j :: 0 <= j < k ==> rem[j] <= 0)
            && (a != -1 ==> exists j :: 0 <= j < k && rem[j] > 0 && inp.at[j] == a)
            && (forall j :: 0 <= j < k && rem[j] > 0 ==> a <= inp.at[j])
  {
    if k > 0 {
      NextArrivalIsLeast(inp, rem, k - 1);
    }
  }

  function Total(rem: seq<int>, n: nat): int
    requires n <= |rem|
  {
    if n == 0 then 0 else Total(rem, n - 1) + rem[n - 1]
  }

  lemma {:induction false} TotalUpdate(rem: seq<int>, p: int, v: int, n: nat)
    requires n <= |rem| && 0 <= p < |rem|
    ensures Total(rem[p := v], n) == Total(rem, n) + if p < n then v - rem[p] else 0
  {
    if n > 0 {
      TotalUpdate(rem, p, v, n - 1);
    }
  }

  lemma {:induction false} TotalNonNegative(rem: seq<int>, n: nat)
    requires n <= |rem| && forall k :: 0 <= k < n ==> rem[k] >= 0
    ensures Total(rem, n) >= 0
    ensures Total(rem, n) == 0 <==> forall k :: 0 <= k < n ==> rem[k] == 0
  {
    if n > 0 {
      TotalNonNegative(rem, n - 1);
    }
  }

  /** A[k]: a thread that "arrived before time 0" is there at time 0. */
  function Arrival(inp: Input, k: int): int
    requires 0 <= k < |inp.at|
  {
    if inp.at[k] < 0 then 0 else inp.at[k]
  }

  /** Work done so far by the threads, among the first `n`, that arrive at `t` or later. */
  function Done(inp: Input, rem: seq<int>, t: int, n: nat): int
    requires n <= |inp.at| == |inp.bt| == |rem|
  {
    if n == 0 then 0
    else Done(inp, rem, t, n - 1) + if Arrival(inp, n - 1) >= t then inp.bt[n - 1] - rem[n - 1] else 0
  }

  lemma {:induction false} DoneUpdate(inp: Input, rem: seq<int>, t: int, p: int, v: int, n: nat)
    requires n <= |inp.at| == |inp.bt| == |rem| && 0 <= p < |rem|
    ensures Done(inp, rem[p := v], t, n) ==
            Done(inp, rem, t, n) + if p < n && Arrival(inp, p) >= t then rem[p] - v else 0
  {
    if n > 0 {
      DoneUpdate(inp, rem, t, p, v, n - 1);
    }
  }

  lemma {:induction false} NothingDone(inp: Input, rem: seq<int>, t: int, n: nat)
    requires n <= |inp.at| == |inp.bt| == |rem|
    requires forall k :: 0 <= k < n && Arrival(inp, k) >= t ==> rem[k] == inp.bt[k]
    ensures Done(inp, rem, t, n) == 0
  {
    if n > 0 {
      NothingDone(inp, rem, t, n - 1);
    }
  }

  // ---------- what every iteration keeps ----------

  predicate AllDone(s: State) {
    forall k :: 0 <= k < |s.rem| ==> s.rem[k] == 0
  }

  /** The bookkeeping: remaining work, finish times, and no work before a thread's arrival. */
  ghost predicate Ledger(inp: Input, s: State) {
    && Shaped(inp, s) && s.now >= 0
    && (forall k :: 0 <= k < |s.rem| ==>
          && 0 <= s.rem[k] <= inp.bt[k]
          && (s.rem[k] > 0 ==> s.finish[k] == -1)
          && (s.rem[k] == 0 ==> Arrival(inp, k) + inp.bt[k] <= s.finish[k] <= s.now)
          && (s.rem[k] < inp.bt[k] ==> Arrival(inp, k) + (inp.bt[k] - s.rem[k]) <= s.now))
    && (AllDone(s) ==> exists k :: 0 <= k < |s.rem| && s.finish[k] == s.now)
  }

  /** No clock-time is skipped: work on late arrivals fits between their arrival and now. */
  ghost predicate NotAhead(inp: Input, s: State)
    requires Shaped(inp, s)
  {
    forall k :: 0 <= k < |s.rem| ==>
      Done(inp, s.rem, Arrival(inp, k), |s.rem|) <= if s.now > Arrival(inp, k) then s.now - Arrival(inp, k) else 0
  }

  /** The busy period that began at `b` has had no idle unit, and all earlier arrivals are done. */
  ghost predicate Busy(inp: Input, s: State, b: int)
    requires Shaped(inp, s)
  {
    && (b == s.now == 0 || exists k :: 0 <= k < |s.rem| && Arrival(inp, k) == b)
    && s.now - b == Done(inp, s.rem, b, |s.rem|)
    && (forall k :: 0 <= k < |s.rem| && Arrival(inp, k) < b ==> s.rem[k] == 0)
  }

  /** The bound on thread `p`'s finish time: its share plus a full round of the others per slice. */
  function Deadline(inp: Input, p: int): int
    requires 0 <= p < |inp.at| == |inp.bt| && inp.q > 0
  {
    Arrival(inp, p) + (inp.q - 1) + Slices(inp, p) * (|inp.at| - 1) * inp.q + inp.bt[p]
  }

  /** ceil(bt / q). */
  function Slices(inp: Input, p: int): int
    requires 0 <= p < |inp.bt| && inp.q > 0
  {
    (inp.bt[p] + inp.q - 1) / inp.q
  }

  /** Just enough slices of `q` to do the burst. */
  lemma SlicesSuffice(inp: Input, p: int)
    requires 0 <= p < |inp.bt| && inp.q > 0
    ensures (Slices(inp, p) - 1) * inp.q < inp.bt[p] <= Slices(inp, p) * inp.q
  {
    CeilBounds(inp.bt[p], inp.q, Slices(inp, p));
  }

  lemma CeilBounds(b: int, q: int, c: int)
    requires q > 0 && c == (b + q - 1) / q
    ensures (c - 1) * q < b <= c * q
  {
    var r := (b + q - 1) % q;
    assert b + q - 1 == c * q + r && 0 <= r < q;
    assert (c - 1) * q == c * q - q;
  }

  /** A waiting thread has lost at most one round per slice it has had, and one slice at its arrival. */
  ghost predicate PromptFor(inp: Input, s: State, p: int)
    requires Shaped(inp, s) && 0 <= p < |s.rem|
  {
    && (s.rem[p] == 0 ==> s.finish[p] <= Deadline(inp, p))
    && (s.rem[p] > 0 ==> exists d: nat :: Waited(inp, s, p, d))
  }

  /** Thread `p` has had `d` full slices. */
  ghost predicate Waited(inp: Input, s: State, p: int, d: nat)
    requires Shaped(inp, s) && 0 <= p < |s.rem|
  {
    var n := |s.rem|;
    && inp.bt[p] - s.rem[p] == d * inp.q
    && (Arrival(inp, p) <= s.now ==>
          s.now <= Arrival(inp, p) + (inp.q - 1) + d * inp.q + (d * (n - 1) + (n - 1 - Distance(s.i, p, n))) * inp.q)
  }

  ghost predicate Prompt(inp: Input, s: State)
    requires Shaped(inp, s)
  {
    forall p :: 0 <= p < |s.rem| ==> PromptFor(inp, s, p)
  }

  lemma InitWaited(inp: Input, k: int)
    requires Accepted(inp) && 0 <= k < |inp.bt|
    ensures Waited(inp, Init(inp), k, 0)
  {
    NonNegativeProduct(|inp.bt| - 1 - Distance(0, k, |inp.bt|), inp.q);
  }

  lemma {:induction false} LedgerInit(inp: Input)
    requires Accepted(inp)
    ensures var s := Init(inp); Ledger(inp, s) && NotAhead(inp, s) && Busy(inp, s, 0) && Prompt(inp, s)
  {
    var s := Init(inp);
    assert s.rem[0] != 0;
    forall k | 0 <= k < |s.rem|
      ensures Done(inp, s.rem, Arrival(inp, k), |s.rem|) == 0
      ensures PromptFor(inp, s, k)
    {
      NothingDone(inp, s.rem, Arrival(inp, k), |s.rem|);
      InitWaited(inp, k);
    }
    NothingDone(inp, s.rem, 0, |s.rem|);
  }

  /** What a slice is: the picked thread, and the length it is granted. */
  ghost predicate IsSlice(inp: Input, s: State, p: int, g: int)
    requires Shaped(inp, s)
  {
    && 0 <= p < |s.rem| && Runnable(inp, s.rem, s.now, p) && g == Min(s.rem[p], inp.q)
    && (forall k :: 0 <= k < |s.rem| && Runnable(inp, s.rem, s.now, k) ==>
          Distance(s.i, p, |s.rem|) <= Distance(s.i, k, |s.rem|))
  }

  /** What an idle jump is: nobody is runnable, and the clock moves to the earliest arrival. */
  ghost predicate IsIdle(inp: Input, s: State, a: int)
    requires Shaped(inp, s)
  {
    && a > s.now
    && (forall k :: 0 <= k < |s.rem| && s.rem[k] > 0 ==> inp.at[k] >= a)
    && (exists k :: 0 <= k < |s.rem| && s.rem[k] > 0 && inp.at[k] == a)
  }

  /** An iteration that picks a thread is a slice ... */
  lemma PickMeansSlice(inp: Input, s: State)
    requires Ledger(inp, s) && Pick(inp, s.rem, s.now, s.i, |s.rem|).Some?
    ensures var p := Pick(inp, s.rem, s.now, s.i, |s.rem|).value;
            && 0 <= p < |s.rem| && IsSlice(inp, s, p, Min(s.rem[p], inp.q))
            && Step(inp, s) == AfterSlice(inp, s, p, Min(s.rem[p], inp.q))
  {
    var n := |s.rem|;
    var p := Pick(inp, s.rem, s.now, s.i, n).value;
    PickIsRunnable(inp, s.rem, s.now, s.i, n);
    forall k | 0 <= k < n && Runnable(inp, s.rem, s.now, k)
      ensures Distance(s.i, p, n) <= Distance(s.i, k, n)
    {
      PickIsNearest(inp, s.rem, s.now, s.i, n, k);
    }
  }

  /** ... and any other iteration of an unfinished schedule is an idle jump. */
  lemma NoPickMeansIdle(inp: Input, s: State)
    requires Ledger(inp, s) && !AllDone(s) && Pick(inp, s.rem, s.now, s.i, |s.rem|).None?
    ensures var a := NextArrival(inp, s.rem, |s.rem|);
            IsIdle(inp, s, a) && Step(inp, s) == s.(now := a)
  {
    var n := |s.rem|;
    forall k | 0 <= k < n && s.rem[k] > 0
      ensures inp.at[k] > s.now
    {
      if inp.at[k] <= s.now {
        PickIsNearest(inp, s.rem, s.now, s.i, n, k);
      }
    }
    NextArrivalIsLeast(inp, s.rem, n);
  }

  lemma SliceKeepsLedger(inp: Input, s: State, p: int, g: int)
    requires Ledger(inp, s) && IsSlice(inp, s, p, g)
    ensures Ledger(inp, AfterSlice(inp, s, p, g))
  {
    Next(p, |s.rem|);
    var t := AfterSlice(inp, s, p, g);
    if t.rem[p] == 0 {
      assert t.finish[p] == t.now;
    }
  }

  lemma IdleKeepsLedger(inp: Input, s: State, a: int)
    requires Ledger(inp, s) && IsIdle(inp, s, a)
    ensures Ledger(inp, s.(now := a))
  {
  }

  lemma SliceNotAhead(inp: Input, s: State, p: int, g: int)
    requires Ledger(inp, s) && NotAhead(inp, s) && IsSlice(inp, s, p, g)
    ensures Shaped(inp, AfterSlice(inp, s, p, g)) && NotAhead(inp, AfterSlice(inp, s, p, g))
  {
    SliceKeepsLedger(inp, s, p, g);
    var t := AfterSlice(inp, s, p, g);
    forall k | 0 <= k < |s.rem|
      ensures Done(inp, t.rem, Arrival(inp, k), |t.rem|) <= if t.now > Arrival(inp, k) then t.now - Arrival(inp, k) else 0
    {
      DoneUpdate(inp, s.rem, Arrival(inp, k), p, s.rem[p] - g, |s.rem|);
    }
  }

  lemma SliceBusy(inp: Input, s: State, p: int, g: int, b: int)
    requires Ledger(inp, s) && Busy(inp, s, b) && IsSlice(inp, s, p, g)
    ensures Shaped(inp, AfterSlice(inp, s, p, g)) && Busy(inp, AfterSlice(inp, s, p, g), b)
  {
    SliceKeepsLedger(inp, s, p, g);
    DoneUpdate(inp, s.rem, b, p, s.rem[p] - g, |s.rem|);
    assert Arrival(inp, p) >= b;
  }

  /** An idle jump opens a new busy period: nobody has worked since the arrival it jumps to. */
  lemma IdleBusy(inp: Input, s: State, a: int)
    requires Ledger(inp, s) && IsIdle(inp, s, a)
    ensures Shaped(inp, s.(now := a)) && Busy(inp, s.(now := a), a)
  {
    NothingDone(inp, s.rem, a, |s.rem|);
    var k :| 0 <= k < |s.rem| && s.rem[k] > 0 && inp.at[k] == a;
    assert Arrival(inp, k) == a;
  }

  lemma SlicePromptOther(inp: Input, s: State, p: int, g: int, k: int)
    requires Ledger(inp, s) && Prompt(inp, s) && IsSlice(inp, s, p, g) && 0 <= k < |s.rem| && k != p
    ensures Shaped(inp, AfterSlice(inp, s, p, g)) && PromptFor(inp, AfterSlice(inp, s, p, g), k)
  {
    SliceKeepsLedger(inp, s, p, g);
    var t, n := AfterSlice(inp, s, p, g), |s.rem|;
    assert PromptFor(inp, s, k);
    if s.rem[k] > 0 {
      var d: nat :| Waited(inp, s, k, d);
      Next(p, n);
      if Arrival(inp, k) <= s.now {
        assert Distance(t.i, k, n) < Distance(s.i, k, n);
        OneSliceLess(n - 1 - Distance(s.i, k, n), n - 1 - Distance(t.i, k, n), d * (n - 1), inp.q);
      } else {
        assert d == 0 by {
          assert s.rem[k] == inp.bt[k];
          ZeroProduct(d, inp.q);
        }
        NonNegativeProduct(n - 1 - Distance(t.i, k, n), inp.q);
      }
      assert Waited(inp, t, k, d);
    }
  }

  lemma OneSliceLess(a: int, b: int, c: int, q: int)
    requires a < b && q > 0
    ensures (c + a) * q + q <= (c + b) * q
  {
    MulMono(c + a + 1, c + b, q);
    assert (c + a + 1) * q == (c + a) * q + q;
  }

  lemma ZeroProduct(d: nat, q: int)
    requires q > 0 && d * q == 0
    ensures d == 0
  {
  }

  lemma NonNegativeProduct(a: int, b: int)
    requires a >= 0 && b >= 0
    ensures a * b >= 0
  {
  }

  lemma SlicePromptSelf(inp: Input, s: State, p: int, g: int)
    requires Ledger(inp, s) && Prompt(inp, s) && IsSlice(inp, s, p, g)
    ensures Shaped(inp, AfterSlice(inp, s, p, g)) && PromptFor(inp, AfterSlice(inp, s, p, g), p)
  {
    SliceKeepsLedger(inp, s, p, g);
    var t, n, q := AfterSlice(inp, s, p, g), |s.rem|, inp.q;
    assert PromptFor(inp, s, p);
    var d: nat :| Waited(inp, s, p, d);
    Next(p, n);
    var w := n - 1 - Distance(s.i, p, n);
    SliceArithmetic(d, n - 1, w, q);
    if t.rem[p] > 0 {
      assert Distance(t.i, p, n) == n - 1;
      assert Waited(inp, t, p, d + 1);
    } else {
      assert Slices(inp, p) == d + 1 by {
        CeilDiv(inp.bt[p], q, d, s.rem[p]);
      }
      assert t.now <= Arrival(inp, p) + (q - 1) + (d + 1) * (n - 1) * q + inp.bt[p];
    }
  }

  lemma SliceArithmetic(d: nat, m: int, w: int, q: int)
    requires 0 <= w <= m && q > 0
    ensures (d + 1) * q == d * q + q
    ensures (d * m + w) * q <= ((d + 1) * m + 0) * q == (d + 1) * m * q
  {
    assert (d + 1) * m == d * m + m;
    assert (d * m + w) * q <= (d * m + m) * q;
  }

  lemma CeilDiv(b: int, q: int, d: nat, r: int)
    requires q > 0 && b == d * q + r && 0 < r <= q
    ensures (b + q - 1) / q == d + 1
  {
    assert b + q - 1 == (d + 1) * q + (r - 1);
    DivUnique(b + q - 1, q, d + 1, r - 1);
  }

  lemma DivUnique(a: int, q: int, k: int, r: int)
    requires q > 0 && a == k * q + r && 0 <= r < q
    ensures a / q == k
  {
    var k', r' := a / q, a % q;
    assert k' * q + r' == k * q + r;
    assert (k + 1) * q == k * q + q && (k' + 1) * q == k' * q + q;
    if k' > k {
      MulMono(k + 1, k', q);
    } else if k' < k {
      MulMono(k' + 1, k, q);
    }
  }

  lemma IdlePrompt(inp: Input, s: State, a: int)
    requires Ledger(inp, s) && Prompt(inp, s) && IsIdle(inp, s, a)
    ensures Shaped(inp, s.(now := a)) && Prompt(inp, s.(now := a))
  {
    var t, n := s.(now := a), |s.rem|;
    forall p | 0 <= p < n
      ensures PromptFor(inp, t, p)
    {
      assert PromptFor(inp, s, p);
      if s.rem[p] > 0 {
        var d: nat :| Waited(inp, s, p, d);
        assert d == 0 by {
          assert s.rem[p] == inp.bt[p];
          ZeroProduct(d, inp.q);
        }
        NonNegativeProduct(n - 1 - Distance(s.i, p, n), inp.q);
        assert Waited(inp, t, p, 0);
      }
    }
  }

  /** Everything above, for one state; `b` is the start of the current busy period. */
  ghost predicate Sound(inp: Input, s: State, b: int) {
    Ledger(inp, s) && NotAhead(inp, s) && Busy(inp, s, b) && Prompt(inp, s)
  }

  lemma SliceSound(inp: Input, s: State, p: int, g: int, b: int)
    requires Sound(inp, s, b) && IsSlice(inp, s, p, g)
    ensures Sound(inp, AfterSlice(inp, s, p, g), b)
  {
    SliceKeepsLedger(inp, s, p, g);
    SliceNotAhead(inp, s, p, g);
    SliceBusy(inp, s, p, g, b);
    forall k | 0 <= k < |s.rem|
      ensures PromptFor(inp, AfterSlice(inp, s, p, g), k)
    {
      if k == p {
        SlicePromptSelf(inp, s, p, g);
      } else {
        SlicePromptOther(inp, s, p, g, k);
      }
    }
  }

  lemma IdleSound(inp: Input, s: State, a: int, b: int)
    requires Sound(inp, s, b) && IsIdle(inp, s, a)
    ensures Sound(inp, s.(now := a), a)
  {
    IdleKeepsLedger(inp, s, a);
    IdleBusy(inp, s, a);
    IdlePrompt(inp, s, a);
  }

  /** Every iteration of an unfinished schedule keeps it sound. */
  lemma StepKeepsSound(inp: Input, s: State, b: int)
    requires Sound(inp, s, b) && !AllDone(s)
    ensures exists b' :: Sound(inp, Step(inp, s), b')
  {
    var pick := Pick(inp, s.rem, s.now, s.i, |s.rem|);
    if pick.Some? {
      PickMeansSlice(inp, s);
      SliceSound(inp, s, pick.value, Min(s.rem[pick.value], inp.q), b);
    } else {
      NoPickMeansIdle(inp, s);
      IdleSound(inp, s, NextArrival(inp, s.rem, |s.rem|), b);
    }
  }

  // ---------- termination, and the theorems about whole schedules ----------

  /** An iteration that picks a thread does work ... */
  lemma SliceMeasure(inp: Input, s: State)
    requires Ledger(inp, s) && Pick(inp, s.rem, s.now, s.i, |s.rem|).Some?
    ensures var t := Step(inp, s);
            |t.rem| == |s.rem| && 0 <= Total(t.rem, |s.rem|) < Total(s.rem, |s.rem|)
  {
    var n := |s.rem|;
    PickMeansSlice(inp, s);
    var p := Pick(inp, s.rem, s.now, s.i, n).value;
    var g := Min(s.rem[p], inp.q);
    TotalUpdate(s.rem, p, s.rem[p] - g, n);
    TotalNonNegative(s.rem[p := s.rem[p] - g], n);
  }

  /** ... and any other one moves the clock so that the next iteration does. */
  lemma IdleMeasure(inp: Input, s: State)
    requires Ledger(inp, s) && !AllDone(s) && Pick(inp, s.rem, s.now, s.i, |s.rem|).None?
    ensures var t := Step(inp, s);
            t.rem == s.rem && t.i == s.i && t.now > s.now && Pick(inp, t.rem, t.now, t.i, |t.rem|).Some?
  {
    NoPickMeansIdle(inp, s);
    var t := Step(inp, s);
    var k :| 0 <= k < |s.rem| && s.rem[k] > 0 && inp.at[k] == t.now;
    PickIsNearest(inp, t.rem, t.now, t.i, |t.rem|, k);
  }

  /** The termination measure of the loop: remaining work, then whether the clock must jump first. */
  function Remaining(inp: Input, s: State): (m: (int, int))
    requires |s.rem| == |inp.at| && 0 <= s.i < |s.rem|
  {
    (Total(s.rem, |s.rem|), if Pick(inp, s.rem, s.now, s.i, |s.rem|).None? then 1 else 0)
  }

  lemma StepMeasure(inp: Input, s: State)
    requires Ledger(inp, s) && !AllDone(s) && Shaped(inp, Step(inp, s))
    ensures var m, m' := Remaining(inp, s), Remaining(inp, Step(inp, s));
            m'.0 >= 0 && (m'.0 < m.0 || (m'.0 == m.0 && m'.1 < m.1))
  {
    TotalNonNegative(s.rem, |s.rem|);
    if Pick(inp, s.rem, s.now, s.i, |s.rem|).Some? {
      SliceMeasure(inp, s);
    } else {
      IdleMeasure(inp, s);
    }
  }

  /** The state after `m` iterations; a finished schedule stays as it is. */
  ghost function Run(inp: Input, m: nat): (s: State)
    requires Accepted(inp)
    ensures Shaped(inp, s)
  {
    if m == 0 then Init(inp)
    else
      var s := Run(inp, m - 1);
      if AllDone(s) then s else Step(inp, s)
  }

  ghost predicate IsSound(inp: Input, s: State) {
    exists b :: Sound(inp, s, b)
  }

  lemma StepKeepsIsSound(inp: Input, s: State)
    requires IsSound(inp, s) && !AllDone(s)
    ensures IsSound(inp, Step(inp, s))
  {
    var b :| Sound(inp, s, b);
    StepKeepsSound(inp, s, b);
  }

  lemma InitIsSound(inp: Input)
    requires Accepted(inp)
    ensures IsSound(inp, Init(inp))
  {
    LedgerInit(inp);
    assert Sound(inp, Init(inp), 0);
  }

  /** Every state of every schedule is sound. */
  lemma {:induction false} RunIsSound(inp: Input, m: nat, s: State)
    requires Accepted(inp) && s == Run(inp, m)
    ensures IsSound(inp, s)
  {
    if m == 0 {
      InitIsSound(inp);
    } else {
      var r := Run(inp, m - 1);
      RunIsSound(inp, m - 1, r);
      if !AllDone(r) {
        StepKeepsIsSound(inp, r);
      }
    }
  }

  /** The latest completion that the arrivals from thread `k` on force. */
  function Makespan(inp: Input, k: int): int
    requires 0 <= k < |inp.at| == |inp.bt|
  {
    Arrival(inp, k) + Work(inp, Arrival(inp, k), |inp.at|)
  }

  /** Total burst of the threads, among the first `n`, that arrive at `t` or later. */
  function Work(inp: Input, t: int, n: nat): int
    requires n <= |inp.at| == |inp.bt|
  {
    if n == 0 then 0 else Work(inp, t, n - 1) + if Arrival(inp, n - 1) >= t then inp.bt[n - 1] else 0
  }

  lemma {:induction false} AllWorkDone(inp: Input, rem: seq<int>, t: int, n: nat)
    requires n <= |inp.at| == |inp.bt| == |rem| && forall k :: 0 <= k < n ==> rem[k] == 0
    ensures Done(inp, rem, t, n) == Work(inp, t, n)
  {
    if n > 0 {
      AllWorkDone(inp, rem, t, n - 1);
    }
  }

  lemma {:induction false} WorkPositive(inp: Input, k: int, n: nat)
    requires Accepted(inp) && 0 <= k < n <= |inp.at|
    ensures Work(inp, Arrival(inp, k), n) > 0
    decreases n
  {
    if k < n - 1 {
      WorkPositive(inp, k, n - 1);
    } else {
      WorkNonNegative(inp, Arrival(inp, k), n - 1);
    }
  }

  lemma {:induction false} WorkNonNegative(inp: Input, t: int, n: nat)
    requires Accepted(inp) && n <= |inp.at|
    ensures Work(inp, t, n) >= 0
  {
    if n > 0 {
      WorkNonNegative(inp, t, n - 1);
    }
  }

  /** The final clock is the last finish time, and both are the greatest `Makespan`: a number in which
      neither the quantum nor the order of the threads occurs. */
  ghost predicate IsMakespan(inp: Input, finish: seq<int>, now: int)
    requires Accepted(inp) && |finish| == |inp.at|
  {
    && (forall k :: 0 <= k < |finish| ==> finish[k] <= now && Makespan(inp, k) <= now)
    && (exists k :: 0 <= k < |finish| && finish[k] == now)
    && (exists k :: 0 <= k < |finish| && Makespan(inp, k) == now)
  }

  /** Every thread finishes within its bounds: not before its own work is done, and not after its deadline. */
  ghost predicate InTime(inp: Input, finish: seq<int>)
    requires Accepted(inp) && |finish| == |inp.at|
  {
    forall p :: 0 <= p < |finish| ==> Arrival(inp, p) + inp.bt[p] <= finish[p] <= Deadline(inp, p)
  }

  lemma FinalClock(inp: Input, s: State, b: int)
    requires Sound(inp, s, b) && AllDone(s)
    ensures IsMakespan(inp, s.finish, s.now)
    ensures InTime(inp, s.finish)
  {
    var n := |s.rem|;
    forall k | 0 <= k < n
      ensures Makespan(inp, k) <= s.now
      ensures s.finish[k] <= Deadline(inp, k)
    {
      AllWorkDone(inp, s.rem, Arrival(inp, k), n);
      WorkPositive(inp, k, n);
      assert PromptFor(inp, s, k);
    }
    AllWorkDone(inp, s.rem, b, n);
    assert 0 < s.finish[0] <= s.now;
    var k :| 0 <= k < n && Arrival(inp, k) == b;
    assert Makespan(inp, k) == s.now;
  }

  // ---------- the loop itself ----------

  /** The do-while search of the scheduling loop. */
  method PickThread(inp: Input, rem: seq<int>, now: int, start: int) returns (picked: int)
    requires |rem| == |inp.at| && 0 <= start < |rem|
    ensures match Pick(inp, rem, now, start, |rem|)
            case Some(p) => picked == p
            case None => picked == -1
  {
    var i, left := start, |rem|;
    picked := -1;
    while true
      invariant 0 <= i < |rem| && left == |rem| - Distance(start, i, |rem|)
      invariant Pick(inp, rem, now, start, |rem|) == Pick(inp, rem, now, i, left)
      decreases left
    {
      if Runnable(inp, rem, now, i) {
        return i;
      }
      Next(i, |rem|);
      i, left := (i + 1) % |rem|, left - 1;
      if i == start {
        break;
      }
    }
  }

  /** The for-loop that looks for the next arrival. */
  method FindNextArrival(inp: Input, rem: seq<int>) returns (next: int)
    requires |rem| == |inp.at|
    ensures next == NextArrival(inp, rem, |rem|)
  {
    next := -1;
    for k := 0 to |rem|
      invariant next == NextArrival(inp, rem, k)
    {
      if rem[k] > 0 {
        if next == -1 || inp.at[k] < next {
          next := inp.at[k];
        }
      }
    }
  }

  /** The scheduling loop of `main`, with each slice done by the time the scheduler wakes up.
      It terminates with every thread finished, at the makespan, within the response bound. */
  method Schedule(inp: Input) returns (finish: seq<int>, now: int)
    requires Accepted(inp)
    ensures |finish| == |inp.at| && IsMakespan(inp, finish, now)
    ensures InTime(inp, finish)
  {
    var rem, i, finished := inp.bt, 0, 0;
    now, finish := 0, seq(|inp.bt|, _ => -1);
    InitIsSound(inp);
    NoneFinished(finish, |finish|);
    while finished < |inp.at|
      invariant IsSound(inp, State(now, i, rem, finish)) && Shaped(inp, State(now, i, rem, finish))
      invariant finished == Finished(finish, |finish|)
      decreases Remaining(inp, State(now, i, rem, finish)).0, Remaining(inp, State(now, i, rem, finish)).1
    {
      now, i, rem, finish, finished := SoundIteration(inp, now, i, rem, finish, finished);
    }
    ScheduleIsOver(inp, State(now, i, rem, finish));
  }

  lemma ScheduleIsOver(inp: Input, s: State)
    requires IsSound(inp, s) && Finished(s.finish, |s.finish|) >= |inp.at|
    ensures |s.finish| == |inp.at| && Accepted(inp) && IsMakespan(inp, s.finish, s.now) && InTime(inp, s.finish)
  {
    var b :| Sound(inp, s, b);
    FinishedIsDone(inp, s, |s.finish|);
    FinalClock(inp, s, b);
  }

  lemma UnfinishedIsNotDone(inp: Input, s: State)
    requires IsSound(inp, s) && Finished(s.finish, |s.finish|) < |inp.at|
    ensures Ledger(inp, s) && !AllDone(s)
  {
    FinishedIsDone(inp, s, |s.finish|);
  }

  lemma SoundStepMeasure(inp: Input, s: State)
    requires IsSound(inp, s) && Shaped(inp, s) && !AllDone(s)
    ensures IsSound(inp, Step(inp, s)) && Shaped(inp, Step(inp, s))
    ensures var m, m' := Remaining(inp, s), Remaining(inp, Step(inp, s));
            m'.0 >= 0 && (m'.0 < m.0 || (m'.0 == m.0 && m'.1 < m.1))
  {
    StepKeepsIsSound(inp, s);
    StepMeasure(inp, s);
  }

  /** One iteration of an unfinished schedule: it stays sound and comes closer to its end. */
  method SoundIteration(inp: Input, now: int, i: int, rem: seq<int>, finish: seq<int>, finished: nat)
    returns (now': int, i': int, rem': seq<int>, finish': seq<int>, finished': nat)
    requires IsSound(inp, State(now, i, rem, finish)) && Shaped(inp, State(now, i, rem, finish))
    requires finished == Finished(finish, |finish|) < |inp.at|
    ensures IsSound(inp, State(now', i', rem', finish')) && Shaped(inp, State(now', i', rem', finish'))
    ensures |finish'| == |finish| && finished' == Finished(finish', |finish'|)
    ensures var m, m' := Remaining(inp, State(now, i, rem, finish)), Remaining(inp, State(now', i', rem', finish'));
            m'.0 >= 0 && (m'.0 < m.0 || (m'.0 == m.0 && m'.1 < m.1))
  {
    UnfinishedIsNotDone(inp, State(now, i, rem, finish));
    SoundStepMeasure(inp, State(now, i, rem, finish));
    now', i', rem', finish', finished' := Iteration(inp, now, i, rem, finish, finished);
  }

  /** The body of the scheduling loop. */
  method Iteration(inp: Input, now: int, i: int, rem: seq<int>, finish: seq<int>, finished: nat)
    returns (now': int, i': int, rem': seq<int>, finish': seq<int>, finished': nat)
    requires Ledger(inp, State(now, i, rem, finish)) && !AllDone(State(now, i, rem, finish))
    requires finished == Finished(finish, |finish|)
    ensures State(now', i', rem', finish') == Step(inp, State(now, i, rem, finish))
    ensures |finish'| == |finish| && finished' == Finished(finish', |finish'|)
  {
    ghost var s := State(now, i, rem, finish);
    now', i', rem', finish', finished' := now, i, rem, finish, finished;
    var picked := PickThread(inp, rem, now, i);
    PickIsRunnable(inp, rem, now, i, |rem|);
    if picked == -1 {
      var next := FindNextArrival(inp, rem);
      if next > now {
        now' := next;
      }
      return;
    }
    var grant := if rem[picked] < inp.q then rem[picked] else inp.q;
    rem' := rem[picked := rem[picked] - grant];
    now' := now + grant;
    if rem'[picked] == 0 && finish[picked] == -1 {
      FinishedUpdate(finish, picked, now', |finish|);
      finish' := finish[picked := now'];
      finished' := finished + 1;
    }
    i' := (picked + 1) % |rem|;
  }

  /** How many of the first `k` threads have a finish time. */
  function Finished(finish: seq<int>, k: nat): nat
    requires k <= |finish|
  {
    if k == 0 then 0 else Finished(finish, k - 1) + if finish[k - 1] != -1 then 1 else 0
  }

  lemma {:induction false} NoneFinished(finish: seq<int>, k: nat)
    requires k <= |finish| && forall j :: 0 <= j < k ==> finish[j] == -1
    ensures Finished(finish, k) == 0
  {
    if k > 0 {
      NoneFinished(finish, k - 1);
    }
  }

  lemma {:induction false} FinishedUpdate(finish: seq<int>, p: int, t: int, k: nat)
    requires k <= |finish| && 0 <= p < |finish| && finish[p] == -1 && t != -1
    ensures Finished(finish[p := t], k) == Finished(finish, k) + if p < k then 1 else 0
  {
    if k > 0 {
      FinishedUpdate(finish, p, t, k - 1);
    }
  }

  /** The counter reaches the number of threads exactly when no work remains. */
  lemma FinishedIsDone(inp: Input, s: State, n: nat)
    requires Ledger(inp, s) && n == |s.rem|
    ensures Finished(s.finish, n) <= n
    ensures Finished(s.finish, n) == n <==> AllDone(s)
  {
    AllFinished(s.finish, n);
  }

  lemma {:induction false} AllFinished(finish: seq<int>, k: nat)
    requires k <= |finish|
    ensures Finished(finish, k) <= k
    ensures Finished(finish, k) == k <==> forall j :: 0 <= j < k ==> finish[j] != -1
  {
    if k > 0 {
      AllFinished(finish, k - 1);
    }
  }

  // ---------- the order of the threads ----------

  /** The threads as (arrival, burst) pairs. */
  function Jobs(inp: Input): seq<(int, int)>
    requires |inp.at| == |inp.bt|
  {
    seq(|inp.at|, k requires 0 <= k < |inp.at| => (Arrival(inp, k), inp.bt[k]))
  }

  function JobWork(jobs: seq<(int, int)>, t: int): int {
    if jobs == [] then 0
    else JobWork(jobs[..|jobs| - 1], t) + Share(jobs[|jobs| - 1], t)
  }

  function Share(job: (int, int), t: int): int {
    if job.0 >= t then job.1 else 0
  }

  lemma {:induction false} WorkOfJobs(inp: Input, t: int, n: nat)
    requires n <= |inp.at| == |inp.bt|
    ensures Work(inp, t, n) == JobWork(Jobs(inp)[..n], t)
  {
    if n > 0 {
      WorkOfJobs(inp, t, n - 1);
      assert Jobs(inp)[..n][..n - 1] == Jobs(inp)[..n - 1];
    }
  }

  lemma {:induction false} JobWorkRemove(jobs: seq<(int, int)>, j: int, t: int)
    requires 0 <= j < |jobs|
    ensures JobWork(jobs, t) == JobWork(jobs[..j] + jobs[j + 1..], t) + Share(jobs[j], t)
    decreases |jobs|
  {
    var n := |jobs| - 1;
    if j < n {
      JobWorkRemove(jobs[..n], j, t);
      var rest := jobs[..j] + jobs[j + 1..];
      assert rest[..|rest| - 1] == jobs[..n][..j] + jobs[..n][j + 1..];
    } else {
      assert jobs[..j] + jobs[j + 1..] == jobs[..n];
    }
  }

  lemma RemoveFromMultiset(jobs: seq<(int, int)>, j: int)
    requires 0 <= j < |jobs|
    ensures multiset(jobs[..j] + jobs[j + 1..]) == multiset(jobs) - multiset{jobs[j]}
  {
    assert jobs == jobs[..j] + [jobs[j]] + jobs[j + 1..];
  }

  lemma FindJob(jobs: seq<(int, int)>, job: (int, int)) returns (j: int)
    requires job in multiset(jobs)
    ensures 0 <= j < |jobs| && jobs[j] == job
  {
    j :| 0 <= j < |jobs| && jobs[j] == job;
  }

  lemma SameSize(a: seq<(int, int)>, b: seq<(int, int)>)
    requires multiset(a) == multiset(b)
    ensures |a| == |b|
  {
    assert |a| == |multiset(a)| == |multiset(b)| == |b|;
  }

  lemma {:induction false} JobWorkPermutes(a: seq<(int, int)>, b: seq<(int, int)>, t: int)
    requires multiset(a) == multiset(b)
    ensures JobWork(a, t) == JobWork(b, t)
    decreases |a|
  {
    SameSize(a, b);
    if a != [] {
      var n := |a| - 1;
      var j := FindJob(b, a[n]);
      var rest := b[..j] + b[j + 1..];
      RemoveFromMultiset(b, j);
      RemoveFromMultiset(a, n);
      assert a[..n] + a[n + 1..] == a[..n];
      JobWorkPermutes(a[..n], rest, t);
      JobWorkRemove(b, j, t);
    }
  }

  /** The makespan depends on the arrivals and bursts alone: neither the order in which the threads are
      numbered nor the quantum matters. */
  lemma MakespanPermutes(inp: Input, inp': Input, finish: seq<int>, finish': seq<int>, now: int, now': int)
    requires Accepted(inp) && Accepted(inp') && |finish| == |inp.at| && |finish'| == |inp'.at|
    requires multiset(Jobs(inp)) == multiset(Jobs(inp'))
    requires IsMakespan(inp, finish, now) && IsMakespan(inp', finish', now')
    ensures now == now'
  {
    MakespanBelow(inp, inp', finish, finish', now, now');
    MakespanBelow(inp', inp, finish', finish, now', now);
  }

  lemma MakespanBelow(inp: Input, inp': Input, finish: seq<int>, finish': seq<int>, now: int, now': int)
    requires Accepted(inp) && Accepted(inp') && |finish| == |inp.at| && |finish'| == |inp'.at|
    requires multiset(Jobs(inp)) == multiset(Jobs(inp'))
    requires IsMakespan(inp, finish, now) && IsMakespan(inp', finish', now')
    ensures now <= now'
  {
    var k :| 0 <= k < |inp.at| && Makespan(inp, k) == now;
    assert Jobs(inp)[k] in multiset(Jobs(inp'));
    var j :| 0 <= j < |inp'.at| && Jobs(inp')[j] == Jobs(inp)[k];
    var t := Arrival(inp, k);
    WorkOfJobs(inp, t, |inp.at|);
    WorkOfJobs(inp', t, |inp'.at|);
    assert Jobs(inp)[..|inp.at|] == Jobs(inp) && Jobs(inp')[..|inp'.at|] == Jobs(inp');
    JobWorkPermutes(Jobs(inp), Jobs(inp'), t);
    assert Makespan(inp', j) == now;
  }

  // ---------- the report ----------

  /** The report loop: with the finish times of a schedule its clamp of negative waiting times never
      fires, so the totals are those of finish - at, and of finish - at - bt. */
  method Report(inp: Input, finish: seq<int>) returns (totalWt: int, totalTat: int, clamped: bool)
    requires Accepted(inp) && |finish| == |inp.at|
    requires forall p :: 0 <= p < |finish| ==> Arrival(inp, p) + inp.bt[p] <= finish[p]
    ensures !clamped && totalWt >= 0
    ensures totalTat == Total(seq(|finish|, p requires 0 <= p < |finish| => finish[p] - inp.at[p]), |finish|)
    ensures totalWt == Total(seq(|finish|, p requires 0 <= p < |finish| => finish[p] - inp.at[p] - inp.bt[p]), |finish|)
    ensures totalTat - totalWt == Total(inp.bt, |finish|)
  {
    totalWt, totalTat, clamped := 0, 0, false;
    ghost var tats := seq(|finish|, p requires 0 <= p < |finish| => finish[p] - inp.at[p]);
    ghost var wts := seq(|finish|, p requires 0 <= p < |finish| => finish[p] - inp.at[p] - inp.bt[p]);
    for p := 0 to |finish|
      invariant !clamped && totalWt >= 0
      invariant totalTat == Total(tats, p) && totalWt == Total(wts, p) && totalTat - totalWt == Total(inp.bt, p)
    {
      var tat := finish[p] - inp.at[p];
      var wt := tat - inp.bt[p];
      if wt < 0 {
        wt, clamped := 0, true;
      }
      totalWt, totalTat := totalWt + wt, totalTat + tat;
    }
  }
}
