/** The commit monitor of modules/m5/raft/config.go: `checkLogs`, `applier` and `nCommitted`.
    Commands are compared for equality only. Runs that ingest a snapshot are not covered. */
module LogMonitor {
  import opened Basics

  type Log = map<int, int>

  /** One `ApplyMsg` with a valid command, from the applier of server `i`. */
  datatype Msg = Msg(i: nat, index: int, command: int)

  /** All servers agree at every index they share. */
  ghost predicate Agree(logs: seq<Log>) {
    forall i, j, x :: 0 <= i < |logs| && 0 <= j < |logs| && x in logs[i] && x in logs[j] ==> logs[i][x] == logs[j][x]
  }

  /** The positive indices of a log are 1 to `k`. */
  ghost predicate UpTo(log: Log, k: nat) {
    forall x :: x > 0 ==> (x in log <==> x <= k)
  }

  ghost predicate IsContiguous(log: Log) {
    exists k: nat :: UpTo(log, k)
  }

  ghost predicate Contiguous(logs: seq<Log>) {
    forall i :: 0 <= i < |logs| ==> IsContiguous(logs[i])
  }

  /** Some server has already committed a different command there. */
  ghost predicate Conflicts(logs: seq<Log>, index: int, v: int) {
    exists j :: 0 <= j < |logs| && index in logs[j] && logs[j][index] != v
  }

  /** How many of the first `n` logs hold `index`. */
  function Holders(logs: seq<Log>, index: int, n: nat): nat
    requires n <= |logs|
  {
    if n == 0 then 0 else Holders(logs, index, n - 1) + if index in logs[n - 1] then 1 else 0
  }

  lemma {:induction false} HoldersPositive(logs: seq<Log>, index: int, n: nat)
    requires n <= |logs|
    ensures Holders(logs, index, n) > 0 <==> exists j :: 0 <= j < n && index in logs[j]
  {
    if n > 0 {
      HoldersPositive(logs, index, n - 1);
    }
  }

  lemma HoldersCount(logs: seq<Log>, index: int, n: nat)
    requires n <= |logs|
    ensures Holders(logs, index, n) == |set j | 0 <= j < n && index in logs[j]|
  {
    var p := j => 0 <= j < |logs| && index in logs[j];
    CountHolders(logs, index, p, n);
    assert Those(p, n) == set j | 0 <= j < n && index in logs[j];
  }

  lemma {:induction false} CountHolders(logs: seq<Log>, index: int, p: int -> bool, n: nat)
    requires n <= |logs| && forall j :: 0 <= j < |logs| ==> p(j) == (index in logs[j])
    ensures Holders(logs, index, n) == |Those(p, n)|
  {
    if n > 0 {
      CountHolders(logs, index, p, n - 1);
      ThoseStep(p, n);
    }
  }

  /** Writing the next entry, or one that is there, keeps the positive indices contiguous. */
  lemma StaysContiguous(log: Log, index: int, v: int, k: nat)
    requires UpTo(log, k) && (index > 1 ==> index - 1 in log)
    ensures IsContiguous(log[index := v])
  {
    var k': nat := if index > k then index else k;
    assert UpTo(log[index := v], k');
  }

  lemma EmptyIsContiguous()
    ensures IsContiguous(map[])
  {
    assert UpTo(map[], 0);
  }

  class Monitor {
    var logs: seq<Log>
    var maxIndex: int

    ghost predicate Valid()
      reads this
    {
      Agree(logs) && Contiguous(logs)
    }

    constructor (n: nat)
      ensures Valid() && logs == seq(n, _ => map[])
    {
      logs, maxIndex := seq(n, _ => map[]), 0;
      new;
      EmptyIsContiguous();
    }

    /** `checkLogs`: the mismatch message (present or not), and whether the previous entry is there. */
    method CheckLogs(i: nat, index: int, v: int) returns (mismatch: bool, prevok: bool)
      requires i < |logs|
      modifies this
      ensures mismatch <==> Conflicts(old(logs), index, v)
      ensures prevok <==> index - 1 in old(logs)[i]
      ensures logs == old(logs)[i := old(logs)[i][index := v]]
      ensures maxIndex == if index > old(maxIndex) then index else old(maxIndex)
    {
      mismatch := false;
      for j := 0 to |logs|
        invariant mismatch <==> exists k :: 0 <= k < j && index in logs[k] && logs[k][index] != v
        invariant logs == old(logs) && maxIndex == old(maxIndex)
      {
        if index in logs[j] && logs[j][index] != v {
          mismatch := true;
        }
      }
      prevok := index - 1 in logs[i];
      logs := logs[i := logs[i][index := v]];
      if index > maxIndex {
        maxIndex := index;
      }
    }

    /** One message through `applier`; false is the fatal "apply error". */
    method Apply(m: Msg) returns (ok: bool)
      requires Valid() && m.i < |logs|
      modifies this
      ensures ok <==> !Conflicts(old(logs), m.index, m.command) && (m.index > 1 ==> m.index - 1 in old(logs)[m.i])
      ensures logs == old(logs)[m.i := old(logs)[m.i][m.index := m.command]]
      ensures ok ==> Valid()
    {
      assert IsContiguous(logs[m.i]);
      ghost var k: nat :| UpTo(logs[m.i], k);
      var mismatch, prevok := CheckLogs(m.i, m.index, m.command);
      ok := !mismatch && !(m.index > 1 && !prevok);
      if ok {
        StaysContiguous(old(logs)[m.i], m.index, m.command, k);
        assert forall j :: 0 <= j < |logs| && j != m.i ==> logs[j] == old(logs)[j];
      }
    }

    /** `nCommitted`: the mismatch abort, the count and the command. Without an apply error so far the
        abort is unreachable, and the command is the one every holder has. */
    method NCommitted(index: int) returns (abort: bool, count: nat, cmd: Option<int>)
      requires Agree(logs)
      ensures !abort && count == |set j | 0 <= j < |logs| && index in logs[j]|
      ensures forall j :: 0 <= j < |logs| && index in logs[j] ==> cmd == Some(logs[j][index])
      ensures cmd.None? <==> count == 0
      ensures count > 0 <==> exists j :: 0 <= j < |logs| && index in logs[j]
    {
      HoldersPositive(logs, index, |logs|);
      HoldersCount(logs, index, |logs|);
      abort, count, cmd := false, 0, None;
      for i := 0 to |logs|
        invariant !abort && count == Holders(logs, index, i) && (cmd.None? <==> count == 0)
        invariant forall j :: 0 <= j < i && index in logs[j] ==> cmd == Some(logs[j][index])
        invariant cmd.Some? ==> exists j :: 0 <= j < i && index in logs[j] && logs[j][index] == cmd.value
      {
        if index in logs[i] {
          var cmd1 := logs[i][index];
          if count > 0 && cmd != Some(cmd1) {
            abort := true;
          }
          count, cmd := count + 1, Some(cmd1);
        }
      }
    }

    /** Any run of the appliers, in whatever order their messages are taken: as long as no error has been
        reported, the logs agree, each is contiguous, and `nCommitted` does not abort at any index. */
    method Watch(msgs: seq<Msg>) returns (ok: bool)
      requires Valid() && forall m :: m in msgs ==> m.i < |logs|
      modifies this
      ensures ok ==> Valid() && |logs| == |old(logs)|
      ensures ok ==> forall m :: m in msgs ==> m.index in logs[m.i] && logs[m.i][m.index] == m.command
    {
      ok := true;
      for k := 0 to |msgs|
        invariant ok && Valid() && |logs| == |old(logs)|
        invariant forall j :: 0 <= j < k ==> msgs[j].index in logs[msgs[j].i] && logs[msgs[j].i][msgs[j].index] == msgs[j].command
      {
        assert msgs[k] in msgs;
        assert forall j :: 0 <= j < k ==> msgs[j] in msgs;
        ok := Apply(msgs[k]);
        if !ok {
          return;
        }
      }
    }
  }
}
