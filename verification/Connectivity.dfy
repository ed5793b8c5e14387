/** Who can call whom: `connect`, `disconnect`, `start1` and `crash1` of modules/m5/raft/config.go over the
    ends of modules/m5/labrpc/labrpc.go. End names are numbers here; `start1` draws fresh ones. */
module Connectivity {

  /** Outgoing end names of every server; [] for a server that was never started. */
  type EndNames = seq<seq<int>>

  predicate Started(names: EndNames, i: int) {
    0 <= i < |names| && names[i] != []
  }

  predicate IsEnd(names: EndNames, i: int, j: int) {
    0 <= i < |names| && 0 <= j < |names[i]|
  }

  /** Name matrix: `n` names per started server, all different, for `place` tells where each one stands. */
  ghost predicate Named(n: nat, names: EndNames, place: map<int, (int, int)>) {
    && |names| == n
    && (forall i :: 0 <= i < n ==> names[i] == [] || |names[i]| == n)
    && (forall i, j :: IsEnd(names, i, j) ==> names[i][j] in place && place[names[i][j]] == (i, j))
  }

  /** `x` is a name in use now. */
  ghost predicate InUse(names: EndNames, place: map<int, (int, int)>, x: int) {
    x in place && IsEnd(names, place[x].0, place[x].1) && names[place[x].0][place[x].1] == x
  }

  predicate On(enabled: map<int, bool>, x: int) {
    x in enabled && enabled[x]
  }

  /** An end in use is enabled exactly when the servers at both its ends are connected. */
  ghost predicate Faithful(names: EndNames, connected: seq<bool>, enabled: map<int, bool>) {
    forall i, j :: IsEnd(names, i, j) && i < |connected| && j < |connected| ==>
      (On(enabled, names[i][j]) <==> connected[i] && connected[j])
  }

  /** Ends of earlier incarnations are disabled. */
  ghost predicate Retired(names: EndNames, place: map<int, (int, int)>, enabled: map<int, bool>) {
    forall x :: On(enabled, x) ==> InUse(names, place, x)
  }

  /** None of the first `k` drawn names exists yet, and no two are equal. */
  predicate Unused(place: map<int, (int, int)>, drawn: seq<int>, k: nat)
    requires k <= |drawn|
  {
    && (forall j, l :: 0 <= j < l < k ==> drawn[j] != drawn[l])
    && (forall j :: 0 <= j < k ==> drawn[j] !in place)
  }

  predicate Drawn(drawn: seq<int>, k: nat, x: int)
    requires k <= |drawn|
  {
    exists j :: 0 <= j < k && drawn[j] == x
  }

  /** The first `k` drawn names have been added as ends of server `i`. */
  ghost predicate Placed(before: map<int, (int, int)>, after: map<int, (int, int)>, i: int, drawn: seq<int>, k: nat)
    requires k <= |drawn|
  {
    && (forall j :: 0 <= j < k ==> drawn[j] in after && after[drawn[j]] == (i, j))
    && (forall x :: x in before ==> x in after && after[x] == before[x])
    && (forall x :: x in after ==> x in before || Drawn(drawn, k, x))
  }

  /** A fresh row of names keeps all names apart. */
  lemma Renamed(n: nat, names: EndNames, place: map<int, (int, int)>, place': map<int, (int, int)>, i: nat, drawn: seq<int>)
    requires Named(n, names, place) && i < n && |drawn| == n && Placed(place, place', i, drawn, n)
    ensures Named(n, names[i := drawn], place')
  {
    var names' := names[i := drawn];
    forall k, l | IsEnd(names', k, l)
      ensures names'[k][l] in place' && place'[names'[k][l]] == (k, l)
    {
      if k == i {
        assert names'[k][l] == drawn[l];
      } else {
        assert IsEnd(names, k, l);
        var x := names[k][l];
        assert x in place && x in place';
      }
    }
  }

  /** The first `k` drawn names are off, and no other name has been switched. */
  ghost predicate Switched(before: map<int, bool>, after: map<int, bool>, drawn: seq<int>, k: nat)
    requires k <= |drawn|
  {
    forall x :: On(after, x) <==> On(before, x) && !Drawn(drawn, k, x)
  }

  datatype Op = StartOp(i: nat, drawn: seq<int>) | ConnectOp(i: nat) | DisconnectOp(i: nat)

  class Config {
    const n: nat
    var connected: seq<bool>
    var names: EndNames
    /** The network's tables by end name; `place`, its table of ends, remembers every end ever made,
        with the servers it leads from and to. */
    var place: map<int, (int, int)>
    var enabled: map<int, bool>
    var connections: map<int, int>

    ghost predicate Shape()
      reads this
    {
      && Named(n, names, place) && |connected| == n
      && (forall i :: 0 <= i < n && connected[i] ==> Started(names, i))
    }

    ghost predicate Valid()
      reads this
    {
      Shape() && Faithful(names, connected, enabled) && Retired(names, place, enabled)
    }

    constructor (n: nat)
      ensures Valid() && this.n == n && names == seq(n, _ => []) && place == map[]
    {
      this.n := n;
      connected := seq(n, _ => false);
      names := seq(n, _ => []);
      enabled, connections, place := map[], map[], map[];
    }

    /** `Network.Enable`. */
    method Enable(end: int, on: bool)
      modifies this`enabled
      ensures enabled == old(enabled)[end := on]
    {
      enabled := enabled[end := on];
    }

    /** The loop over outgoing ends: switch the end from `i` to every `j` in `mask`. */
    method SetOutgoing(i: nat, mask: seq<bool>, on: bool)
      requires Named(n, names, place) && i < n && |mask| == n && |names[i]| == n
      modifies this`enabled
      ensures forall k, l :: IsEnd(names, k, l) ==>
                (On(enabled, names[k][l]) <==> if k == i && mask[l] then on else On(old(enabled), names[k][l]))
      ensures forall x :: On(enabled, x) && !On(old(enabled), x) ==> InUse(names, place, x)
    {
      for j := 0 to n
        invariant forall k, l :: IsEnd(names, k, l) ==>
                    (On(enabled, names[k][l]) <==> if k == i && l < j && mask[l] then on else On(old(enabled), names[k][l]))
        invariant forall x :: On(enabled, x) && !On(old(enabled), x) ==> InUse(names, place, x)
      {
        assert IsEnd(names, i, j);
        if mask[j] {
          Enable(names[i][j], on);
        }
      }
    }

    /** The loop over incoming ends: switch the end from every `j` in `mask` to `i`. */
    method SetIncoming(i: nat, mask: seq<bool>, on: bool)
      requires Named(n, names, place) && i < n && |mask| == n
      requires forall j :: 0 <= j < n && mask[j] ==> names[j] != []
      modifies this`enabled
      ensures forall k, l :: IsEnd(names, k, l) ==>
                (On(enabled, names[k][l]) <==> if l == i && mask[k] then on else On(old(enabled), names[k][l]))
      ensures forall x :: On(enabled, x) && !On(old(enabled), x) ==> InUse(names, place, x)
    {
      for j := 0 to n
        invariant forall k, l :: IsEnd(names, k, l) ==>
                    (On(enabled, names[k][l]) <==> if l == i && k < j && mask[k] then on else On(old(enabled), names[k][l]))
        invariant forall x :: On(enabled, x) && !On(old(enabled), x) ==> InUse(names, place, x)
      {
        if mask[j] {
          assert IsEnd(names, j, i);
          Enable(names[j][i], on);
        }
      }
    }

    /** `connect`. */
    method Connect(i: nat)
      requires Valid() && Started(names, i)
      modifies this`connected, this`enabled
      ensures Valid() && connected == old(connected)[i := true]
    {
      connected := connected[i := true];
      SetOutgoing(i, connected, true);
      SetIncoming(i, connected, true);
    }

    /** `disconnect`. */
    method Disconnect(i: nat)
      requires Valid() && i < n
      modifies this`connected, this`enabled
      ensures Valid() && connected == old(connected)[i := false]
    {
      connected := connected[i := false];
      if names[i] != [] {
        SetOutgoing(i, seq(n, _ => true), false);
      }
      var started := seq(n, j requires 0 <= j < n reads this => j < |names| && names[j] != []);
      SetIncoming(i, started, false);
    }

    /** What `crash1` and `start1` do to the network, with the names `start1` draws at random;
        false is the fatal error of `MakeEnd` on a name that already exists. */
    method Start(i: nat, drawn: seq<int>) returns (ok: bool)
      requires Valid() && i < n && |drawn| == n && n > 0
      modifies this
      ensures ok <==> Unused(old(place), drawn, n)
      ensures connected == old(connected)[i := false]
      ensures ok ==> Valid() && Started(names, i) && names == old(names)[i := drawn]
      ensures ok ==> Placed(old(place), place, i, drawn, n)
      ensures ok ==> forall j :: 0 <= j < n ==> drawn[j] in connections && connections[drawn[j]] == j
      ensures ok ==> forall j :: 0 <= j < |old(names)[i]| ==> !On(enabled, old(names)[i][j])
    {
      Disconnect(i);
      ok := NewEnds(i, drawn);
    }

    /** The second half of `start1`'s work on the network: a fresh set of outgoing ends. */
    method NewEnds(i: nat, drawn: seq<int>) returns (ok: bool)
      requires Valid() && i < n && |drawn| == n && n > 0 && !connected[i]
      modifies this`names, this`place, this`enabled, this`connections
      ensures ok <==> Unused(old(place), drawn, n)
      ensures ok ==> Valid() && names == old(names)[i := drawn] && Placed(old(place), place, i, drawn, n)
      ensures ok ==> forall j :: 0 <= j < n ==> drawn[j] in connections && connections[drawn[j]] == j
      ensures ok ==> forall j :: 0 <= j < |old(names)[i]| ==> !On(enabled, old(names)[i][j])
    {
      names := names[i := drawn];
      ok := MakeEnds(i, drawn);
      if ok {
        Renamed(n, old(names), old(place), place, i, drawn);
        EndsReplaced(old(names), names, old(place), place, old(enabled), i, drawn);
      }
    }

    /** With the new ends disabled and nothing else switched, connectivity is as specified. */
    lemma EndsReplaced(was: EndNames, now: EndNames, before: map<int, (int, int)>, after: map<int, (int, int)>,
                       lit: map<int, bool>, i: nat, drawn: seq<int>)
      requires i < n && |drawn| == n && |connected| == n && !connected[i]
      requires Named(n, was, before) && Named(n, now, after) && now == was[i := drawn]
      requires Unused(before, drawn, n) && Placed(before, after, i, drawn, n)
      requires Faithful(was, connected, lit) && Retired(was, before, lit) && Switched(lit, enabled, drawn, n)
      ensures Faithful(now, connected, enabled) && Retired(now, after, enabled)
      ensures forall j :: 0 <= j < |was[i]| ==> !On(enabled, was[i][j])
    {
      forall x | On(enabled, x)
        ensures InUse(now, after, x)
      {
        assert On(lit, x) && InUse(was, before, x);
        assert IsEnd(was, before[x].0, before[x].1);
      }
      forall k, l | IsEnd(now, k, l)
        ensures On(enabled, now[k][l]) <==> connected[k] && connected[l]
      {
        if k != i {
          assert IsEnd(was, k, l);
        }
      }
      forall j | 0 <= j < |was[i]|
        ensures !On(enabled, was[i][j])
      {
        assert IsEnd(was, i, j);
      }
    }

    /** The loop of `MakeEnd` and `Connect` over the new ends: each starts disabled, and the loop dies on the
        first name that exists already. */
    method MakeEnds(i: nat, drawn: seq<int>) returns (ok: bool)
      requires |drawn| == n
      modifies this`place, this`enabled, this`connections
      ensures ok <==> Unused(old(place), drawn, n)
      ensures ok ==> Placed(old(place), place, i, drawn, n) && Switched(old(enabled), enabled, drawn, n)
      ensures ok ==> forall j :: 0 <= j < n ==> drawn[j] in connections && connections[drawn[j]] == j
    {
      for j := 0 to n
        invariant Placed(old(place), place, i, drawn, j) && Unused(old(place), drawn, j)
        invariant Switched(old(enabled), enabled, drawn, j)
        invariant forall k :: 0 <= k < j ==> drawn[k] in connections && connections[drawn[k]] == k
      {
        if drawn[j] in place {
          return false;
        }
        AddEnd(i, drawn, j, old(place), old(enabled));
      }
      ok := true;
    }

    /** `MakeEnd` on a new name, and `Connect`. */
    method AddEnd(i: nat, drawn: seq<int>, j: nat, ghost before: map<int, (int, int)>, ghost lit: map<int, bool>)
      requires j < |drawn| && drawn[j] !in place
      requires Placed(before, place, i, drawn, j) && Unused(before, drawn, j) && Switched(lit, enabled, drawn, j)
      modifies this`place, this`enabled, this`connections
      ensures Placed(before, place, i, drawn, j + 1) && Unused(before, drawn, j + 1) && Switched(lit, enabled, drawn, j + 1)
      ensures connections == old(connections)[drawn[j] := j]
    {
      place := place[drawn[j] := (i, j)];
      enabled := enabled[drawn[j] := false];
      connections := connections[drawn[j] := j];
      assert Drawn(drawn, j + 1, drawn[j]);
      assert forall x :: Drawn(drawn, j, x) ==> Drawn(drawn, j + 1, x);
    }

    /** Any sequence of these operations: connectivity stays as specified, and an end of an earlier
        incarnation is never enabled again. */
    method Drive(ops: seq<Op>) returns (ok: bool)
      requires Valid() && n > 0
      requires forall op :: op in ops ==> 0 <= op.i < n && (op.StartOp? ==> |op.drawn| == n)
      modifies this
      ensures ok ==> Valid()
      ensures ok ==> forall x :: x in old(place) && !InUse(old(names), old(place), x) ==>
                x in place && !InUse(names, place, x) && !On(enabled, x)
    {
      ok := true;
      for k := 0 to |ops|
        invariant ok && Valid()
        invariant forall x :: x in old(place) && !InUse(old(names), old(place), x) ==> x in place && !InUse(names, place, x)
      {
        var op := ops[k];
        assert op in ops;
        match op {
          case StartOp(i, drawn) =>
            ok := Start(i, drawn);
            if !ok {
              return;
            }
          case ConnectOp(i) =>
            if names[i] != [] {
              Connect(i);
            } else {
              return false;  // `connect` indexes a nil slice
            }
          case DisconnectOp(i) => Disconnect(i);
        }
      }
    }
  }
}
