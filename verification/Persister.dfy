/** modules/m5/raft/persister.go: a persister's two byte slices, which `Copy` shares and `Save` replaces. */
module Persisters {

  function Bytes(a: array?<int>): seq<int>
    reads a
  {
    if a == null then [] else a[..]
  }

  /** `clone`: a new slice with the same bytes; nil becomes an empty slice. */
  method Clone(orig: array?<int>) returns (x: array<int>)
    ensures fresh(x) && x[..] == Bytes(orig)
  {
    var n := if orig == null then 0 else orig.Length;
    x := new int[n];
    for i := 0 to n
      invariant orig != null ==> n == orig.Length && x[..i] == orig[..i]
      invariant orig == null ==> n == 0
    {
      x[i] := orig[i];
    }
    assert x[..] == x[..n];
  }

  class Persister {
    var raftstate: array?<int>
    var snapshot: array?<int>

    /** `MakePersister`. */
    constructor ()
      ensures raftstate == null && snapshot == null
    {
      raftstate, snapshot := null, null;
    }

    function State(): seq<int>
      reads this, raftstate
    {
      Bytes(raftstate)
    }

    function Snapshot(): seq<int>
      reads this, snapshot
    {
      Bytes(snapshot)
    }

    function Contents(): Held
      reads this, raftstate, snapshot
    {
      Held(State(), Snapshot())
    }

    /** `Copy` shares the slices. */
    method Copy() returns (np: Persister)
      ensures fresh(np) && np.raftstate == raftstate && np.snapshot == snapshot
    {
      np := new Persister();
      np.raftstate := raftstate;
      np.snapshot := snapshot;
    }

    method ReadRaftState() returns (x: array<int>)
      ensures fresh(x) && x[..] == State()
    {
      x := Clone(raftstate);
    }

    method ReadSnapshot() returns (x: array<int>)
      ensures fresh(x) && x[..] == Snapshot()
    {
      x := Clone(snapshot);
    }

    /** `Save` writes into no existing slice: it clones both arguments and replaces both fields. */
    method Save(state: array?<int>, snap: array?<int>)
      modifies this
      ensures State() == Bytes(state) && Snapshot() == Bytes(snap)
      ensures fresh(raftstate) && fresh(snapshot)
    {
      var a := Clone(state);
      var b := Clone(snap);
      raftstate, snapshot := a, b;
    }
  }

  /** The bytes of one `Save`. */
  datatype Held = Held(state: seq<int>, snapshot: seq<int>)

  /** What a persister that held `was` holds after `saves`. */
  function Latest(was: Held, saves: seq<Held>): Held {
    if saves == [] then was else saves[|saves| - 1]
  }

  lemma LatestConcat(was: Held, a: seq<Held>, b: seq<Held>)
    ensures Latest(Latest(was, a), b) == Latest(was, a + b)
  {
  }

  method ToArray(s: seq<int>) returns (a: array<int>)
    ensures fresh(a) && a[..] == s
  {
    a := new int[|s|](k requires 0 <= k < |s| => s[k]);
  }

  method SaveBytes(p: Persister, x: Held)
    modifies p
    ensures p.Contents() == x
  {
    var state := ToArray(x.state);
    var snapshot := ToArray(x.snapshot);
    p.Save(state, snapshot);
  }

  /** The saves of a dead instance that come between two steps of the driver. */
  method SaveAll(p: Persister, saves: seq<Held>)
    modifies p
    ensures p.Contents() == Latest(old(p.Contents()), saves)
  {
    for k := 0 to |saves|
      invariant p.Contents() == Latest(old(p.Contents()), saves[..k])
    {
      SaveBytes(p, saves[k]);
      assert saves[..k + 1][k] == saves[k];
    }
    assert saves[..|saves|] == saves;
  }

  /** Read a persister back into a new one, as `crash1` does, while the owner of `p` goes on saving. */
  method ReadBack(copy: Persister, p: Persister, betweenReads: seq<Held>, beforeSave: seq<Held>) returns (again: Persister)
    requires copy != p
    modifies p
    ensures fresh(again) && again.Contents() == old(copy.Contents())
    ensures p.Contents() == Latest(old(p.Contents()), betweenReads + beforeSave)
  {
    LatestConcat(p.Contents(), betweenReads, beforeSave);
    var raftlog := copy.ReadRaftState();
    SaveAll(p, betweenReads);
    var snapshot := copy.ReadSnapshot();
    SaveAll(p, beforeSave);
    again := new Persister();
    again.Save(raftlog, snapshot);
  }

  /** The persister work of `crash1` and `start1`, with any saves of the dead instance between any two of its
      steps. The copy shares the old persister's slices all the while, yet what the next instance is given is
      exactly what the old persister held when it was copied. */
  method CrashCopy(p: Persister, afterCopy: seq<Held>, betweenReads: seq<Held>, beforeSave: seq<Held>, beforeRestart: seq<Held>)
    returns (saved: Persister)
    modifies p
    ensures fresh(saved) && saved.Contents() == old(p.Contents())
    ensures p.Contents() == Latest(old(p.Contents()), afterCopy + (betweenReads + beforeSave) + beforeRestart)
  {
    LatestConcat(p.Contents(), afterCopy, betweenReads + beforeSave);
    LatestConcat(p.Contents(), afterCopy + (betweenReads + beforeSave), beforeRestart);
    var copy := p.Copy();
    SaveAll(p, afterCopy);
    var again := ReadBack(copy, p, betweenReads, beforeSave);
    SaveAll(p, beforeRestart);
    saved := again.Copy();
  }
}
