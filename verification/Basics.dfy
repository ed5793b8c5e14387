/** What several of the models share. */
module Basics {

  datatype Option<+T> = None | Some(value: T)

  const TWO64 := 0x1_0000_0000_0000_0000

  function Min(a: int, b: int): int {
    if a < b then a else b
  }

  lemma MulMono(x: int, y: int, q: int)
    requires x <= y && q >= 0
    ensures x * q <= y * q
  {
  }

  /** The numbers below `n` that have a property. */
  ghost function Those(p: int -> bool, n: nat): set<int> {
    set i | 0 <= i < n && p(i)
  }

  /** Counting them one by one. */
  lemma ThoseStep(p: int -> bool, n: nat)
    requires n > 0
    ensures |Those(p, n)| == |Those(p, n - 1)| + if p(n - 1) then 1 else 0
  {
    var before, now := Those(p, n - 1), Those(p, n);
    if p(n - 1) {
      forall i
        ensures i in now <==> i in before + {n - 1}
      {
      }
      assert now == before + {n - 1};
    } else {
      forall i
        ensures i in now <==> i in before
      {
      }
      assert now == before;
    }
  }
}
