/** An optional value. */
module Wrappers {

  datatype Option<+T> = None | Some(value: T)
}

/** Small facts about real numbers. */
module Reals {

  function Abs(x: real): real {
    if x < 0.0 then -x else x
  }

  lemma NonNegative(x: real, y: real)
    requires x >= 0.0 && y >= 0.0
    ensures x * y >= 0.0
  {
    if x > 0.0 && y > 0.0 {
      assert x * y > 0.0;
    }
  }
}

/** Which places of a sequence were kept. */
module Places {

  /** Places below `n`, each once and in order. */
  ghost predicate Rising(at: seq<nat>, n: nat) {
    (forall i :: 0 <= i < |at| ==> at[i] < n) && forall i, j :: 0 <= i < j < |at| ==> at[i] < at[j]
  }

  lemma RisingMore(at: seq<nat>, n: nat)
    requires Rising(at, n)
    ensures Rising(at, n + 1) && Rising(at + [n], n + 1) && n !in at
  {
  }
}
