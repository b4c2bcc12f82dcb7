/**
 * The discounted-return recurrence of `APG.update_policy`
 * (neural_control/controllers/apg.py:29-34): rewards are walked from the
 * last to the first, R = r + gamma * R, and each R is inserted at the front.
 */
module Apg {
  import opened Vectors

  /** g^e. */
  function Pow(g: real, e: nat): real
  {
    if e == 0 then 1.0 else g * Pow(g, e - 1)
  }

  /** sum over j of g^(e + j) * s[j]. */
  function PowSum(s: seq<real>, g: real, e: nat): real
  {
    if s == [] then 0.0 else Pow(g, e) * s[0] + PowSum(s[1..], g, e + 1)
  }

  /** The discounted return of a reward sequence: sum over j of g^j * s[j]. */
  function Return(s: seq<real>, g: real): real
  {
    PowSum(s, g, 0)
  }

  /** The closed form: entry i is the return of the rewards from step i on. */
  function Discounted(rewards: seq<real>, g: real): seq<real>
  {
    seq(|rewards|, i requires 0 <= i < |rewards| => Return(rewards[i..], g))
  }

  /** Raising every exponent by one multiplies the sum by g. */
  lemma {:induction false} PowSumShift(s: seq<real>, g: real, e: nat)
    ensures PowSum(s, g, e + 1) == g * PowSum(s, g, e)
  {
    if s != [] {
      PowSumShift(s[1..], g, e + 1);
      calc {
        PowSum(s, g, e + 1);
      ==
        Pow(g, e + 1) * s[0] + PowSum(s[1..], g, e + 2);
      ==
        (g * Pow(g, e)) * s[0] + g * PowSum(s[1..], g, e + 1);
      ==
        g * (Pow(g, e) * s[0] + PowSum(s[1..], g, e + 1));
      }
    }
  }

  /** The return obeys R = r + gamma * R'. */
  lemma ReturnRecurrence(s: seq<real>, g: real)
    requires |s| > 0
    ensures Return(s, g) == s[0] + g * Return(s[1..], g)
  {
    PowSumShift(s[1..], g, 0);
  }

  /**
   * The loop of `update_policy`. The output has one entry per reward and
   * equals the closed form.
   */
  method DiscountedReturns(rewards: seq<real>, gamma: real) returns (d: seq<real>)
    ensures d == Discounted(rewards, gamma)
  {
    d := [];
    var r := 0.0;
    var i := |rewards|;
    while i > 0
      invariant 0 <= i <= |rewards|
      invariant r == Return(rewards[i..], gamma)
      invariant d == Discounted(rewards, gamma)[i..]
    {
      i := i - 1;
      ReturnRecurrence(rewards[i..], gamma);
      assert rewards[i..][1..] == rewards[i + 1..];
      r := rewards[i] + gamma * r;
      d := [r] + d;
    }
  }

  /**
   * The closed form has one entry per reward, ends with the last reward, and
   * links each entry to the next by d[i] = r[i] + gamma * d[i + 1].
   */
  lemma DiscountedRecurrence(rewards: seq<real>, g: real)
    ensures |Discounted(rewards, g)| == |rewards|
    ensures |rewards| > 0 ==> Discounted(rewards, g)[|rewards| - 1] == rewards[|rewards| - 1]
    ensures forall i :: 0 <= i < |rewards| - 1 ==>
      Discounted(rewards, g)[i] == rewards[i] + g * Discounted(rewards, g)[i + 1]
  {
    if |rewards| > 0 {
      DiscountedLast(rewards, g);
    }
    forall i | 0 <= i < |rewards| - 1 {
      DiscountedStep(rewards, g, i);
    }
  }

  lemma DiscountedLast(rewards: seq<real>, g: real)
    requires |rewards| > 0
    ensures Discounted(rewards, g)[|rewards| - 1] == rewards[|rewards| - 1]
  {
    var last := rewards[|rewards| - 1..];
    ReturnRecurrence(last, g);
    assert last[1..] == [];
  }

  lemma DiscountedStep(rewards: seq<real>, g: real, i: nat)
    requires i < |rewards| - 1
    ensures Discounted(rewards, g)[i] == rewards[i] + g * Discounted(rewards, g)[i + 1]
  {
    ReturnRecurrence(rewards[i..], g);
    assert rewards[i..][1..] == rewards[i + 1..];
  }

  /** With gamma = 0 every entry is its own reward. */
  lemma DiscountedZeroGamma(rewards: seq<real>)
    ensures Discounted(rewards, 0.0) == rewards
  {
    forall i | 0 <= i < |rewards| ensures Discounted(rewards, 0.0)[i] == rewards[i] {
      ReturnRecurrence(rewards[i..], 0.0);
    }
  }

  /** All-zero rewards give all-zero returns, whatever gamma is. */
  lemma DiscountedZeroRewards(m: nat, g: real)
    ensures Discounted(Zeros(m), g) == Zeros(m)
  {
    forall i | 0 <= i < m ensures Return(Zeros(m)[i..], g) == 0.0 {
      PowSumZeros(Zeros(m)[i..], g, 0);
    }
  }

  lemma {:induction false} PowSumZeros(s: seq<real>, g: real, e: nat)
    requires forall j :: 0 <= j < |s| ==> s[j] == 0.0
    ensures PowSum(s, g, e) == 0.0
  {
    if s != [] {
      PowSumZeros(s[1..], g, e + 1);
    }
  }
}
