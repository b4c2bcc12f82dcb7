/** Element-wise real vector arithmetic and diagonal quadratic forms. */
module Vectors {

  function Zeros(n: nat): (z: seq<real>)
    ensures |z| == n && forall i :: 0 <= i < n ==> z[i] == 0.0
  {
    seq(n, _ => 0.0)
  }

  function Add(a: seq<real>, b: seq<real>): (r: seq<real>)
    requires |a| == |b|
    ensures |r| == |a| && forall i :: 0 <= i < |a| ==> r[i] == a[i] + b[i]
  {
    seq(|a|, i requires 0 <= i < |a| => a[i] + b[i])
  }

  function Sub(a: seq<real>, b: seq<real>): (r: seq<real>)
    requires |a| == |b|
    ensures |r| == |a| && forall i :: 0 <= i < |a| ==> r[i] == a[i] - b[i]
  {
    seq(|a|, i requires 0 <= i < |a| => a[i] - b[i])
  }

  function Scale(c: real, a: seq<real>): (r: seq<real>)
    ensures |r| == |a| && forall i :: 0 <= i < |a| ==> r[i] == c * a[i]
  {
    seq(|a|, i requires 0 <= i < |a| => c * a[i])
  }

  /** d^T diag(q) d, the cost `Delta.T @ np.diag(q) @ Delta`. */
  function QuadForm(q: seq<real>, d: seq<real>): real
    requires |q| == |d|
  {
    if |d| == 0 then 0.0 else WeightedSquare(q[0], d[0]) + QuadForm(q[1..], d[1..])
  }

  /** One diagonal term of a quadratic form. */
  function WeightedSquare(w: real, x: real): real
  {
    w * (x * x)
  }

  lemma WeightedSquareNonneg(w: real, x: real)
    requires w >= 0.0
    ensures WeightedSquare(w, x) >= 0.0
  {
    calc {
      WeightedSquare(w, x);
    ==
      w * (x * x);
    >= { SquareNonneg(x); }
      0.0;
    }
  }

  lemma WeightedSquarePositive(w: real, x: real)
    requires w > 0.0 && x != 0.0
    ensures WeightedSquare(w, x) > 0.0
  {
    calc {
      WeightedSquare(w, x);
    ==
      w * (x * x);
    > { SquarePositive(x); }
      0.0;
    }
  }

  lemma SquareNonneg(x: real)
    ensures x * x >= 0.0
  {
    if x >= 0.0 { } else { }
  }

  lemma SquarePositive(x: real)
    requires x != 0.0
    ensures x * x > 0.0
  {
    if x > 0.0 { } else { }
  }

  /** A quadratic form with non-negative weights is non-negative. */
  lemma {:induction false} QuadFormNonneg(q: seq<real>, d: seq<real>)
    requires |q| == |d|
    requires forall i :: 0 <= i < |q| ==> q[i] >= 0.0
    ensures QuadForm(q, d) >= 0.0
  {
    if |d| > 0 {
      WeightedSquareNonneg(q[0], d[0]);
      QuadFormNonneg(q[1..], d[1..]);
    }
  }

  /** Components with zero weight do not affect the form. */
  lemma {:induction false} QuadFormIgnoresUnweighted(q: seq<real>, d: seq<real>, e: seq<real>)
    requires |q| == |d| == |e|
    requires forall i :: 0 <= i < |q| ==> q[i] == 0.0 || d[i] == e[i]
    ensures QuadForm(q, d) == QuadForm(q, e)
  {
    if |d| > 0 {
      QuadFormIgnoresUnweighted(q[1..], d[1..], e[1..]);
    }
  }

  lemma WeightedSquareZero(w: real, x: real)
    requires w == 0.0 || x == 0.0
    ensures WeightedSquare(w, x) == 0.0
  {
  }

  /**
   * With non-negative weights the form vanishes exactly when every weighted
   * component of d is zero.
   */
  lemma {:induction false} QuadFormZeroIff(q: seq<real>, d: seq<real>)
    requires |q| == |d|
    requires forall i :: 0 <= i < |q| ==> q[i] >= 0.0
    ensures QuadForm(q, d) == 0.0 <==> forall i :: 0 <= i < |d| && q[i] != 0.0 ==> d[i] == 0.0
  {
    if |d| > 0 {
      QuadFormNonneg(q[1..], d[1..]);
      if q[0] != 0.0 && d[0] != 0.0 {
        WeightedSquarePositive(q[0], d[0]);
      } else {
        WeightedSquareZero(q[0], d[0]);
        QuadFormZeroIff(q[1..], d[1..]);
        if forall i :: 0 <= i < |d| - 1 && q[1..][i] != 0.0 ==> d[1..][i] == 0.0 {
          forall i | 0 <= i < |d| && q[i] != 0.0 ensures d[i] == 0.0 {
            if i > 0 { assert q[1..][i - 1] == q[i] && d[1..][i - 1] == d[i]; }
          }
        } else {
          var i :| 0 <= i < |d| - 1 && q[1..][i] != 0.0 && d[1..][i] != 0.0;
          assert q[i + 1] != 0.0 && d[i + 1] != 0.0;
        }
      }
    }
  }
}
