/** Polynomials over the field of two elements, as their coefficients, and division with remainder. */
module CrcPolynomials {
  /** The coefficient of each power. */
  type Poly = nat -> bool

  /** The polynomial whose coefficients are `bits`, highest power first. */
  function Coefficient(bits: seq<bool>, i: nat): bool {
    if bits == [] then false
    else if i == 0 then bits[|bits| - 1]
    else Coefficient(bits[..|bits| - 1], i - 1)
  }

  /** The coefficient of power `i` in the product of `q` and `p`, by Horner's rule. */
  function Product(q: seq<bool>, p: Poly, i: nat): bool {
    if q == [] then false
    else (i > 0 && Product(q[..|q| - 1], p, i - 1)) != (q[|q| - 1] && p(i))
  }

  /** What a checksum of `bits` divides: the message times x to the `d`, plus the polynomial `r` that the register
      starts with times x to the message's length. */
  function DividendAt(bits: seq<bool>, d: nat, r: Poly, i: nat): bool {
    (i >= d && Coefficient(bits, i - d)) != (i >= |bits| && r(i - |bits|))
  }

  function Dividend(bits: seq<bool>, d: nat, r: Poly): Poly { (i: nat) => DividendAt(bits, d, r, i) }

  lemma DividendGrows(bits: seq<bool>, d: nat, r: Poly, i: nat)
    requires bits != [] && d > 0
    ensures DividendAt(bits, d, r, i) == ((i > 0 && DividendAt(bits[..|bits| - 1], d, r, i - 1)) != (i == d && bits[|bits| - 1]))
  {
    var short := bits[..|bits| - 1];
    if i > 0 {
      var j: nat := i - 1;
      if i > d { assert Coefficient(bits, i - d) == Coefficient(short, j - d); }
      if i >= |bits| { assert i - |bits| == j - |short|; }
    }
  }

  ghost predicate Degree(p: Poly, d: nat) { p(d) && forall i: nat | i > d :: !p(i) }

  /** `m` is `q` times `p` plus `r`. */
  ghost predicate Divides(m: Poly, p: Poly, q: seq<bool>, r: Poly) {
    forall i: nat :: m(i) == (Product(q, p, i) != r(i))
  }

  /** `r` is what division of `m` by `p`, of degree `d`, leaves. */
  ghost predicate IsRemainder(m: Poly, p: Poly, d: nat, r: Poly) {
    (forall i: nat | i >= d :: !r(i)) && exists q :: Divides(m, p, q, r)
  }

  function Zeros(n: nat): (z: seq<bool>) ensures |z| == n { seq(n, _ => false) }

  lemma {:induction false} LeadingZeros(n: nat, q: seq<bool>, p: Poly, i: nat)
    ensures Product(Zeros(n) + q, p, i) == Product(q, p, i)
    decreases n + |q|
  {
    var padded := Zeros(n) + q;
    if q != [] {
      assert padded[..|padded| - 1] == Zeros(n) + q[..|q| - 1];
      if i > 0 { LeadingZeros(n, q[..|q| - 1], p, i - 1); }
    } else if n > 0 {
      assert padded[..n - 1] == Zeros(n - 1) + q;
      if i > 0 { LeadingZeros(n - 1, q, p, i - 1); }
    }
  }

  /** Where two quotients first differ, their products differ above the degree of any remainder. */
  lemma {:induction false} ProductsDiffer(a: seq<bool>, b: seq<bool>, p: Poly, d: nat, k: nat)
    requires |a| == |b| && k < |a| && a[..k] == b[..k] && a[k] != b[k] && Degree(p, d)
    ensures Product(a, p, |a| - 1 - k + d) != Product(b, p, |a| - 1 - k + d)
    decreases |a|
  {
    var last := |a| - 1;
    if k == last {
      assert a[..last] == b[..last];
    } else {
      assert a[..last][..k] == b[..last][..k];
      ProductsDiffer(a[..last], b[..last], p, d, k);
    }
  }

  lemma {:induction false} FirstDifference(a: seq<bool>, b: seq<bool>) returns (k: nat)
    requires |a| == |b| && a != b
    ensures k < |a| && a[..k] == b[..k] && a[k] != b[k]
    decreases |a|
  {
    if a[0] != b[0] {
      k := 0;
    } else {
      k := FirstDifference(a[1..], b[1..]);
      k := k + 1;
      assert a[..k] == [a[0]] + a[1..][..k - 1] && b[..k] == [b[0]] + b[1..][..k - 1];
    }
  }

  /** Only the coefficients matter. */
  lemma SameRemainder(m: Poly, m': Poly, p: Poly, d: nat, r: Poly, r': Poly)
    requires IsRemainder(m, p, d, r) && forall i: nat :: m(i) == m'(i) && r(i) == r'(i)
    ensures IsRemainder(m', p, d, r')
  {
    var q :| Divides(m, p, q, r);
    assert Divides(m', p, q, r');
  }

  /** Division leaves only one remainder. */
  lemma RemainderIsUnique(m: Poly, p: Poly, d: nat, r: Poly, s: Poly, i: nat)
    requires Degree(p, d) && IsRemainder(m, p, d, r) && IsRemainder(m, p, d, s)
    ensures r(i) == s(i)
  {
    var a :| Divides(m, p, a, r);
    var b :| Divides(m, p, b, s);
    var n := |a| + |b|;
    var a', b' := Zeros(n - |a|) + a, Zeros(n - |b|) + b;
    LeadingZeros(n - |a|, a, p, i);
    LeadingZeros(n - |b|, b, p, i);
    if a' != b' {
      var k := FirstDifference(a', b');
      ProductsDiffer(a', b', p, d, k);
      LeadingZeros(n - |a|, a, p, n - 1 - k + d);
      LeadingZeros(n - |b|, b, p, n - 1 - k + d);
    }
  }
}
