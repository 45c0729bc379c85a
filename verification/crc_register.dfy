/** A checksum register of any width: what a table lookup per octet computes, as division of polynomials.

    The register's operations are parameters that obey a few laws, so that the same theorems serve the 16-bit
    register, which shifts to the left, and the 32-bit one, which shifts to the right. */
module CrcRegister {
  import opened CrcPolynomials

  /** `plus` adds registers, `shift` is one division step, `bit` puts a bit where the next step will look, `top` and
      `clear` read and clear it, `look` and `push` are the two parts of a table lookup, `inject` puts in an octet,
      and `coef` is the coefficient of a power of x. */
  datatype Register<!T> = Register(
    zero: T, plus: (T, T) -> T, shift: T -> T, top: T -> bool, bit: bool -> T, clear: T -> T,
    look: T -> T, push: T -> T, inject: bv8 -> T, coef: (T, nat) -> bool)

  function Steps<T>(f: T -> T, n: nat, r: T): T { if n == 0 then r else Steps(f, n - 1, f(r)) }

  // ---------------------------------------------------------------- laws

  ghost predicate Linear<T(!new)>(o: Register<T>) {
    && (forall a: T, b: T :: o.shift(o.plus(a, b)) == o.plus(o.shift(a), o.shift(b)))
    && (forall a: T, b: T, c: T :: o.plus(a, o.plus(b, c)) == o.plus(o.plus(a, b), c))
    && (forall a: T :: o.plus(a, o.zero) == a)
  }

  /** A register is its next bit and the rest, and eight steps take out an octet just put in. */
  ghost predicate TakesBits<T(!new)>(o: Register<T>) {
    && (forall a: T {:trigger o.clear(a)} :: a == o.plus(o.bit(o.top(a)), o.clear(a)))
    && (forall b: bv8 {:trigger o.inject(b)} :: Rest(o, o.inject(b), 8) == o.zero)
  }

  /** One table lookup is eight steps. */
  ghost predicate LooksUp<T(!new)>(o: Register<T>) {
    forall a: T {:trigger o.look(a)} :: o.plus(o.look(a), o.push(a)) == Steps(o.shift, 8, a)
  }

  /** A step multiplies by x and subtracts the divisor `p`, of degree `d`, if a 1 was shifted out. */
  ghost predicate DividesBy<T(!new)>(o: Register<T>, p: Poly, d: nat) {
    && d > 0 && Degree(p, d)
    && (forall a: T, i: nat | i >= d :: !o.coef(a, i))
    && (forall a: T, b: bool, i: nat {:trigger Watches(a, b, i)} | Watches(a, b, i) && i < d ::
          o.coef(Feed(o, a, b), i) == ((i > 0 && o.coef(a, i - 1)) != ((o.coef(a, d - 1) != b) && p(i))))
  }

  /** Marks the coefficient that a proof follows through a step. */
  predicate Watches<T>(a: T, b: bool, i: nat) { true }

  // ---------------------------------------------------------------- bits of an octet

  /** What is left of `a` after `n` bits were taken. */
  function Rest<T>(o: Register<T>, a: T, n: nat): T {
    if n == 0 then a else Rest(o, o.shift(o.clear(a)), n - 1)
  }

  /** The next `n` bits. */
  function Bits<T>(o: Register<T>, a: T, n: nat): seq<bool> {
    if n == 0 then [] else [o.top(a)] + Bits(o, o.shift(o.clear(a)), n - 1)
  }

  /** One bit goes in. */
  function Feed<T>(o: Register<T>, a: T, b: bool): T { o.shift(o.plus(a, o.bit(b))) }

  function FeedAll<T>(o: Register<T>, a: T, bits: seq<bool>): T {
    if bits == [] then a else Feed(o, FeedAll(o, a, bits[..|bits| - 1]), bits[|bits| - 1])
  }

  lemma {:induction false} FeedFirst<T>(o: Register<T>, a: T, b: bool, bits: seq<bool>)
    ensures FeedAll(o, a, [b] + bits) == FeedAll(o, Feed(o, a, b), bits)
  {
    var all := [b] + bits;
    if bits == [] {
      assert all == [b] && FeedAll(o, a, []) == a && [b][..0] == [];
    } else {
      assert all[..|all| - 1] == [b] + bits[..|bits| - 1];
      FeedFirst(o, a, b, bits[..|bits| - 1]);
    }
  }

  lemma {:induction false} FeedMore<T>(o: Register<T>, a: T, x: seq<bool>, y: seq<bool>)
    ensures FeedAll(o, a, x + y) == FeedAll(o, FeedAll(o, a, x), y)
  {
    if y == [] {
      assert x + y == x;
    } else {
      assert (x + y)[..|x + y| - 1] == x + y[..|y| - 1];
      FeedMore(o, a, x, y[..|y| - 1]);
    }
  }

  /** Adding all bits at once and then stepping is feeding them one by one. */
  lemma {:induction false} BitsOneByOne<T(!new)>(o: Register<T>, a: T, x: T, n: nat)
    requires Linear(o) && TakesBits(o)
    ensures Steps(o.shift, n, o.plus(a, x)) == o.plus(FeedAll(o, a, Bits(o, x, n)), Rest(o, x, n))
  {
    if n > 0 {
      var b, y := o.top(x), o.clear(x);
      assert o.plus(a, x) == o.plus(o.plus(a, o.bit(b)), y);
      assert o.shift(o.plus(o.plus(a, o.bit(b)), y)) == o.plus(Feed(o, a, b), o.shift(y));
      BitsOneByOne(o, Feed(o, a, b), o.shift(y), n - 1);
      FeedFirst(o, a, b, Bits(o, o.shift(y), n - 1));
    }
  }

  // ---------------------------------------------------------------- octets

  /** The table form: the octet goes in before the lookup. */
  function Direct<T>(o: Register<T>, a: T, octet: bv8): T {
    o.plus(o.look(o.plus(a, o.inject(octet))), o.push(o.plus(a, o.inject(octet))))
  }

  lemma DirectOf<T>(o: Register<T>, a: T, octet: bv8, x: T, e: T)
    requires o.plus(a, o.inject(octet)) == x && o.plus(o.look(x), o.push(x)) == e
    ensures Direct(o, a, octet) == e
  {}

  function Fold<T>(f: (T, bv8) -> T, start: T, s: seq<bv8>): T {
    if s == [] then start else f(Fold(f, start, s[..|s| - 1]), s[|s| - 1])
  }

  /** The bits of a message in the order in which they go in. */
  function MessageBits<T>(o: Register<T>, s: seq<bv8>): seq<bool> {
    if s == [] then [] else MessageBits(o, s[..|s| - 1]) + Bits(o, o.inject(s[|s| - 1]), 8)
  }

  lemma DirectFeeds<T(!new)>(o: Register<T>, a: T, octet: bv8)
    requires Linear(o) && TakesBits(o) && LooksUp(o)
    ensures Direct(o, a, octet) == FeedAll(o, a, Bits(o, o.inject(octet), 8))
  {
    var x := o.inject(octet);
    BitsOneByOne(o, a, x, 8);
    assert o.plus(o.look(o.plus(a, x)), o.push(o.plus(a, x))) == Steps(o.shift, 8, o.plus(a, x));
  }

  /** The table form over a whole message feeds its bits one by one. */
  lemma {:induction false} FoldFeeds<T(!new)>(o: Register<T>, f: (T, bv8) -> T, start: T, s: seq<bv8>)
    requires Linear(o) && TakesBits(o) && LooksUp(o) && forall a: T, b: bv8 :: f(a, b) == Direct(o, a, b)
    ensures Fold(f, start, s) == FeedAll(o, start, MessageBits(o, s))
  {
    if s != [] {
      var short, last := s[..|s| - 1], s[|s| - 1];
      FoldFeeds(o, f, start, short);
      DirectFeeds(o, Fold(f, start, short), last);
      FeedMore(o, start, MessageBits(o, short), Bits(o, o.inject(last), 8));
    }
  }

  // ---------------------------------------------------------------- octets added after the step

  lemma {:induction false} StepsAdd<T(!new)>(o: Register<T>, n: nat, a: T, b: T)
    requires Linear(o)
    ensures Steps(o.shift, n, o.plus(a, b)) == o.plus(Steps(o.shift, n, a), Steps(o.shift, n, b))
  {
    if n > 0 { StepsAdd(o, n - 1, o.shift(a), o.shift(b)); }
  }

  /** The augmented form: the octet is added after the lookup, where `low` puts it. */
  function Augmented<T>(o: Register<T>, low: bv8 -> T, a: T, octet: bv8): T { o.plus(o.plus(o.look(a), o.push(a)), low(octet)) }

  lemma AugmentedOf<T>(o: Register<T>, low: bv8 -> T, a: T, octet: bv8, x: T, y: T, e: T)
    requires o.plus(o.look(a), o.push(a)) == x && low(octet) == y && o.plus(x, y) == e
    ensures Augmented(o, low, a, octet) == e
  {}

  /** Eight more steps. */
  function Octet<T>(o: Register<T>, a: T): T { Steps(o.shift, 8, a) }

  lemma OctetAdds<T(!new)>(o: Register<T>, a: T, b: T)
    requires Linear(o)
    ensures Octet(o, o.plus(a, b)) == o.plus(Octet(o, a), Octet(o, b))
  {
    StepsAdd(o, 8, a, b);
  }

  /** Two octets of steps after the augmented form is the table form, from a cleared register. */
  lemma {:induction false} AugmentedIsDirect<T(!new)>(o: Register<T>, low: bv8 -> T, f: (T, bv8) -> T, g: (T, bv8) -> T, s: seq<bv8>)
    requires Linear(o) && LooksUp(o) && Octet(o, o.zero) == o.zero && forall b: bv8 :: Octet(o, low(b)) == o.inject(b)
    requires forall a: T, b: bv8 :: f(a, b) == Augmented(o, low, a, b) && g(a, b) == Direct(o, a, b)
    ensures Octet(o, Octet(o, Fold(f, o.zero, s))) == Fold(g, o.zero, s)
  {
    if s != [] {
      var short, b := s[..|s| - 1], s[|s| - 1];
      AugmentedIsDirect(o, low, f, g, short);
      AugmentedStep(o, low, Fold(f, o.zero, short), b);
    }
  }

  lemma AugmentedStep<T(!new)>(o: Register<T>, low: bv8 -> T, a: T, b: bv8)
    requires Linear(o) && LooksUp(o) && Octet(o, low(b)) == o.inject(b)
    ensures Octet(o, Octet(o, Augmented(o, low, a, b))) == Direct(o, Octet(o, Octet(o, a)), b)
  {
    assert o.plus(o.look(a), o.push(a)) == Octet(o, a);
    OctetAdds(o, Octet(o, a), low(b));
    OctetAdds(o, Octet(o, Octet(o, a)), o.inject(b));
    OctetAdds(o, Octet(o, Octet(o, a)), Octet(o, low(b)));
    var c := o.plus(Octet(o, Octet(o, a)), o.inject(b));
    assert o.plus(o.look(c), o.push(c)) == Octet(o, c);
  }

  // ---------------------------------------------------------------- division of polynomials

  /** The coefficients of a register. */
  function Coefs<T>(o: Register<T>, a: T): Poly { (i: nat) => o.coef(a, i) }

  /** The quotient: the bits shifted out. */
  function Quotient<T>(o: Register<T>, d: nat, start: T, bits: seq<bool>): seq<bool>
    requires d > 0
  {
    if bits == [] then [] else
    var last := |bits| - 1;
    Quotient(o, d, start, bits[..last]) + [o.coef(FeedAll(o, start, bits[..last]), d - 1) != bits[last]]
  }

  /** One bit more: the same on the right-hand side of the division. */
  lemma ProductGrows<T(!new)>(o: Register<T>, p: Poly, d: nat, a: T, b: bool, q: seq<bool>, i: nat)
    requires DividesBy(o, p, d)
    ensures var t := o.coef(a, d - 1) != b;
            (Product(q + [t], p, i) != o.coef(Feed(o, a, b), i)) ==
            ((i > 0 && (Product(q, p, i - 1) != o.coef(a, i - 1))) != (i == d && b))
  {
    var t := o.coef(a, d - 1) != b;
    assert (q + [t])[..|q|] == q && Watches(a, b, i);
  }

  /** Feeding bits divides: the dividend is the quotient times the divisor plus the register. */
  lemma {:induction false} FeedingDivides<T(!new)>(o: Register<T>, p: Poly, d: nat, start: T, bits: seq<bool>, i: nat)
    requires DividesBy(o, p, d)
    ensures DividendAt(bits, d, Coefs(o, start), i) == (Product(Quotient(o, d, start, bits), p, i) != o.coef(FeedAll(o, start, bits), i))
    decreases |bits|
  {
    if bits != [] {
      var last := |bits| - 1;
      var short := bits[..last];
      var q, a := Quotient(o, d, start, short), FeedAll(o, start, short);
      assert Quotient(o, d, start, bits) == q + [o.coef(a, d - 1) != bits[last]] && FeedAll(o, start, bits) == Feed(o, a, bits[last]);
      DividendGrows(bits, d, Coefs(o, start), i);
      ProductGrows(o, p, d, a, bits[last], q, i);
      if i > 0 { FeedingDivides(o, p, d, start, short, i - 1); }
    }
  }

  /** The register that a message leaves is the remainder of its division. */
  lemma FeedingLeavesRemainder<T(!new)>(o: Register<T>, p: Poly, d: nat, start: T, bits: seq<bool>)
    requires DividesBy(o, p, d)
    ensures IsRemainder(Dividend(bits, d, Coefs(o, start)), p, d, Coefs(o, FeedAll(o, start, bits)))
  {
    var m, q, r := Dividend(bits, d, Coefs(o, start)), Quotient(o, d, start, bits), Coefs(o, FeedAll(o, start, bits));
    forall i: nat ensures m(i) == (Product(q, p, i) != r(i)) {
      FeedingDivides(o, p, d, start, bits, i);
    }
    assert Divides(m, p, q, r);
  }
}
