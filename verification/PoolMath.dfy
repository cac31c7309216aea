/**
 Integer arithmetic behind the constant-product pool.

 Every quantity is a count of indivisible units, and every division rounds down, so each
 economic claim is an inequality that has to survive the rounding.
 */
module PoolMath {

  const BPS := 10_000

  /** The part of a swap's input that takes part in the price, after the basis-point fee. */
  function AfterFee(dx: int, fee: int): int {
    dx * (BPS - fee) / BPS
  }

  /** Constant-product output for `net` units (after the fee) paid into reserve `x`. */
  function Output(x: int, y: int, net: int): int
    requires 0 < x + net
  {
    net * y / (x + net)
  }

  /** Integer square root: the largest `r` whose square does not exceed `n`. */
  function ISqrt(n: nat): (r: nat)
    ensures r * r <= n < (r + 1) * (r + 1)
  {
    if n == 0 then 0
    else
      var r := ISqrt(n - 1);
      if (r + 1) * (r + 1) <= n then r + 1 else r
  }

  lemma ISqrtExact(m: nat, n: nat)
    ensures m <= ISqrt(n) <==> m * m <= n
  {
    var r := ISqrt(n);
    if m <= r {
      MulMonotone(m, r, m);
      MulMonotone(m, r, r);
    } else {
      MulMonotone(r + 1, m, r + 1);
      MulMonotone(r + 1, m, m);
    }
  }

  // ----- rounding -----

  lemma FloorBounds(a: int, b: int)
    requires b > 0
    ensures a / b * b <= a < a / b * b + b
    ensures 0 <= a ==> 0 <= a / b
  {
    assert a == b * (a / b) + a % b;
  }

  lemma MulMonotone(a: int, b: int, c: int)
    requires a <= b && 0 <= c
    ensures a * c <= b * c
  {
  }

  lemma CancelLeft(c: int, a: int, b: int)
    requires 0 < c && c * a <= c * b
    ensures a <= b
  {
    if b < a {
      MulMonotone(b + 1, a, c);
    }
  }

  lemma CancelLeftStrict(c: int, a: int, b: int)
    requires 0 < c && c * a < c * b
    ensures a < b
  {
    if b <= a {
      MulMonotone(b, a, c);
    }
  }

  /** The quotient is the largest integer whose multiple fits. */
  lemma FloorIsGreatest(o: int, num: int, den: int)
    requires 0 < den && o * den <= num
    ensures o <= num / den
  {
    FloorBounds(num, den);
    CancelLeftStrict(den, o, num / den + 1);
  }

  lemma FloorAtMost(num: int, den: int, a: int)
    requires 0 < den && num <= a * den
    ensures num / den <= a
  {
    FloorBounds(num, den);
    var q := num / den;
    assert den * q == q * den && den * a == a * den;
    CancelLeft(den, q, a);
  }

  /** `o` is at most the quotient exactly when its multiple fits. */
  lemma FloorExact(o: int, num: int, den: int)
    requires 0 < den
    ensures o <= num / den <==> o * den <= num
  {
    FloorBounds(num, den);
    if o <= num / den {
      MulMonotone(o, num / den, den);
    }
    if o * den <= num {
      FloorIsGreatest(o, num, den);
    }
  }

  // ----- swaps -----

  lemma AfterFeeBounds(dx: int, fee: int)
    requires 0 <= dx && 0 <= fee <= BPS
    ensures 0 <= AfterFee(dx, fee) <= dx
  {
    MulMonotone(BPS - fee, BPS, dx);
    MulMonotone(0, BPS - fee, dx);
  }

  /** Charging the fee on two payments never leaves more than charging it on their sum. */
  lemma AfterFeeSuperadditive(d1: int, d2: int, fee: int)
    requires 0 <= d1 && 0 <= d2 && 0 <= fee <= BPS
    ensures AfterFee(d1, fee) + AfterFee(d2, fee) <= AfterFee(d1 + d2, fee)
  {
    var g := BPS - fee;
    assert (d1 + d2) * g == d1 * g + d2 * g;
  }

  lemma OutputBounds(x: int, y: int, net: int)
    requires 0 < x && 0 < y && 0 <= net
    ensures 0 <= Output(x, y, net) < y
    ensures Output(x, y, net) * (x + net) <= net * y
  {
    MulMonotone(0, y, net);
    FloorBounds(net * y, x + net);
    var o := Output(x, y, net);
    assert net * y < (x + net) * y by {
      assert (x + net) * y == x * y + net * y;
      assert 0 < x * y;
    }
    assert o * (x + net) == (x + net) * o;
    CancelLeftStrict(x + net, o, y);
  }

  /** The output is the largest amount whose removal keeps the product with `net` paid in. */
  lemma OutputExact(x: int, y: int, net: int, o: int)
    requires 0 < x && 0 < y && 0 <= net
    ensures o <= Output(x, y, net) <==> (x + net) * (y - o) >= x * y
  {
    FloorExact(o, net * y, x + net);
    assert (x + net) * (y - o) == x * y + net * y - o * (x + net);
  }

  /** The product of the reserves never falls across a swap that pays in at least `net`. */
  lemma SwapKeepsProduct(x: int, y: int, net: int, dx: int)
    requires 0 < x && 0 < y && 0 <= net <= dx
    ensures (x + dx) * (y - Output(x, y, net)) >= x * y
  {
    OutputBounds(x, y, net);
    var o := Output(x, y, net);
    assert (x + net) * (y - o) == x * y + net * y - o * (x + net);
    MulMonotone(x + net, x + dx, y - o);
  }

  /**
   Two consecutive swaps in one direction yield at most what a single swap of the combined
   input yields, although the first swap's fee stays in the reserves.
   */
  lemma TwoSwapsAtMostOne(x: int, y: int, d1: int, n1: int, n2: int, n: int)
    requires 0 < x && 0 < y && 0 <= n1 <= d1 && 0 <= n2 && n1 + n2 <= n
    ensures 0 < y - Output(x, y, n1)
    ensures Output(x, y, n1) + Output(x + d1, y - Output(x, y, n1), n2) <= Output(x, y, n)
  {
    OutputBounds(x, y, n1);
    var o1 := Output(x, y, n1);
    OutputBounds(x + d1, y - o1, n2);
    var o2 := Output(x + d1, y - o1, n2);
    var m := n1 + n2;
    assert o2 * (x + m) <= n2 * (y - o1) by {
      MulMonotone(x + m, x + d1 + n2, o2);
      assert o2 * (x + m) == (x + m) * o2;
      assert o2 * (x + d1 + n2) == (x + d1 + n2) * o2;
    }
    assert o1 * (x + m) == o1 * (x + n1) + o1 * n2;
    assert n2 * (y - o1) == n2 * y - o1 * n2;
    assert (o1 + o2) * (x + m) == o1 * (x + m) + o2 * (x + m);
    assert m * y == n1 * y + n2 * y;
    assert (o1 + o2) * (x + m) <= m * y;
    assert (o1 + o2) * (x + n) <= n * y by {
      MulMonotone(o1 + o2, y, n - m);
      assert (o1 + o2) * (x + n) == (o1 + o2) * (x + m) + (o1 + o2) * (n - m);
      assert n * y == m * y + y * (n - m);
    }
    FloorIsGreatest(o1 + o2, n * y, x + n);
  }

  lemma CrossSum(m: int, r: int, a: int, l: int)
    requires m * r <= a * l
    ensures m * (r + a) <= a * (l + m)
  {
    assert m * (r + a) == m * r + m * a;
    assert a * (l + m) == a * l + m * a;
  }

  /** Swapping the whole output back returns at most the original input. */
  lemma SwapBackAtMostInput(x: int, y: int, dx: int, net: int, back: int)
    requires 0 < x && 0 < y && 0 <= net <= dx
    requires 0 <= back <= Output(x, y, net)
    ensures 0 < y - Output(x, y, net)
    ensures Output(y - Output(x, y, net), x + dx, back) <= dx
  {
    OutputBounds(x, y, net);
    var o := Output(x, y, net);
    assert o * x <= net * (y - o) by {
      assert o * (x + net) == o * x + net * o;
      assert net * (y - o) == net * y - net * o;
    }
    MulMonotone(net, dx, y - o);
    MulMonotone(back, o, x);
    assert back * x <= dx * (y - o);
    CrossSum(back, x, dx, y - o);
    FloorAtMost(back * (x + dx), y - o + back, dx);
  }

  /** With the product kept, one reserve falls only if the other rises. */
  lemma FallForcesRise(x: int, y: int, x': int, y': int)
    requires 0 < x && 0 < y && 0 <= x' < x && x' * y' >= x * y
    ensures y < y'
  {
    if y' <= y {
      MulMonotone(y', y, x');
      MulMonotone(x' + 1, x, y);
    }
  }

  /** A product that does not fall lets one factor fall only while the other rises. */
  lemma ProductTrades(x: int, y: int, x': int, y': int)
    requires 0 <= x' && 0 <= y' && x' * y' >= x * y
    requires (x == 0 && y == 0) || (0 < x && 0 < y)
    ensures x' < x ==> y < y'
    ensures y' < y ==> x < x'
  {
    if x' < x {
      FallForcesRise(x, y, x', y');
    }
    if y' < y {
      FallForcesRise(y, x, y', x');
    }
  }

  // ----- shares -----

  /** Minting `m` shares for `a` units keeps each share's claim on that reserve. */
  lemma MintKeepsShare(r: int, l: int, a: int, m: int)
    requires 0 < r && 0 < l && 0 <= a && 0 <= m <= a * l / r
    ensures m * r <= a * l
    ensures (r + a) * l >= r * (l + m)
  {
    FloorBounds(a * l, r);
    MulMonotone(m, a * l / r, r);
    assert (r + a) * l == r * l + a * l;
    assert r * (l + m) == r * l + m * r;
  }

  /** Burning `t` of `l` shares pays at most their claim and leaves the rest at least theirs. */
  lemma BurnKeepsShare(r: int, l: int, t: int)
    requires 0 <= r && 0 < l && 0 <= t <= l
    ensures 0 <= t * r / l <= r
    ensures (r - t * r / l) * l >= r * (l - t)
    ensures t == l ==> t * r / l == r
    ensures 0 < r && t < l ==> t * r / l < r
  {
    MulMonotone(0, r, t);
    FloorBounds(t * r, l);
    var w := t * r / l;
    assert (r - w) * l == r * l - w * l;
    assert r * (l - t) == r * l - t * r;
    MulMonotone(t, l, r);
    assert w * l == l * w && r * l == l * r;
    CancelLeft(l, w, r);
    if t == l {
      FloorIsGreatest(r, t * r, l);
    }
    if 0 < r && t < l {
      MulMonotone(t + 1, l, r);
      assert (t + 1) * r == t * r + r;
      CancelLeftStrict(l, w, r);
    }
  }

  /** Tokens minted by a deposit never redeem for more than the deposit. */
  lemma MintThenBurn(r: int, l: int, a: int, m: int)
    requires 0 < r && 0 < l && 0 <= a && 0 < m <= a * l / r
    ensures m * (r + a) / (l + m) <= a
  {
    FloorBounds(a * l, r);
    MulMonotone(m, a * l / r, r);
    CrossSum(m, r, a, l);
    FloorAtMost(m * (r + a), l + m, a);
  }

  // ----- share value -----

  /** The square of the value behind one share, `x*y / l^2`, did not fall. */
  ghost predicate ValueKept(x: int, y: int, l: int, x': int, y': int, l': int) {
    x' * y' * (l * l) >= x * y * (l' * l')
  }

  lemma SidesKeepValue(x: int, y: int, l: int, x': int, y': int, l': int)
    requires 0 <= x && 0 <= y && 0 <= l && 0 <= x' && 0 <= y' && 0 <= l'
    requires x' * l >= x * l' && y' * l >= y * l'
    ensures ValueKept(x, y, l, x', y', l')
  {
    assert 0 <= x * l' && 0 <= y * l';
    MulMonotone(x * l', x' * l, y' * l);
    MulMonotone(y * l', y' * l, x * l');
    assert (x' * l) * (y' * l) == x' * y' * (l * l);
    assert (x * l') * (y * l') == x * y * (l' * l');
    assert (x * l') * (y' * l) == (y' * l) * (x * l');
    assert (x * l') * (y * l') == (y * l') * (x * l');
  }

  lemma ProductKeepsValue(x: int, y: int, l: int, x': int, y': int)
    requires x' * y' >= x * y
    ensures ValueKept(x, y, l, x', y', l)
  {
    assert 0 <= l * l;
    MulMonotone(x * y, x' * y', l * l);
  }

  lemma ValueKeptTransitive(k0: int, l0: int, k1: int, l1: int, k2: int, l2: int)
    requires 0 <= l0 && 0 < l1 && 0 <= l2
    requires k1 * l0 >= k0 * l1 && k2 * l1 >= k1 * l2
    ensures k2 * l0 >= k0 * l2
  {
    MulMonotone(k1 * l2, k2 * l1, l0);
    MulMonotone(k0 * l1, k1 * l0, l2);
    assert (k1 * l2) * l0 == (k1 * l0) * l2;
    assert (k2 * l1) * l0 == l1 * (k2 * l0);
    assert (k0 * l1) * l2 == l1 * (k0 * l2);
    CancelLeft(l1, k0 * l2, k2 * l0);
  }

  /** A backed supply (`l^2 <= x*y`) stays backed when the value per share does not fall. */
  lemma ValueKeptStaysBacked(x: int, y: int, l: int, x': int, y': int, l': int)
    requires 0 < l && 0 <= l' && l * l <= x * y
    requires ValueKept(x, y, l, x', y', l')
    ensures l' * l' <= x' * y'
  {
    assert 0 < l * l && 0 <= l' * l';
    MulMonotone(l * l, x * y, l' * l');
    assert x' * y' * (l * l) == (l * l) * (x' * y');
    CancelLeft(l * l, l' * l', x' * y');
  }

  /** Below 2^31 on both sides, a backed supply is below 2^31 too. */
  lemma BackedSupplyBelow(l: int, x: int, y: int, m: int)
    requires 0 <= l && 0 <= x < m && 0 <= y < m && l * l <= x * y
    ensures l < m
  {
    MulMonotone(x, m, y);
    MulMonotone(y, m - 1, m);
    assert m * y == y * m && (m - 1) * m == m * m - m;
    if m <= l {
      MulMonotone(m, l, m);
      MulMonotone(m, l, l);
    }
  }
}
