/** Facts about multiples and quotients. */
module Arithmetic {

  lemma AlignMultiple(q: int, width: nat)
    requires width > 0
    ensures (q * width) % width == 0
  {
    var d := q - q * width / width;
    assert width * d == (q * width) % width by {
      assert width * (q * width / width) + (q * width) % width == q * width;
    }
    MultiplesApart(width, d);
  }

  // The least multiple of width that is at least n.
  function AlignUp(n: nat, width: nat): (r: nat)
    requires width > 0
    ensures n <= r < n + width && r % width == 0
  {
    var r := (n + width - 1) / width * width;
    AlignMultiple((n + width - 1) / width, width);
    r
  }

  lemma MultiplesApart(width: int, d: int)
    requires width > 0
    ensures d > 0 ==> width * d >= width
    ensures d < 0 ==> width * d <= -width
  {
    if d > 0 {
      ProductGrows(width, d);
    } else if d < 0 {
      ProductGrows(width, -d);
      assert width * d == -(width * -d);
    }
  }

  // Division with remainder.
  lemma Divided(x: int, w: int)
    requires w > 0
    ensures x == w * (x / w) + x % w && 0 <= x % w < w
  {}

  lemma MultipleOf(q: int, n: nat, width: nat)
    requires width > 0 && n % width == 0
    ensures (q * n) % width == 0
  {
    AlignMultiple(q * (n / width), width);
    assert q * (n / width) * width == q * n by {
      assert n / width * width == n;
    }
  }

  lemma MultipleSum(a: int, b: int, width: nat)
    requires width > 0 && a % width == 0 && b % width == 0
    ensures (a + b) % width == 0
  {
    AlignMultiple(a / width + b / width, width);
    assert (a / width + b / width) * width == a + b;
  }

  lemma DivUnique(x: int, w: int, q: int)
    requires w > 0 && w * q <= x < w * q + w
    ensures x / w == q && x % w == x - w * q
  {
    var d := x / w - q;
    assert w * (x / w) + x % w == x;
    assert w * d == w * (x / w) - w * q;
    MultiplesApart(w, d);
  }

  lemma DivShift(q: int, r: int, w: int)
    requires w > 0
    ensures (w * q + r) / w == q + r / w && (w * q + r) % w == r % w
  {
    assert w * (r / w) + r % w == r;
    assert w * (q + r / w) == w * q + w * (r / w);
    DivUnique(w * q + r, w, q + r / w);
  }

  lemma DivMonotone(a: int, b: int, w: int)
    requires w > 0 && a <= b
    ensures a / w <= b / w
  {
    var d := a / w - b / w;
    assert w * (a / w) + a % w == a && w * (b / w) + b % w == b;
    assert w * d == w * (a / w) - w * (b / w);
    MultiplesApart(w, d);
  }

  // Integer division that truncates toward zero.
  function Quot(a: int, b: int): int
    requires b != 0
  {
    if b > 0 then (if a >= 0 then a / b else -((-a) / b))
    else (if a >= 0 then -(a / -b) else (-a) / -b)
  }

  lemma {:induction false} ProductGrows(x: nat, b: nat)
    requires b > 0
    ensures x * b >= x
  {
    if b > 1 {
      ProductGrows(x, b - 1);
      assert x * b == x * (b - 1) + x;
    }
  }

  lemma QuotBounds(a: int, b: int)
    requires a >= 0 && b > 0
    ensures 0 <= Quot(a, b) <= a
  {
    ProductGrows(a / b, b);
  }

  function Pow2(k: nat): (p: nat)
    ensures p > 0
  {
    if k == 0 then 1 else 2 * Pow2(k - 1)
  }

  // The numbers or-ed bit by bit.
  function BitOr(a: nat, b: nat): nat {
    if a == 0 then b else 2 * BitOr(a / 2, b / 2) + if a % 2 == 1 || b % 2 == 1 then 1 else 0
  }

  lemma {:induction false} OrNothing(a: nat)
    ensures BitOr(a, 0) == a
  {
    if a > 0 {
      OrNothing(a / 2);
    }
  }

  // Or-ing a number below a power of two to a multiple of it adds the two.
  lemma {:induction false} OrIsSum(h: nat, k: nat, a: nat)
    requires a < Pow2(k)
    ensures BitOr(h * Pow2(k), a) == h * Pow2(k) + a
  {
    if k == 0 {
      OrNothing(h);
    } else {
      var x := h * Pow2(k - 1);
      assert h * Pow2(k) == 2 * x;
      OrIsSum(h, k - 1, a / 2);
    }
  }

  // Taking at most an equal share of what is left leaves an equal share for each of the others.
  lemma ShareLeft(left: nat, k: nat, f: nat, c: int)
    requires k > 0 && k * f <= left && c <= left / k
    ensures left / k >= f && (k - 1) * f <= left - c
  {
    var q := left / k;
    assert f * k == k * f;
    ShareIsLeast(left, k, f);
    Divided(left, k);
    ProductMonotone(k - 1, f, q);
    assert (k - 1) * q == k * q - q;
  }

  lemma ProductMonotone(k: nat, a: int, b: int)
    requires a <= b
    ensures k * a <= k * b
  {
    assert k * b == k * a + k * (b - a);
    assert k * (b - a) >= 0;
  }

  // The quotient is the greatest share that all can have.
  lemma EqualShare(left: nat, k: nat)
    requires k > 0
    ensures Quot(left, k) >= 0 && Quot(left, k) * k <= left < (Quot(left, k) + 1) * k
  {
    var q := left / k;
    Divided(left, k);
    assert q * k == k * q && (q + 1) * k == k * q + k;
    if q < 0 {
      MultiplesApart(k, q);
    }
  }

  lemma ShareIsLeast(left: nat, k: nat, s: nat)
    requires k > 0 && s * k <= left
    ensures s <= left / k
  {
    var q := left / k;
    Divided(left, k);
    MultiplesApart(k, q - s);
    assert k * (q - s) == k * q - s * k;
  }

  // A product, as a sum.
  ghost function Times(k: nat, f: nat): nat {
    if k == 0 then 0 else f + Times(k - 1, f)
  }

  lemma {:induction false} TimesIsProduct(k: nat, f: nat)
    ensures Times(k, f) == k * f
  {
    if k > 0 {
      TimesIsProduct(k - 1, f);
      assert k * f == (k - 1) * f + f;
    }
  }

  lemma {:induction false} TimesGrows(j: nat, k: nat, f: nat)
    requires j <= k
    ensures Times(j, f) <= Times(k, f)
  {
    if j < k {
      TimesGrows(j, k - 1, f);
    }
  }
}
