/** Machine words as naturals below a power of two: the bit operations the queue
    relies on, and its rounding of a size up to a power of two. */
module Words {

  function Pow2(k: nat): (r: nat)
    ensures r >= 1
  {
    if k == 0 then 1 else 2 * Pow2(k - 1)
  }

  ghost predicate IsPow2(n: nat) {
    exists k: nat :: n == Pow2(k)
  }

  /** Bit `j` of `x`. */
  function Bit(x: nat, j: nat): bool {
    if j == 0 then x % 2 == 1 else Bit(x / 2, j - 1)
  }

  function Shr(x: nat, k: nat): nat
    decreases k
  {
    if k == 0 then x else Shr(x / 2, k - 1)
  }

  function Or(a: nat, b: nat): nat {
    if a == 0 && b == 0 then 0
    else 2 * Or(a / 2, b / 2) + (if a % 2 == 1 || b % 2 == 1 then 1 else 0)
  }

  function And(a: nat, b: nat): nat {
    if a == 0 || b == 0 then 0
    else 2 * And(a / 2, b / 2) + (if a % 2 == 1 && b % 2 == 1 then 1 else 0)
  }

  // ---- The bit operations, bit by bit ----

  lemma ZeroHasNoBits(j: nat)
    ensures !Bit(0, j)
  {
    if j > 0 { ZeroHasNoBits(j - 1); }
  }

  lemma {:induction false} OrBit(a: nat, b: nat, j: nat)
    ensures Bit(Or(a, b), j) == (Bit(a, j) || Bit(b, j))
  {
    if a == 0 && b == 0 {
      ZeroHasNoBits(j);
    } else if j > 0 {
      OrBit(a / 2, b / 2, j - 1);
    }
  }

  lemma {:induction false} ShrBit(x: nat, k: nat, j: nat)
    ensures Bit(Shr(x, k), j) == Bit(x, j + k)
    decreases k
  {
    if k > 0 { ShrBit(x / 2, k - 1, j); }
  }

  lemma {:induction false} SameBits(a: nat, b: nat)
    requires forall j: nat :: Bit(a, j) == Bit(b, j)
    ensures a == b
    decreases a + b
  {
    if a != 0 || b != 0 {
      assert Bit(a, 0) == Bit(b, 0);
      forall j: nat ensures Bit(a / 2, j) == Bit(b / 2, j) {
        assert Bit(a, j + 1) == Bit(b, j + 1);
      }
      SameBits(a / 2, b / 2);
    }
  }

  /** The bits of `2^m - 1` are exactly the bits below `m`. */
  lemma {:induction false} OnesBit(m: nat, j: nat)
    ensures Bit(Pow2(m) - 1, j) == (j < m)
  {
    if m == 0 {
      ZeroHasNoBits(j);
    } else if j > 0 {
      assert (Pow2(m) - 1) / 2 == Pow2(m - 1) - 1;
      OnesBit(m - 1, j - 1);
    }
  }

  /** Where the topmost set bit of a non-zero word is. */
  lemma {:induction false} TopBit(y: nat) returns (t: nat)
    requires y > 0
    ensures Pow2(t) <= y < Pow2(t + 1)
    ensures Bit(y, t) && forall k :: k > t ==> !Bit(y, k)
  {
    if y == 1 {
      t := 0;
      forall k | k > 0 ensures !Bit(1, k) { ZeroHasNoBits(k - 1); }
    } else {
      var u := TopBit(y / 2);
      t := u + 1;
      forall k | k > t ensures !Bit(y, k) { assert !Bit(y / 2, k - 1); }
    }
  }

  // ---- Powers of two ----

  lemma {:induction false} Pow2Monotone(a: nat, b: nat)
    requires a <= b
    ensures Pow2(a) <= Pow2(b)
    ensures a < b ==> 2 * Pow2(a) <= Pow2(b)
    decreases b
  {
    if a < b { Pow2Monotone(a, b - 1); }
  }

  lemma Pow2Gap(m: nat, n: nat)
    requires IsPow2(m) && IsPow2(n) && m < n
    ensures 2 * m <= n && IsPow2(2 * m)
  {
    var a: nat :| m == Pow2(a);
    var b: nat :| n == Pow2(b);
    if b <= a { Pow2Monotone(b, a); } else { Pow2Monotone(a, b); }
    assert 2 * m == Pow2(a + 1);
  }

  /** Masking with `2^k - 1` is reduction modulo `2^k`. */
  lemma {:induction false} AndMask(x: nat, k: nat)
    ensures And(x, Pow2(k) - 1) == x % Pow2(k)
    decreases k
  {
    if k > 0 {
      var p := Pow2(k - 1);
      assert (2 * p - 1) / 2 == p - 1;
      AndMask(x / 2, k - 1);
      assert x == 2 * (x / 2) + x % 2;
      ModOfDouble(x, p);
    }
  }

  lemma ModOfDouble(x: nat, p: nat)
    requires p > 0
    ensures x % (2 * p) == 2 * ((x / 2) % p) + x % 2
  {
    var h := x / 2;
    var q, r := h / p, h % p;
    assert h == q * p + r;
    assert x == 2 * (q * p + r) + x % 2;
    assert 2 * (q * p) == q * (2 * p) by { assert 2 * (q * p) == (2 * p) * q; }
    var s := 2 * r + x % 2;
    assert 0 <= s < 2 * p;
    ModUnique(x, q, 2 * p, s);
  }

  lemma ModUnique(x: int, q: int, n: int, r: int)
    requires n > 0 && 0 <= r < n && x == q * n + r
    ensures x % n == r && x / n == q
  {
    var q', r' := x / n, x % n;
    assert x == q' * n + r' && 0 <= r' < n;
    assert (q - q') * n == r' - r;
    if q - q' >= 1 {
      MultipleIsFar(q - q', n);
      assert false;
    } else if q - q' <= -1 {
      MultipleIsFar(q' - q, n);
      assert false;
    }
  }

  lemma MultipleIsFar(a: int, n: int)
    requires a >= 1 && n > 0
    ensures a * n >= n && -a * n <= -n
  {
    assert (a - 1) * n >= 0;
  }

  lemma MulMonotone(a: int, b: int, n: int)
    requires a <= b && n > 0
    ensures a * n <= b * n && (a + 1) * n == a * n + n
  {
    assert (b - a) * n >= 0;
  }

  lemma {:induction false} Pow2Sum(a: nat, b: nat)
    ensures Pow2(a + b) == Pow2(a) * Pow2(b)
  {
    if a > 0 {
      Pow2Sum(a - 1, b);
      assert 2 * (Pow2(a - 1) * Pow2(b)) == (2 * Pow2(a - 1)) * Pow2(b);
    }
  }

  /** What a word of `w` bits keeps of a number, and unsigned arithmetic in it. */
  function Wrap(x: int, w: nat): (r: nat)
    ensures r < Pow2(w) && (0 <= x < Pow2(w) ==> r == x)
  {
    if 0 <= x < Pow2(w) then x else x % Pow2(w)
  }

  lemma WrapIsMod(x: int, w: nat)
    ensures Wrap(x, w) == x % Pow2(w)
  {
    if 0 <= x < Pow2(w) { ModUnique(x, 0, Pow2(w), x); }
  }

  /** Wrapping at once or after each addition makes no difference. */
  lemma WrapPlus(a: nat, c: nat, w: nat)
    ensures Wrap(Wrap(a, w) + c, w) == Wrap(a + c, w)
  {
    WrapIsMod(a, w);
    WrapIsMod(a + c, w);
    WrapIsMod(Wrap(a, w) + c, w);
    ModPlus(a, c, Pow2(w));
  }

  /** Unsigned subtraction wraps round a word of `w` bits; masked with `n - 1` it
      is still the distance from `b` forward to `a` in a circle of `n`. */
  lemma WrappedDistance(a: nat, b: nat, n: nat, w: nat)
    requires IsPow2(n) && n <= Pow2(w) && a < n && b < n
    ensures n > 0 && And(Wrap(a - b, w), n - 1) == if a >= b then a - b else a - b + n
  {
    var k: nat :| n == Pow2(k);
    hide IsPow2;
    if k > w { Pow2Monotone(w, k); assert false; }
    WrapIsMod(a - b, w);
    var x := Wrap(a - b, w);
    AndMask(x, k);
    hide And, Wrap;
    if a >= b {
      ModUnique(a - b, 0, Pow2(w), a - b);
      ModUnique(x, 0, n, a - b);
    } else {
      ModUnique(a - b, -1, Pow2(w), a - b + Pow2(w));
      Pow2Sum(w - k, k);
      BelowMultiple(Pow2(w - k), n, b - a);
    }
  }

  lemma BelowMultiple(q: nat, n: nat, d: nat)
    requires q >= 1 && 0 < d < n
    ensures (q * n - d) % n == n - d
  {
    assert q * n == (q - 1) * n + n;
    ModUnique(q * n - d, q - 1, n, n - d);
  }

  lemma ModPlus(a: nat, c: nat, m: nat)
    requires m > 0
    ensures (a % m + c) % m == (a + c) % m
  {
    var q, r := a / m, a % m;
    var q', r' := (r + c) / m, (r + c) % m;
    assert a + c == (q + q') * m + r' by { assert (q + q') * m == q * m + q' * m; }
    ModUnique(a + c, q + q', m, r');
  }

  /** The successor of place `i` in a circle of `n`. */
  function Inc(i: int, n: int): int {
    if i + 1 == n then 0 else i + 1
  }

  /** `(i + 1) & sizeMask` as the queue computes it. For a power-of-two size it
      steps to the next slot and wraps at the end. */
  function MaskInc(i: nat, n: nat): (r: nat)
    requires n > 0
    ensures IsPow2(n) && i < n ==> r == Inc(i, n)
  {
    MaskIncIsInc(i, n);
    And(i + 1, n - 1)
  }

  lemma MaskIncIsInc(i: nat, n: nat)
    requires n > 0
    ensures IsPow2(n) && i < n ==> And(i + 1, n - 1) == Inc(i, n)
  {
    if IsPow2(n) && i < n {
      var k: nat :| n == Pow2(k);
      AndMask(i + 1, k);
      if i + 1 == n { ModUnique(i + 1, 1, n, 0); } else { ModUnique(i + 1, 0, n, i + 1); }
    }
  }

  // ---- ceilToPow2 ----

  /** `p` is the least power of two that is at least `x`. */
  ghost predicate LeastPow2AtLeast(p: nat, x: nat) {
    IsPow2(p) && x <= p && forall q: nat :: IsPow2(q) && x <= q ==> p <= q
  }

  /** `x` is the OR of `y` shifted right by 0, 1, ..., n - 1. */
  ghost predicate Smeared(x: nat, y: nat, n: nat) {
    forall j: nat :: Bit(x, j) <==> exists k: nat :: j <= k < j + n && Bit(y, k)
  }

  lemma SmearDoubles(x: nat, y: nat, n: nat)
    requires Smeared(x, y, n)
    ensures Smeared(Or(x, Shr(x, n)), y, 2 * n)
  {
    hide Bit, Or, Shr;
    var z := Or(x, Shr(x, n));
    forall j: nat
      ensures Bit(z, j) <==> exists k: nat :: j <= k < j + 2 * n && Bit(y, k)
    {
      OrBit(x, Shr(x, n), j);
      ShrBit(x, n, j);
      var m := j + n;
      assert Bit(z, j) == (Bit(x, j) || Bit(x, m));
      assert Bit(x, j) <==> exists k: nat :: j <= k < m && Bit(y, k);
      assert Bit(x, m) <==> exists k: nat :: m <= k < j + 2 * n && Bit(y, k);
    }
  }

  /** A word smeared over its whole width is all ones up to its top bit. */
  lemma SmearedIsOnes(x: nat, y: nat, w: nat, t: nat)
    requires Smeared(x, y, w) && t < w
    requires Bit(y, t) && forall k :: k > t ==> !Bit(y, k)
    ensures x == Pow2(t + 1) - 1
  {
    hide Bit, Pow2;
    forall j: nat ensures Bit(x, j) == Bit(Pow2(t + 1) - 1, j) {
      OnesBit(t + 1, j);
      if j <= t { assert j <= t < j + w && Bit(y, t); }
    }
    SameBits(x, Pow2(t + 1) - 1);
  }

  lemma LeastByTopBit(x: nat, t: nat)
    requires Pow2(t) < x <= Pow2(t + 1)
    ensures LeastPow2AtLeast(Pow2(t + 1), x)
  {
    forall q: nat | IsPow2(q) && x <= q ensures Pow2(t + 1) <= q {
      var k: nat :| q == Pow2(k);
      if k <= t { Pow2Monotone(k, t); } else { Pow2Monotone(t + 1, k); }
    }
  }

  /** The wrapping decrement. */
  lemma Decremented(arg: nat, range: nat)
    requires arg < range
    ensures (arg + range - 1) % range == if arg == 0 then range - 1 else arg - 1
  {
    if arg == 0 { ModUnique(range - 1, 0, range, range - 1); }
    else { ModUnique(arg + range - 1, 1, range, arg - 1); }
  }

  lemma SmearOfZero(x: nat, n: nat)
    requires Smeared(x, 0, n)
    ensures x == 0
  {
    forall j: nat ensures Bit(x, j) == Bit(0, j) {
      ZeroHasNoBits(j);
      forall k: nat ensures !Bit(0, k) { ZeroHasNoBits(k); }
    }
    SameBits(x, 0);
  }

  /** What the final wrapping increment makes of a smeared non-zero word. */
  lemma IncrementOfSmear(x: nat, y: nat, w: nat) returns (t: nat)
    requires 0 < y < Pow2(w) && Smeared(x, y, w)
    ensures t < w && Pow2(t) <= y < Pow2(t + 1)
    ensures (x + 1) % Pow2(w) == if t + 1 == w then 0 else Pow2(t + 1)
  {
    t := TopBit(y);
    if t >= w { Pow2Monotone(w, t); assert false; }
    SmearedIsOnes(x, y, w, t);
    Pow2Monotone(t + 1, w);
    if t + 1 == w {
      ModUnique(Pow2(w), 1, Pow2(w), 0);
    } else {
      ModUnique(Pow2(t + 1), 0, Pow2(w), Pow2(t + 1));
    }
  }

  /** The result of the whole computation, for every word of width `w`. */
  lemma CeilFromSmear(arg: nat, x: nat, y: nat, w: nat)
    requires w > 0 && arg < Pow2(w) && y == if arg == 0 then Pow2(w) - 1 else arg - 1
    requires Smeared(x, y, w)
    ensures 1 <= arg <= Pow2(w - 1) ==> LeastPow2AtLeast((x + 1) % Pow2(w), arg)
    ensures arg == 0 || arg > Pow2(w - 1) ==> (x + 1) % Pow2(w) == 0
  {
    Pow2Monotone(0, w - 1);
    if y == 0 {
      SmearOfZero(x, w);
      ModUnique(1, 0, Pow2(w), 1);
      assert Pow2(0) == 1;
    } else {
      var t := IncrementOfSmear(x, y, w);
      if t + 1 < w {
        Pow2Monotone(t + 1, w - 1);
        LeastByTopBit(arg, t);
      }
    }
  }

  /** The shift-and-OR part of `ceilToPow2`: three fixed shifts, then the loop
      that depends on the word's size in bytes. */
  method SmearRight(y: nat, bytes: nat) returns (x: nat)
    requires IsPow2(bytes)
    ensures Smeared(x, y, 8 * bytes)
  {
    x := y;
    SmearDoubles(x, y, 1);
    x := Or(x, Shr(x, 1));
    SmearDoubles(x, y, 2);
    x := Or(x, Shr(x, 2));
    SmearDoubles(x, y, 4);
    x := Or(x, Shr(x, 4));
    var i := 1;
    assert i == Pow2(0);
    while i < bytes
      invariant IsPow2(i) && 1 <= i <= bytes
      invariant Smeared(x, y, 8 * i)
    {
      SmearDoubles(x, y, 8 * i);
      x := Or(x, Shr(x, 8 * i));
      Pow2Gap(i, bytes);
      i := 2 * i;
    }
  }

  /** `ceilToPow2` on a word of `bytes` bytes. Above half the word's range (and
      for 0) the final increment wraps to 0. */
  method CeilToPow2(arg: nat, bytes: nat) returns (x: nat)
    requires IsPow2(bytes) && arg < Pow2(8 * bytes)
    ensures 1 <= arg <= Pow2(8 * bytes - 1) ==> LeastPow2AtLeast(x, arg)
    ensures arg == 0 || arg > Pow2(8 * bytes - 1) ==> x == 0
  {
    var w := 8 * bytes;
    Decremented(arg, Pow2(w));
    var y := (arg + Pow2(w) - 1) % Pow2(w);
    x := SmearRight(y, bytes);
    CeilFromSmear(arg, x, y, w);
    x := (x + 1) % Pow2(w);
  }
}
