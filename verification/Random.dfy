/** The multiplicative generator of src/siktacka/random.cc, whose draws also name the games. */
module Generator {
  import opened Wire

  const RANDOM_MUL := 279470273
  const RANDOM_MOD := 4294967291
  const RANDOM_INVERSE := 1815976680

  /** The value of last_rand after a draw. */
  function Next(r: U32): (n: U32) {
    (r * RANDOM_MUL) % RANDOM_MOD
  }

  class Random {
    var lastRand: U32

    constructor (seed: U32)
      ensures lastRand == seed
    {
      lastRand := seed;
    }

    /** The product is taken in 64 bits and does not overflow there. */
    method Draw() returns (rand: U32)
      modifies this
      ensures rand == old(lastRand) && lastRand == Next(old(lastRand))
    {
      rand := lastRand;
      var product: int := lastRand * RANDOM_MUL;
      assert product < 0x1_0000_0000_0000_0000;
      lastRand := product % RANDOM_MOD;
    }
  }

  /** The value of last_rand after k draws; the draw number k, counted from zero, returns it. */
  function Advance(r: U32, k: nat): U32
    decreases k
  {
    if k == 0 then r else Advance(Next(r), k - 1)
  }

  function Pow(b: int, e: nat): int
    decreases e
  {
    if e == 0 then 1 else b * Pow(b, e - 1)
  }

  lemma ModShift(y: int, k: int)
    ensures (y + RANDOM_MOD * k) % RANDOM_MOD == y % RANDOM_MOD
  {
  }

  /** Factors may be reduced before they are multiplied. */
  lemma ModMul(a: int, c: int)
    ensures ((a % RANDOM_MOD) * c) % RANDOM_MOD == (a * c) % RANDOM_MOD
  {
    var t, r := a / RANDOM_MOD, a % RANDOM_MOD;
    assert a * c == (RANDOM_MOD * t + r) * c == r * c + RANDOM_MOD * (t * c);
    ModShift(r * c, t * c);
  }

  lemma ModMulRight(c: int, a: int)
    ensures (c * (a % RANDOM_MOD)) % RANDOM_MOD == (c * a) % RANDOM_MOD
  {
    ModMul(a, c);
    assert c * a == a * c && c * (a % RANDOM_MOD) == (a % RANDOM_MOD) * c;
  }

  /** The k-th draw, for k of at least one, is seed * RANDOM_MUL^k mod RANDOM_MOD. */
  lemma {:induction false} DrawFormula(seed: U32, k: nat)
    requires k >= 1
    ensures Advance(seed, k) == seed * Pow(RANDOM_MUL, k) % RANDOM_MOD
    decreases k
  {
    var p := Pow(RANDOM_MUL, k - 1);
    assert seed * Pow(RANDOM_MUL, k) == (seed * RANDOM_MUL) * p;
    if k == 1 {
    } else {
      DrawFormula(Next(seed), k - 1);
      ModMul(seed * RANDOM_MUL, p);
    }
  }

  lemma {:induction false} AdvanceAdd(r: U32, j: nat, k: nat)
    ensures Advance(r, j + k) == Advance(Advance(r, j), k)
    decreases j
  {
    if j > 0 {
      AdvanceAdd(Next(r), j - 1, k);
    }
  }

  /** After one draw the state is below the modulus, where drawing is a bijection: it can be undone. */
  lemma NextInvertible(r: U32)
    requires r < RANDOM_MOD
    ensures Next(r) * RANDOM_INVERSE % RANDOM_MOD == r
    ensures Next(r * RANDOM_INVERSE % RANDOM_MOD) == r
  {
    ModMul(r * RANDOM_MUL, RANDOM_INVERSE);
    ModMul(r * RANDOM_INVERSE, RANDOM_MUL);
    assert RANDOM_MUL * RANDOM_INVERSE == 1 + RANDOM_MOD * 118164229;
    assert r * RANDOM_MUL * RANDOM_INVERSE == r + RANDOM_MOD * (118164229 * r);
    ModShift(r, 118164229 * r);
  }

  /** Zero is drawn after the seed exactly when the modulus divides the seed; then nothing else is drawn. */
  lemma {:induction false} ZeroIff(seed: U32, k: nat)
    requires k >= 1
    ensures Advance(seed, k) == 0 <==> seed % RANDOM_MOD == 0
    decreases k
  {
    var r := seed % RANDOM_MOD;
    ModMul(seed, RANDOM_MUL);
    assert Next(seed) == Next(r);
    NextInvertible(r);
    if k > 1 {
      ZeroIff(Next(seed), k - 1);
    }
  }

  // ---- Game ids ----

  lemma Scale(r: U32, k: nat)
    requires r < RANDOM_MOD
    ensures Advance(r, k) == r * Advance(1, k) % RANDOM_MOD
  {
    if k > 0 {
      DrawFormula(r, k);
      DrawFormula(1, k);
      var p := Pow(RANDOM_MUL, k);
      assert 1 * p == p;
      ModMulRight(r, p);
    }
  }

  lemma AdvanceBelow(r: U32, k: nat)
    requires r < RANDOM_MOD || k > 0
    ensures Advance(r, k) < RANDOM_MOD
  {
    if k > 0 {
      DrawFormula(r, k);
    }
  }

  /** The state r comes back after k draws. */
  ghost predicate Returns(r: U32, k: nat) {
    r < RANDOM_MOD && Advance(r, k) == r
  }

  lemma {:induction false} ReturnsTimes(r: U32, k: nat, m: nat)
    requires Returns(r, k)
    ensures Returns(r, k * m)
    decreases m
  {
    if m > 0 {
      ReturnsTimes(r, k, m - 1);
      AdvanceAdd(r, k, k * (m - 1));
      assert k * m == k + k * (m - 1);
    }
  }

  /** The numbers of draws after which r comes back are closed under differences. */
  lemma {:induction false} ReturnsMinus(r: U32, k: nat, n: nat, t: nat)
    requires Returns(r, k) && Returns(r, n) && k * t <= n
    ensures Returns(r, n - k * t)
    decreases t
  {
    if t > 0 {
      assert k * t == k + k * (t - 1);
      AdvanceAdd(r, k, n - k);
      ReturnsMinus(r, k, n - k, t - 1);
    }
  }

  /** The residue of RANDOM_MUL^k. */
  ghost predicate Power(k: nat, v: U32) {
    Advance(1, k) == v
  }

  lemma Multiply(j: nat, k: nat, v: U32, w: U32, vw: U32)
    requires Power(j, v) && Power(k, w) && v * w % RANDOM_MOD == vw
    ensures Power(j + k, vw)
  {
    AdvanceAdd(1, j, k);
    AdvanceBelow(1, j);
    Scale(v, k);
  }

  /** One hexadecimal digit of an exponent. */
  lemma Shift(e: nat, d: nat, v: U32, v2: U32, v4: U32, v8: U32, v16: U32, w: U32, r: U32)
    requires Power(e, v) && Power(d, w)
    requires v * v % RANDOM_MOD == v2 && v2 * v2 % RANDOM_MOD == v4 && v4 * v4 % RANDOM_MOD == v8
    requires v8 * v8 % RANDOM_MOD == v16 && v16 * w % RANDOM_MOD == r
    ensures Power(16 * e + d, r)
  {
    hide Power;
    Multiply(e, e, v, v, v2);
    Multiply(2 * e, 2 * e, v2, v2, v4);
    Multiply(4 * e, 4 * e, v4, v4, v8);
    Multiply(8 * e, 8 * e, v8, v8, v16);
    Multiply(16 * e, d, v16, w, r);
  }

  lemma PowerOne()
    ensures Power(1, RANDOM_MUL)
  {
  }

  /** The powers to the hexadecimal digits that are used below. */
  lemma SmallPowers()
    ensures Power(2, 1196210100) && Power(3, 1795977874) && Power(4, 3523022591) && Power(5, 1091671578)
    ensures Power(7, 1929315071) && Power(9, 1665815703) && Power(11, 2060731663) && Power(13, 1864281884)
    ensures Power(14, 374573440) && Power(15, 1808675010)
  {
    PowerOne();
    hide Power;
    Multiply(1, 1, 279470273, 279470273, 1196210100);
    Multiply(2, 1, 1196210100, 279470273, 1795977874);
    Multiply(2, 2, 1196210100, 1196210100, 3523022591);
    Multiply(4, 1, 3523022591, 279470273, 1091671578);
    Multiply(5, 2, 1091671578, 1196210100, 1929315071);
    Multiply(7, 2, 1929315071, 1196210100, 1665815703);
    Multiply(9, 2, 1665815703, 1196210100, 2060731663);
    Multiply(11, 2, 2060731663, 1196210100, 1864281884);
    Multiply(13, 1, 1864281884, 279470273, 374573440);
    Multiply(14, 1, 374573440, 279470273, 1808675010);
  }

  /** 2 * 5 * 19 * 22605091. */
  const PERIOD := RANDOM_MOD - 1
  const LARGE_FACTOR := 22605091

  lemma HalfPower()
    ensures Power(2147483645, 4294967290)
  {
    hide Power;
    SmallPowers();
    Shift(0x7, 15, 1929315071, 374573440, 2090242676, 2195952837, 2389574315, 1808675010, 1516082031);
    Shift(0x7f, 15, 1516082031, 520900476, 2804002627, 852721419, 698509376, 1808675010, 4224258928);
    Shift(0x7ff, 15, 4224258928, 4253901653, 2077274222, 197292438, 1081160483, 1808675010, 1580820279);
    Shift(0x7fff, 15, 1580820279, 830625069, 132820151, 910936491, 648299981, 1808675010, 1088831735);
    Shift(0x7ffff, 15, 1088831735, 2660506677, 4153109896, 1030018773, 1448008635, 1808675010, 3760845922);
    Shift(0x7fffff, 15, 3760845922, 2250125903, 3887666568, 2837269931, 2766459841, 1808675010, 1218243715);
    Shift(0x7ffffff, 13, 1218243715, 824509744, 254205875, 723073983, 126289740, 1864281884, 4294967290);
  }

  lemma FifthPower()
    ensures Power(858993458, 2990816245)
  {
    hide Power;
    SmallPowers();
    Shift(0x3, 3, 1795977874, 3704055081, 2646341249, 767728855, 3570972666, 1795977874, 3225610281);
    Shift(0x33, 3, 3225610281, 3651435325, 681900452, 768887476, 1089612315, 1795977874, 2867456378);
    Shift(0x333, 3, 2867456378, 395103555, 984703784, 2801811832, 3245658972, 1795977874, 1267314811);
    Shift(0x3333, 3, 1267314811, 3737202791, 1905717809, 4102927217, 542725744, 1795977874, 1548991703);
    Shift(0x33333, 3, 1548991703, 758379564, 3528748922, 3768857572, 1615034313, 1795977874, 1535260978);
    Shift(0x333333, 3, 1535260978, 1394376780, 534089318, 213673427, 2173907166, 1795977874, 2500253233);
    Shift(0x3333333, 2, 2500253233, 2034680058, 2373173771, 2378319094, 468286813, 1196210100, 2990816245);
  }

  lemma NineteenthPower()
    ensures Power(226050910, 3875674728)
  {
    hide Power;
    SmallPowers();
    Shift(0xd, 7, 1864281884, 3145820344, 854955602, 1274050009, 3284268163, 1929315071, 507867490);
    Shift(0xd7, 9, 507867490, 1525770385, 2705410045, 3633852936, 2274167516, 1665815703, 2050496915);
    Shift(0xd79, 4, 2050496915, 1922933189, 1181694797, 4150766835, 903843679, 3523022591, 6151007);
    Shift(0xd794, 3, 6151007, 520247630, 2066164738, 2221278065, 2625021157, 1795977874, 3388342564);
    Shift(0xd7943, 5, 3388342564, 3587600399, 4248425320, 1196250864, 3979482350, 1091671578, 1855562180);
    Shift(0xd79435, 14, 1855562180, 560598568, 532084782, 161892009, 2591976548, 374573440, 3875674728);
  }

  lemma PowerOf190()
    ensures Power(190, 2842258062)
  {
    hide Power;
    SmallPowers();
    Shift(0xb, 14, 2060731663, 3861127178, 155920847, 365809771, 206904582, 374573440, 2842258062);
  }

  /** After the period every state is back. */
  lemma PeriodReturns(r: U32)
    requires r < RANDOM_MOD
    ensures Returns(r, PERIOD)
  {
    hide Power, Returns, Advance;
    HalfPower();
    Multiply(2147483645, 2147483645, 4294967290, 4294967290, 1);
    OnePower(r, PERIOD);
  }

  lemma OnePower(r: U32, k: nat)
    requires r < RANDOM_MOD && Power(k, 1)
    ensures Returns(r, k)
  {
    ScalePower(r, k, 1);
  }

  lemma ScalePower(r: U32, k: nat, v: U32)
    requires r < RANDOM_MOD && Power(k, v)
    ensures Advance(r, k) == r * v % RANDOM_MOD
  {
    Scale(r, k);
  }

  /** If RANDOM_MUL^k - 1 has an inverse modulo RANDOM_MOD, only zero comes back after k draws. */
  lemma NeverReturns(r: U32, k: nat, v: U32, inverse: int, c: int)
    requires Returns(r, k) && Power(k, v) && (v - 1) * inverse == 1 + RANDOM_MOD * c
    ensures r == 0
  {
    ScalePower(r, k, v);
    hide Returns, Power;
    var d := r * v / RANDOM_MOD;
    assert r * (v - 1) == RANDOM_MOD * d;
    Cancel(r, v - 1, inverse, c, d);
    OnlyZero(r, d * inverse - r * c);
  }

  lemma Cancel(r: int, w: int, inverse: int, c: int, d: int)
    requires r * w == RANDOM_MOD * d && w * inverse == 1 + RANDOM_MOD * c
    ensures r == RANDOM_MOD * (d * inverse - r * c)
  {
    assert r * w * inverse == r * (w * inverse);
    assert r * (1 + RANDOM_MOD * c) == r + RANDOM_MOD * (r * c);
    assert RANDOM_MOD * d * inverse == RANDOM_MOD * (d * inverse);
  }

  lemma OnlyZero(r: U32, z: int)
    requires r < RANDOM_MOD && r == RANDOM_MOD * z
    ensures r == 0
  {
  }

  /** No state but zero comes back after the period divided by one of its prime factors. */
  lemma NoPartOfPeriod(r: U32, p: nat)
    requires p == 2 || p == 5 || p == 19 || p == LARGE_FACTOR
    requires Returns(r, PERIOD / p)
    ensures r == 0
  {
    hide Returns, Power;
    if p == 2 {
      HalfPower();
      NeverReturns(r, 2147483645, 4294967290, 2147483645, 2147483644);
    } else if p == 5 {
      FifthPower();
      NeverReturns(r, 858993458, 2990816245, 3759160097, 2617704937);
    } else if p == 19 {
      NineteenthPower();
      NeverReturns(r, 226050910, 3875674728, 2608200645, 2353577254);
    } else {
      PowerOf190();
      NeverReturns(r, 190, 2842258062, 1621348546, 1072951355);
    }
  }

  // ---- The large factor is prime ----

  // Trial division, in stretches of four hundred.

  lemma Trial2(d: int)
    requires 2 <= d < 402
    ensures LARGE_FACTOR % d != 0
  {
  }

  lemma Trial402(d: int)
    requires 402 <= d < 802
    ensures LARGE_FACTOR % d != 0
  {
  }

  lemma Trial802(d: int)
    requires 802 <= d < 1202
    ensures LARGE_FACTOR % d != 0
  {
  }

  lemma Trial1202(d: int)
    requires 1202 <= d < 1602
    ensures LARGE_FACTOR % d != 0
  {
  }

  lemma Trial1602(d: int)
    requires 1602 <= d < 2002
    ensures LARGE_FACTOR % d != 0
  {
  }

  lemma Trial2002(d: int)
    requires 2002 <= d < 2402
    ensures LARGE_FACTOR % d != 0
  {
  }

  lemma Trial2402(d: int)
    requires 2402 <= d < 2802
    ensures LARGE_FACTOR % d != 0
  {
  }

  lemma Trial2802(d: int)
    requires 2802 <= d < 3202
    ensures LARGE_FACTOR % d != 0
  {
  }

  lemma Trial3202(d: int)
    requires 3202 <= d < 3602
    ensures LARGE_FACTOR % d != 0
  {
  }

  lemma Trial3602(d: int)
    requires 3602 <= d < 4002
    ensures LARGE_FACTOR % d != 0
  {
  }

  lemma Trial4002(d: int)
    requires 4002 <= d < 4402
    ensures LARGE_FACTOR % d != 0
  {
  }

  lemma Trial4402(d: int)
    requires 4402 <= d < 4755
    ensures LARGE_FACTOR % d != 0
  {
  }

  lemma NoSmallDivisor(d: int)
    requires 2 <= d < 4755
    ensures LARGE_FACTOR % d != 0
  {
    if
    case 2 <= d < 402 => Trial2(d);
    case 402 <= d < 802 => Trial402(d);
    case 802 <= d < 1202 => Trial802(d);
    case 1202 <= d < 1602 => Trial1202(d);
    case 1602 <= d < 2002 => Trial1602(d);
    case 2002 <= d < 2402 => Trial2002(d);
    case 2402 <= d < 2802 => Trial2402(d);
    case 2802 <= d < 3202 => Trial2802(d);
    case 3202 <= d < 3602 => Trial3202(d);
    case 3602 <= d < 4002 => Trial3602(d);
    case 4002 <= d < 4402 => Trial4002(d);
    case 4402 <= d < 4755 => Trial4402(d);
  }

  /** A proper divisor would come with another one, and one of the two would be below the square root. */
  lemma LargeFactorIsPrime(d: nat, e: nat)
    requires d * e == LARGE_FACTOR
    ensures d == 1 || e == 1
  {
    if d < 4755 {
      SmallIsOne(d, e);
    } else if e < 4755 {
      assert e * d == d * e;
      SmallIsOne(e, d);
    } else {
      TooLarge(d, e);
    }
  }

  lemma TooLarge(d: nat, e: nat)
    requires d >= 4755 && e >= 4755
    ensures d * e > LARGE_FACTOR
  {
    assert d * e >= 4755 * e;
  }

  lemma SmallIsOne(d: nat, e: nat)
    requires d * e == LARGE_FACTOR && d < 4755
    ensures d == 1
  {
    assert d == 0 ==> d * e == 0;
    if d > 1 {
      NoSmallDivisor(d);
      ExactDivision(d, e);
    }
  }

  lemma ExactDivision(d: nat, e: nat)
    requires d > 0
    ensures d * e % d == 0 && d * e / d == e
  {
    var n := d * e;
    assert n == d * (n / d) + n % d;
    assert d * (e - n / d) == n % d;
    SmallMultiple(d, e - n / d);
  }

  lemma SmallMultiple(d: nat, z: int)
    requires 0 <= d * z < d
    ensures z == 0
  {
    assert z <= -1 ==> d * z <= d * -1;
    assert z >= 1 ==> d * z >= d * 1;
  }

  // ---- The period ----

  /** Euclid's algorithm. */
  lemma {:induction false} Euclid(a: nat, b: nat) returns (g: nat, u: nat, v: nat, x: int, y: int)
    requires a > 0
    ensures g > 0 && a == g * u && b == g * v && g == x * a + y * b
    decreases a
  {
    var q, s := b / a, b % a;
    assert b == a * q + s;
    if s == 0 {
      g, u, v, x, y := a, 1, q, 1, 0;
    } else {
      var u', v', x', y';
      g, u', v', x', y' := Euclid(s, a);
      u, v, x, y := v', v' * q + u', y' - x' * q, x';
      Linear(g, v', q, u');
      Combined(a, q, s, x', y');
    }
  }

  lemma Linear(g: int, v: int, q: int, u: int)
    ensures (g * v) * q + g * u == g * (v * q + u)
  {
    assert g * (v * q) == (g * v) * q;
  }

  lemma Combined(a: int, q: int, s: int, x: int, y: int)
    ensures (y - x * q) * a + x * (a * q + s) == x * s + y * a
  {
    assert (y - x * q) * a == y * a - (x * q) * a;
    assert x * (a * q + s) == x * (a * q) + x * s;
    assert x * (a * q) == (x * q) * a;
  }

  /** What comes back after a and after b draws does so after their greatest common divisor. */
  lemma ReturnsCombined(r: U32, a: nat, b: nat, g: nat, x: int, y: int)
    requires Returns(r, a) && Returns(r, b) && g == x * a + y * b && g > 0
    ensures Returns(r, g)
  {
    NotPositive(x, a);
    NotPositive(y, b);
    if x >= 0 && y >= 0 {
      ReturnsTimes(r, a, x);
      ReturnsTimes(r, b, y);
      AdvanceAdd(r, a * x, b * y);
    } else if x >= 0 {
      ReturnsTimes(r, a, x);
      assert b * -y == -(y * b) && a * x == x * a;
      ReturnsMinus(r, b, a * x, -y);
    } else if y >= 0 {
      ReturnsTimes(r, b, y);
      assert a * -x == -(x * a) && b * y == y * b;
      ReturnsMinus(r, a, b * y, -x);
    }
  }

  lemma NotPositive(x: int, a: nat)
    ensures x <= 0 ==> x * a <= 0
  {
  }

  /** If m divides p * n and has no factor in common with p, it divides n. */
  lemma Strip(m: nat, t: nat, p: nat, n: nat) returns (s: nat)
    requires m > 0 && m * t == p * n && NoCommonFactor(m, p)
    ensures m * s == n
  {
    var g, u, v, x, y := Euclid(m, p);
    assert g == 1 by { assert Divides(g, m) && Divides(g, p); }
    assert n == (x * m + y * p) * n == m * (x * n) + y * (p * n);
    assert y * (m * t) == m * (y * t);
    var z := x * n + y * t;
    assert m * z == n;
    assert z < 0 ==> m * z < 0;
    s := z;
  }

  ghost predicate Divides(d: nat, n: nat) {
    exists k: nat :: n == d * k
  }

  ghost predicate NoCommonFactor(m: nat, p: nat) {
    forall d: nat | Divides(d, m) && Divides(d, p) :: d == 1
  }

  /** A prime is a factor of m or has no factor in common with it. */
  lemma CommonWithPrime(m: nat, p: nat)
    requires m > 0 && p > 1 && forall d: nat | Divides(d, p) :: d == 1 || d == p
    requires !Divides(p, m)
    ensures NoCommonFactor(m, p)
  {
  }

  lemma SmallPrime(p: nat)
    requires p == 2 || p == 5 || p == 19
    ensures forall d: nat | Divides(d, p) :: d == 1 || d == p
  {
    forall d: nat | Divides(d, p) ensures d == 1 || d == p {
      var k: nat :| p == d * k;
      Factors(d, k);
    }
  }

  lemma Factors(d: nat, k: nat)
    requires d * k > 0
    ensures 1 <= d <= d * k && 1 <= k <= d * k
  {
    assert d == 0 || k == 0 ==> d * k == 0;
    assert d >= 1 && k >= 1 ==> d * k >= d * 1 && d * k >= 1 * k;
  }

  /** A divisor of the period but one is divided by one of its prime factors. */
  lemma PrimeFactorOf(m: nat, g: nat) returns (p: nat)
    requires m > 1 && m * g == PERIOD
    ensures p == 2 || p == 5 || p == 19 || p == LARGE_FACTOR
    ensures Divides(p, m)
  {
    hide Divides, NoCommonFactor;
    if Divides(2, m) {
      return 2;
    } else if Divides(5, m) {
      return 5;
    } else if Divides(19, m) {
      return 19;
    }
    SmallPrime(2);
    SmallPrime(5);
    SmallPrime(19);
    CommonWithPrime(m, 2);
    CommonWithPrime(m, 5);
    CommonWithPrime(m, 19);
    var s := Strip(m, g, 2, 2147483645);
    s := Strip(m, s, 5, 429496729);
    s := Strip(m, s, 19, LARGE_FACTOR);
    LargeFactorIsPrime(m, s);
    p := LARGE_FACTOR;
    Itself(m);
  }

  lemma Itself(m: nat)
    ensures Divides(m, m)
  {
    assert m == m * 1;
  }

  /** The generator has full period: from any state but zero all RANDOM_MOD - 1 others are passed before it is back. */
  lemma FullPeriod(r: U32, k: nat)
    requires 0 < r < RANDOM_MOD && k > 0
    ensures Advance(r, k) == r <==> k % PERIOD == 0
  {
    hide Advance, Divides;
    PeriodReturns(r);
    if k % PERIOD == 0 {
      ReturnsTimes(r, PERIOD, k / PERIOD);
    }
    if Advance(r, k) == r {
      var g, u, m, x, y := Euclid(k, PERIOD);
      ReturnsCombined(r, k, PERIOD, g, x, y);
      if m > 1 {
        NotBefore(r, g, m);
      }
      MultipleOf(k, g, u, m);
    }
  }

  /** No state but zero is back after a proper divisor of the period. */
  lemma NotBefore(r: U32, g: nat, m: nat)
    requires Returns(r, g) && g * m == PERIOD && m > 1
    ensures r == 0
  {
    hide Returns;
    assert m * g == g * m;
    var p := PrimeFactorOf(m, g);
    var t: nat :| m == p * t;
    ReturnsTimes(r, g, t);
    assert PERIOD == p * (g * t) by { assert g * (p * t) == p * (g * t); }
    ExactDivision(p, g * t);
    NoPartOfPeriod(r, p);
  }

  lemma MultipleOf(k: nat, g: nat, u: nat, m: nat)
    requires k == g * u && PERIOD == g * m && m <= 1
    ensures k % PERIOD == 0
  {
    assert m == 0 ==> g * m == 0;
    assert m == 1 ==> g * m == g;
  }

  /** Different draws of a seed have different results up to the length of the period, unless all of them are zero. */
  lemma DrawsDiffer(seed: U32, i: nat, j: nat)
    requires i < j < i + PERIOD && seed % RANDOM_MOD != 0
    ensures Advance(seed, i) != Advance(seed, j)
  {
    AdvanceAdd(seed, i, j - i);
    var r := Advance(seed, i);
    AdvanceBelow(r, j - i);
    if r < RANDOM_MOD {
      if i > 0 {
        ZeroIff(seed, i);
      }
      FullPeriod(r, j - i);
    }
  }

  /** Two consecutive games are 3n + 1 draws apart when n snakes are seated: they share an id only if it is zero,
      and then so do all later games. */
  lemma IdsDiffer(id: U32, n: nat)
    requires 1 <= n <= 247
    ensures Advance(id, 3 * n + 1) == id <==> id == 0
  {
    var k := 3 * n + 1;
    AdvanceBelow(id, k);
    if id == 0 {
      ZeroIff(id, k);
    } else if id < RANDOM_MOD {
      FullPeriod(id, k);
    }
  }
}
