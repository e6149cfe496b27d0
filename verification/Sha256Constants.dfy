/** Where the constants of SHA-256 come from: the round constants of section 4.2.2 and the initial value of
    section 5.3.3 of FIPS 180-4 are the first 32 bits of the fractional parts of cube and square roots of the
    first primes. */
module Sha256Constants {
  import opened Sha256Spec
  import Numbers

  const TWO_32 := 0x1_0000_0000
  const TWO_64 := TWO_32 * TWO_32
  const TWO_96 := TWO_64 * TWO_32

  // ---------- the first primes ----------

  function Product(d: nat, e: nat): nat {
    d * e
  }

  ghost predicate Prime(n: nat) {
    n >= 2 && forall d: nat, e: nat :: 2 <= d && 2 <= e ==> Product(d, e) != n
  }

  /** A prime up to 17, or a number that none of these divides. */
  predicate Sieved(n: nat) {
    || n == 2 || n == 3 || n == 5 || n == 7 || n == 11 || n == 13 || n == 17
    || !(|| Divides(2, n) || Divides(3, n) || Divides(5, n) || Divides(7, n) || Divides(11, n) || Divides(13, n)
         || Divides(17, n))
  }

  predicate Divides(q: nat, n: nat)
    requires q > 0
  {
    n % q == 0
  }

  lemma DividesMultiple(q: nat, k: nat)
    requires q > 0
    ensures Divides(q, q * k)
  {
    Numbers.DivModUnique(q * k, q, k, 0);
  }

  /** Of two factors of a number below 18 * 18 one is below 18. */
  lemma SmallFactor(d: nat, e: nat)
    requires 18 <= d && 18 <= e
    ensures Product(d, e) >= 324
  {
    assert d * e >= 18 * e;
  }

  lemma SplitProduct(q: nat, j: nat, e: nat)
    requires j >= 1
    ensures Product(q * j, e) == q * Product(j, e) && Product(j, e) >= e
  {
    assert (j - 1) * e >= 0;
  }

  lemma NotSieved(d: nat, e: nat)
    requires 2 <= d < 18 && 2 <= e
    ensures !Sieved(Product(d, e))
  {
    hide Divides;
    var q := if d % 2 == 0 then 2 else if d % 3 == 0 then 3 else d;
    assert d == q * (d / q);
    SplitProduct(q, d / q, e);
    DividesMultiple(q, Product(d / q, e));
    Composite(q, Product(d / q, e), Product(d, e));
    hide Sieved, Product;
  }

  lemma Composite(q: nat, k: nat, n: nat)
    requires q == 2 || q == 3 || q == 5 || q == 7 || q == 11 || q == 13 || q == 17
    requires n == q * k && k >= 2 && Divides(q, n)
    ensures !Sieved(n)
  {
    hide Divides;
    assert q == 2 ==> n == 2 * k;
    assert q == 3 ==> n == 3 * k;
    assert q == 5 ==> n == 5 * k;
    assert q == 7 ==> n == 7 * k;
    assert q >= 11 ==> n >= 22;
  }

  lemma SievedIsPrime(n: nat)
    requires 2 <= n < 324
    ensures Prime(n) <==> Sieved(n)
  {
    if Sieved(n) {
      forall d: nat, e: nat | 2 <= d && 2 <= e
        ensures Product(d, e) != n
      {
        if d < 18 {
          NotSieved(d, e);
        } else if e < 18 {
          NotSieved(e, d);
          assert Product(d, e) == Product(e, d);
        } else {
          SmallFactor(d, e);
        }
      }
    } else {
      var d := if n % 2 == 0 then 2 else if n % 3 == 0 then 3 else if n % 5 == 0 then 5 else if n % 7 == 0 then 7
        else if n % 11 == 0 then 11 else if n % 13 == 0 then 13 else 17;
      assert Product(d, n / d) == n;
    }
  }

  /** From a prime below 311 to the next one. */
  function Next(n: nat): nat
    decreases 324 - n
  {
    if n < 3 || n >= 322 || Sieved(n + 2) then n + (if n < 3 then 1 else 2) else Next(n + 2)
  }

  /** The primes in order, number 0 being 2 (`InOrder`). */
  function PrimeAt(t: nat): nat {
    Next(if t == 0 then 1 else PrimeAt(t - 1))
  }

  /** Nothing sieved is passed over. */
  lemma {:induction false} NextIsNext(n: nat)
    requires 3 <= n < 311 && n % 2 == 1
    ensures var p := Next(n); n < p <= 311 && Sieved(p) && forall m :: n < m < p ==> !Sieved(m)
    decreases 324 - n
  {
    assert Divides(2, n + 1);
    if !Sieved(n + 2) {
      assert Sieved(311);
      NextIsNext(n + 2);
    }
  }

  // ---------- roots ----------

  function Cube(n: nat): nat {
    n * n * n
  }

  function Square(n: nat): nat {
    n * n
  }

  /** The whole part of the cube root of a number up to 342. */
  function WholeRoot(p: nat): nat {
    if p < 8 then 1 else if p < 27 then 2 else if p < 64 then 3 else if p < 125 then 4 else if p < 216 then 5 else 6
  }

  /** With this whole part, k is the first 32 bits of the fractional part of the cube root of p. */
  predicate CubeRootBits(whole: nat, k: nat, p: nat) {
    k < TWO_32 && Cube(whole * TWO_32 + k) <= p * TWO_96 < Cube(whole * TWO_32 + k + 1)
  }

  predicate SquareRootBits(whole: nat, k: nat, p: nat) {
    k < TWO_32 && Square(whole * TWO_32 + k) <= p * TWO_64 < Square(whole * TWO_32 + k + 1)
  }

  ghost predicate CubeRootFraction(k: nat, p: nat) {
    exists whole :: CubeRootBits(whole, k, p)
  }

  ghost predicate SquareRootFraction(k: nat, p: nat) {
    exists whole :: SquareRootBits(whole, k, p)
  }

  /** The word denotes this number. */
  predicate Is(w: bv32, k: nat) {
    k < TWO_32 && w == k as bv32
  }

  /** The round constant of step t is the fraction that belongs to the prime of that number. */
  ghost predicate Rooted(t: nat) {
    exists k: nat :: CubeRootFraction(k, PrimeAt(t)) && Is(K(t), k)
  }

  predicate Bits(p: nat, k: nat) {
    CubeRootBits(WholeRoot(p), k, p)
  }

  /** The four primes after q. */
  predicate Four(q: nat, p0: nat, p1: nat, p2: nat, p3: nat) {
    Next(q) == p0 && Next(p0) == p1 && Next(p1) == p2 && Next(p2) == p3
  }

  lemma FourRooted(t: nat, q: nat, p: (nat, nat, nat, nat), k: (nat, nat, nat, nat))
    requires q == (if t == 0 then 1 else PrimeAt(t - 1)) && Four(q, p.0, p.1, p.2, p.3)
    requires Bits(p.0, k.0) && Bits(p.1, k.1) && Bits(p.2, k.2) && Bits(p.3, k.3)
    requires Is(K(t), k.0) && Is(K(t + 1), k.1) && Is(K(t + 2), k.2) && Is(K(t + 3), k.3)
    ensures PrimeAt(t + 3) == p.3 && Rooted(t) && Rooted(t + 1) && Rooted(t + 2) && Rooted(t + 3)
  {
    hide CubeRootBits, K, Next, WholeRoot, Is;
    assert PrimeAt(t) == p.0 && PrimeAt(t + 1) == p.1 && PrimeAt(t + 2) == p.2 && PrimeAt(t + 3) == p.3;
    assert CubeRootFraction(k.0, p.0) && CubeRootFraction(k.1, p.1);
    assert CubeRootFraction(k.2, p.2) && CubeRootFraction(k.3, p.3);
  }

  lemma Four0()
    ensures Four(1, 2, 3, 5, 7)
  {
  }

  lemma Four1()
    ensures Four(7, 11, 13, 17, 19)
  {
  }

  lemma Four2()
    ensures Four(19, 23, 29, 31, 37)
  {
  }

  lemma Four3()
    ensures Four(37, 41, 43, 47, 53)
  {
  }

  lemma Four4()
    ensures Four(53, 59, 61, 67, 71)
  {
  }

  lemma Four5()
    ensures Four(71, 73, 79, 83, 89)
  {
  }

  lemma Four6()
    ensures Four(89, 97, 101, 103, 107)
  {
  }

  lemma Four7()
    ensures Four(107, 109, 113, 127, 131)
  {
  }

  lemma Four8()
    ensures Four(131, 137, 139, 149, 151)
  {
  }

  lemma Four9()
    ensures Four(151, 157, 163, 167, 173)
  {
  }

  lemma Four10()
    ensures Four(173, 179, 181, 191, 193)
  {
  }

  lemma Four11()
    ensures Four(193, 197, 199, 211, 223)
  {
  }

  lemma Four12()
    ensures Four(223, 227, 229, 233, 239)
  {
  }

  lemma Four13()
    ensures Four(239, 241, 251, 257, 263)
  {
  }

  lemma Four14()
    ensures Four(263, 269, 271, 277, 281)
  {
  }

  lemma Four15()
    ensures Four(281, 283, 293, 307, 311)
  {
  }

  lemma Bits0()
    ensures Bits(2, 0x428a2f98) && Bits(3, 0x71374491) && Bits(5, 0xb5c0fbcf) && Bits(7, 0xe9b5dba5)
    ensures Bits(11, 0x3956c25b) && Bits(13, 0x59f111f1) && Bits(17, 0x923f82a4) && Bits(19, 0xab1c5ed5)
  {
  }

  lemma Table0()
    ensures Is(K(0), 0x428a2f98) && Is(K(1), 0x71374491) && Is(K(2), 0xb5c0fbcf) && Is(K(3), 0xe9b5dba5)
    ensures Is(K(4), 0x3956c25b) && Is(K(5), 0x59f111f1) && Is(K(6), 0x923f82a4) && Is(K(7), 0xab1c5ed5)
  {
  }

  lemma Bits1()
    ensures Bits(23, 0xd807aa98) && Bits(29, 0x12835b01) && Bits(31, 0x243185be) && Bits(37, 0x550c7dc3)
    ensures Bits(41, 0x72be5d74) && Bits(43, 0x80deb1fe) && Bits(47, 0x9bdc06a7) && Bits(53, 0xc19bf174)
  {
  }

  lemma Table1()
    ensures Is(K(8), 0xd807aa98) && Is(K(9), 0x12835b01) && Is(K(10), 0x243185be) && Is(K(11), 0x550c7dc3)
    ensures Is(K(12), 0x72be5d74) && Is(K(13), 0x80deb1fe) && Is(K(14), 0x9bdc06a7) && Is(K(15), 0xc19bf174)
  {
  }

  lemma Bits2()
    ensures Bits(59, 0xe49b69c1) && Bits(61, 0xefbe4786) && Bits(67, 0x0fc19dc6) && Bits(71, 0x240ca1cc)
    ensures Bits(73, 0x2de92c6f) && Bits(79, 0x4a7484aa) && Bits(83, 0x5cb0a9dc) && Bits(89, 0x76f988da)
  {
  }

  lemma Table2()
    ensures Is(K(16), 0xe49b69c1) && Is(K(17), 0xefbe4786) && Is(K(18), 0x0fc19dc6) && Is(K(19), 0x240ca1cc)
    ensures Is(K(20), 0x2de92c6f) && Is(K(21), 0x4a7484aa) && Is(K(22), 0x5cb0a9dc) && Is(K(23), 0x76f988da)
  {
  }

  lemma Bits3()
    ensures Bits(97, 0x983e5152) && Bits(101, 0xa831c66d) && Bits(103, 0xb00327c8) && Bits(107, 0xbf597fc7)
    ensures Bits(109, 0xc6e00bf3) && Bits(113, 0xd5a79147) && Bits(127, 0x06ca6351) && Bits(131, 0x14292967)
  {
  }

  lemma Table3()
    ensures Is(K(24), 0x983e5152) && Is(K(25), 0xa831c66d) && Is(K(26), 0xb00327c8) && Is(K(27), 0xbf597fc7)
    ensures Is(K(28), 0xc6e00bf3) && Is(K(29), 0xd5a79147) && Is(K(30), 0x06ca6351) && Is(K(31), 0x14292967)
  {
  }

  lemma Bits4()
    ensures Bits(137, 0x27b70a85) && Bits(139, 0x2e1b2138) && Bits(149, 0x4d2c6dfc) && Bits(151, 0x53380d13)
    ensures Bits(157, 0x650a7354) && Bits(163, 0x766a0abb) && Bits(167, 0x81c2c92e) && Bits(173, 0x92722c85)
  {
  }

  lemma Table4()
    ensures Is(K(32), 0x27b70a85) && Is(K(33), 0x2e1b2138) && Is(K(34), 0x4d2c6dfc) && Is(K(35), 0x53380d13)
    ensures Is(K(36), 0x650a7354) && Is(K(37), 0x766a0abb) && Is(K(38), 0x81c2c92e) && Is(K(39), 0x92722c85)
  {
  }

  lemma Bits5()
    ensures Bits(179, 0xa2bfe8a1) && Bits(181, 0xa81a664b) && Bits(191, 0xc24b8b70) && Bits(193, 0xc76c51a3)
    ensures Bits(197, 0xd192e819) && Bits(199, 0xd6990624) && Bits(211, 0xf40e3585) && Bits(223, 0x106aa070)
  {
  }

  lemma Table5()
    ensures Is(K(40), 0xa2bfe8a1) && Is(K(41), 0xa81a664b) && Is(K(42), 0xc24b8b70) && Is(K(43), 0xc76c51a3)
    ensures Is(K(44), 0xd192e819) && Is(K(45), 0xd6990624) && Is(K(46), 0xf40e3585) && Is(K(47), 0x106aa070)
  {
  }

  lemma Bits6()
    ensures Bits(227, 0x19a4c116) && Bits(229, 0x1e376c08) && Bits(233, 0x2748774c) && Bits(239, 0x34b0bcb5)
    ensures Bits(241, 0x391c0cb3) && Bits(251, 0x4ed8aa4a) && Bits(257, 0x5b9cca4f) && Bits(263, 0x682e6ff3)
  {
  }

  lemma Table6()
    ensures Is(K(48), 0x19a4c116) && Is(K(49), 0x1e376c08) && Is(K(50), 0x2748774c) && Is(K(51), 0x34b0bcb5)
    ensures Is(K(52), 0x391c0cb3) && Is(K(53), 0x4ed8aa4a) && Is(K(54), 0x5b9cca4f) && Is(K(55), 0x682e6ff3)
  {
  }

  lemma Bits7()
    ensures Bits(269, 0x748f82ee) && Bits(271, 0x78a5636f) && Bits(277, 0x84c87814) && Bits(281, 0x8cc70208)
    ensures Bits(283, 0x90befffa) && Bits(293, 0xa4506ceb) && Bits(307, 0xbef9a3f7) && Bits(311, 0xc67178f2)
  {
  }

  lemma Table7()
    ensures Is(K(56), 0x748f82ee) && Is(K(57), 0x78a5636f) && Is(K(58), 0x84c87814) && Is(K(59), 0x8cc70208)
    ensures Is(K(60), 0x90befffa) && Is(K(61), 0xa4506ceb) && Is(K(62), 0xbef9a3f7) && Is(K(63), 0xc67178f2)
  {
  }

  lemma FirstQuarter()
    ensures PrimeAt(15) == 53
    ensures forall t :: 0 <= t < 16 ==> Rooted(t)
  {
    hide *;
    Four0();
    Bits0();
    Table0();
    FourRooted(0, 1, (2, 3, 5, 7), (0x428a2f98, 0x71374491, 0xb5c0fbcf, 0xe9b5dba5));
    Four1();
    FourRooted(4, 7, (11, 13, 17, 19), (0x3956c25b, 0x59f111f1, 0x923f82a4, 0xab1c5ed5));
    Four2();
    Bits1();
    Table1();
    FourRooted(8, 19, (23, 29, 31, 37), (0xd807aa98, 0x12835b01, 0x243185be, 0x550c7dc3));
    Four3();
    FourRooted(12, 37, (41, 43, 47, 53), (0x72be5d74, 0x80deb1fe, 0x9bdc06a7, 0xc19bf174));
  }

  lemma SecondQuarter()
    requires PrimeAt(15) == 53
    ensures PrimeAt(31) == 131
    ensures forall t :: 16 <= t < 32 ==> Rooted(t)
  {
    hide *;
    Four4();
    Bits2();
    Table2();
    FourRooted(16, 53, (59, 61, 67, 71), (0xe49b69c1, 0xefbe4786, 0x0fc19dc6, 0x240ca1cc));
    Four5();
    FourRooted(20, 71, (73, 79, 83, 89), (0x2de92c6f, 0x4a7484aa, 0x5cb0a9dc, 0x76f988da));
    Four6();
    Bits3();
    Table3();
    FourRooted(24, 89, (97, 101, 103, 107), (0x983e5152, 0xa831c66d, 0xb00327c8, 0xbf597fc7));
    Four7();
    FourRooted(28, 107, (109, 113, 127, 131), (0xc6e00bf3, 0xd5a79147, 0x06ca6351, 0x14292967));
  }

  lemma ThirdQuarter()
    requires PrimeAt(31) == 131
    ensures PrimeAt(47) == 223
    ensures forall t :: 32 <= t < 48 ==> Rooted(t)
  {
    hide *;
    Four8();
    Bits4();
    Table4();
    FourRooted(32, 131, (137, 139, 149, 151), (0x27b70a85, 0x2e1b2138, 0x4d2c6dfc, 0x53380d13));
    Four9();
    FourRooted(36, 151, (157, 163, 167, 173), (0x650a7354, 0x766a0abb, 0x81c2c92e, 0x92722c85));
    Four10();
    Bits5();
    Table5();
    FourRooted(40, 173, (179, 181, 191, 193), (0xa2bfe8a1, 0xa81a664b, 0xc24b8b70, 0xc76c51a3));
    Four11();
    FourRooted(44, 193, (197, 199, 211, 223), (0xd192e819, 0xd6990624, 0xf40e3585, 0x106aa070));
  }

  lemma FourthQuarter()
    requires PrimeAt(47) == 223
    ensures PrimeAt(63) == 311
    ensures forall t :: 48 <= t < 64 ==> Rooted(t)
  {
    hide *;
    Four12();
    Bits6();
    Table6();
    FourRooted(48, 223, (227, 229, 233, 239), (0x19a4c116, 0x1e376c08, 0x2748774c, 0x34b0bcb5));
    Four13();
    FourRooted(52, 239, (241, 251, 257, 263), (0x391c0cb3, 0x4ed8aa4a, 0x5b9cca4f, 0x682e6ff3));
    Four14();
    Bits7();
    Table7();
    FourRooted(56, 263, (269, 271, 277, 281), (0x748f82ee, 0x78a5636f, 0x84c87814, 0x8cc70208));
    Four15();
    FourRooted(60, 281, (283, 293, 307, 311), (0x90befffa, 0xa4506ceb, 0xbef9a3f7, 0xc67178f2));
  }

  lemma AllRooted(t: nat)
    requires t < 64
    ensures Rooted(t) && PrimeAt(63) == 311
  {
    hide *;
    FirstQuarter();
    SecondQuarter();
    ThirdQuarter();
    FourthQuarter();
  }

  // ---------- the primes are the primes ----------

  lemma {:induction false} Ascending(t: nat, u: nat)
    requires t <= u
    ensures 2 <= PrimeAt(t) && if t < u then PrimeAt(t) < PrimeAt(u) else PrimeAt(t) == PrimeAt(u)
    decreases u
  {
    if t < u {
      Ascending(t, u - 1);
      NextIsLarger(PrimeAt(u - 1));
    } else if t > 0 {
      Ascending(t - 1, t - 1);
      NextIsLarger(PrimeAt(t - 1));
    }
  }

  lemma {:induction false} NextIsLarger(n: nat)
    ensures Next(n) > n && (n >= 3 ==> Next(n) % 2 == n % 2)
    decreases 324 - n
  {
    hide Sieved;
    if !(n < 3 || n >= 322 || Sieved(n + 2)) {
      NextIsLarger(n + 2);
    }
  }

  lemma {:induction false} OddFrom(t: nat)
    requires t >= 1
    ensures PrimeAt(t) % 2 == 1 && PrimeAt(t) >= 3
  {
    if t == 1 {
      FirstTwo();
    } else {
      OddFrom(t - 1);
      NextIsLarger(PrimeAt(t - 1));
    }
  }

  /** The numbers `PrimeAt` lists are the primes, from 2 on and with none left out. */
  lemma InOrder(t: nat)
    requires t < 64
    ensures PrimeAt(0) == 2 && Prime(PrimeAt(t)) && PrimeAt(63) == 311
    ensures t < 63 ==> PrimeAt(t) < PrimeAt(t + 1) && forall n :: PrimeAt(t) < n < PrimeAt(t + 1) ==> !Prime(n)
  {
    hide *;
    AllRooted(t);
    Ascending(t, 63);
    FirstTwo();
    if t < 63 {
      Ascending(t + 1, 63);
      StepInOrder(t);
    }
    if t > 1 {
      Ascending(t - 1, 63);
      StepInOrder(t - 1);
    }
    TwoAndThree();
    SievedIsPrime(PrimeAt(t));
  }

  lemma FirstTwo()
    ensures PrimeAt(0) == 2 && PrimeAt(1) == 3
  {
  }

  lemma TwoAndThree()
    ensures Sieved(2) && Sieved(3)
  {
  }

  lemma StepInOrder(t: nat)
    requires PrimeAt(t) < 311 && PrimeAt(t + 1) <= 311
    ensures PrimeAt(t) < PrimeAt(t + 1) && (t > 0 ==> Sieved(PrimeAt(t + 1)))
    ensures forall n :: PrimeAt(t) < n < PrimeAt(t + 1) ==> !Prime(n)
  {
    hide Sieved, Prime, Next;
    var p, q := PrimeAt(t), PrimeAt(t + 1);
    if t > 0 {
      OddFrom(t);
      NextIsNext(p);
      forall n | p < n < q
        ensures !Prime(n)
      {
        SievedIsPrime(n);
      }
    } else {
      FirstTwo();
    }
  }

  lemma CubesGrow(a: nat, b: nat)
    requires a <= b
    ensures Cube(a) <= Cube(b)
  {
    assert a * a <= a * b <= b * b;
    assert a * a * a <= b * b * a <= b * b * b;
  }

  /** At most one number is the first 32 bits of the fractional part of a cube root. */
  lemma FractionUnique(k: nat, l: nat, p: nat)
    requires CubeRootFraction(k, p) && CubeRootFraction(l, p)
    ensures k == l
  {
    hide Cube;
    var a: nat :| CubeRootBits(a, k, p);
    var b: nat :| CubeRootBits(b, l, p);
    var x, y := a * TWO_32 + k, b * TWO_32 + l;
    if x < y {
      CubesGrow(x + 1, y);
    } else if y < x {
      CubesGrow(y + 1, x);
    }
  }

  /** Every round constant consists of the first 32 bits of the fractional part of the cube root of its
      prime, and no other word does. */
  lemma RoundConstants(t: nat)
    requires t < 64
    ensures forall k: nat :: CubeRootFraction(k, PrimeAt(t)) ==> Is(KAt(t).bits, k)
    ensures exists k: nat :: CubeRootFraction(k, PrimeAt(t))
  {
    AllRooted(t);
    var k: nat :| CubeRootFraction(k, PrimeAt(t)) && Is(K(t), k);
    hide Is, PrimeAt, CubeRootFraction;
    forall l: nat | CubeRootFraction(l, PrimeAt(t))
      ensures l == k
    {
      FractionUnique(k, l, PrimeAt(t));
    }
  }

  predicate InitialWord(w: Word, k: nat, whole: nat, p: nat) {
    SquareRootBits(whole, k, p) && Is(w.bits, k)
  }

  /** The words of the initial hash value are the first 32 bits of the fractional parts of the square roots
      of the first eight primes. */
  lemma InitialValue()
    ensures InitialWord(H0.a, 0x6a09e667, 1, PrimeAt(0)) && InitialWord(H0.b, 0xbb67ae85, 1, PrimeAt(1))
    ensures InitialWord(H0.c, 0x3c6ef372, 2, PrimeAt(2)) && InitialWord(H0.d, 0xa54ff53a, 2, PrimeAt(3))
    ensures InitialWord(H0.e, 0x510e527f, 3, PrimeAt(4)) && InitialWord(H0.f, 0x9b05688c, 3, PrimeAt(5))
    ensures InitialWord(H0.g, 0x1f83d9ab, 4, PrimeAt(6)) && InitialWord(H0.h, 0x5be0cd19, 4, PrimeAt(7))
  {
  }
}
