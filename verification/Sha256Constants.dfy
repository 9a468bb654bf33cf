/** Where the constants of section 4.2.2 and the first hash value of section 5.3.3 of FIPS 180-4 come
    from, and what the functions of section 4.1.2 do to single bits.

    The prime numbers below 324 are those that no prime number below 18 divides, but for
    themselves.  Each row of eight is found by computation, and so is each root: the whole part
    `q` is given, and the 32 bits after the point are checked against both neighbours. */
module Sha256Constants {
  import opened Sha256Spec

  // ---------- the first sixty-four prime numbers ----------

  predicate Prime(n: nat) {
    n >= 2 && forall d :: 2 <= d < n ==> n % d != 0
  }

  /** No small prime number divides `n`, but for itself. */
  predicate Rough(n: nat) {
    && n >= 2 && (n > 2 ==> n % 2 != 0) && (n > 3 ==> n % 3 != 0) && (n > 5 ==> n % 5 != 0)
    && (n > 7 ==> n % 7 != 0) && (n > 11 ==> n % 11 != 0) && (n > 13 ==> n % 13 != 0) && (n > 17 ==> n % 17 != 0)
  }

  lemma Multiple(n: nat, d: nat, k: nat)
    requires d > 0 && n == d * k
    ensures n % d == 0
  {
    var q, r := n / d, n % d;
    assert d * k == d * q + r;
    assert d * (k - q) == r;
    if k < q {
      Grows(d, 1, q - k);
    } else if k > q {
      Grows(d, 1, k - q);
    }
  }

  lemma Grows(d: nat, k: nat, m: nat)
    requires k <= m
    ensures d * k <= d * m
  {
  }

  lemma DividesOn(n: nat, m: nat, d: nat)
    requires d > 0 && m > 0 && n % m == 0 && m % d == 0
    ensures n % d == 0
  {
    var a, b := n / m, m / d;
    assert n == d * b * a;
    assert d * b * a == d * (b * a);
    Multiple(n, d, b * a);
  }

  /** A number below 18 has one of the small primes as a factor. */
  lemma SmallFactor(n: nat, m: nat)
    requires 2 <= m <= 17 && m < n && n % m == 0
    ensures !Rough(n)
  {
    if m % 2 == 0 {
      DividesOn(n, m, 2);
    } else if m % 3 == 0 {
      DividesOn(n, m, 3);
    } else if m % 5 == 0 {
      DividesOn(n, m, 5);
    }
  }

  lemma Cofactor(n: nat, d: nat, e: nat)
    requires n == d * e && 18 <= d < n < 324
    ensures 2 <= e <= 17 && e < n
  {
    if e >= 18 {
      Grows(d, 18, e);
    }
  }

  lemma RoughIsPrime(n: nat)
    requires n < 324
    ensures Rough(n) <==> Prime(n)
  {
    if Rough(n) {
      forall d | 2 <= d < n ensures n % d != 0 {
        if n % d == 0 {
          var e := n / d;
          assert n == d * e && d * e == e * d;
          if d > 17 {
            Multiple(n, e, d);
            Cofactor(n, d, e);
            SmallFactor(n, e);
          } else {
            SmallFactor(n, d);
          }
        }
      }
    }
  }

  /** The first one from `n` on, below 324. */
  function NextRough(n: nat): (r: nat)
    ensures n <= r && (n < 324 ==> r <= 324)
    decreases 324 - n
  {
    if n >= 324 || Rough(n) then n else NextRough(n + 1)
  }

  lemma {:induction false} NextRoughIsNext(n: nat, m: nat)
    requires n <= m < NextRough(n)
    ensures !Rough(m)
    decreases 324 - n
  {
    if n < m {
      NextRoughIsNext(n + 1, m);
    }
  }

  lemma {:induction false} NextIsRough(n: nat)
    requires NextRough(n) < 324
    ensures Rough(NextRough(n))
    decreases 324 - n
  {
    if !Rough(n) {
      NextIsRough(n + 1);
    }
  }

  /** The first prime numbers, in order and without a gap. */
  ghost predicate FirstPrimes(ps: seq<nat>) {
    && (forall t :: 0 <= t < |ps| ==> Prime(ps[t]))
    && forall t, n :: 0 <= t < |ps| && n < ps[t] && Prime(n) ==> n in ps[..t]
  }

  lemma NextPrime(ps: seq<nat>, p: nat)
    requires FirstPrimes(ps) && p == NextRough(if ps == [] then 0 else ps[|ps| - 1] + 1) < 324
    ensures FirstPrimes(ps + [p])
  {
    var from, ps' := if ps == [] then 0 else ps[|ps| - 1] + 1, ps + [p];
    NextIsRough(from);
    RoughIsPrime(p);
    forall t, n | 0 <= t < |ps'| && n < ps'[t] && Prime(n) ensures n in ps'[..t] {
      if t < |ps| {
        assert n in ps[..t] && ps[..t] == ps'[..t];
      } else {
        RoughIsPrime(n);
        if n >= from {
          NextRoughIsNext(from, n);
        } else if n < from - 1 {
          assert n in ps[..|ps| - 1];
        } else {
          assert n == ps[|ps| - 1];
        }
        assert ps'[..t] == ps;
      }
    }
  }


  predicate IsNext(before: nat, p: nat) {
    p == NextRough(before + 1) && p < 324
  }

  const P0: seq<nat> := [2, 3, 5, 7, 11, 13, 17, 19]
  const P1: seq<nat> := [23, 29, 31, 37, 41, 43, 47, 53]
  const P2: seq<nat> := [59, 61, 67, 71, 73, 79, 83, 89]
  const P3: seq<nat> := [97, 101, 103, 107, 109, 113, 127, 131]
  const P4: seq<nat> := [137, 139, 149, 151, 157, 163, 167, 173]
  const P5: seq<nat> := [179, 181, 191, 193, 197, 199, 211, 223]
  const P6: seq<nat> := [227, 229, 233, 239, 241, 251, 257, 263]
  const P7: seq<nat> := [269, 271, 277, 281, 283, 293, 307, 311]

  const Primes: seq<nat> := P0 + P1 + P2 + P3 + P4 + P5 + P6 + P7

  type Relation = (nat, nat) -> bool

  /** Each stands in relation to the one before. */
  predicate Linked(before: nat, ps: seq<nat>, next: Relation) {
    forall i :: 0 <= i < |ps| ==> next(Before(before, ps, i), ps[i])
  }

  function Before(before: nat, ps: seq<nat>, i: nat): nat
    requires i < |ps|
  {
    if i == 0 then before else ps[i - 1]
  }

  lemma LinkedEight(before: nat, ps: seq<nat>, next: Relation)
    requires |ps| == 8 && next(before, ps[0]) && next(ps[0], ps[1]) && next(ps[1], ps[2]) && next(ps[2], ps[3])
    requires next(ps[3], ps[4]) && next(ps[4], ps[5]) && next(ps[5], ps[6]) && next(ps[6], ps[7])
    ensures Linked(before, ps, next)
  {
  }

  lemma LinkedBoth(before: nat, ps: seq<nat>, ps': seq<nat>, next: Relation)
    requires ps != [] && Linked(before, ps, next) && Linked(ps[|ps| - 1], ps', next)
    ensures Linked(before, ps + ps', next)
  {
    var all := ps + ps';
    forall i | 0 <= i < |all| ensures next(Before(before, all, i), all[i]) {
      if i >= |ps| {
        assert next(Before(ps[|ps| - 1], ps', i - |ps|), ps'[i - |ps|]);
      } else {
        assert next(Before(before, ps, i), ps[i]);
      }
    }
  }

  lemma {:induction false} LinkedKeeps(good: seq<nat> -> bool, ps: seq<nat>, n: nat, next: Relation)
    requires good([]) && n <= |ps| && Linked(0, ps, next)
    requires forall qs, p :: good(qs) && next(Last(qs), p) ==> good(qs + [p])
    ensures good(ps[..n])
  {
    if n == 0 {
      assert ps[..n] == [];
    } else {
      LinkedKeeps(good, ps, n - 1, next);
      assert next(Before(0, ps, n - 1), ps[n - 1]) && Before(0, ps, n - 1) == Last(ps[..n - 1]);
      assert ps[..n] == ps[..n - 1] + [ps[n - 1]];
    }
  }

  function Last(ps: seq<nat>): nat {
    if ps == [] then 0 else ps[|ps| - 1]
  }

  lemma Next0()
    ensures IsNext(0, 2) && IsNext(2, 3) && IsNext(3, 5) && IsNext(5, 7)
  {
    assert NextRough(1) == 2 && NextRough(3) == 3 && NextRough(4) == 5 && NextRough(6) == 7;
  }

  lemma Next4()
    ensures IsNext(7, 11) && IsNext(11, 13) && IsNext(13, 17) && IsNext(17, 19)
  {
    assert NextRough(8) == 11 && NextRough(12) == 13 && NextRough(14) == 17 && NextRough(18) == 19;
  }

  lemma NextRow0()
    ensures Linked(0, P0, IsNext)
  {
    Next0();
    Next4();
    LinkedEight(0, P0, IsNext);
  }

  lemma Next8()
    ensures IsNext(19, 23) && IsNext(23, 29) && IsNext(29, 31) && IsNext(31, 37)
  {
    assert NextRough(20) == 23 && NextRough(26) == 29 && NextRough(24) == 29 && NextRough(30) == 31;
    assert NextRough(34) == 37 && NextRough(32) == 37;
  }

  lemma Next12()
    ensures IsNext(37, 41) && IsNext(41, 43) && IsNext(43, 47) && IsNext(47, 53)
  {
    assert NextRough(38) == 41 && NextRough(42) == 43 && NextRough(44) == 47 && NextRough(50) == 53;
    assert NextRough(48) == 53;
  }

  lemma NextRow1()
    ensures Linked(19, P1, IsNext)
  {
    Next8();
    Next12();
    LinkedEight(19, P1, IsNext);
  }

  lemma Next16()
    ensures IsNext(53, 59) && IsNext(59, 61) && IsNext(61, 67) && IsNext(67, 71)
  {
    assert NextRough(56) == 59 && NextRough(54) == 59 && NextRough(60) == 61 && NextRough(64) == 67;
    assert NextRough(62) == 67 && NextRough(68) == 71;
  }

  lemma Next20()
    ensures IsNext(71, 73) && IsNext(73, 79) && IsNext(79, 83) && IsNext(83, 89)
  {
    assert NextRough(72) == 73 && NextRough(76) == 79 && NextRough(74) == 79 && NextRough(80) == 83;
    assert NextRough(86) == 89 && NextRough(84) == 89;
  }

  lemma NextRow2()
    ensures Linked(53, P2, IsNext)
  {
    Next16();
    Next20();
    LinkedEight(53, P2, IsNext);
  }

  lemma Next24()
    ensures IsNext(89, 97) && IsNext(97, 101) && IsNext(101, 103) && IsNext(103, 107)
  {
    assert NextRough(94) == 97 && NextRough(90) == 97 && NextRough(98) == 101 && NextRough(102) == 103;
    assert NextRough(104) == 107;
  }

  lemma Next28()
    ensures IsNext(107, 109) && IsNext(109, 113) && IsNext(113, 127) && IsNext(127, 131)
  {
    assert NextRough(108) == 109 && NextRough(110) == 113 && NextRough(124) == 127 && NextRough(121) == 127;
    assert NextRough(114) == 127 && NextRough(128) == 131;
  }

  lemma NextRow3()
    ensures Linked(89, P3, IsNext)
  {
    Next24();
    Next28();
    LinkedEight(89, P3, IsNext);
  }

  lemma Next32()
    ensures IsNext(131, 137) && IsNext(137, 139) && IsNext(139, 149) && IsNext(149, 151)
  {
    assert NextRough(134) == 137 && NextRough(132) == 137 && NextRough(138) == 139 && NextRough(146) == 149;
    assert NextRough(143) == 149 && NextRough(140) == 149 && NextRough(150) == 151;
  }

  lemma Next36()
    ensures IsNext(151, 157) && IsNext(157, 163) && IsNext(163, 167) && IsNext(167, 173)
  {
    assert NextRough(154) == 157 && NextRough(152) == 157 && NextRough(160) == 163 && NextRough(158) == 163;
    assert NextRough(164) == 167 && NextRough(170) == 173 && NextRough(168) == 173;
  }

  lemma NextRow4()
    ensures Linked(131, P4, IsNext)
  {
    Next32();
    Next36();
    LinkedEight(131, P4, IsNext);
  }

  lemma Next40()
    ensures IsNext(173, 179) && IsNext(179, 181) && IsNext(181, 191) && IsNext(191, 193)
  {
    assert NextRough(176) == 179 && NextRough(174) == 179 && NextRough(180) == 181 && NextRough(188) == 191;
    assert NextRough(185) == 191 && NextRough(182) == 191 && NextRough(192) == 193;
  }

  lemma Next44()
    ensures IsNext(193, 197) && IsNext(197, 199) && IsNext(199, 211) && IsNext(211, 223)
  {
    assert NextRough(194) == 197 && NextRough(198) == 199 && NextRough(208) == 211 && NextRough(205) == 211;
    assert NextRough(200) == 211 && NextRough(220) == 223 && NextRough(217) == 223 && NextRough(212) == 223;
  }

  lemma NextRow5()
    ensures Linked(173, P5, IsNext)
  {
    Next40();
    Next44();
    LinkedEight(173, P5, IsNext);
  }

  lemma Next48()
    ensures IsNext(223, 227) && IsNext(227, 229) && IsNext(229, 233) && IsNext(233, 239)
  {
    assert NextRough(224) == 227 && NextRough(228) == 229 && NextRough(230) == 233 && NextRough(236) == 239;
    assert NextRough(234) == 239;
  }

  lemma Next52()
    ensures IsNext(239, 241) && IsNext(241, 251) && IsNext(251, 257) && IsNext(257, 263)
  {
    assert NextRough(240) == 241 && NextRough(248) == 251 && NextRough(245) == 251 && NextRough(242) == 251;
    assert NextRough(254) == 257 && NextRough(252) == 257 && NextRough(260) == 263 && NextRough(258) == 263;
  }

  lemma NextRow6()
    ensures Linked(223, P6, IsNext)
  {
    Next48();
    Next52();
    LinkedEight(223, P6, IsNext);
  }

  lemma Next56()
    ensures IsNext(263, 269) && IsNext(269, 271) && IsNext(271, 277) && IsNext(277, 281)
  {
    assert NextRough(266) == 269 && NextRough(264) == 269 && NextRough(270) == 271 && NextRough(274) == 277;
    assert NextRough(272) == 277 && NextRough(278) == 281;
  }

  lemma Next60()
    ensures IsNext(281, 283) && IsNext(283, 293) && IsNext(293, 307) && IsNext(307, 311)
  {
    assert NextRough(282) == 283 && NextRough(290) == 293 && NextRough(287) == 293 && NextRough(284) == 293;
    assert NextRough(304) == 307 && NextRough(301) == 307 && NextRough(294) == 307 && NextRough(308) == 311;
  }

  lemma NextRow7()
    ensures Linked(263, P7, IsNext)
  {
    Next56();
    Next60();
    LinkedEight(263, P7, IsNext);
  }

  lemma RowsJoin(next: Relation)
    requires Linked(0, P0, next) && Linked(19, P1, next) && Linked(53, P2, next) && Linked(89, P3, next)
    requires Linked(131, P4, next) && Linked(173, P5, next) && Linked(223, P6, next) && Linked(263, P7, next)
    ensures Linked(0, Primes, next)
  {
    LinkedBoth(0, P0, P1, next);
    LinkedBoth(0, P0 + P1, P2, next);
    LinkedBoth(0, P0 + P1 + P2, P3, next);
    LinkedBoth(0, P0 + P1 + P2 + P3, P4, next);
    LinkedBoth(0, P0 + P1 + P2 + P3 + P4, P5, next);
    LinkedBoth(0, P0 + P1 + P2 + P3 + P4 + P5, P6, next);
    LinkedBoth(0, P0 + P1 + P2 + P3 + P4 + P5 + P6, P7, next);
  }

  lemma PrimesAreLinked()
    ensures Linked(0, Primes, IsNext)
  {
    NextRow0();
    NextRow1();
    NextRow2();
    NextRow3();
    NextRow4();
    NextRow5();
    NextRow6();
    NextRow7();
    RowsJoin(IsNext);
  }

  /** They are the first 64 prime numbers. */
  lemma PrimesAreFirst()
    ensures |Primes| == 64 && FirstPrimes(Primes)
  {
    PrimesAreLinked();
    forall qs, p | FirstPrimes(qs) && IsNext(Last(qs), p) ensures FirstPrimes(qs + [p]) {
      NextPrime(qs, p);
    }
    LinkedKeeps(qs => FirstPrimes(qs), Primes, 64, IsNext);
    assert Primes[..64] == Primes;
  }

  // ---------- section 4.2.2: thirty-two bits of a cube root ----------

  function Cube(x: nat): nat { x * x * x }

  /** `q` and the 32 bits `k` after the point are the cube root of `p`, cut off. */
  predicate CubeRoot(p: nat, q: nat, k: Word) {
    var x := q * 0x1_0000_0000 + k as nat;
    Cube(x) <= p * 0x1_0000_0000_0000_0000_0000_0000 < Cube(x + 1)
  }

  ghost predicate HasCubeRoot(p: nat, k: Word) {
    exists q: nat :: CubeRoot(p, q, k)
  }

  predicate Pairs(ps: seq<nat>, ks: seq<Word>, root: (nat, Word) -> bool) {
    |ps| == |ks| && forall t :: 0 <= t < |ps| ==> root(ps[t], ks[t])
  }

  lemma PairsEight(ps: seq<nat>, ks: seq<Word>, root: (nat, Word) -> bool)
    requires |ps| == |ks| == 8 && root(ps[0], ks[0]) && root(ps[1], ks[1]) && root(ps[2], ks[2]) && root(ps[3], ks[3])
    requires root(ps[4], ks[4]) && root(ps[5], ks[5]) && root(ps[6], ks[6]) && root(ps[7], ks[7])
    ensures Pairs(ps, ks, root)
  {
  }

  lemma PairsJoin(root: (nat, Word) -> bool)
    requires Pairs(P0, K0, root) && Pairs(P1, K1, root) && Pairs(P2, K2, root) && Pairs(P3, K3, root)
    requires Pairs(P4, K4, root) && Pairs(P5, K5, root) && Pairs(P6, K6, root) && Pairs(P7, K7, root)
    ensures Pairs(Primes, K, root)
  {
    PairsBoth(P0, K0, P1, K1, root);
    PairsBoth(P0 + P1, K0 + K1, P2, K2, root);
    PairsBoth(P0 + P1 + P2, K0 + K1 + K2, P3, K3, root);
    PairsBoth(P0 + P1 + P2 + P3, K0 + K1 + K2 + K3, P4, K4, root);
    PairsBoth(P0 + P1 + P2 + P3 + P4, K0 + K1 + K2 + K3 + K4, P5, K5, root);
    PairsBoth(P0 + P1 + P2 + P3 + P4 + P5, K0 + K1 + K2 + K3 + K4 + K5, P6, K6, root);
    PairsBoth(P0 + P1 + P2 + P3 + P4 + P5 + P6, K0 + K1 + K2 + K3 + K4 + K5 + K6, P7, K7, root);
  }

  lemma PairsBoth(ps: seq<nat>, ks: seq<Word>, ps': seq<nat>, ks': seq<Word>, root: (nat, Word) -> bool)
    requires Pairs(ps, ks, root) && Pairs(ps', ks', root)
    ensures Pairs(ps + ps', ks + ks', root)
  {
  }

  lemma RootAt(p: nat, q: nat, k: Word)
    requires CubeRoot(p, q, k)
    ensures HasCubeRoot(p, k)
  {
  }

  lemma RootRow0()
    ensures HasCubeRoot(P0[0], K0[0]) && HasCubeRoot(P0[1], K0[1]) && HasCubeRoot(P0[2], K0[2]) && HasCubeRoot(P0[3], K0[3])
    ensures HasCubeRoot(P0[4], K0[4]) && HasCubeRoot(P0[5], K0[5]) && HasCubeRoot(P0[6], K0[6]) && HasCubeRoot(P0[7], K0[7])
  {
    RootAt(2, 1, K0[0]);
    RootAt(3, 1, K0[1]);
    RootAt(5, 1, K0[2]);
    RootAt(7, 1, K0[3]);
    RootAt(11, 2, K0[4]);
    RootAt(13, 2, K0[5]);
    RootAt(17, 2, K0[6]);
    RootAt(19, 2, K0[7]);
  }

  lemma RootRow1()
    ensures HasCubeRoot(P1[0], K1[0]) && HasCubeRoot(P1[1], K1[1]) && HasCubeRoot(P1[2], K1[2]) && HasCubeRoot(P1[3], K1[3])
    ensures HasCubeRoot(P1[4], K1[4]) && HasCubeRoot(P1[5], K1[5]) && HasCubeRoot(P1[6], K1[6]) && HasCubeRoot(P1[7], K1[7])
  {
    RootAt(23, 2, K1[0]);
    RootAt(29, 3, K1[1]);
    RootAt(31, 3, K1[2]);
    RootAt(37, 3, K1[3]);
    RootAt(41, 3, K1[4]);
    RootAt(43, 3, K1[5]);
    RootAt(47, 3, K1[6]);
    RootAt(53, 3, K1[7]);
  }

  lemma RootRow2()
    ensures HasCubeRoot(P2[0], K2[0]) && HasCubeRoot(P2[1], K2[1]) && HasCubeRoot(P2[2], K2[2]) && HasCubeRoot(P2[3], K2[3])
    ensures HasCubeRoot(P2[4], K2[4]) && HasCubeRoot(P2[5], K2[5]) && HasCubeRoot(P2[6], K2[6]) && HasCubeRoot(P2[7], K2[7])
  {
    RootAt(59, 3, K2[0]);
    RootAt(61, 3, K2[1]);
    RootAt(67, 4, K2[2]);
    RootAt(71, 4, K2[3]);
    RootAt(73, 4, K2[4]);
    RootAt(79, 4, K2[5]);
    RootAt(83, 4, K2[6]);
    RootAt(89, 4, K2[7]);
  }

  lemma RootRow3()
    ensures HasCubeRoot(P3[0], K3[0]) && HasCubeRoot(P3[1], K3[1]) && HasCubeRoot(P3[2], K3[2]) && HasCubeRoot(P3[3], K3[3])
    ensures HasCubeRoot(P3[4], K3[4]) && HasCubeRoot(P3[5], K3[5]) && HasCubeRoot(P3[6], K3[6]) && HasCubeRoot(P3[7], K3[7])
  {
    RootAt(97, 4, K3[0]);
    RootAt(101, 4, K3[1]);
    RootAt(103, 4, K3[2]);
    RootAt(107, 4, K3[3]);
    RootAt(109, 4, K3[4]);
    RootAt(113, 4, K3[5]);
    RootAt(127, 5, K3[6]);
    RootAt(131, 5, K3[7]);
  }

  lemma RootRow4()
    ensures HasCubeRoot(P4[0], K4[0]) && HasCubeRoot(P4[1], K4[1]) && HasCubeRoot(P4[2], K4[2]) && HasCubeRoot(P4[3], K4[3])
    ensures HasCubeRoot(P4[4], K4[4]) && HasCubeRoot(P4[5], K4[5]) && HasCubeRoot(P4[6], K4[6]) && HasCubeRoot(P4[7], K4[7])
  {
    RootAt(137, 5, K4[0]);
    RootAt(139, 5, K4[1]);
    RootAt(149, 5, K4[2]);
    RootAt(151, 5, K4[3]);
    RootAt(157, 5, K4[4]);
    RootAt(163, 5, K4[5]);
    RootAt(167, 5, K4[6]);
    RootAt(173, 5, K4[7]);
  }

  lemma RootRow5()
    ensures HasCubeRoot(P5[0], K5[0]) && HasCubeRoot(P5[1], K5[1]) && HasCubeRoot(P5[2], K5[2]) && HasCubeRoot(P5[3], K5[3])
    ensures HasCubeRoot(P5[4], K5[4]) && HasCubeRoot(P5[5], K5[5]) && HasCubeRoot(P5[6], K5[6]) && HasCubeRoot(P5[7], K5[7])
  {
    RootAt(179, 5, K5[0]);
    RootAt(181, 5, K5[1]);
    RootAt(191, 5, K5[2]);
    RootAt(193, 5, K5[3]);
    RootAt(197, 5, K5[4]);
    RootAt(199, 5, K5[5]);
    RootAt(211, 5, K5[6]);
    RootAt(223, 6, K5[7]);
  }

  lemma RootRow6()
    ensures HasCubeRoot(P6[0], K6[0]) && HasCubeRoot(P6[1], K6[1]) && HasCubeRoot(P6[2], K6[2]) && HasCubeRoot(P6[3], K6[3])
    ensures HasCubeRoot(P6[4], K6[4]) && HasCubeRoot(P6[5], K6[5]) && HasCubeRoot(P6[6], K6[6]) && HasCubeRoot(P6[7], K6[7])
  {
    RootAt(227, 6, K6[0]);
    RootAt(229, 6, K6[1]);
    RootAt(233, 6, K6[2]);
    RootAt(239, 6, K6[3]);
    RootAt(241, 6, K6[4]);
    RootAt(251, 6, K6[5]);
    RootAt(257, 6, K6[6]);
    RootAt(263, 6, K6[7]);
  }

  lemma RootRow7()
    ensures HasCubeRoot(P7[0], K7[0]) && HasCubeRoot(P7[1], K7[1]) && HasCubeRoot(P7[2], K7[2]) && HasCubeRoot(P7[3], K7[3])
    ensures HasCubeRoot(P7[4], K7[4]) && HasCubeRoot(P7[5], K7[5]) && HasCubeRoot(P7[6], K7[6]) && HasCubeRoot(P7[7], K7[7])
  {
    RootAt(269, 6, K7[0]);
    RootAt(271, 6, K7[1]);
    RootAt(277, 6, K7[2]);
    RootAt(281, 6, K7[3]);
    RootAt(283, 6, K7[4]);
    RootAt(293, 6, K7[5]);
    RootAt(307, 6, K7[6]);
    RootAt(311, 6, K7[7]);
  }

  /** The constants are the first 32 bits of the fractional parts of the cube roots of the first 64
      prime numbers. */
  lemma ConstantsAreCubeRoots(t: nat)
    requires t < 64
    ensures |Primes| == |K| == 64 && exists q: nat :: CubeRoot(Primes[t], q, K[t])
  {
    var root := (p: nat, k: Word) => HasCubeRoot(p, k);
    RootRow0();
    PairsEight(P0, K0, root);
    RootRow1();
    PairsEight(P1, K1, root);
    RootRow2();
    PairsEight(P2, K2, root);
    RootRow3();
    PairsEight(P3, K3, root);
    RootRow4();
    PairsEight(P4, K4, root);
    RootRow5();
    PairsEight(P5, K5, root);
    RootRow6();
    PairsEight(P6, K6, root);
    RootRow7();
    PairsEight(P7, K7, root);
    PairsJoin(root);
    assert root(Primes[t], K[t]);
  }

  // ---------- section 5.3.3: thirty-two bits of a square root ----------

  predicate SquareRoot(p: nat, q: nat, k: Word) {
    var x := q * 0x1_0000_0000 + k as nat;
    x * x <= p * 0x1_0000_0000_0000_0000 < (x + 1) * (x + 1)
  }

  /** The first hash value: the same with the square roots of the first eight. */
  lemma FirstHashIsSquareRoots(j: nat)
    requires j < 8
    ensures exists q: nat :: SquareRoot(Primes[j], q, Register(H0, j))
  {
    SquareRoots();
    LaterSquareRoots();
    assert Primes[j] == P0[j];
  }

  lemma SquareRoots()
    ensures SquareRoot(2, 1, Register(H0, 0)) && SquareRoot(3, 1, Register(H0, 1))
    ensures SquareRoot(5, 2, Register(H0, 2)) && SquareRoot(7, 2, Register(H0, 3))
  {
  }

  lemma LaterSquareRoots()
    ensures SquareRoot(11, 3, Register(H0, 4)) && SquareRoot(13, 3, Register(H0, 5))
    ensures SquareRoot(17, 4, Register(H0, 6)) && SquareRoot(19, 4, Register(H0, 7))
  {
  }

  // ---------- section 4.1.2: bit by bit ----------

  /** Where x has ones it is y, elsewhere z. */
  lemma ChChooses(x: Word, y: Word, z: Word)
    ensures Ch(x, y, z) & x == y & x && Ch(x, y, z) & !x == z & !x
  {
  }

  /** Where x and y agree it is theirs, elsewhere it is z, which decides. */
  lemma MajIsMajority(x: Word, y: Word, z: Word)
    ensures Maj(x, y, z) & !(x ^ y) == x & !(x ^ y) && Maj(x, y, z) & (x ^ y) == z & (x ^ y)
  {
  }
}