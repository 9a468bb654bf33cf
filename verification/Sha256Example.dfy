/** The example "abc" of FIPS 180-4, computed word by word.

    `Words0` to `Words7` are the message schedule, `Constants0` to `Constants7` the constants, and
    `After0` to `After64` the working variables.

    One round is computed at a time.  The rows are then joined with the round function as a
    parameter, so that nothing is computed twice; the schedule is done in the same way, with the
    function that mixes four words. */
module Sha256Example {
  import opened Sha256Spec

  const Abc: seq<Byte> := [0x61, 0x62, 0x63]

  // ---------- the message schedule ----------

  function AbcBlock(): Block {
    [0x61, 0x62, 0x63, 0x80] + Zeros(52) + LengthField(24)
  }

  lemma AbcIsPadded()
    ensures Pad(Abc) == AbcBlock()
  {
    assert ZeroCount(3) == 52;
  }

  lemma AbcLength(i: nat)
    requires i < 8
    ensures LengthField(24)[i] == if i == 7 then 24 else 0
  {
    LengthByte(24);
    AbcByte(7 - i);
  }

  lemma AbcByte(i: nat)
    ensures ShiftedByte(24, i) == if i == 0 then 24 else 0
  {
    if i > 0 {
      AtLeast(i);
      NoneLeft(24, Pow256(i));
    }
  }

  lemma {:induction false} AtLeast(i: nat)
    requires i > 0
    ensures Pow256(i) >= 256
  {
    if i > 1 {
      AtLeast(i - 1);
    }
  }

  lemma NoneLeft(n: nat, p: nat)
    requires n < p
    ensures n / p == 0
  {
  }

  lemma AbcWord(t: nat)
    requires t < 16
    ensures W(AbcBlock(), t) == if t == 0 then 0x61626380 else if t == 15 then 0x18 else 0
  {
    var b := AbcBlock();
    forall i | 56 <= i < 64 ensures b[i] == if i == 63 then 24 else 0 {
      AbcLength(i - 56);
    }
  }

  /** What the schedule and the rounds do with words, as functions that may be named. */
  type Mixing = (Word, Word, Word, Word) -> Word
  type Step = (Regs, Word, Word) -> Regs

  predicate MixedAt(mix: Mixing, words: nat -> Word, t: nat)
    requires t >= 16
  {
    words(t) == mix(words(t - 2), words(t - 7), words(t - 15), words(t - 16))
  }

  lemma ScheduleMixes(b: Block, t: nat)
    requires t >= 16
    ensures MixedAt(Schedule, (i: nat) => W(b, i), t)
  {
  }

  predicate Words0(words: nat -> Word) {
    && words(0) == 0x61626380 && words(1) == 0x00000000 && words(2) == 0x00000000 && words(3) == 0x00000000
    && words(4) == 0x00000000 && words(5) == 0x00000000 && words(6) == 0x00000000 && words(7) == 0x00000000
  }

  predicate Words1(words: nat -> Word) {
    && words(8) == 0x00000000 && words(9) == 0x00000000 && words(10) == 0x00000000 && words(11) == 0x00000000
    && words(12) == 0x00000000 && words(13) == 0x00000000 && words(14) == 0x00000000 && words(15) == 0x00000018
  }

  predicate Words2(words: nat -> Word) {
    && words(16) == 0x61626380 && words(17) == 0x000f0000 && words(18) == 0x7da86405 && words(19) == 0x600003c6
    && words(20) == 0x3e9d7b78 && words(21) == 0x0183fc00 && words(22) == 0x12dcbfdb && words(23) == 0xe2e2c38e
  }

  predicate Words3(words: nat -> Word) {
    && words(24) == 0xc8215c1a && words(25) == 0xb73679a2 && words(26) == 0xe5bc3909 && words(27) == 0x32663c5b
    && words(28) == 0x9d209d67 && words(29) == 0xec8726cb && words(30) == 0x702138a4 && words(31) == 0xd3b7973b
  }

  predicate Words4(words: nat -> Word) {
    && words(32) == 0x93f5997f && words(33) == 0x3b68ba73 && words(34) == 0xaff4ffc1 && words(35) == 0xf10a5c62
    && words(36) == 0x0a8b3996 && words(37) == 0x72af830a && words(38) == 0x9409e33e && words(39) == 0x24641522
  }

  predicate Words5(words: nat -> Word) {
    && words(40) == 0x9f47bf94 && words(41) == 0xf0a64f5a && words(42) == 0x3e246a79 && words(43) == 0x27333ba3
    && words(44) == 0x0c4763f2 && words(45) == 0x840abf27 && words(46) == 0x7a290d5d && words(47) == 0x065c43da
  }

  predicate Words6(words: nat -> Word) {
    && words(48) == 0xfb3e89cb && words(49) == 0xcc7617db && words(50) == 0xb9e66c34 && words(51) == 0xa9993667
    && words(52) == 0x84badedd && words(53) == 0xc21462bc && words(54) == 0x1487472c && words(55) == 0xb20f7a99
  }

  predicate Words7(words: nat -> Word) {
    && words(56) == 0xef57b9cd && words(57) == 0xebe6b238 && words(58) == 0x9fe3095e && words(59) == 0x78bc8d4b
    && words(60) == 0xa43fcf15 && words(61) == 0x668b2ff8 && words(62) == 0xeeaba2cc && words(63) == 0x12b1edeb
  }

  predicate Mixes2(mix: Mixing) {
    && mix(0x00000000, 0x00000000, 0x00000000, 0x61626380) == 0x61626380
    && mix(0x00000018, 0x00000000, 0x00000000, 0x00000000) == 0x000f0000
    && mix(0x61626380, 0x00000000, 0x00000000, 0x00000000) == 0x7da86405
    && mix(0x000f0000, 0x00000000, 0x00000000, 0x00000000) == 0x600003c6
    && mix(0x7da86405, 0x00000000, 0x00000000, 0x00000000) == 0x3e9d7b78
    && mix(0x600003c6, 0x00000000, 0x00000000, 0x00000000) == 0x0183fc00
    && mix(0x3e9d7b78, 0x00000018, 0x00000000, 0x00000000) == 0x12dcbfdb
    && mix(0x0183fc00, 0x61626380, 0x00000000, 0x00000000) == 0xe2e2c38e
  }

  lemma ComputeMixes2()
    ensures Mixes2(Schedule)
  {
  }

  lemma Mix2(mix: Mixing, words: nat -> Word)
    requires Mixes2(mix) && Words0(words) && Words1(words)
    requires forall t :: 16 <= t < 24 ==> MixedAt(mix, words, t)
    ensures Words2(words)
  {
    assert MixedAt(mix, words, 16) && MixedAt(mix, words, 17) && MixedAt(mix, words, 18) && MixedAt(mix, words, 19);
    assert MixedAt(mix, words, 20) && MixedAt(mix, words, 21) && MixedAt(mix, words, 22) && MixedAt(mix, words, 23);
  }

  predicate Mixes3(mix: Mixing) {
    && mix(0x12dcbfdb, 0x000f0000, 0x00000000, 0x00000000) == 0xc8215c1a
    && mix(0xe2e2c38e, 0x7da86405, 0x00000000, 0x00000000) == 0xb73679a2
    && mix(0xc8215c1a, 0x600003c6, 0x00000000, 0x00000000) == 0xe5bc3909
    && mix(0xb73679a2, 0x3e9d7b78, 0x00000000, 0x00000000) == 0x32663c5b
    && mix(0xe5bc3909, 0x0183fc00, 0x00000000, 0x00000000) == 0x9d209d67
    && mix(0x32663c5b, 0x12dcbfdb, 0x00000000, 0x00000000) == 0xec8726cb
    && mix(0x9d209d67, 0xe2e2c38e, 0x00000018, 0x00000000) == 0x702138a4
    && mix(0xec8726cb, 0xc8215c1a, 0x61626380, 0x00000018) == 0xd3b7973b
  }

  lemma ComputeMixes3()
    ensures Mixes3(Schedule)
  {
  }

  lemma Mix3(mix: Mixing, words: nat -> Word)
    requires Mixes3(mix) && Words1(words) && Words2(words)
    requires forall t :: 24 <= t < 32 ==> MixedAt(mix, words, t)
    ensures Words3(words)
  {
    assert MixedAt(mix, words, 24) && MixedAt(mix, words, 25) && MixedAt(mix, words, 26) && MixedAt(mix, words, 27);
    assert MixedAt(mix, words, 28) && MixedAt(mix, words, 29) && MixedAt(mix, words, 30) && MixedAt(mix, words, 31);
  }

  predicate Mixes4(mix: Mixing) {
    && mix(0x702138a4, 0xb73679a2, 0x000f0000, 0x61626380) == 0x93f5997f
    && mix(0xd3b7973b, 0xe5bc3909, 0x7da86405, 0x000f0000) == 0x3b68ba73
    && mix(0x93f5997f, 0x32663c5b, 0x600003c6, 0x7da86405) == 0xaff4ffc1
    && mix(0x3b68ba73, 0x9d209d67, 0x3e9d7b78, 0x600003c6) == 0xf10a5c62
    && mix(0xaff4ffc1, 0xec8726cb, 0x0183fc00, 0x3e9d7b78) == 0x0a8b3996
    && mix(0xf10a5c62, 0x702138a4, 0x12dcbfdb, 0x0183fc00) == 0x72af830a
    && mix(0x0a8b3996, 0xd3b7973b, 0xe2e2c38e, 0x12dcbfdb) == 0x9409e33e
    && mix(0x72af830a, 0x93f5997f, 0xc8215c1a, 0xe2e2c38e) == 0x24641522
  }

  lemma ComputeMixes4()
    ensures Mixes4(Schedule)
  {
  }

  lemma Mix4(mix: Mixing, words: nat -> Word)
    requires Mixes4(mix) && Words2(words) && Words3(words)
    requires forall t :: 32 <= t < 40 ==> MixedAt(mix, words, t)
    ensures Words4(words)
  {
    assert MixedAt(mix, words, 32) && MixedAt(mix, words, 33) && MixedAt(mix, words, 34) && MixedAt(mix, words, 35);
    assert MixedAt(mix, words, 36) && MixedAt(mix, words, 37) && MixedAt(mix, words, 38) && MixedAt(mix, words, 39);
  }

  predicate Mixes5(mix: Mixing) {
    && mix(0x9409e33e, 0x3b68ba73, 0xb73679a2, 0xc8215c1a) == 0x9f47bf94
    && mix(0x24641522, 0xaff4ffc1, 0xe5bc3909, 0xb73679a2) == 0xf0a64f5a
    && mix(0x9f47bf94, 0xf10a5c62, 0x32663c5b, 0xe5bc3909) == 0x3e246a79
    && mix(0xf0a64f5a, 0x0a8b3996, 0x9d209d67, 0x32663c5b) == 0x27333ba3
    && mix(0x3e246a79, 0x72af830a, 0xec8726cb, 0x9d209d67) == 0x0c4763f2
    && mix(0x27333ba3, 0x9409e33e, 0x702138a4, 0xec8726cb) == 0x840abf27
    && mix(0x0c4763f2, 0x24641522, 0xd3b7973b, 0x702138a4) == 0x7a290d5d
    && mix(0x840abf27, 0x9f47bf94, 0x93f5997f, 0xd3b7973b) == 0x065c43da
  }

  lemma ComputeMixes5()
    ensures Mixes5(Schedule)
  {
  }

  lemma Mix5(mix: Mixing, words: nat -> Word)
    requires Mixes5(mix) && Words3(words) && Words4(words)
    requires forall t :: 40 <= t < 48 ==> MixedAt(mix, words, t)
    ensures Words5(words)
  {
    assert MixedAt(mix, words, 40) && MixedAt(mix, words, 41) && MixedAt(mix, words, 42) && MixedAt(mix, words, 43);
    assert MixedAt(mix, words, 44) && MixedAt(mix, words, 45) && MixedAt(mix, words, 46) && MixedAt(mix, words, 47);
  }

  predicate Mixes6(mix: Mixing) {
    && mix(0x7a290d5d, 0xf0a64f5a, 0x3b68ba73, 0x93f5997f) == 0xfb3e89cb
    && mix(0x065c43da, 0x3e246a79, 0xaff4ffc1, 0x3b68ba73) == 0xcc7617db
    && mix(0xfb3e89cb, 0x27333ba3, 0xf10a5c62, 0xaff4ffc1) == 0xb9e66c34
    && mix(0xcc7617db, 0x0c4763f2, 0x0a8b3996, 0xf10a5c62) == 0xa9993667
    && mix(0xb9e66c34, 0x840abf27, 0x72af830a, 0x0a8b3996) == 0x84badedd
    && mix(0xa9993667, 0x7a290d5d, 0x9409e33e, 0x72af830a) == 0xc21462bc
    && mix(0x84badedd, 0x065c43da, 0x24641522, 0x9409e33e) == 0x1487472c
    && mix(0xc21462bc, 0xfb3e89cb, 0x9f47bf94, 0x24641522) == 0xb20f7a99
  }

  lemma ComputeMixes6()
    ensures Mixes6(Schedule)
  {
  }

  lemma Mix6(mix: Mixing, words: nat -> Word)
    requires Mixes6(mix) && Words4(words) && Words5(words)
    requires forall t :: 48 <= t < 56 ==> MixedAt(mix, words, t)
    ensures Words6(words)
  {
    assert MixedAt(mix, words, 48) && MixedAt(mix, words, 49) && MixedAt(mix, words, 50) && MixedAt(mix, words, 51);
    assert MixedAt(mix, words, 52) && MixedAt(mix, words, 53) && MixedAt(mix, words, 54) && MixedAt(mix, words, 55);
  }

  predicate Mixes7(mix: Mixing) {
    && mix(0x1487472c, 0xcc7617db, 0xf0a64f5a, 0x9f47bf94) == 0xef57b9cd
    && mix(0xb20f7a99, 0xb9e66c34, 0x3e246a79, 0xf0a64f5a) == 0xebe6b238
    && mix(0xef57b9cd, 0xa9993667, 0x27333ba3, 0x3e246a79) == 0x9fe3095e
    && mix(0xebe6b238, 0x84badedd, 0x0c4763f2, 0x27333ba3) == 0x78bc8d4b
    && mix(0x9fe3095e, 0xc21462bc, 0x840abf27, 0x0c4763f2) == 0xa43fcf15
    && mix(0x78bc8d4b, 0x1487472c, 0x7a290d5d, 0x840abf27) == 0x668b2ff8
    && mix(0xa43fcf15, 0xb20f7a99, 0x065c43da, 0x7a290d5d) == 0xeeaba2cc
    && mix(0x668b2ff8, 0xef57b9cd, 0xfb3e89cb, 0x065c43da) == 0x12b1edeb
  }

  lemma ComputeMixes7()
    ensures Mixes7(Schedule)
  {
  }

  lemma Mix7(mix: Mixing, words: nat -> Word)
    requires Mixes7(mix) && Words5(words) && Words6(words)
    requires forall t :: 56 <= t < 64 ==> MixedAt(mix, words, t)
    ensures Words7(words)
  {
    assert MixedAt(mix, words, 56) && MixedAt(mix, words, 57) && MixedAt(mix, words, 58) && MixedAt(mix, words, 59);
    assert MixedAt(mix, words, 60) && MixedAt(mix, words, 61) && MixedAt(mix, words, 62) && MixedAt(mix, words, 63);
  }

  predicate Words(words: nat -> Word) {
    && Words0(words) && Words1(words) && Words2(words) && Words3(words)
    && Words4(words) && Words5(words) && Words6(words) && Words7(words)
  }

  lemma MixAll(mix: Mixing, words: nat -> Word)
    requires Mixes2(mix) && Mixes3(mix) && Mixes4(mix) && Mixes5(mix) && Mixes6(mix) && Mixes7(mix)
    requires forall t :: 16 <= t < 64 ==> MixedAt(mix, words, t)
    requires Words0(words) && Words1(words)
    ensures Words(words)
  {
    Mix2(mix, words);
    Mix3(mix, words);
    Mix4(mix, words);
    Mix5(mix, words);
    Mix6(mix, words);
    Mix7(mix, words);
  }

  lemma ComputeAllMixes()
    ensures Mixes2(Schedule) && Mixes3(Schedule) && Mixes4(Schedule)
    ensures Mixes5(Schedule) && Mixes6(Schedule) && Mixes7(Schedule)
  {
    ComputeMixes2();
    ComputeMixes3();
    ComputeMixes4();
    ComputeMixes5();
    ComputeMixes6();
    ComputeMixes7();
  }

  lemma FirstWords(words: nat -> Word)
    requires forall t :: 0 <= t < 16 ==> words(t) == if t == 0 then 0x61626380 else if t == 15 then 0x18 else 0
    ensures Words0(words) && Words1(words)
  {
  }

  lemma AbcWords(words: nat -> Word)
    requires words == ((t: nat) => W(AbcBlock(), t))
    ensures Words(words)
  {
    forall t | 0 <= t < 16 ensures words(t) == if t == 0 then 0x61626380 else if t == 15 then 0x18 else 0 {
      AbcWord(t);
    }
    FirstWords(words);
    forall t | 16 <= t < 64 ensures MixedAt(Schedule, words, t) {
      ScheduleMixes(AbcBlock(), t);
    }
    ComputeAllMixes();
    MixAll(Schedule, words);
  }

  // ---------- the constants ----------

  predicate Constants0(ks: nat -> Word) {
    && ks(0) == 0x428a2f98 && ks(1) == 0x71374491 && ks(2) == 0xb5c0fbcf && ks(3) == 0xe9b5dba5
    && ks(4) == 0x3956c25b && ks(5) == 0x59f111f1 && ks(6) == 0x923f82a4 && ks(7) == 0xab1c5ed5
  }

  lemma ConstantsAre0(ks: nat -> Word)
    requires forall i :: 0 <= i < 8 ==> ks(0 + i) == K0[i]
    ensures Constants0(ks)
  {
    assert ks(0 + 0) == K0[0] && ks(0 + 1) == K0[1] && ks(0 + 2) == K0[2] && ks(0 + 3) == K0[3];
    assert ks(0 + 4) == K0[4] && ks(0 + 5) == K0[5] && ks(0 + 6) == K0[6] && ks(0 + 7) == K0[7];
  }

  predicate Constants1(ks: nat -> Word) {
    && ks(8) == 0xd807aa98 && ks(9) == 0x12835b01 && ks(10) == 0x243185be && ks(11) == 0x550c7dc3
    && ks(12) == 0x72be5d74 && ks(13) == 0x80deb1fe && ks(14) == 0x9bdc06a7 && ks(15) == 0xc19bf174
  }

  lemma ConstantsAre1(ks: nat -> Word)
    requires forall i :: 0 <= i < 8 ==> ks(8 + i) == K1[i]
    ensures Constants1(ks)
  {
    assert ks(8 + 0) == K1[0] && ks(8 + 1) == K1[1] && ks(8 + 2) == K1[2] && ks(8 + 3) == K1[3];
    assert ks(8 + 4) == K1[4] && ks(8 + 5) == K1[5] && ks(8 + 6) == K1[6] && ks(8 + 7) == K1[7];
  }

  predicate Constants2(ks: nat -> Word) {
    && ks(16) == 0xe49b69c1 && ks(17) == 0xefbe4786 && ks(18) == 0x0fc19dc6 && ks(19) == 0x240ca1cc
    && ks(20) == 0x2de92c6f && ks(21) == 0x4a7484aa && ks(22) == 0x5cb0a9dc && ks(23) == 0x76f988da
  }

  lemma ConstantsAre2(ks: nat -> Word)
    requires forall i :: 0 <= i < 8 ==> ks(16 + i) == K2[i]
    ensures Constants2(ks)
  {
    assert ks(16 + 0) == K2[0] && ks(16 + 1) == K2[1] && ks(16 + 2) == K2[2] && ks(16 + 3) == K2[3];
    assert ks(16 + 4) == K2[4] && ks(16 + 5) == K2[5] && ks(16 + 6) == K2[6] && ks(16 + 7) == K2[7];
  }

  predicate Constants3(ks: nat -> Word) {
    && ks(24) == 0x983e5152 && ks(25) == 0xa831c66d && ks(26) == 0xb00327c8 && ks(27) == 0xbf597fc7
    && ks(28) == 0xc6e00bf3 && ks(29) == 0xd5a79147 && ks(30) == 0x06ca6351 && ks(31) == 0x14292967
  }

  lemma ConstantsAre3(ks: nat -> Word)
    requires forall i :: 0 <= i < 8 ==> ks(24 + i) == K3[i]
    ensures Constants3(ks)
  {
    assert ks(24 + 0) == K3[0] && ks(24 + 1) == K3[1] && ks(24 + 2) == K3[2] && ks(24 + 3) == K3[3];
    assert ks(24 + 4) == K3[4] && ks(24 + 5) == K3[5] && ks(24 + 6) == K3[6] && ks(24 + 7) == K3[7];
  }

  predicate Constants4(ks: nat -> Word) {
    && ks(32) == 0x27b70a85 && ks(33) == 0x2e1b2138 && ks(34) == 0x4d2c6dfc && ks(35) == 0x53380d13
    && ks(36) == 0x650a7354 && ks(37) == 0x766a0abb && ks(38) == 0x81c2c92e && ks(39) == 0x92722c85
  }

  lemma ConstantsAre4(ks: nat -> Word)
    requires forall i :: 0 <= i < 8 ==> ks(32 + i) == K4[i]
    ensures Constants4(ks)
  {
    assert ks(32 + 0) == K4[0] && ks(32 + 1) == K4[1] && ks(32 + 2) == K4[2] && ks(32 + 3) == K4[3];
    assert ks(32 + 4) == K4[4] && ks(32 + 5) == K4[5] && ks(32 + 6) == K4[6] && ks(32 + 7) == K4[7];
  }

  predicate Constants5(ks: nat -> Word) {
    && ks(40) == 0xa2bfe8a1 && ks(41) == 0xa81a664b && ks(42) == 0xc24b8b70 && ks(43) == 0xc76c51a3
    && ks(44) == 0xd192e819 && ks(45) == 0xd6990624 && ks(46) == 0xf40e3585 && ks(47) == 0x106aa070
  }

  lemma ConstantsAre5(ks: nat -> Word)
    requires forall i :: 0 <= i < 8 ==> ks(40 + i) == K5[i]
    ensures Constants5(ks)
  {
    assert ks(40 + 0) == K5[0] && ks(40 + 1) == K5[1] && ks(40 + 2) == K5[2] && ks(40 + 3) == K5[3];
    assert ks(40 + 4) == K5[4] && ks(40 + 5) == K5[5] && ks(40 + 6) == K5[6] && ks(40 + 7) == K5[7];
  }

  predicate Constants6(ks: nat -> Word) {
    && ks(48) == 0x19a4c116 && ks(49) == 0x1e376c08 && ks(50) == 0x2748774c && ks(51) == 0x34b0bcb5
    && ks(52) == 0x391c0cb3 && ks(53) == 0x4ed8aa4a && ks(54) == 0x5b9cca4f && ks(55) == 0x682e6ff3
  }

  lemma ConstantsAre6(ks: nat -> Word)
    requires forall i :: 0 <= i < 8 ==> ks(48 + i) == K6[i]
    ensures Constants6(ks)
  {
    assert ks(48 + 0) == K6[0] && ks(48 + 1) == K6[1] && ks(48 + 2) == K6[2] && ks(48 + 3) == K6[3];
    assert ks(48 + 4) == K6[4] && ks(48 + 5) == K6[5] && ks(48 + 6) == K6[6] && ks(48 + 7) == K6[7];
  }

  predicate Constants7(ks: nat -> Word) {
    && ks(56) == 0x748f82ee && ks(57) == 0x78a5636f && ks(58) == 0x84c87814 && ks(59) == 0x8cc70208
    && ks(60) == 0x90befffa && ks(61) == 0xa4506ceb && ks(62) == 0xbef9a3f7 && ks(63) == 0xc67178f2
  }

  lemma ConstantsAre7(ks: nat -> Word)
    requires forall i :: 0 <= i < 8 ==> ks(56 + i) == K7[i]
    ensures Constants7(ks)
  {
    assert ks(56 + 0) == K7[0] && ks(56 + 1) == K7[1] && ks(56 + 2) == K7[2] && ks(56 + 3) == K7[3];
    assert ks(56 + 4) == K7[4] && ks(56 + 5) == K7[5] && ks(56 + 6) == K7[6] && ks(56 + 7) == K7[7];
  }

  predicate Row(t: nat, ks: seq<Word>) {
    |ks| == 8 && t + 8 <= |K| && K[t..t + 8] == ks
  }

  lemma KRows()
    ensures Row(0, K0) && Row(8, K1) && Row(16, K2) && Row(24, K3) && Row(32, K4) && Row(40, K5) && Row(48, K6) && Row(56, K7)
  {
  }

  function KAt(t: nat): Word {
    if t < |K| then K[t] else 0
  }

  lemma RowAt(t: nat, row: seq<Word>)
    requires Row(t, row)
    ensures forall i :: 0 <= i < 8 ==> KAt(t + i) == row[i]
  {
  }

  // ---------- the rounds ----------

  /** The working variables go on from round to round. */
  predicate GoesAt(step: Step, regs: nat -> Regs, ks: nat -> Word, words: nat -> Word, t: nat) {
    regs(t + 1) == step(regs(t), ks(t), words(t))
  }

  // The working variables after every eighth round.
  const After0 := Regs(0x6a09e667, 0xbb67ae85, 0x3c6ef372, 0xa54ff53a, 0x510e527f, 0x9b05688c, 0x1f83d9ab, 0x5be0cd19)
  const After8 := Regs(0x85a07b5f, 0xe5030380, 0x2b4209f5, 0x04409a6a, 0x0c657a79, 0x9b27a401, 0x714260ad, 0x43ada245)
  const After16 := Regs(0xb0fa238e, 0xc0645fde, 0xd932eb16, 0x87912990, 0x07590dcd, 0x0b92f20c, 0x745a48de, 0x1e578218)
  const After24 := Regs(0xc5d53d8d, 0xa7a3623f, 0xc2606d6d, 0x9dc68b63, 0xaa47c347, 0x49f5114a, 0xe1257970, 0x8ada8930)
  const After32 := Regs(0x73b33bf5, 0xea992a22, 0xa0060b30, 0x363482c9, 0xba591112, 0x0109ab3a, 0xade79437, 0x6112a3b7)
  const After40 := Regs(0x79ea687a, 0x6dc57a8a, 0x34df1604, 0x41a65cb1, 0x1efbc0a0, 0xf0781bc8, 0xa507a53d, 0x0772a26b)
  const After48 := Regs(0x4172328d, 0xa14c14b0, 0x72ab4b91, 0x26628815, 0xfecf0bc6, 0xd57b94a9, 0xb7755da1, 0xa80f11f0)
  const After56 := Regs(0x38cc9913, 0x3ec45cdb, 0xf5702fdb, 0x101fd28f, 0x54cb266b, 0xe50e1b4f, 0x9f4787c3, 0x529e7d00)
  const After64 := Regs(0x506e3058, 0xd39a2165, 0x04d24d6c, 0xb85e2ce9, 0x5ef50f24, 0xfb121210, 0x948d25b6, 0x961f4894)

  predicate FirstHalf0(step: Step) {
    && step(Regs(0x6a09e667, 0xbb67ae85, 0x3c6ef372, 0xa54ff53a, 0x510e527f, 0x9b05688c, 0x1f83d9ab, 0x5be0cd19), 0x428a2f98, 0x61626380)
       == Regs(0x5d6aebcd, 0x6a09e667, 0xbb67ae85, 0x3c6ef372, 0xfa2a4622, 0x510e527f, 0x9b05688c, 0x1f83d9ab)
    && step(Regs(0x5d6aebcd, 0x6a09e667, 0xbb67ae85, 0x3c6ef372, 0xfa2a4622, 0x510e527f, 0x9b05688c, 0x1f83d9ab), 0x71374491, 0x00000000)
       == Regs(0x5a6ad9ad, 0x5d6aebcd, 0x6a09e667, 0xbb67ae85, 0x78ce7989, 0xfa2a4622, 0x510e527f, 0x9b05688c)
    && step(Regs(0x5a6ad9ad, 0x5d6aebcd, 0x6a09e667, 0xbb67ae85, 0x78ce7989, 0xfa2a4622, 0x510e527f, 0x9b05688c), 0xb5c0fbcf, 0x00000000)
       == Regs(0xc8c347a7, 0x5a6ad9ad, 0x5d6aebcd, 0x6a09e667, 0xf92939eb, 0x78ce7989, 0xfa2a4622, 0x510e527f)
    && step(Regs(0xc8c347a7, 0x5a6ad9ad, 0x5d6aebcd, 0x6a09e667, 0xf92939eb, 0x78ce7989, 0xfa2a4622, 0x510e527f), 0xe9b5dba5, 0x00000000)
       == Regs(0xd550f666, 0xc8c347a7, 0x5a6ad9ad, 0x5d6aebcd, 0x24e00850, 0xf92939eb, 0x78ce7989, 0xfa2a4622)
  }

  lemma ComputeFirstHalf0()
    ensures FirstHalf0(Round)
  {
  }

  predicate SecondHalf0(step: Step) {
    && step(Regs(0xd550f666, 0xc8c347a7, 0x5a6ad9ad, 0x5d6aebcd, 0x24e00850, 0xf92939eb, 0x78ce7989, 0xfa2a4622), 0x3956c25b, 0x00000000)
       == Regs(0x04409a6a, 0xd550f666, 0xc8c347a7, 0x5a6ad9ad, 0x43ada245, 0x24e00850, 0xf92939eb, 0x78ce7989)
    && step(Regs(0x04409a6a, 0xd550f666, 0xc8c347a7, 0x5a6ad9ad, 0x43ada245, 0x24e00850, 0xf92939eb, 0x78ce7989), 0x59f111f1, 0x00000000)
       == Regs(0x2b4209f5, 0x04409a6a, 0xd550f666, 0xc8c347a7, 0x714260ad, 0x43ada245, 0x24e00850, 0xf92939eb)
    && step(Regs(0x2b4209f5, 0x04409a6a, 0xd550f666, 0xc8c347a7, 0x714260ad, 0x43ada245, 0x24e00850, 0xf92939eb), 0x923f82a4, 0x00000000)
       == Regs(0xe5030380, 0x2b4209f5, 0x04409a6a, 0xd550f666, 0x9b27a401, 0x714260ad, 0x43ada245, 0x24e00850)
    && step(Regs(0xe5030380, 0x2b4209f5, 0x04409a6a, 0xd550f666, 0x9b27a401, 0x714260ad, 0x43ada245, 0x24e00850), 0xab1c5ed5, 0x00000000)
       == Regs(0x85a07b5f, 0xe5030380, 0x2b4209f5, 0x04409a6a, 0x0c657a79, 0x9b27a401, 0x714260ad, 0x43ada245)
  }

  lemma ComputeSecondHalf0()
    ensures SecondHalf0(Round)
  {
  }

  predicate Rounds0(step: Step) {
    FirstHalf0(step) && SecondHalf0(step)
  }

  lemma Go0(step: Step, regs: nat -> Regs, ks: nat -> Word, words: nat -> Word)
    requires Rounds0(step) && Constants0(ks) && Words0(words) && regs(0) == After0
    requires forall t :: 0 <= t < 8 ==> GoesAt(step, regs, ks, words, t)
    ensures regs(8) == After8
  {
    assert GoesAt(step, regs, ks, words, 0) && GoesAt(step, regs, ks, words, 1);
    assert GoesAt(step, regs, ks, words, 2) && GoesAt(step, regs, ks, words, 3);
    assert GoesAt(step, regs, ks, words, 4) && GoesAt(step, regs, ks, words, 5);
    assert GoesAt(step, regs, ks, words, 6) && GoesAt(step, regs, ks, words, 7);
  }

  predicate FirstHalf1(step: Step) {
    && step(Regs(0x85a07b5f, 0xe5030380, 0x2b4209f5, 0x04409a6a, 0x0c657a79, 0x9b27a401, 0x714260ad, 0x43ada245), 0xd807aa98, 0x00000000)
       == Regs(0x8e04ecb9, 0x85a07b5f, 0xe5030380, 0x2b4209f5, 0x32ca2d8c, 0x0c657a79, 0x9b27a401, 0x714260ad)
    && step(Regs(0x8e04ecb9, 0x85a07b5f, 0xe5030380, 0x2b4209f5, 0x32ca2d8c, 0x0c657a79, 0x9b27a401, 0x714260ad), 0x12835b01, 0x00000000)
       == Regs(0x8c87346b, 0x8e04ecb9, 0x85a07b5f, 0xe5030380, 0x1cc92596, 0x32ca2d8c, 0x0c657a79, 0x9b27a401)
    && step(Regs(0x8c87346b, 0x8e04ecb9, 0x85a07b5f, 0xe5030380, 0x1cc92596, 0x32ca2d8c, 0x0c657a79, 0x9b27a401), 0x243185be, 0x00000000)
       == Regs(0x4798a3f4, 0x8c87346b, 0x8e04ecb9, 0x85a07b5f, 0x436b23e8, 0x1cc92596, 0x32ca2d8c, 0x0c657a79)
    && step(Regs(0x4798a3f4, 0x8c87346b, 0x8e04ecb9, 0x85a07b5f, 0x436b23e8, 0x1cc92596, 0x32ca2d8c, 0x0c657a79), 0x550c7dc3, 0x00000000)
       == Regs(0xf71fc5a9, 0x4798a3f4, 0x8c87346b, 0x8e04ecb9, 0x816fd6e9, 0x436b23e8, 0x1cc92596, 0x32ca2d8c)
  }

  lemma ComputeFirstHalf1()
    ensures FirstHalf1(Round)
  {
  }

  predicate SecondHalf1(step: Step) {
    && step(Regs(0xf71fc5a9, 0x4798a3f4, 0x8c87346b, 0x8e04ecb9, 0x816fd6e9, 0x436b23e8, 0x1cc92596, 0x32ca2d8c), 0x72be5d74, 0x00000000)
       == Regs(0x87912990, 0xf71fc5a9, 0x4798a3f4, 0x8c87346b, 0x1e578218, 0x816fd6e9, 0x436b23e8, 0x1cc92596)
    && step(Regs(0x87912990, 0xf71fc5a9, 0x4798a3f4, 0x8c87346b, 0x1e578218, 0x816fd6e9, 0x436b23e8, 0x1cc92596), 0x80deb1fe, 0x00000000)
       == Regs(0xd932eb16, 0x87912990, 0xf71fc5a9, 0x4798a3f4, 0x745a48de, 0x1e578218, 0x816fd6e9, 0x436b23e8)
    && step(Regs(0xd932eb16, 0x87912990, 0xf71fc5a9, 0x4798a3f4, 0x745a48de, 0x1e578218, 0x816fd6e9, 0x436b23e8), 0x9bdc06a7, 0x00000000)
       == Regs(0xc0645fde, 0xd932eb16, 0x87912990, 0xf71fc5a9, 0x0b92f20c, 0x745a48de, 0x1e578218, 0x816fd6e9)
    && step(Regs(0xc0645fde, 0xd932eb16, 0x87912990, 0xf71fc5a9, 0x0b92f20c, 0x745a48de, 0x1e578218, 0x816fd6e9), 0xc19bf174, 0x00000018)
       == Regs(0xb0fa238e, 0xc0645fde, 0xd932eb16, 0x87912990, 0x07590dcd, 0x0b92f20c, 0x745a48de, 0x1e578218)
  }

  lemma ComputeSecondHalf1()
    ensures SecondHalf1(Round)
  {
  }

  predicate Rounds1(step: Step) {
    FirstHalf1(step) && SecondHalf1(step)
  }

  lemma Go1(step: Step, regs: nat -> Regs, ks: nat -> Word, words: nat -> Word)
    requires Rounds1(step) && Constants1(ks) && Words1(words) && regs(8) == After8
    requires forall t :: 8 <= t < 16 ==> GoesAt(step, regs, ks, words, t)
    ensures regs(16) == After16
  {
    assert GoesAt(step, regs, ks, words, 8) && GoesAt(step, regs, ks, words, 9);
    assert GoesAt(step, regs, ks, words, 10) && GoesAt(step, regs, ks, words, 11);
    assert GoesAt(step, regs, ks, words, 12) && GoesAt(step, regs, ks, words, 13);
    assert GoesAt(step, regs, ks, words, 14) && GoesAt(step, regs, ks, words, 15);
  }

  predicate FirstHalf2(step: Step) {
    && step(Regs(0xb0fa238e, 0xc0645fde, 0xd932eb16, 0x87912990, 0x07590dcd, 0x0b92f20c, 0x745a48de, 0x1e578218), 0xe49b69c1, 0x61626380)
       == Regs(0x21da9a9b, 0xb0fa238e, 0xc0645fde, 0xd932eb16, 0x8034229c, 0x07590dcd, 0x0b92f20c, 0x745a48de)
    && step(Regs(0x21da9a9b, 0xb0fa238e, 0xc0645fde, 0xd932eb16, 0x8034229c, 0x07590dcd, 0x0b92f20c, 0x745a48de), 0xefbe4786, 0x000f0000)
       == Regs(0xc2fbd9d1, 0x21da9a9b, 0xb0fa238e, 0xc0645fde, 0x846ee454, 0x8034229c, 0x07590dcd, 0x0b92f20c)
    && step(Regs(0xc2fbd9d1, 0x21da9a9b, 0xb0fa238e, 0xc0645fde, 0x846ee454, 0x8034229c, 0x07590dcd, 0x0b92f20c), 0x0fc19dc6, 0x7da86405)
       == Regs(0xfe777bbf, 0xc2fbd9d1, 0x21da9a9b, 0xb0fa238e, 0xcc899961, 0x846ee454, 0x8034229c, 0x07590dcd)
    && step(Regs(0xfe777bbf, 0xc2fbd9d1, 0x21da9a9b, 0xb0fa238e, 0xcc899961, 0x846ee454, 0x8034229c, 0x07590dcd), 0x240ca1cc, 0x600003c6)
       == Regs(0xe1f20c33, 0xfe777bbf, 0xc2fbd9d1, 0x21da9a9b, 0xb0638179, 0xcc899961, 0x846ee454, 0x8034229c)
  }

  lemma ComputeFirstHalf2()
    ensures FirstHalf2(Round)
  {
  }

  predicate SecondHalf2(step: Step) {
    && step(Regs(0xe1f20c33, 0xfe777bbf, 0xc2fbd9d1, 0x21da9a9b, 0xb0638179, 0xcc899961, 0x846ee454, 0x8034229c), 0x2de92c6f, 0x3e9d7b78)
       == Regs(0x9dc68b63, 0xe1f20c33, 0xfe777bbf, 0xc2fbd9d1, 0x8ada8930, 0xb0638179, 0xcc899961, 0x846ee454)
    && step(Regs(0x9dc68b63, 0xe1f20c33, 0xfe777bbf, 0xc2fbd9d1, 0x8ada8930, 0xb0638179, 0xcc899961, 0x846ee454), 0x4a7484aa, 0x0183fc00)
       == Regs(0xc2606d6d, 0x9dc68b63, 0xe1f20c33, 0xfe777bbf, 0xe1257970, 0x8ada8930, 0xb0638179, 0xcc899961)
    && step(Regs(0xc2606d6d, 0x9dc68b63, 0xe1f20c33, 0xfe777bbf, 0xe1257970, 0x8ada8930, 0xb0638179, 0xcc899961), 0x5cb0a9dc, 0x12dcbfdb)
       == Regs(0xa7a3623f, 0xc2606d6d, 0x9dc68b63, 0xe1f20c33, 0x49f5114a, 0xe1257970, 0x8ada8930, 0xb0638179)
    && step(Regs(0xa7a3623f, 0xc2606d6d, 0x9dc68b63, 0xe1f20c33, 0x49f5114a, 0xe1257970, 0x8ada8930, 0xb0638179), 0x76f988da, 0xe2e2c38e)
       == Regs(0xc5d53d8d, 0xa7a3623f, 0xc2606d6d, 0x9dc68b63, 0xaa47c347, 0x49f5114a, 0xe1257970, 0x8ada8930)
  }

  lemma ComputeSecondHalf2()
    ensures SecondHalf2(Round)
  {
  }

  predicate Rounds2(step: Step) {
    FirstHalf2(step) && SecondHalf2(step)
  }

  lemma Go2(step: Step, regs: nat -> Regs, ks: nat -> Word, words: nat -> Word)
    requires Rounds2(step) && Constants2(ks) && Words2(words) && regs(16) == After16
    requires forall t :: 16 <= t < 24 ==> GoesAt(step, regs, ks, words, t)
    ensures regs(24) == After24
  {
    assert GoesAt(step, regs, ks, words, 16) && GoesAt(step, regs, ks, words, 17);
    assert GoesAt(step, regs, ks, words, 18) && GoesAt(step, regs, ks, words, 19);
    assert GoesAt(step, regs, ks, words, 20) && GoesAt(step, regs, ks, words, 21);
    assert GoesAt(step, regs, ks, words, 22) && GoesAt(step, regs, ks, words, 23);
  }

  predicate FirstHalf3(step: Step) {
    && step(Regs(0xc5d53d8d, 0xa7a3623f, 0xc2606d6d, 0x9dc68b63, 0xaa47c347, 0x49f5114a, 0xe1257970, 0x8ada8930), 0x983e5152, 0xc8215c1a)
       == Regs(0x1c2c2838, 0xc5d53d8d, 0xa7a3623f, 0xc2606d6d, 0x2823ef91, 0xaa47c347, 0x49f5114a, 0xe1257970)
    && step(Regs(0x1c2c2838, 0xc5d53d8d, 0xa7a3623f, 0xc2606d6d, 0x2823ef91, 0xaa47c347, 0x49f5114a, 0xe1257970), 0xa831c66d, 0xb73679a2)
       == Regs(0xcde8037d, 0x1c2c2838, 0xc5d53d8d, 0xa7a3623f, 0x14383d8e, 0x2823ef91, 0xaa47c347, 0x49f5114a)
    && step(Regs(0xcde8037d, 0x1c2c2838, 0xc5d53d8d, 0xa7a3623f, 0x14383d8e, 0x2823ef91, 0xaa47c347, 0x49f5114a), 0xb00327c8, 0xe5bc3909)
       == Regs(0xb62ec4bc, 0xcde8037d, 0x1c2c2838, 0xc5d53d8d, 0xc74c6516, 0x14383d8e, 0x2823ef91, 0xaa47c347)
    && step(Regs(0xb62ec4bc, 0xcde8037d, 0x1c2c2838, 0xc5d53d8d, 0xc74c6516, 0x14383d8e, 0x2823ef91, 0xaa47c347), 0xbf597fc7, 0x32663c5b)
       == Regs(0x77d37528, 0xb62ec4bc, 0xcde8037d, 0x1c2c2838, 0xedffbff8, 0xc74c6516, 0x14383d8e, 0x2823ef91)
  }

  lemma ComputeFirstHalf3()
    ensures FirstHalf3(Round)
  {
  }

  predicate SecondHalf3(step: Step) {
    && step(Regs(0x77d37528, 0xb62ec4bc, 0xcde8037d, 0x1c2c2838, 0xedffbff8, 0xc74c6516, 0x14383d8e, 0x2823ef91), 0xc6e00bf3, 0x9d209d67)
       == Regs(0x363482c9, 0x77d37528, 0xb62ec4bc, 0xcde8037d, 0x6112a3b7, 0xedffbff8, 0xc74c6516, 0x14383d8e)
    && step(Regs(0x363482c9, 0x77d37528, 0xb62ec4bc, 0xcde8037d, 0x6112a3b7, 0xedffbff8, 0xc74c6516, 0x14383d8e), 0xd5a79147, 0xec8726cb)
       == Regs(0xa0060b30, 0x363482c9, 0x77d37528, 0xb62ec4bc, 0xade79437, 0x6112a3b7, 0xedffbff8, 0xc74c6516)
    && step(Regs(0xa0060b30, 0x363482c9, 0x77d37528, 0xb62ec4bc, 0xade79437, 0x6112a3b7, 0xedffbff8, 0xc74c6516), 0x06ca6351, 0x702138a4)
       == Regs(0xea992a22, 0xa0060b30, 0x363482c9, 0x77d37528, 0x0109ab3a, 0xade79437, 0x6112a3b7, 0xedffbff8)
    && step(Regs(0xea992a22, 0xa0060b30, 0x363482c9, 0x77d37528, 0x0109ab3a, 0xade79437, 0x6112a3b7, 0xedffbff8), 0x14292967, 0xd3b7973b)
       == Regs(0x73b33bf5, 0xea992a22, 0xa0060b30, 0x363482c9, 0xba591112, 0x0109ab3a, 0xade79437, 0x6112a3b7)
  }

  lemma ComputeSecondHalf3()
    ensures SecondHalf3(Round)
  {
  }

  predicate Rounds3(step: Step) {
    FirstHalf3(step) && SecondHalf3(step)
  }

  lemma Go3(step: Step, regs: nat -> Regs, ks: nat -> Word, words: nat -> Word)
    requires Rounds3(step) && Constants3(ks) && Words3(words) && regs(24) == After24
    requires forall t :: 24 <= t < 32 ==> GoesAt(step, regs, ks, words, t)
    ensures regs(32) == After32
  {
    assert GoesAt(step, regs, ks, words, 24) && GoesAt(step, regs, ks, words, 25);
    assert GoesAt(step, regs, ks, words, 26) && GoesAt(step, regs, ks, words, 27);
    assert GoesAt(step, regs, ks, words, 28) && GoesAt(step, regs, ks, words, 29);
    assert GoesAt(step, regs, ks, words, 30) && GoesAt(step, regs, ks, words, 31);
  }

  predicate FirstHalf4(step: Step) {
    && step(Regs(0x73b33bf5, 0xea992a22, 0xa0060b30, 0x363482c9, 0xba591112, 0x0109ab3a, 0xade79437, 0x6112a3b7), 0x27b70a85, 0x93f5997f)
       == Regs(0x98e12507, 0x73b33bf5, 0xea992a22, 0xa0060b30, 0x9cd9f5f6, 0xba591112, 0x0109ab3a, 0xade79437)
    && step(Regs(0x98e12507, 0x73b33bf5, 0xea992a22, 0xa0060b30, 0x9cd9f5f6, 0xba591112, 0x0109ab3a, 0xade79437), 0x2e1b2138, 0x3b68ba73)
       == Regs(0xfe604df5, 0x98e12507, 0x73b33bf5, 0xea992a22, 0x59249dd3, 0x9cd9f5f6, 0xba591112, 0x0109ab3a)
    && step(Regs(0xfe604df5, 0x98e12507, 0x73b33bf5, 0xea992a22, 0x59249dd3, 0x9cd9f5f6, 0xba591112, 0x0109ab3a), 0x4d2c6dfc, 0xaff4ffc1)
       == Regs(0xa9a7738c, 0xfe604df5, 0x98e12507, 0x73b33bf5, 0x085f3833, 0x59249dd3, 0x9cd9f5f6, 0xba591112)
    && step(Regs(0xa9a7738c, 0xfe604df5, 0x98e12507, 0x73b33bf5, 0x085f3833, 0x59249dd3, 0x9cd9f5f6, 0xba591112), 0x53380d13, 0xf10a5c62)
       == Regs(0x65a0cfe4, 0xa9a7738c, 0xfe604df5, 0x98e12507, 0xf4b002d6, 0x085f3833, 0x59249dd3, 0x9cd9f5f6)
  }

  lemma ComputeFirstHalf4()
    ensures FirstHalf4(Round)
  {
  }

  predicate SecondHalf4(step: Step) {
    && step(Regs(0x65a0cfe4, 0xa9a7738c, 0xfe604df5, 0x98e12507, 0xf4b002d6, 0x085f3833, 0x59249dd3, 0x9cd9f5f6), 0x650a7354, 0x0a8b3996)
       == Regs(0x41a65cb1, 0x65a0cfe4, 0xa9a7738c, 0xfe604df5, 0x0772a26b, 0xf4b002d6, 0x085f3833, 0x59249dd3)
    && step(Regs(0x41a65cb1, 0x65a0cfe4, 0xa9a7738c, 0xfe604df5, 0x0772a26b, 0xf4b002d6, 0x085f3833, 0x59249dd3), 0x766a0abb, 0x72af830a)
       == Regs(0x34df1604, 0x41a65cb1, 0x65a0cfe4, 0xa9a7738c, 0xa507a53d, 0x0772a26b, 0xf4b002d6, 0x085f3833)
    && step(Regs(0x34df1604, 0x41a65cb1, 0x65a0cfe4, 0xa9a7738c, 0xa507a53d, 0x0772a26b, 0xf4b002d6, 0x085f3833), 0x81c2c92e, 0x9409e33e)
       == Regs(0x6dc57a8a, 0x34df1604, 0x41a65cb1, 0x65a0cfe4, 0xf0781bc8, 0xa507a53d, 0x0772a26b, 0xf4b002d6)
    && step(Regs(0x6dc57a8a, 0x34df1604, 0x41a65cb1, 0x65a0cfe4, 0xf0781bc8, 0xa507a53d, 0x0772a26b, 0xf4b002d6), 0x92722c85, 0x24641522)
       == Regs(0x79ea687a, 0x6dc57a8a, 0x34df1604, 0x41a65cb1, 0x1efbc0a0, 0xf0781bc8, 0xa507a53d, 0x0772a26b)
  }

  lemma ComputeSecondHalf4()
    ensures SecondHalf4(Round)
  {
  }

  predicate Rounds4(step: Step) {
    FirstHalf4(step) && SecondHalf4(step)
  }

  lemma Go4(step: Step, regs: nat -> Regs, ks: nat -> Word, words: nat -> Word)
    requires Rounds4(step) && Constants4(ks) && Words4(words) && regs(32) == After32
    requires forall t :: 32 <= t < 40 ==> GoesAt(step, regs, ks, words, t)
    ensures regs(40) == After40
  {
    assert GoesAt(step, regs, ks, words, 32) && GoesAt(step, regs, ks, words, 33);
    assert GoesAt(step, regs, ks, words, 34) && GoesAt(step, regs, ks, words, 35);
    assert GoesAt(step, regs, ks, words, 36) && GoesAt(step, regs, ks, words, 37);
    assert GoesAt(step, regs, ks, words, 38) && GoesAt(step, regs, ks, words, 39);
  }

  predicate FirstHalf5(step: Step) {
    && step(Regs(0x79ea687a, 0x6dc57a8a, 0x34df1604, 0x41a65cb1, 0x1efbc0a0, 0xf0781bc8, 0xa507a53d, 0x0772a26b), 0xa2bfe8a1, 0x9f47bf94)
       == Regs(0xd6670766, 0x79ea687a, 0x6dc57a8a, 0x34df1604, 0x26352d63, 0x1efbc0a0, 0xf0781bc8, 0xa507a53d)
    && step(Regs(0xd6670766, 0x79ea687a, 0x6dc57a8a, 0x34df1604, 0x26352d63, 0x1efbc0a0, 0xf0781bc8, 0xa507a53d), 0xa81a664b, 0xf0a64f5a)
       == Regs(0xdf46652f, 0xd6670766, 0x79ea687a, 0x6dc57a8a, 0x838b2711, 0x26352d63, 0x1efbc0a0, 0xf0781bc8)
    && step(Regs(0xdf46652f, 0xd6670766, 0x79ea687a, 0x6dc57a8a, 0x838b2711, 0x26352d63, 0x1efbc0a0, 0xf0781bc8), 0xc24b8b70, 0x3e246a79)
       == Regs(0x17aa0dfe, 0xdf46652f, 0xd6670766, 0x79ea687a, 0xdecd4715, 0x838b2711, 0x26352d63, 0x1efbc0a0)
    && step(Regs(0x17aa0dfe, 0xdf46652f, 0xd6670766, 0x79ea687a, 0xdecd4715, 0x838b2711, 0x26352d63, 0x1efbc0a0), 0xc76c51a3, 0x27333ba3)
       == Regs(0x9d4baf93, 0x17aa0dfe, 0xdf46652f, 0xd6670766, 0xfda24c2e, 0xdecd4715, 0x838b2711, 0x26352d63)
  }

  lemma ComputeFirstHalf5()
    ensures FirstHalf5(Round)
  {
  }

  predicate SecondHalf5(step: Step) {
    && step(Regs(0x9d4baf93, 0x17aa0dfe, 0xdf46652f, 0xd6670766, 0xfda24c2e, 0xdecd4715, 0x838b2711, 0x26352d63), 0xd192e819, 0x0c4763f2)
       == Regs(0x26628815, 0x9d4baf93, 0x17aa0dfe, 0xdf46652f, 0xa80f11f0, 0xfda24c2e, 0xdecd4715, 0x838b2711)
    && step(Regs(0x26628815, 0x9d4baf93, 0x17aa0dfe, 0xdf46652f, 0xa80f11f0, 0xfda24c2e, 0xdecd4715, 0x838b2711), 0xd6990624, 0x840abf27)
       == Regs(0x72ab4b91, 0x26628815, 0x9d4baf93, 0x17aa0dfe, 0xb7755da1, 0xa80f11f0, 0xfda24c2e, 0xdecd4715)
    && step(Regs(0x72ab4b91, 0x26628815, 0x9d4baf93, 0x17aa0dfe, 0xb7755da1, 0xa80f11f0, 0xfda24c2e, 0xdecd4715), 0xf40e3585, 0x7a290d5d)
       == Regs(0xa14c14b0, 0x72ab4b91, 0x26628815, 0x9d4baf93, 0xd57b94a9, 0xb7755da1, 0xa80f11f0, 0xfda24c2e)
    && step(Regs(0xa14c14b0, 0x72ab4b91, 0x26628815, 0x9d4baf93, 0xd57b94a9, 0xb7755da1, 0xa80f11f0, 0xfda24c2e), 0x106aa070, 0x065c43da)
       == Regs(0x4172328d, 0xa14c14b0, 0x72ab4b91, 0x26628815, 0xfecf0bc6, 0xd57b94a9, 0xb7755da1, 0xa80f11f0)
  }

  lemma ComputeSecondHalf5()
    ensures SecondHalf5(Round)
  {
  }

  predicate Rounds5(step: Step) {
    FirstHalf5(step) && SecondHalf5(step)
  }

  lemma Go5(step: Step, regs: nat -> Regs, ks: nat -> Word, words: nat -> Word)
    requires Rounds5(step) && Constants5(ks) && Words5(words) && regs(40) == After40
    requires forall t :: 40 <= t < 48 ==> GoesAt(step, regs, ks, words, t)
    ensures regs(48) == After48
  {
    assert GoesAt(step, regs, ks, words, 40) && GoesAt(step, regs, ks, words, 41);
    assert GoesAt(step, regs, ks, words, 42) && GoesAt(step, regs, ks, words, 43);
    assert GoesAt(step, regs, ks, words, 44) && GoesAt(step, regs, ks, words, 45);
    assert GoesAt(step, regs, ks, words, 46) && GoesAt(step, regs, ks, words, 47);
  }

  predicate FirstHalf6(step: Step) {
    && step(Regs(0x4172328d, 0xa14c14b0, 0x72ab4b91, 0x26628815, 0xfecf0bc6, 0xd57b94a9, 0xb7755da1, 0xa80f11f0), 0x19a4c116, 0xfb3e89cb)
       == Regs(0x05757ceb, 0x4172328d, 0xa14c14b0, 0x72ab4b91, 0xbd714038, 0xfecf0bc6, 0xd57b94a9, 0xb7755da1)
    && step(Regs(0x05757ceb, 0x4172328d, 0xa14c14b0, 0x72ab4b91, 0xbd714038, 0xfecf0bc6, 0xd57b94a9, 0xb7755da1), 0x1e376c08, 0xcc7617db)
       == Regs(0xf11bfaa8, 0x05757ceb, 0x4172328d, 0xa14c14b0, 0x6e5c390c, 0xbd714038, 0xfecf0bc6, 0xd57b94a9)
    && step(Regs(0xf11bfaa8, 0x05757ceb, 0x4172328d, 0xa14c14b0, 0x6e5c390c, 0xbd714038, 0xfecf0bc6, 0xd57b94a9), 0x2748774c, 0xb9e66c34)
       == Regs(0x7a0508a1, 0xf11bfaa8, 0x05757ceb, 0x4172328d, 0x52f1ccf7, 0x6e5c390c, 0xbd714038, 0xfecf0bc6)
    && step(Regs(0x7a0508a1, 0xf11bfaa8, 0x05757ceb, 0x4172328d, 0x52f1ccf7, 0x6e5c390c, 0xbd714038, 0xfecf0bc6), 0x34b0bcb5, 0xa9993667)
       == Regs(0x886e7a22, 0x7a0508a1, 0xf11bfaa8, 0x05757ceb, 0x49231c1e, 0x52f1ccf7, 0x6e5c390c, 0xbd714038)
  }

  lemma ComputeFirstHalf6()
    ensures FirstHalf6(Round)
  {
  }

  predicate SecondHalf6(step: Step) {
    && step(Regs(0x886e7a22, 0x7a0508a1, 0xf11bfaa8, 0x05757ceb, 0x49231c1e, 0x52f1ccf7, 0x6e5c390c, 0xbd714038), 0x391c0cb3, 0x84badedd)
       == Regs(0x101fd28f, 0x886e7a22, 0x7a0508a1, 0xf11bfaa8, 0x529e7d00, 0x49231c1e, 0x52f1ccf7, 0x6e5c390c)
    && step(Regs(0x101fd28f, 0x886e7a22, 0x7a0508a1, 0xf11bfaa8, 0x529e7d00, 0x49231c1e, 0x52f1ccf7, 0x6e5c390c), 0x4ed8aa4a, 0xc21462bc)
       == Regs(0xf5702fdb, 0x101fd28f, 0x886e7a22, 0x7a0508a1, 0x9f4787c3, 0x529e7d00, 0x49231c1e, 0x52f1ccf7)
    && step(Regs(0xf5702fdb, 0x101fd28f, 0x886e7a22, 0x7a0508a1, 0x9f4787c3, 0x529e7d00, 0x49231c1e, 0x52f1ccf7), 0x5b9cca4f, 0x1487472c)
       == Regs(0x3ec45cdb, 0xf5702fdb, 0x101fd28f, 0x886e7a22, 0xe50e1b4f, 0x9f4787c3, 0x529e7d00, 0x49231c1e)
    && step(Regs(0x3ec45cdb, 0xf5702fdb, 0x101fd28f, 0x886e7a22, 0xe50e1b4f, 0x9f4787c3, 0x529e7d00, 0x49231c1e), 0x682e6ff3, 0xb20f7a99)
       == Regs(0x38cc9913, 0x3ec45cdb, 0xf5702fdb, 0x101fd28f, 0x54cb266b, 0xe50e1b4f, 0x9f4787c3, 0x529e7d00)
  }

  lemma ComputeSecondHalf6()
    ensures SecondHalf6(Round)
  {
  }

  predicate Rounds6(step: Step) {
    FirstHalf6(step) && SecondHalf6(step)
  }

  lemma Go6(step: Step, regs: nat -> Regs, ks: nat -> Word, words: nat -> Word)
    requires Rounds6(step) && Constants6(ks) && Words6(words) && regs(48) == After48
    requires forall t :: 48 <= t < 56 ==> GoesAt(step, regs, ks, words, t)
    ensures regs(56) == After56
  {
    assert GoesAt(step, regs, ks, words, 48) && GoesAt(step, regs, ks, words, 49);
    assert GoesAt(step, regs, ks, words, 50) && GoesAt(step, regs, ks, words, 51);
    assert GoesAt(step, regs, ks, words, 52) && GoesAt(step, regs, ks, words, 53);
    assert GoesAt(step, regs, ks, words, 54) && GoesAt(step, regs, ks, words, 55);
  }

  predicate FirstHalf7(step: Step) {
    && step(Regs(0x38cc9913, 0x3ec45cdb, 0xf5702fdb, 0x101fd28f, 0x54cb266b, 0xe50e1b4f, 0x9f4787c3, 0x529e7d00), 0x748f82ee, 0xef57b9cd)
       == Regs(0xfcd1887b, 0x38cc9913, 0x3ec45cdb, 0xf5702fdb, 0x9b5e906c, 0x54cb266b, 0xe50e1b4f, 0x9f4787c3)
    && step(Regs(0xfcd1887b, 0x38cc9913, 0x3ec45cdb, 0xf5702fdb, 0x9b5e906c, 0x54cb266b, 0xe50e1b4f, 0x9f4787c3), 0x78a5636f, 0xebe6b238)
       == Regs(0xc062d46f, 0xfcd1887b, 0x38cc9913, 0x3ec45cdb, 0x7e44008e, 0x9b5e906c, 0x54cb266b, 0xe50e1b4f)
    && step(Regs(0xc062d46f, 0xfcd1887b, 0x38cc9913, 0x3ec45cdb, 0x7e44008e, 0x9b5e906c, 0x54cb266b, 0xe50e1b4f), 0x84c87814, 0x9fe3095e)
       == Regs(0xffb70472, 0xc062d46f, 0xfcd1887b, 0x38cc9913, 0x6d83bfc6, 0x7e44008e, 0x9b5e906c, 0x54cb266b)
    && step(Regs(0xffb70472, 0xc062d46f, 0xfcd1887b, 0x38cc9913, 0x6d83bfc6, 0x7e44008e, 0x9b5e906c, 0x54cb266b), 0x8cc70208, 0x78bc8d4b)
       == Regs(0xb6ae8fff, 0xffb70472, 0xc062d46f, 0xfcd1887b, 0xb21bad3d, 0x6d83bfc6, 0x7e44008e, 0x9b5e906c)
  }

  lemma ComputeFirstHalf7()
    ensures FirstHalf7(Round)
  {
  }

  predicate SecondHalf7(step: Step) {
    && step(Regs(0xb6ae8fff, 0xffb70472, 0xc062d46f, 0xfcd1887b, 0xb21bad3d, 0x6d83bfc6, 0x7e44008e, 0x9b5e906c), 0x90befffa, 0xa43fcf15)
       == Regs(0xb85e2ce9, 0xb6ae8fff, 0xffb70472, 0xc062d46f, 0x961f4894, 0xb21bad3d, 0x6d83bfc6, 0x7e44008e)
    && step(Regs(0xb85e2ce9, 0xb6ae8fff, 0xffb70472, 0xc062d46f, 0x961f4894, 0xb21bad3d, 0x6d83bfc6, 0x7e44008e), 0xa4506ceb, 0x668b2ff8)
       == Regs(0x04d24d6c, 0xb85e2ce9, 0xb6ae8fff, 0xffb70472, 0x948d25b6, 0x961f4894, 0xb21bad3d, 0x6d83bfc6)
    && step(Regs(0x04d24d6c, 0xb85e2ce9, 0xb6ae8fff, 0xffb70472, 0x948d25b6, 0x961f4894, 0xb21bad3d, 0x6d83bfc6), 0xbef9a3f7, 0xeeaba2cc)
       == Regs(0xd39a2165, 0x04d24d6c, 0xb85e2ce9, 0xb6ae8fff, 0xfb121210, 0x948d25b6, 0x961f4894, 0xb21bad3d)
    && step(Regs(0xd39a2165, 0x04d24d6c, 0xb85e2ce9, 0xb6ae8fff, 0xfb121210, 0x948d25b6, 0x961f4894, 0xb21bad3d), 0xc67178f2, 0x12b1edeb)
       == Regs(0x506e3058, 0xd39a2165, 0x04d24d6c, 0xb85e2ce9, 0x5ef50f24, 0xfb121210, 0x948d25b6, 0x961f4894)
  }

  lemma ComputeSecondHalf7()
    ensures SecondHalf7(Round)
  {
  }

  predicate Rounds7(step: Step) {
    FirstHalf7(step) && SecondHalf7(step)
  }

  lemma Go7(step: Step, regs: nat -> Regs, ks: nat -> Word, words: nat -> Word)
    requires Rounds7(step) && Constants7(ks) && Words7(words) && regs(56) == After56
    requires forall t :: 56 <= t < 64 ==> GoesAt(step, regs, ks, words, t)
    ensures regs(64) == After64
  {
    assert GoesAt(step, regs, ks, words, 56) && GoesAt(step, regs, ks, words, 57);
    assert GoesAt(step, regs, ks, words, 58) && GoesAt(step, regs, ks, words, 59);
    assert GoesAt(step, regs, ks, words, 60) && GoesAt(step, regs, ks, words, 61);
    assert GoesAt(step, regs, ks, words, 62) && GoesAt(step, regs, ks, words, 63);
  }

  predicate Constants(ks: nat -> Word) {
    && Constants0(ks) && Constants1(ks) && Constants2(ks) && Constants3(ks)
    && Constants4(ks) && Constants5(ks) && Constants6(ks) && Constants7(ks)
  }

  lemma KIsConstants()
    ensures Constants(KAt)
  {
    KRows();
    RowAt(0, K0);
    ConstantsAre0(KAt);
    RowAt(8, K1);
    ConstantsAre1(KAt);
    RowAt(16, K2);
    ConstantsAre2(KAt);
    RowAt(24, K3);
    ConstantsAre3(KAt);
    RowAt(32, K4);
    ConstantsAre4(KAt);
    RowAt(40, K5);
    ConstantsAre5(KAt);
    RowAt(48, K6);
    ConstantsAre6(KAt);
    RowAt(56, K7);
    ConstantsAre7(KAt);
  }

  predicate RoundsRow(step: Step, r: nat) {
    match r
    case 0 => Rounds0(step)
    case 1 => Rounds1(step)
    case 2 => Rounds2(step)
    case 3 => Rounds3(step)
    case 4 => Rounds4(step)
    case 5 => Rounds5(step)
    case 6 => Rounds6(step)
    case _ => Rounds7(step)
  }

  predicate AllRounds(step: Step) {
    forall r :: 0 <= r < 8 ==> RoundsRow(step, r)
  }

  lemma RowOf(step: Step, r: nat)
    requires AllRounds(step) && r < 8
    ensures RoundsRow(step, r)
  {
  }

  lemma GoAll(step: Step, regs: nat -> Regs, ks: nat -> Word, words: nat -> Word)
    requires AllRounds(step) && Constants(ks) && Words(words) && regs(0) == After0
    requires forall t :: 0 <= t < 64 ==> GoesAt(step, regs, ks, words, t)
    ensures regs(64) == After64
  {
    RowOf(step, 0);
    Go0(step, regs, ks, words);
    RowOf(step, 1);
    Go1(step, regs, ks, words);
    RowOf(step, 2);
    Go2(step, regs, ks, words);
    RowOf(step, 3);
    Go3(step, regs, ks, words);
    RowOf(step, 4);
    Go4(step, regs, ks, words);
    RowOf(step, 5);
    Go5(step, regs, ks, words);
    RowOf(step, 6);
    Go6(step, regs, ks, words);
    RowOf(step, 7);
    Go7(step, regs, ks, words);
  }

  lemma ComputeAllRounds()
    ensures AllRounds(Round)
  {
    forall r: nat | r < 8 ensures RoundsRow(Round, r) {
      match r {
        case 0 =>
          ComputeFirstHalf0();
          ComputeSecondHalf0();
        case 1 =>
          ComputeFirstHalf1();
          ComputeSecondHalf1();
        case 2 =>
          ComputeFirstHalf2();
          ComputeSecondHalf2();
        case 3 =>
          ComputeFirstHalf3();
          ComputeSecondHalf3();
        case 4 =>
          ComputeFirstHalf4();
          ComputeSecondHalf4();
        case 5 =>
          ComputeFirstHalf5();
          ComputeSecondHalf5();
        case 6 =>
          ComputeFirstHalf6();
          ComputeSecondHalf6();
        case _ =>
          ComputeFirstHalf7();
          ComputeSecondHalf7();
      }
    }
  }

  function RegsAt(b: Block, t: nat): Regs {
    if t <= |K| then Rounds(H0, b, t) else H0
  }

  lemma RoundsGo(b: Block, t: nat)
    requires t < 64
    ensures GoesAt(Round, (i: nat) => RegsAt(b, i), KAt, (i: nat) => W(b, i), t)
  {
  }

  lemma AbcRounds(b: Block, words: nat -> Word)
    requires words == ((i: nat) => W(b, i)) && Words(words)
    ensures Rounds(H0, b, |K|) == After64
  {
    var regs := (i: nat) => RegsAt(b, i);
    RegsGo(b, regs, words);
    ComputeAllRounds();
    KIsConstants();
    GoAll(Round, regs, KAt, words);
    assert regs(64) == RegsAt(b, 64);
  }

  lemma RegsGo(b: Block, regs: nat -> Regs, words: nat -> Word)
    requires regs == ((i: nat) => RegsAt(b, i)) && words == ((i: nat) => W(b, i))
    ensures forall t :: 0 <= t < 64 ==> GoesAt(Round, regs, KAt, words, t)
    ensures regs(0) == H0
  {
    forall t | 0 <= t < 64 ensures GoesAt(Round, regs, KAt, words, t) {
      RoundsGo(b, t);
    }
  }

  /** The hash value of "abc". */
  lemma AbcHash()
    ensures HashBlocks(Compress, Pad(Abc)) ==
      Regs(0xba7816bf, 0x8f01cfea, 0x414140de, 0x5dae2223, 0xb00361a3, 0x96177a9c, 0xb410ff61, 0xf20015ad)
  {
    AbcIsPadded();
    var words := (i: nat) => W(AbcBlock(), i);
    AbcWords(words);
    AbcRounds(AbcBlock(), words);
    OneBlock(Compress, AbcBlock());
  }

  lemma OneBlock(f: Compression, b: Block)
    ensures HashBlocks(f, b) == f(H0, b)
  {
    assert b[..0] == [] && b[0..] == b;
  }
}
