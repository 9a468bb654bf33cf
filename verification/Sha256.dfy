/** The hash of FIPS 180-4, section 6.2, for messages of whole bytes, and the streaming form that
    sha256.c computes.

    The streaming form keeps the bytes of the unfinished block and the hash value of the blocks
    before it; `Holds` says so of any message. */
module Sha256Spec {
  import opened Basics

  type Byte = bv8
  type Word = bv32

  // ---------- section 4: functions and constants ----------

  function Rotr(x: Word, n: bv6): Word
    requires 0 < n < 32
  {
    (x >> n) | (x << (32 - n))
  }

  /** Addition modulo 2^32. */
  function Add(x: Word, y: Word): Word { x + y }

  function Ch(x: Word, y: Word, z: Word): Word { (x & y) ^ (!x & z) }

  function Maj(x: Word, y: Word, z: Word): Word { (x & y) ^ (x & z) ^ (y & z) }

  function BigSigma0(x: Word): Word { Rotr(x, 2) ^ Rotr(x, 13) ^ Rotr(x, 22) }

  function BigSigma1(x: Word): Word { Rotr(x, 6) ^ Rotr(x, 11) ^ Rotr(x, 25) }

  function Sigma0(x: Word): Word { Rotr(x, 7) ^ Rotr(x, 18) ^ (x >> 3) }

  function Sigma1(x: Word): Word { Rotr(x, 17) ^ Rotr(x, 19) ^ (x >> 10) }

  // The constants of section 4.2.2, in rows.
  const K0: seq<Word> := [0x428a2f98, 0x71374491, 0xb5c0fbcf, 0xe9b5dba5, 0x3956c25b, 0x59f111f1, 0x923f82a4, 0xab1c5ed5]
  const K1: seq<Word> := [0xd807aa98, 0x12835b01, 0x243185be, 0x550c7dc3, 0x72be5d74, 0x80deb1fe, 0x9bdc06a7, 0xc19bf174]
  const K2: seq<Word> := [0xe49b69c1, 0xefbe4786, 0x0fc19dc6, 0x240ca1cc, 0x2de92c6f, 0x4a7484aa, 0x5cb0a9dc, 0x76f988da]
  const K3: seq<Word> := [0x983e5152, 0xa831c66d, 0xb00327c8, 0xbf597fc7, 0xc6e00bf3, 0xd5a79147, 0x06ca6351, 0x14292967]
  const K4: seq<Word> := [0x27b70a85, 0x2e1b2138, 0x4d2c6dfc, 0x53380d13, 0x650a7354, 0x766a0abb, 0x81c2c92e, 0x92722c85]
  const K5: seq<Word> := [0xa2bfe8a1, 0xa81a664b, 0xc24b8b70, 0xc76c51a3, 0xd192e819, 0xd6990624, 0xf40e3585, 0x106aa070]
  const K6: seq<Word> := [0x19a4c116, 0x1e376c08, 0x2748774c, 0x34b0bcb5, 0x391c0cb3, 0x4ed8aa4a, 0x5b9cca4f, 0x682e6ff3]
  const K7: seq<Word> := [0x748f82ee, 0x78a5636f, 0x84c87814, 0x8cc70208, 0x90befffa, 0xa4506ceb, 0xbef9a3f7, 0xc67178f2]

  const K: seq<Word> := K0 + K1 + K2 + K3 + K4 + K5 + K6 + K7

  /** The working variables, and the hash value (section 5.3.3 gives its first value). */
  datatype Regs = Regs(a: Word, b: Word, c: Word, d: Word, e: Word, f: Word, g: Word, h: Word)

  const H0 := Regs(0x6a09e667, 0xbb67ae85, 0x3c6ef372, 0xa54ff53a, 0x510e527f, 0x9b05688c, 0x1f83d9ab, 0x5be0cd19)

  // ---------- section 6.2.2: one block ----------

  type Block = b: seq<Byte> | |b| == 64 witness seq(64, i => 0)

  function WordAt(b0: Byte, b1: Byte, b2: Byte, b3: Byte): Word {
    ((b0 as bv32) << 24) | ((b1 as bv32) << 16) | ((b2 as bv32) << 8) | (b3 as bv32)
  }

  function Schedule(w2: Word, w7: Word, w15: Word, w16: Word): Word {
    Add(Add(Add(Sigma1(w2), w7), Sigma0(w15)), w16)
  }

  /** The message schedule. */
  function W(block: Block, t: nat): Word {
    if t < 16 then WordAt(block[4 * t], block[4 * t + 1], block[4 * t + 2], block[4 * t + 3])
    else Schedule(W(block, t - 2), W(block, t - 7), W(block, t - 15), W(block, t - 16))
  }

  function T1(e: Word, f: Word, g: Word, h: Word, k: Word, w: Word): Word {
    Add(Add(Add(Add(h, BigSigma1(e)), Ch(e, f, g)), k), w)
  }

  function T2(a: Word, b: Word, c: Word): Word {
    Add(BigSigma0(a), Maj(a, b, c))
  }

  function Round(r: Regs, k: Word, w: Word): Regs {
    var t1 := T1(r.e, r.f, r.g, r.h, k, w);
    var t2 := T2(r.a, r.b, r.c);
    Regs(Add(t1, t2), r.a, r.b, r.c, Add(r.d, t1), r.e, r.f, r.g)
  }

  /** The working variables after the first `t` rounds. */
  function Rounds(r: Regs, block: Block, t: nat): Regs
    requires t <= |K|
  {
    if t == 0 then r else Round(Rounds(r, block, t - 1), K[t - 1], W(block, t - 1))
  }

  function Compress(h: Regs, block: Block): Regs {
    Sum(h, Rounds(h, block, |K|))
  }

  function Sum(h: Regs, r: Regs): Regs {
    Regs(Add(h.a, r.a), Add(h.b, r.b), Add(h.c, r.c), Add(h.d, r.d),
         Add(h.e, r.e), Add(h.f, r.f), Add(h.g, r.g), Add(h.h, r.h))
  }

  // ---------- sections 5.1.1 and 6.2: padding, blocks, digest ----------

  function Zeros(n: nat): seq<Byte> {
    seq(n, i => 0 as Byte)
  }

  function Pow256(n: nat): (r: nat)
    ensures 0 < r
  {
    if n == 0 then 1 else 256 * Pow256(n - 1)
  }

  const TwoTo64: nat := 0x1_0000_0000_0000_0000

  /** The 64-bit length field: most significant byte first.  FIPS 180-4 defines the hash for
      messages below 2^64 bits; for a longer one the field wraps around. */
  function LengthField(bits: nat): (r: seq<Byte>)
    ensures |r| == 8
  {
    seq(8, i requires 0 <= i < 8 => ShiftedByte(bits % TwoTo64, 7 - i))
  }

  /** The low byte of `n` shifted right by `i` bytes. */
  function ShiftedByte(n: nat, i: nat): Byte {
    (n / Pow256(i) % 256) as Byte
  }

  /** The eight bytes are the digits of the length to the base 256, the most significant one first. */
  lemma LengthFieldIs(bits: nat)
    ensures var n, f := bits % 0x1_0000_0000_0000_0000, LengthField(bits);
      && f[0] == (n / 0x100_0000_0000_0000 % 256) as Byte && f[1] == (n / 0x1_0000_0000_0000 % 256) as Byte
      && f[2] == (n / 0x100_0000_0000 % 256) as Byte && f[3] == (n / 0x1_0000_0000 % 256) as Byte
      && f[4] == (n / 0x100_0000 % 256) as Byte && f[5] == (n / 0x1_0000 % 256) as Byte
      && f[6] == (n / 0x100 % 256) as Byte && f[7] == (n % 256) as Byte
  {
    assert Pow256(0) == 1 && Pow256(1) == 0x100 && Pow256(2) == 0x1_0000 && Pow256(3) == 0x100_0000;
    assert Pow256(4) == 0x1_0000_0000 && Pow256(5) == 0x100_0000_0000 && Pow256(6) == 0x1_0000_0000_0000;
    assert Pow256(7) == 0x100_0000_0000_0000;
    var n := bits % TwoTo64;
    ByteIs(n, 7, 0x100_0000_0000_0000);
    ByteIs(n, 6, 0x1_0000_0000_0000);
    ByteIs(n, 5, 0x100_0000_0000);
    ByteIs(n, 4, 0x1_0000_0000);
    ByteIs(n, 3, 0x100_0000);
    ByteIs(n, 2, 0x1_0000);
    ByteIs(n, 1, 0x100);
    ByteIs(n, 0, 1);
    FieldIs(bits);
  }

  lemma FieldIs(bits: nat)
    ensures forall i :: 0 <= i < 8 ==> LengthField(bits)[i] == ShiftedByte(bits % TwoTo64, 7 - i)
  {
  }

  lemma ByteIs(n: nat, i: nat, d: nat)
    requires d == Pow256(i)
    ensures ShiftedByte(n, i) == (n / d % 256) as Byte
  {
  }

  /** The least number of zero bytes that leaves room for exactly the length in the last block. */
  function ZeroCount(length: nat): (k: nat)
    ensures (length + k + 9) % 64 == 0 && k < 64
  {
    (119 - length % 64) % 64
  }

  function Pad(message: seq<Byte>): (r: seq<Byte>)
    ensures |r| % 64 == 0
  {
    message + [0x80] + Zeros(ZeroCount(|message|)) + LengthField(8 * |message|)
  }

  /** Blocks are chained the same way whatever function compresses them. */
  type Compression = (Regs, Block) -> Regs

  /** The hash value after all the blocks of `padded`. */
  function HashBlocks(f: Compression, padded: seq<Byte>): Regs
    requires |padded| % 64 == 0
  {
    if padded == [] then H0
    else f(HashBlocks(f, padded[..|padded| - 64]), padded[|padded| - 64..])
  }

  /** Byte `i` of a word, the most significant one first. */
  function ByteOf(w: Word, i: nat): Byte
    requires i < 4
  {
    ((w >> (24 - 8 * i)) & 0xff) as Byte
  }

  function Register(r: Regs, j: nat): Word
    requires j < 8
  {
    match j
    case 0 => r.a case 1 => r.b case 2 => r.c case 3 => r.d
    case 4 => r.e case 5 => r.f case 6 => r.g case 7 => r.h
  }

  /** The eight words of the hash value, each most significant byte first. */
  function DigestOf(r: Regs): seq<Byte> {
    seq(32, n requires 0 <= n < 32 => ByteOf(Register(r, n / 4), n % 4))
  }

  function Sha256(message: seq<Byte>): seq<Byte> {
    DigestOf(HashBlocks(Compress, Pad(message)))
  }

  const HexDigits: string := "0123456789abcdef"

  function HexOf(bytes: seq<Byte>): (r: string)
    ensures |r| == 2 * |bytes|
  {
    if bytes == [] then ""
    else
      var n := bytes[|bytes| - 1] as int;
      HexOf(bytes[..|bytes| - 1]) + [HexDigits[n / 16], HexDigits[n % 16]]
  }

  /** A byte is two lower-case digits, the high one first. */
  lemma {:induction false} HexIsLower(bytes: seq<Byte>, i: nat)
    requires i < |bytes|
    ensures HexOf(bytes)[2 * i] == LowerDigit(bytes[i] as int / 16) && HexOf(bytes)[2 * i + 1] == LowerDigit(bytes[i] as int % 16)
  {
    if i < |bytes| - 1 {
      HexIsLower(bytes[..|bytes| - 1], i);
    } else {
      DigitIsLower(bytes[i] as int / 16);
      DigitIsLower(bytes[i] as int % 16);
    }
  }

  lemma DigitIsLower(n: int)
    requires 0 <= n < 16
    ensures HexDigits[n] == LowerDigit(n)
  {
  }

  function LowerDigit(n: int): char
    requires 0 <= n < 16
  {
    if n < 10 then (n + '0' as int) as char else (n - 10 + 'a' as int) as char
  }

  // ---------- the streaming form ----------

  /** What a context holds between calls. */
  datatype Stream = Stream(state: Regs, data: seq<Byte>, bitlen: nat)

  const Fresh := Stream(H0, [], 0)

  function Absorb(f: Compression, s: Stream, byte: Byte): Stream
    requires |s.data| < 64
  {
    if |s.data| + 1 < 64 then s.(data := s.data + [byte])
    else Stream(f(s.state, s.data + [byte]), [], (s.bitlen + 512) % TwoTo64)
  }

  function AbsorbAll(f: Compression, s: Stream, bytes: seq<Byte>): (r: Stream)
    requires |s.data| < 64
    ensures |r.data| < 64
  {
    if bytes == [] then s else Absorb(f, AbsorbAll(f, s, bytes[..|bytes| - 1]), bytes[|bytes| - 1])
  }

  /** The hash value just before the last block: the kept bytes may need a block of their own. */
  function BeforeLast(f: Compression, s: Stream): Regs
    requires |s.data| < 64
  {
    if |s.data| < 56 then s.state else f(s.state, s.data + [0x80] + Zeros(63 - |s.data|))
  }

  /** The last block up to the length. */
  function LastPart(s: Stream): (r: seq<Byte>)
    requires |s.data| < 64
    ensures |r| == 56
  {
    if |s.data| < 56 then s.data + [0x80] + Zeros(55 - |s.data|) else Zeros(56)
  }

  function LastBlock(s: Stream): Block
    requires |s.data| < 64
  {
    LastPart(s) + LengthField(s.bitlen + 8 * |s.data|)
  }

  function Finish(f: Compression, s: Stream): Regs
    requires |s.data| < 64
  {
    f(BeforeLast(f, s), LastBlock(s))
  }

  function DigestOfStream(s: Stream): seq<Byte>
    requires |s.data| < 64
  {
    DigestOf(Finish(Compress, s))
  }

  /** One update call a chunk. */
  function AbsorbChunks(f: Compression, s: Stream, chunks: seq<seq<Byte>>): (r: Stream)
    requires |s.data| < 64
    ensures |r.data| < 64
    decreases |chunks|
  {
    if chunks == [] then s else AbsorbChunks(f, AbsorbAll(f, s, chunks[0]), chunks[1..])
  }

  function Flatten(chunks: seq<seq<Byte>>): seq<Byte> {
    if chunks == [] then [] else chunks[0] + Flatten(chunks[1..])
  }

  /** The stream after `message`: fewer than 64 bytes are kept, the whole blocks before them are
      hashed and counted. */
  predicate Holds(f: Compression, s: Stream, message: seq<Byte>) {
    var full := |message| - |s.data|;
    && |s.data| < 64 && 0 <= full && full % 64 == 0
    && s.state == HashBlocks(f, message[..full]) && s.data == message[full..] && s.bitlen == 8 * full % TwoTo64
  }

  lemma ModAdds(x: nat, y: nat)
    ensures (x % TwoTo64 + y) % TwoTo64 == (x + y) % TwoTo64
  {
  }

  lemma AbsorbHolds(f: Compression, s: Stream, message: seq<Byte>, byte: Byte)
    requires Holds(f, s, message)
    ensures Holds(f, Absorb(f, s, byte), message + [byte])
  {
    var full := |message| - |s.data|;
    var longer := message + [byte];
    assert longer[..full] == message[..full] && longer[full..] == s.data + [byte];
    if |s.data| + 1 == 64 {
      BlockFilled(f, s, message[..full], s.data + [byte]);
      assert longer[..|longer|] == longer && longer == message[..full] + (s.data + [byte]);
    }
  }

  lemma {:induction false} BlockFilled(f: Compression, s: Stream, front: seq<Byte>, block: Block)
    requires |front| % 64 == 0 && s.state == HashBlocks(f, front) && s.bitlen == 8 * |front| % TwoTo64
    ensures |front + block| % 64 == 0 && f(s.state, block) == HashBlocks(f, front + block)
    ensures (s.bitlen + 512) % TwoTo64 == 8 * |front + block| % TwoTo64
  {
    NextBlock(|front|);
    HashOneMore(f, front, block);
    CountBlock(|front|, s.bitlen);
  }

  lemma CountBlock(n: nat, bitlen: nat)
    requires bitlen == 8 * n % TwoTo64
    ensures (bitlen + 512) % TwoTo64 == 8 * (n + 64) % TwoTo64
  {
    ModAdds(8 * n, 512);
  }

  lemma {:induction false} AbsorbAllHolds(f: Compression, s: Stream, message: seq<Byte>, bytes: seq<Byte>)
    requires Holds(f, s, message)
    ensures Holds(f, AbsorbAll(f, s, bytes), message + bytes)
  {
    if bytes == [] {
      assert message + bytes == message;
    } else {
      var init, last := bytes[..|bytes| - 1], bytes[|bytes| - 1];
      AbsorbAllHolds(f, s, message, init);
      AbsorbHolds(f, AbsorbAll(f, s, init), message + init, last);
      Regroup(message, init, [last]);
      assert bytes == init + [last];
    }
  }

  lemma {:induction false} AbsorbChunksHolds(f: Compression, s: Stream, message: seq<Byte>, chunks: seq<seq<Byte>>)
    requires Holds(f, s, message)
    ensures Holds(f, AbsorbChunks(f, s, chunks), message + Flatten(chunks))
    decreases |chunks|
  {
    if chunks == [] {
      assert message + Flatten(chunks) == message;
    } else {
      AbsorbAllHolds(f, s, message, chunks[0]);
      AbsorbChunksHolds(f, AbsorbAll(f, s, chunks[0]), message + chunks[0], chunks[1..]);
      Regroup(message, chunks[0], Flatten(chunks[1..]));
    }
  }

  lemma HashOneMore(f: Compression, front: seq<Byte>, block: Block)
    requires |front| % 64 == 0
    ensures HashBlocks(f, front + block) == f(HashBlocks(f, front), block)
  {
    var all := front + block;
    assert all[..|all| - 64] == front && all[|all| - 64..] == block;
  }

  lemma LengthWraps(x: nat, wrapped: nat, y: nat)
    requires wrapped == x % TwoTo64
    ensures LengthField(wrapped + y) == LengthField(x + y)
  {
    ModAdds(x, y);
  }

  lemma LengthByte(bits: nat)
    requires bits < TwoTo64
    ensures forall i :: 0 <= i < 8 ==> LengthField(bits)[i] == ShiftedByte(bits, 7 - i)
  {
  }

  lemma Assoc(a: seq<Byte>, b: seq<Byte>, c: seq<Byte>, d: seq<Byte>, e: seq<Byte>)
    ensures a + b + c + d + e == a + (b + c + d + e)
  {
  }

  /** What follows the whole blocks of a message when it is padded. */
  function Tail(data: seq<Byte>, bits: nat): seq<Byte>
    requires |data| < 64
  {
    data + [0x80] + Zeros(if |data| < 56 then 55 - |data| else 119 - |data|) + LengthField(bits)
  }

  lemma PadSplits(front: seq<Byte>, data: seq<Byte>)
    requires |front| % 64 == 0 && |data| < 64
    ensures Pad(front + data) == front + Tail(data, 8 * |front| + 8 * |data|)
  {
    var message := front + data;
    var k := if |data| < 56 then 55 - |data| else 119 - |data|;
    assert ZeroCount(|message|) == k;
    Assoc(front, data, [0x80], Zeros(k), LengthField(8 * |message|));
  }

  /** The bit count of the stream may have wrapped; the length field is the same. */
  lemma TailWraps(data: seq<Byte>, bits: nat, wrapped: nat)
    requires |data| < 64 && wrapped == bits % TwoTo64
    ensures Tail(data, wrapped + 8 * |data|) == Tail(data, bits + 8 * |data|)
  {
    LengthWraps(bits, wrapped, 8 * |data|);
  }

  lemma TwoBlocks(tail: seq<Byte>, k: nat, length: seq<Byte>)
    ensures tail + [0x80] + Zeros(k + 56) + length == (tail + [0x80] + Zeros(k)) + (Zeros(56) + length)
    ensures |length| == 8 && |tail| + k == 63 ==> |tail + [0x80] + Zeros(k)| == 64 && |Zeros(56) + length| == 64
  {
    assert Zeros(k) + Zeros(56) == Zeros(k + 56);
  }

  lemma HashTwoMore(f: Compression, front: seq<Byte>, first: Block, last: Block)
    requires |front| % 64 == 0
    ensures |front + (first + last)| % 64 == 0
    ensures HashBlocks(f, front + (first + last)) == f(f(HashBlocks(f, front), first), last)
  {
    assert front + (first + last) == front + first + last;
    HashOneMore(f, front, first);
    NextBlock(|front|);
    HashOneMore(f, front + first, last);
    NextBlock(|front + first|);
  }

  lemma NextBlock(n: nat)
    requires n % 64 == 0
    ensures (n + 64) % 64 == 0
  {
  }

  /** The one or two blocks `Finish` builds are the last blocks of the padded message. */
  lemma {:induction false} FinishPads(f: Compression, s: Stream, message: seq<Byte>)
    requires Holds(f, s, message)
    ensures Finish(f, s) == HashBlocks(f, Pad(message))
  {
    var front := message[..|message| - |s.data|];
    assert message == front + s.data;
    PadIs(front, s.data, s.bitlen);
    FinishBlocks(f, front, s, Pad(message));
  }

  lemma PadIs(front: seq<Byte>, data: seq<Byte>, bitlen: nat)
    requires |front| % 64 == 0 && |data| < 64 && bitlen == 8 * |front| % TwoTo64
    ensures Pad(front + data) == front + Tail(data, bitlen + 8 * |data|)
  {
    PadSplits(front, data);
    TailWraps(data, 8 * |front|, bitlen);
  }

  lemma {:induction false} FinishBlocks(f: Compression, front: seq<Byte>, s: Stream, padded: seq<Byte>)
    requires |front| % 64 == 0 && |s.data| < 64 && s.state == HashBlocks(f, front)
    requires padded == front + Tail(s.data, s.bitlen + 8 * |s.data|)
    ensures |padded| % 64 == 0 && Finish(f, s) == HashBlocks(f, padded)
  {
    if |s.data| < 56 {
      FinishOne(f, front, s, padded);
    } else {
      FinishTwo(f, front, s, padded);
    }
  }

  lemma FinishOne(f: Compression, front: seq<Byte>, s: Stream, padded: seq<Byte>)
    requires |front| % 64 == 0 && |s.data| < 56 && s.state == HashBlocks(f, front)
    requires padded == front + Tail(s.data, s.bitlen + 8 * |s.data|)
    ensures |padded| % 64 == 0 && Finish(f, s) == HashBlocks(f, padded)
  {
    var last: Block := s.data + [0x80] + Zeros(55 - |s.data|) + LengthField(s.bitlen + 8 * |s.data|);
    assert padded == front + last;
    NextBlock(|front|);
    HashOneMore(f, front, last);
    FinishIsOne(f, s, last);
  }

  lemma FinishIsOne(f: Compression, s: Stream, last: Block)
    requires |s.data| < 56 && last == s.data + [0x80] + Zeros(55 - |s.data|) + LengthField(s.bitlen + 8 * |s.data|)
    ensures Finish(f, s) == f(s.state, last)
  {
  }

  lemma FinishTwo(f: Compression, front: seq<Byte>, s: Stream, padded: seq<Byte>)
    requires |front| % 64 == 0 && 56 <= |s.data| < 64 && s.state == HashBlocks(f, front)
    requires padded == front + Tail(s.data, s.bitlen + 8 * |s.data|)
    ensures |padded| % 64 == 0 && Finish(f, s) == HashBlocks(f, padded)
  {
    var length := LengthField(s.bitlen + 8 * |s.data|);
    TwoBlocks(s.data, 63 - |s.data|, length);
    var first: Block, last: Block := s.data + [0x80] + Zeros(63 - |s.data|), Zeros(56) + length;
    HashTwoMore(f, front, first, last);
    FinishIs(f, s, first, last);
    assert Tail(s.data, s.bitlen + 8 * |s.data|) == first + last;
  }

  lemma FinishIs(f: Compression, s: Stream, first: Block, last: Block)
    requires 56 <= |s.data| < 64 && first == s.data + [0x80] + Zeros(63 - |s.data|)
    requires last == Zeros(56) + LengthField(s.bitlen + 8 * |s.data|)
    ensures Finish(f, s) == f(f(s.state, first), last)
  {
  }

  /** For every message and every way of splitting it into update calls, the streaming form
      gives the digest of FIPS 180-4. */
  lemma StreamingIsSha256(chunks: seq<seq<Byte>>)
    ensures DigestOfStream(AbsorbChunks(Compress, Fresh, chunks)) == Sha256(Flatten(chunks))
  {
    StreamingPads(Compress, chunks);
  }

  lemma FreshHolds(f: Compression)
    ensures Holds(f, Fresh, [])
  {
  }

  lemma {:induction false} StreamingPads(f: Compression, chunks: seq<seq<Byte>>)
    ensures Finish(f, AbsorbChunks(f, Fresh, chunks)) == HashBlocks(f, Pad(Flatten(chunks)))
  {
    FreshHolds(f);
    AbsorbChunksHolds(f, Fresh, [], chunks);
    assert [] + Flatten(chunks) == Flatten(chunks);
    FinishPads(f, AbsorbChunks(f, Fresh, chunks), Flatten(chunks));
  }

  /** Reading a word from its bytes and writing it out again are inverse to each other. */
  lemma WordsAndBytes(w: Word, b0: Byte, b1: Byte, b2: Byte, b3: Byte)
    ensures WordAt(ByteOf(w, 0), ByteOf(w, 1), ByteOf(w, 2), ByteOf(w, 3)) == w
    ensures var v := WordAt(b0, b1, b2, b3);
      ByteOf(v, 0) == b0 && ByteOf(v, 1) == b1 && ByteOf(v, 2) == b2 && ByteOf(v, 3) == b3
  {
    WordOfBytes(w);
    BytesOfWord(b0, b1, b2, b3);
  }

  lemma DigestWord(r: Regs, i: nat, j: nat)
    requires i < 4 && j < 8
    ensures DigestOf(r)[i + 4 * j] == ByteOf(Register(r, j), i)
  {
    assert (i + 4 * j) / 4 == j && (i + 4 * j) % 4 == i;
  }

  lemma FourBytes(w: Word, b0: Byte, b1: Byte, b2: Byte, b3: Byte)
    requires b0 == ByteOf(w, 0) && b1 == ByteOf(w, 1) && b2 == ByteOf(w, 2) && b3 == ByteOf(w, 3)
    ensures WordAt(b0, b1, b2, b3) == w
  {
    WordOfBytes(w);
  }

  lemma DigestRow(r: Regs, d: seq<Byte>, j: nat, w: Word)
    requires d == DigestOf(r) && j < 8 && w == Register(r, j)
    ensures d[4 * j + 0] == ByteOf(w, 0) && d[4 * j + 1] == ByteOf(w, 1) && d[4 * j + 2] == ByteOf(w, 2) && d[4 * j + 3] == ByteOf(w, 3)
  {
    DigestAt(r, d, 0, j, w);
    DigestAt(r, d, 1, j, w);
    DigestAt(r, d, 2, j, w);
    DigestAt(r, d, 3, j, w);
  }

  lemma DigestAt(r: Regs, d: seq<Byte>, i: nat, j: nat, w: Word)
    requires d == DigestOf(r) && i < 4 && j < 8 && w == Register(r, j)
    ensures d[4 * j + i] == ByteOf(w, i)
  {
    DigestWord(r, i, j);
  }

  /** Four bytes of the digest are one word of the hash value. */
  lemma DigestIsWords(r: Regs, d: seq<Byte>, j: nat)
    requires d == DigestOf(r) && j < 8
    ensures WordAt(d[4 * j], d[4 * j + 1], d[4 * j + 2], d[4 * j + 3]) == Register(r, j)
  {
    DigestRow(r, d, j, Register(r, j));
    FourBytes(Register(r, j), d[4 * j], d[4 * j + 1], d[4 * j + 2], d[4 * j + 3]);
  }

  lemma WordOfBytes(w: Word)
    ensures WordAt(ByteOf(w, 0), ByteOf(w, 1), ByteOf(w, 2), ByteOf(w, 3)) == w
  {
    ByteWidens(w, 0);
    ByteWidens(w, 1);
    ByteWidens(w, 2);
    ByteWidens(w, 3);
  }

  lemma ByteWidens(w: Word, i: nat)
    requires i < 4
    ensures ByteOf(w, i) as bv32 == (w >> (24 - 8 * i)) & 0xff
  {
  }

  lemma BytesOfWord(b0: Byte, b1: Byte, b2: Byte, b3: Byte)
    ensures var v := WordAt(b0, b1, b2, b3);
      ByteOf(v, 0) == b0 && ByteOf(v, 1) == b1 && ByteOf(v, 2) == b2 && ByteOf(v, 3) == b3
  {
  }
}

/** sha256.c: the context is updated in place, byte by byte. */
module Sha256 {
  import opened Sha256Spec

  class Context {
    const data: array<Byte>
    const state: array<Word>
    var datalen: nat
    var bitlen: nat

    ghost predicate Valid()
      reads this
    {
      data.Length == 64 && state.Length == 8 && datalen < 64
    }

    ghost function Registers(): Regs
      requires state.Length == 8
      reads state
    {
      Regs(state[0], state[1], state[2], state[3], state[4], state[5], state[6], state[7])
    }

    ghost function View(): Stream
      requires Valid()
      reads this, data, state
    {
      Stream(Registers(), data[..datalen], bitlen)
    }

    /** Allocation and sha256_init. */
    constructor ()
      ensures Valid() && fresh(data) && fresh(state) && View() == Fresh
    {
      data := new Byte[64];
      state := new Word[8];
      datalen, bitlen := 0, 0;
      new;
      state[0], state[1], state[2], state[3] := 0x6a09e667, 0xbb67ae85, 0x3c6ef372, 0xa54ff53a;
      state[4], state[5], state[6], state[7] := 0x510e527f, 0x9b05688c, 0x1f83d9ab, 0x5be0cd19;
    }

    method Transform()
      requires data.Length == 64 && state.Length == 8
      modifies state
      ensures Registers() == Compress(old(Registers()), data[..])
    {
      ghost var block: Block := data[..];
      var m := ExpandBlock();
      var a, b, c, d := state[0], state[1], state[2], state[3];
      var e, f, g, h := state[4], state[5], state[6], state[7];
      for i := 0 to 64
        invariant Regs(a, b, c, d, e, f, g, h) == Rounds(Registers(), block, i)
      {
        var t1 := T1(e, f, g, h, K[i], m[i]);
        var t2 := T2(a, b, c);
        h := g;
        g := f;
        f := e;
        e := Add(d, t1);
        d := c;
        c := b;
        b := a;
        a := Add(t1, t2);
      }
      AddToState(Regs(a, b, c, d, e, f, g, h));
    }

    method ExpandBlock() returns (m: array<Word>)
      requires data.Length == 64
      ensures fresh(m) && m.Length == 64
      ensures forall k :: 0 <= k < 64 ==> m[k] == W(data[..], k)
    {
      ghost var block: Block := data[..];
      m := new Word[64];
      for i := 0 to 16
        invariant forall k :: 0 <= k < i ==> m[k] == W(block, k)
      {
        m[i] := WordAt(data[4 * i], data[4 * i + 1], data[4 * i + 2], data[4 * i + 3]);
      }
      for i := 16 to 64
        invariant forall k :: 0 <= k < i ==> m[k] == W(block, k)
      {
        ExpandWord(m, i, block);
      }
    }

    method ExpandWord(m: array<Word>, i: nat, ghost block: Block)
      requires m.Length == 64 && 16 <= i < 64 && forall k :: 0 <= k < i ==> m[k] == W(block, k)
      modifies m
      ensures forall k :: 0 <= k <= i ==> m[k] == W(block, k)
    {
      m[i] := Schedule(m[i - 2], m[i - 7], m[i - 15], m[i - 16]);
    }

    method AddToState(r: Regs)
      requires state.Length == 8
      modifies state
      ensures Registers() == Sum(old(Registers()), r)
    {
      state[0] := Add(state[0], r.a);
      state[1] := Add(state[1], r.b);
      state[2] := Add(state[2], r.c);
      state[3] := Add(state[3], r.d);
      state[4] := Add(state[4], r.e);
      state[5] := Add(state[5], r.f);
      state[6] := Add(state[6], r.g);
      state[7] := Add(state[7], r.h);
    }

    method AddByte(byte: Byte)
      requires Valid()
      modifies this, data, state
      ensures Valid() && View() == Absorb(Compress, old(View()), byte)
    {
      ghost var before := View();
      data[datalen] := byte;
      datalen := datalen + 1;
      assert data[..datalen] == before.data + [byte];
      if datalen == 64 {
        assert data[..] == before.data + [byte];
        Transform();
        bitlen := (bitlen + 512) % TwoTo64;
        datalen := 0;
      }
    }

    method Update(bytes: array<Byte>)
      requires Valid() && bytes != data
      modifies this, data, state
      ensures Valid() && View() == AbsorbAll(Compress, old(View()), bytes[..])
    {
      for i := 0 to bytes.Length
        invariant Valid()
        invariant View() == AbsorbAll(Compress, old(View()), bytes[..i])
      {
        assert bytes[..i + 1][..i] == bytes[..i];
        AddByte(bytes[i]);
      }
      assert bytes[..bytes.Length] == bytes[..];
    }

    /** sha256_final: pad in place, append the length, and write the digest out. */
    method Final(hash: array<Byte>)
      requires Valid() && hash.Length == 32 && hash != data
      modifies this, data, state, hash
      ensures hash[..] == DigestOfStream(old(View()))
    {
      ghost var s := View();
      FillLastBlock();
      Transform();
      WriteDigest(hash);
    }

    /** The padding and the length: what `Finish` compresses last is in `data`. */
    method FillLastBlock()
      requires Valid()
      modifies this, data, state
      ensures Registers() == BeforeLast(Compress, old(View())) && data[..] == LastBlock(old(View()))
    {
      ghost var bits := bitlen + 8 * datalen;
      PadBlock();
      bitlen := (bitlen + 8 * datalen) % TwoTo64;
      LengthWraps(bits, bitlen, 0);
      StoreLength();
      assert data[..] == data[..56] + LengthField(bits);
    }

    /** Make room for the length, compressing a block if there is none left in this one. */
    method PadBlock()
      requires Valid()
      modifies data, state
      ensures Registers() == BeforeLast(Compress, old(View())) && data[..56] == LastPart(old(View()))
    {
      if datalen < 56 {
        PadTo(56);
      } else {
        PadTo(64);
        assert data[..] == data[..64];
        Transform();
        for i := 0 to 56
          modifies data
          invariant data[..i] == Zeros(i)
        {
          data[i] := 0;
        }
      }
    }

    /** A one bit, and zeros up to `end`. */
    method PadTo(end: nat)
      requires Valid() && datalen < end <= 64
      modifies data
      ensures data[..end] == old(data[..datalen]) + [0x80] + Zeros(end - datalen - 1)
    {
      ghost var kept := data[..datalen];
      var i := datalen;
      data[i] := 0x80;
      i := i + 1;
      assert data[..i] == kept + [0x80] + Zeros(0);
      while i < end
        invariant datalen < i <= end
        invariant data[..i] == kept + [0x80] + Zeros(i - datalen - 1)
      {
        data[i] := 0;
        i := i + 1;
        assert Zeros(i - datalen - 1) == Zeros(i - datalen - 2) + [0];
      }
    }

    method StoreLength()
      requires data.Length == 64 && bitlen < TwoTo64
      modifies data
      ensures data[..56] == old(data[..56]) && data[56..] == LengthField(bitlen)
    {
      ghost var length := LengthField(bitlen);
      LengthByte(bitlen);
      data[63] := ShiftedByte(bitlen, 0);
      data[62] := ShiftedByte(bitlen, 1);
      data[61] := ShiftedByte(bitlen, 2);
      data[60] := ShiftedByte(bitlen, 3);
      data[59] := ShiftedByte(bitlen, 4);
      data[58] := ShiftedByte(bitlen, 5);
      data[57] := ShiftedByte(bitlen, 6);
      data[56] := ShiftedByte(bitlen, 7);
      assert forall i :: 0 <= i < 8 ==> data[56 + i] == length[i];
    }

    method WriteDigest(hash: array<Byte>)
      requires state.Length == 8 && hash.Length == 32
      modifies hash
      ensures hash[..] == DigestOf(Registers())
    {
      ghost var before := hash[..];
      for i := 0 to 4
        invariant hash[..] == Columns(before, Registers(), i)
      {
        WriteColumn(hash, i);
      }
      ColumnsAreDigest(before, Registers());
    }

    /** Byte `i` of every word. */
    method WriteColumn(hash: array<Byte>, i: nat)
      requires state.Length == 8 && hash.Length == 32 && i < 4
      modifies hash
      ensures hash[..] == Column(old(hash[..]), Registers(), i)
    {
      hash[i] := ByteOf(state[0], i);
      hash[i + 4] := ByteOf(state[1], i);
      hash[i + 8] := ByteOf(state[2], i);
      hash[i + 12] := ByteOf(state[3], i);
      hash[i + 16] := ByteOf(state[4], i);
      hash[i + 20] := ByteOf(state[5], i);
      hash[i + 24] := ByteOf(state[6], i);
      hash[i + 28] := ByteOf(state[7], i);
    }
  }

  function Column(s: seq<Byte>, r: Regs, i: nat): (s': seq<Byte>)
    requires |s| == 32 && i < 4
    ensures |s'| == 32
  {
    Spread(s, seq(8, j requires 0 <= j < 8 => ByteOf(Register(r, j), i)), i)
  }

  /** One byte of every word. */
  function Spread(s: seq<Byte>, b: seq<Byte>, i: nat): (s': seq<Byte>)
    requires |s| == 32 && |b| == 8 && i < 4
    ensures |s'| == 32
  {
    s[i := b[0]][i + 4 := b[1]][i + 8 := b[2]][i + 12 := b[3]][i + 16 := b[4]][i + 20 := b[5]][i + 24 := b[6]][i + 28 := b[7]]
  }

  function Columns(s: seq<Byte>, r: Regs, n: nat): (s': seq<Byte>)
    requires |s| == 32 && n <= 4
    ensures |s'| == 32
  {
    if n == 0 then s else Column(Columns(s, r, n - 1), r, n - 1)
  }

  /** Column `i` fills the positions that are `i` modulo 4, and no others. */
  lemma ColumnAt(s: seq<Byte>, r: Regs, i: nat, p: nat)
    requires |s| == 32 && i < 4 && p < 32
    ensures Column(s, r, i)[p] == if p % 4 == i then DigestOf(r)[p] else s[p]
  {
    if p % 4 == i {
      assert p == i + 4 * (p / 4);
      ColumnHit(s, r, i, p / 4);
      DigestWord(r, i, p / 4);
    } else {
      ColumnMiss(s, r, i, p);
    }
  }

  lemma ColumnHit(s: seq<Byte>, r: Regs, i: nat, j: nat)
    requires |s| == 32 && i < 4 && j < 8
    ensures Column(s, r, i)[i + 4 * j] == ByteOf(Register(r, j), i)
  {
    SpreadHit(s, seq(8, j requires 0 <= j < 8 => ByteOf(Register(r, j), i)), i, j);
  }

  lemma SpreadHit(s: seq<Byte>, b: seq<Byte>, i: nat, j: nat)
    requires |s| == 32 && |b| == 8 && i < 4 && j < 8
    ensures Spread(s, b, i)[i + 4 * j] == b[j]
  {
    if j == 0 {} else if j == 1 {} else if j == 2 {} else if j == 3 {} else if j == 4 {} else if j == 5 {} else if j == 6 {} else {}
  }

  lemma ColumnMiss(s: seq<Byte>, r: Regs, i: nat, p: nat)
    requires |s| == 32 && i < 4 && p < 32 && p % 4 != i
    ensures Column(s, r, i)[p] == s[p]
  {
    assert p != i && p != i + 4 && p != i + 8 && p != i + 12;
    assert p != i + 16 && p != i + 20 && p != i + 24 && p != i + 28;
  }

  lemma {:induction false} ColumnsAt(s: seq<Byte>, r: Regs, n: nat, p: nat)
    requires |s| == 32 && n <= 4 && p < 32
    ensures Columns(s, r, n)[p] == if p % 4 < n then DigestOf(r)[p] else s[p]
  {
    if n > 0 {
      ColumnsAt(s, r, n - 1, p);
      ColumnAt(Columns(s, r, n - 1), r, n - 1, p);
    }
  }

  lemma ColumnsAreDigest(s: seq<Byte>, r: Regs)
    requires |s| == 32
    ensures Columns(s, r, 4) == DigestOf(r)
  {
    forall p | 0 <= p < 32 ensures Columns(s, r, 4)[p] == DigestOf(r)[p] {
      ColumnsAt(s, r, 4, p);
    }
  }

  /** init and one update with the whole message. */
  method AbsorbMessage(bytes: array<Byte>) returns (context: Context)
    ensures fresh(context) && fresh(context.data) && fresh(context.state) && context.Valid()
    ensures context.View() == AbsorbAll(Compress, Fresh, bytes[..])
  {
    context := new Context();
    context.Update(bytes);
    assert unchanged(bytes);
  }

  method HashBytes(bytes: array<Byte>) returns (hash: array<Byte>)
    ensures hash.Length == 32 && fresh(hash)
    ensures hash[..] == DigestOfStream(AbsorbAll(Compress, Fresh, bytes[..]))
  {
    var context := AbsorbMessage(bytes);
    ghost var s := context.View();
    hash := new Byte[32];
    assert context.View() == s;
    context.Final(hash);
    assert unchanged(bytes);
  }

  lemma {:induction false} OneUpdate(f: Compression, message: seq<Byte>)
    ensures Finish(f, AbsorbAll(f, Fresh, message)) == HashBlocks(f, Pad(message))
  {
    AbsorbAllFresh(f, message);
    FinishPads(f, AbsorbAll(f, Fresh, message), message);
  }

  lemma {:induction false} AbsorbAllFresh(f: Compression, message: seq<Byte>)
    ensures Holds(f, AbsorbAll(f, Fresh, message), message)
  {
    FreshHolds(f);
    AbsorbAllHolds(f, Fresh, [], message);
    assert [] + message == message;
  }

  /** sha256_hash_data: the digest as lower-case hexadecimal text. */
  method HashData(bytes: array<Byte>) returns (hex: string)
    ensures hex == HexOf(Sha256Spec.Sha256(bytes[..]))
  {
    var hash := HashBytes(bytes);
    OneUpdate(Compress, bytes[..]);
    hex := ToHex(hash);
  }

  method ToHex(hash: array<Byte>) returns (hex: string)
    ensures hex == HexOf(hash[..])
  {
    hex := "";
    for i := 0 to hash.Length
      invariant hex == HexOf(hash[..i])
    {
      var n := hash[i] as int;
      assert hash[..i + 1][..i] == hash[..i];
      hex := hex + [HexDigits[n / 16], HexDigits[n % 16]];
    }
    assert hash[..hash.Length] == hash[..];
  }
}
