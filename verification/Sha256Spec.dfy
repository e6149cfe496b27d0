/** SHA-256 as FIPS 180-4 states it: the functions of section 4.1.2, the padding of section 5.1.1,
    the initial value of section 5.3.3 and the computation of section 6.2.2 with its full
    64-entry message schedule. Nothing here knows how the program stores or splits its input. */
module Sha256Spec {
  import opened BigEndianNumbers
  import opened Bytes

  datatype Word = Word(bits: bv32) {
    function Plus(y: Word): Word { Word(bits + y.bits) }

    function Xor(y: Word): Word { Word(bits ^ y.bits) }

    function And(y: Word): Word { Word(bits & y.bits) }

    function Not(): Word { Word(!bits) }

    function ShR(n: bv6): Word
      requires n < 32
    {
      Word(bits >> n)
    }

    function RotR(n: bv6): Word
      requires 0 < n < 32
    {
      Word((bits >> n) | (bits << (32 - n)))
    }
  }

  const BLOCK_BYTES := 64

  /** The eight words of a hash value, which are also the working variables of the rounds. */
  datatype Vars = Vars(a: Word, b: Word, c: Word, d: Word, e: Word, f: Word, g: Word, h: Word)

  function Ch(x: Word, y: Word, z: Word): Word {
    x.And(y).Xor(x.Not().And(z))
  }

  function Maj(x: Word, y: Word, z: Word): Word {
    x.And(y).Xor(x.And(z)).Xor(y.And(z))
  }

  function BigSigma0(x: Word): Word {
    x.RotR(2).Xor(x.RotR(13)).Xor(x.RotR(22))
  }

  function BigSigma1(x: Word): Word {
    x.RotR(6).Xor(x.RotR(11)).Xor(x.RotR(25))
  }

  function SmallSigma0(x: Word): Word {
    x.RotR(7).Xor(x.RotR(18)).Xor(x.ShR(3))
  }

  function SmallSigma1(x: Word): Word {
    x.RotR(17).Xor(x.RotR(19)).Xor(x.ShR(10))
  }

  function Entry(i: nat, k0: bv32, k1: bv32, k2: bv32, k3: bv32, k4: bv32, k5: bv32, k6: bv32, k7: bv32): bv32 {
    match i case 0 => k0 case 1 => k1 case 2 => k2 case 3 => k3 case 4 => k4 case 5 => k5 case 6 => k6 case _ => k7
  }

  /** The table of round constants. Where they come from is stated in `Sha256Constants`. */
  function K(t: nat): bv32 {
    match t / 8
    case 0 =>
      Entry(t % 8, 0x428a2f98, 0x71374491, 0xb5c0fbcf, 0xe9b5dba5, 0x3956c25b, 0x59f111f1, 0x923f82a4, 0xab1c5ed5)
    case 1 =>
      Entry(t % 8, 0xd807aa98, 0x12835b01, 0x243185be, 0x550c7dc3, 0x72be5d74, 0x80deb1fe, 0x9bdc06a7, 0xc19bf174)
    case 2 =>
      Entry(t % 8, 0xe49b69c1, 0xefbe4786, 0x0fc19dc6, 0x240ca1cc, 0x2de92c6f, 0x4a7484aa, 0x5cb0a9dc, 0x76f988da)
    case 3 =>
      Entry(t % 8, 0x983e5152, 0xa831c66d, 0xb00327c8, 0xbf597fc7, 0xc6e00bf3, 0xd5a79147, 0x06ca6351, 0x14292967)
    case 4 =>
      Entry(t % 8, 0x27b70a85, 0x2e1b2138, 0x4d2c6dfc, 0x53380d13, 0x650a7354, 0x766a0abb, 0x81c2c92e, 0x92722c85)
    case 5 =>
      Entry(t % 8, 0xa2bfe8a1, 0xa81a664b, 0xc24b8b70, 0xc76c51a3, 0xd192e819, 0xd6990624, 0xf40e3585, 0x106aa070)
    case 6 =>
      Entry(t % 8, 0x19a4c116, 0x1e376c08, 0x2748774c, 0x34b0bcb5, 0x391c0cb3, 0x4ed8aa4a, 0x5b9cca4f, 0x682e6ff3)
    case _ =>
      Entry(t % 8, 0x748f82ee, 0x78a5636f, 0x84c87814, 0x8cc70208, 0x90befffa, 0xa4506ceb, 0xbef9a3f7, 0xc67178f2)
  }

  /** Section 5.3.3. */
  const H0: Vars := Vars(
    Word(0x6a09e667), Word(0xbb67ae85), Word(0x3c6ef372), Word(0xa54ff53a),
    Word(0x510e527f), Word(0x9b05688c), Word(0x1f83d9ab), Word(0x5be0cd19))

  function KAt(t: nat): Word
    requires t < 64
  {
    Word(K(t))
  }

  /** The 32-bit word whose big-endian bytes are given. */
  function WordOf(b0: Byte, b1: Byte, b2: Byte, b3: Byte): Word {
    Word(((b0.Bits() as bv32) << 24) | ((b1.Bits() as bv32) << 16) | ((b2.Bits() as bv32) << 8) | (b3.Bits() as bv32))
  }

  function BlockWord(block: seq<Byte>, t: nat): Word
    requires |block| == BLOCK_BYTES && t < 16
  {
    WordOf(block[4 * t], block[4 * t + 1], block[4 * t + 2], block[4 * t + 3])
  }

  /** Section 6.2.2 step 1: the 64-entry message schedule. */
  function Schedule(block: seq<Byte>, t: nat): Word
    requires |block| == BLOCK_BYTES && t < 64
  {
    if t < 16 then BlockWord(block, t)
    else Extend(Schedule(block, t - 2), Schedule(block, t - 7), Schedule(block, t - 15), Schedule(block, t - 16))
  }

  /** Addition modulo 2^32. */
  function Sum4(p: Word, q: Word, r: Word, s: Word): Word {
    Word(p.bits + q.bits + r.bits + s.bits)
  }

  function Extend(w2: Word, w7: Word, w15: Word, w16: Word): Word {
    Sum4(SmallSigma1(w2), w7, SmallSigma0(w15), w16)
  }

  /** Section 6.2.2 step 3, one value of t. */
  function Round(v: Vars, k: Word, w: Word): Vars {
    var t1 := v.h.Plus(BigSigma1(v.e)).Plus(Ch(v.e, v.f, v.g)).Plus(k).Plus(w);
    var t2 := BigSigma0(v.a).Plus(Maj(v.a, v.b, v.c));
    Vars(t1.Plus(t2), v.a, v.b, v.c, v.d.Plus(t1), v.e, v.f, v.g)
  }

  function Rounds(block: seq<Byte>, start: Vars, t: nat): Vars
    requires |block| == BLOCK_BYTES && t <= 64
  {
    if t == 0 then start else Round(Rounds(block, start, t - 1), KAt(t - 1), Schedule(block, t - 1))
  }

  function AddVars(x: Vars, y: Vars): Vars {
    Vars(x.a.Plus(y.a), x.b.Plus(y.b), x.c.Plus(y.c), x.d.Plus(y.d),
         x.e.Plus(y.e), x.f.Plus(y.f), x.g.Plus(y.g), x.h.Plus(y.h))
  }

  /** Section 6.2.2 steps 2 to 4: the next intermediate hash value. */
  function Compress(start: Vars, block: seq<Byte>): Vars
    requires |block| == BLOCK_BYTES
  {
    AddVars(start, Rounds(block, start, 64))
  }

  /** The hash value after all the blocks of `data`, whose length is a multiple of the block size. */
  function HashBlocks(data: seq<Byte>): Vars
    requires |data| % BLOCK_BYTES == 0
  {
    if |data| == 0 then H0
    else
      var n := |data| - BLOCK_BYTES;
      Compress(HashBlocks(data[..n]), data[n..])
  }

  function Zeros(n: nat): (s: seq<Byte>)
    ensures |s| == n
  {
    seq(n, _ => Byte(0))
  }

  /** Section 5.1.1: the number of zero bytes between the marker and the length. */
  function ZeroCount(len: nat): (k: nat)
    ensures (len + 1 + k + 8) % BLOCK_BYTES == 0 && k < BLOCK_BYTES
  {
    (119 - len % BLOCK_BYTES) % BLOCK_BYTES
  }

  /** Section 5.1.1: a one bit, the least number of zero bits, and the bit length in 64 bits. The
      standard defines it for messages of fewer than 2^64 bits; beyond that the length field here
      holds the bit length modulo 2^64. */
  function Pad(msg: seq<Byte>): (p: seq<Byte>)
    ensures |p| % BLOCK_BYTES == 0
  {
    msg + [Byte(0x80)] + Zeros(ZeroCount(|msg|)) + Be64(8 * |msg|)
  }

  /** The word shifted so that its byte k, the most significant being byte 0, comes last. */
  function Shifted(w: Word, k: nat): bv32
    requires k < 4
  {
    match k
    case 0 => w.bits >> 24
    case 1 => w.bits >> 16
    case 2 => w.bits >> 8
    case _ => w.bits
  }

  /** Byte k of the word. */
  function WordByte(w: Word, k: nat): Byte
    requires k < 4
  {
    LowBits(Shifted(w, k))
  }

  function WordBytes(w: Word): (s: seq<Byte>)
    ensures |s| == 4
  {
    [WordByte(w, 0), WordByte(w, 1), WordByte(w, 2), WordByte(w, 3)]
  }

  function BytesOf(ws: seq<Word>): (s: seq<Byte>)
    ensures |s| == 4 * |ws|
  {
    if |ws| == 0 then [] else BytesOf(ws[..|ws| - 1]) + WordBytes(ws[|ws| - 1])
  }

  function Output(v: Vars): (s: seq<Byte>)
    ensures |s| == 32
  {
    BytesOf([v.a, v.b, v.c, v.d, v.e, v.f, v.g, v.h])
  }

  /** Section 6.2: the message digest. */
  function Digest(msg: seq<Byte>): (s: seq<Byte>)
    ensures |s| == 32
  {
    Output(HashBlocks(Pad(msg)))
  }

  // ---------- properties of the encodings ----------

  /** The length field of the padding says how many bits the message has, whenever 64 bits can. */
  lemma PadLengthField(msg: seq<Byte>)
    requires 8 * |msg| < TWO_64
    ensures FromBigEndian(Pad(msg)[|Pad(msg)| - 8..]) == 8 * |msg|
  {
    var front := msg + [Byte(0x80)] + Zeros(ZeroCount(|msg|));
    var tail := Be64(8 * |msg|);
    assert (front + tail)[|front|..] == tail;
    Be64Value(8 * |msg|);
  }

  /** Padding loses nothing: two messages that the standard admits have the same padding only if
      they are the same message. */
  lemma PadInjective(m1: seq<Byte>, m2: seq<Byte>)
    requires 8 * |m1| < TWO_64 && 8 * |m2| < TWO_64
    requires Pad(m1) == Pad(m2)
    ensures m1 == m2
  {
    PadLengthField(m1);
    PadLengthField(m2);
    assert m1 == Pad(m1)[..|m1|];
    assert m2 == Pad(m2)[..|m2|];
  }

  lemma WordByteBits(w: Word, k: nat)
    requires k < 4
    ensures WordByte(w, k).Bits() as bv32 == Shifted(w, k) & 0xff
  {
    LowBitsBack(Shifted(w, k));
    hide Shifted, LowBits, Byte.Bits;
  }

  lemma Reassembled(w: Word)
    ensures w.bits == ((Shifted(w, 0) & 0xff) << 24) | ((Shifted(w, 1) & 0xff) << 16)
                      | ((Shifted(w, 2) & 0xff) << 8) | (Shifted(w, 3) & 0xff)
  {
  }

  /** Reading back four output bytes gives the word they came from. */
  lemma WordBytesRoundTrip(w: Word)
    ensures var s := WordBytes(w); WordOf(s[0], s[1], s[2], s[3]) == w
  {
    WordByteBits(w, 0);
    WordByteBits(w, 1);
    WordByteBits(w, 2);
    WordByteBits(w, 3);
    Reassembled(w);
    hide WordByte, Shifted, Byte.Bits;
  }
}
