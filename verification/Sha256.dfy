/** The streaming hash of src/sha-256.c: a partial chunk, a rolling 16-word message schedule and a
    one- or two-block finish, proved to compute the FIPS 180-4 digest of everything written. */
module Sha256 {
  import opened BigEndianNumbers
  import opened Bytes
  import opened Numbers
  import opened Sha256Spec

  const CHUNK := 64
  const TOTAL_LEN_LEN := 8

  /** The eight array elements are the eight working variables, in order. */
  ghost predicate Holds(s: seq<Word>, v: Vars) {
    && |s| == 8
    && s[0] == v.a && s[1] == v.b && s[2] == v.c && s[3] == v.d
    && s[4] == v.e && s[5] == v.f && s[6] == v.g && s[7] == v.h
  }

  /** The program adds the four terms of a schedule word in the opposite order to the standard. */
  lemma SumReordered(w16: Word, s0: Word, w7: Word, s1: Word)
    ensures Sum4(w16, s0, w7, s1) == Sum4(s1, w7, s0, w16)
  {
  }

  /** While round i*16 + j is about to run, entry m of the circular schedule is word i*16 + m of the
      full schedule if the pass has already reached it, and still word (i-1)*16 + m otherwise. */
  ghost predicate Rolling(w: seq<Word>, full: seq<Word>, i: nat, j: nat)
    requires |full| == 64 && i < 4 && j <= 16
  {
    && |w| == 16
    && (forall m :: 0 <= m < j ==> w[m] == full[16 * i + m])
    && (i > 0 ==> forall m :: j <= m < 16 ==> w[m] == full[16 * (i - 1) + m])
  }

  /** The four entries the program reads are the four earlier words the recurrence needs. */
  lemma RollingTerms(w: seq<Word>, full: seq<Word>, i: nat, j: nat)
    requires |full| == 64 && 0 < i < 4 && j < 16
    requires Rolling(w, full, i, j)
    ensures var t := 16 * i + j;
            && w[j] == full[t - 16] && w[(j + 1) % 16] == full[t - 15]
            && w[(j + 9) % 16] == full[t - 7] && w[(j + 14) % 16] == full[t - 2]
  {
  }

  /** Writing the next word at position j moves the boundary between the two passes up by one. */
  lemma RollingStep(w: seq<Word>, full: seq<Word>, i: nat, j: nat)
    requires |full| == 64 && i < 4 && j < 16
    requires Rolling(w, full, i, j)
    ensures Rolling(w[j := full[16 * i + j]], full, i, j + 1)
  {
  }

  ghost function FullSchedule(block: seq<Byte>): (full: seq<Word>)
    requires |block| == BLOCK_BYTES
    ensures |full| == 64
  {
    seq(64, t requires 0 <= t < 64 => Schedule(block, t))
  }

  lemma ScheduleStep(block: seq<Byte>, t: nat)
    requires |block| == BLOCK_BYTES && 16 <= t < 64
    ensures var full := FullSchedule(block);
            full[t] == Extend(full[t - 2], full[t - 7], full[t - 15], full[t - 16])
  {
  }

  lemma RoundStep(block: seq<Byte>, start: Vars, t: nat)
    requires |block| == BLOCK_BYTES && t < 64
    ensures Rounds(block, start, t + 1) == Round(Rounds(block, start, t), KAt(t), FullSchedule(block)[t])
  {
  }

  lemma NoRounds(block: seq<Byte>, start: Vars)
    requires |block| == BLOCK_BYTES
    ensures Rounds(block, start, 0) == start
  {
  }

  method ConsumeChunk(h: array<Word>, p: array<Byte>, off: nat, ghost start: Vars)
    requires h.Length == 8 && Holds(h[..], start)
    requires off + CHUNK <= p.Length
    modifies h
    ensures Holds(h[..], Compress(start, p[off..off + CHUNK]))
  {
    hide Rounds, AddVars;
    var ah := new Word[8];
    for i := 0 to 8
      invariant forall m :: 0 <= m < i ==> ah[m] == h[m]
      invariant Holds(h[..], start)
    {
      ah[i] := h[i];
    }
    RunRounds(ah, p, off, p[off..off + CHUNK], start);
    AddInto(h, ah, start, Rounds(p[off..off + CHUNK], start, 64));
  }

  /** The compression function main loop: four passes over a 16-word schedule. */
  method RunRounds(ah: array<Word>, p: array<Byte>, off: nat, ghost block: seq<Byte>, ghost start: Vars)
    requires ah.Length == 8 && Holds(ah[..], start)
    requires off + CHUNK <= p.Length && block == p[off..off + CHUNK]
    modifies ah
    ensures Holds(ah[..], Rounds(block, start, 64))
  {
    NoRounds(block, start);
    hide Rounds, FullSchedule;
    var w := new Word[16];
    for i := 0 to 4
      invariant Holds(ah[..], Rounds(block, start, 16 * i))
      invariant i > 0 ==> Rolling(w[..], FullSchedule(block), i - 1, 16)
    {
      OnePass(ah, w, p, off, i, block, start);
    }
  }

  /** The inner loop: sixteen rounds. */
  method OnePass(ah: array<Word>, w: array<Word>, p: array<Byte>, off: nat, i: nat,
                 ghost block: seq<Byte>, ghost start: Vars)
    requires i < 4 && ah != w && ah.Length == 8 && w.Length == 16
    requires off + CHUNK <= p.Length && block == p[off..off + CHUNK]
    requires Holds(ah[..], Rounds(block, start, 16 * i))
    requires i > 0 ==> Rolling(w[..], FullSchedule(block), i - 1, 16)
    modifies ah, w
    ensures Holds(ah[..], Rounds(block, start, 16 * (i + 1)))
    ensures Rolling(w[..], FullSchedule(block), i, 16)
  {
    hide Rounds, FullSchedule;
    for j := 0 to 16
      invariant Holds(ah[..], Rounds(block, start, 16 * i + j))
      invariant Rolling(w[..], FullSchedule(block), i, j)
    {
      NextWord(w, p, off, i, j, block);
      OneRound(ah, w[j], i * 16 + j, block, start);
    }
  }

  /** The schedule half of the loop body. */
  method NextWord(w: array<Word>, p: array<Byte>, off: nat, i: nat, j: nat, ghost block: seq<Byte>)
    requires i < 4 && j < 16 && w.Length == 16
    requires off + CHUNK <= p.Length && block == p[off..off + CHUNK]
    requires Rolling(w[..], FullSchedule(block), i, j)
    modifies w
    ensures Rolling(w[..], FullSchedule(block), i, j + 1)
  {
    hide SmallSigma0, SmallSigma1, Sum4, WordOf;
    ghost var before, full := w[..], FullSchedule(block);
    RollingStep(before, full, i, j);
    if i == 0 {
      var q := off + 4 * j;
      w[j] := WordOf(p[q], p[q + 1], p[q + 2], p[q + 3]);
      assert w[j] == BlockWord(block, j);
    } else {
      RollingTerms(before, full, i, j);
      ScheduleStep(block, 16 * i + j);
      var s0 := SmallSigma0(w[(j + 1) % 16]);
      var s1 := SmallSigma1(w[(j + 14) % 16]);
      SumReordered(w[j], s0, w[(j + 9) % 16], s1);
      w[j] := Sum4(w[j], s0, w[(j + 9) % 16], s1);
    }
    assert w[..] == before[j := full[16 * i + j]];
  }

  /** The compression half of the loop body. */
  method OneRound(ah: array<Word>, wj: Word, t: nat, ghost block: seq<Byte>, ghost start: Vars)
    requires t < 64 && ah.Length == 8
    requires |block| == BLOCK_BYTES && wj == FullSchedule(block)[t]
    requires Holds(ah[..], Rounds(block, start, t))
    modifies ah
    ensures Holds(ah[..], Rounds(block, start, t + 1))
  {
    RoundStep(block, start, t);
    Update(ah, wj, t, Rounds(block, start, t));
  }

  method Update(ah: array<Word>, wj: Word, t: nat, ghost v: Vars)
    requires t < 64 && ah.Length == 8 && Holds(ah[..], v)
    modifies ah
    ensures Holds(ah[..], Round(v, KAt(t), wj))
  {
    hide BigSigma0, BigSigma1, Ch, Maj, KAt, Word.Plus;
    var s1 := BigSigma1(ah[4]);
    var ch := Ch(ah[4], ah[5], ah[6]);
    var temp1 := ah[7].Plus(s1).Plus(ch).Plus(KAt(t)).Plus(wj);
    var s0 := BigSigma0(ah[0]);
    var maj := Maj(ah[0], ah[1], ah[2]);
    var temp2 := s0.Plus(maj);
    ah[7] := ah[6];
    ah[6] := ah[5];
    ah[5] := ah[4];
    ah[4] := ah[3].Plus(temp1);
    ah[3] := ah[2];
    ah[2] := ah[1];
    ah[1] := ah[0];
    ah[0] := temp1.Plus(temp2);
  }

  method AddInto(h: array<Word>, ah: array<Word>, ghost x: Vars, ghost y: Vars)
    requires h != ah && h.Length == 8 && ah.Length == 8
    requires Holds(h[..], x) && Holds(ah[..], y)
    modifies h
    ensures Holds(h[..], AddVars(x, y))
  {
    hide Word.Plus;
    for i := 0 to 8
      invariant Holds(ah[..], y)
      invariant forall m :: 0 <= m < i ==> h[m] == old(h[m]).Plus(ah[m])
      invariant forall m :: i <= m < 8 ==> h[m] == old(h[m])
    {
      h[i] := h[i].Plus(ah[i]);
    }
  }

  lemma HashBlocksAppend(data: seq<Byte>, block: seq<Byte>)
    requires |data| % BLOCK_BYTES == 0 && |block| == BLOCK_BYTES
    ensures HashBlocks(data + block) == Compress(HashBlocks(data), block)
  {
    assert (data + block)[..|data|] == data;
    assert (data + block)[|data|..] == block;
  }

  /** memcpy between distinct buffers. */
  method Copy(dst: array<Byte>, at: nat, src: array<Byte>, from: nat, n: nat)
    requires dst != src && at + n <= dst.Length && from + n <= src.Length
    modifies dst
    ensures dst[..] == old(dst[..at]) + src[from..from + n] + old(dst[at + n..])
  {
    for i := 0 to n
      invariant dst[..at] == old(dst[..at])
      invariant dst[at..at + i] == src[from..from + i]
      invariant dst[at + i..] == old(dst[at + i..])
    {
      dst[at + i] := src[from + i];
    }
  }

  /** memset to zero. */
  method Clear(dst: array<Byte>, at: nat, n: nat)
    requires at + n <= dst.Length
    modifies dst
    ensures dst[..] == old(dst[..at]) + Zeros(n) + old(dst[at + n..])
  {
    for i := 0 to n
      invariant dst[..at] == old(dst[..at])
      invariant forall m :: at <= m < at + i ==> dst[m] == Byte(0)
      invariant dst[at + i..] == old(dst[at + i..])
    {
      dst[at + i] := Byte(0);
    }
  }

  /** Dropping the low byte commutes with dropping what does not fit. */
  lemma LowDigit(n: nat, p: nat)
    requires p >= 1
    ensures n % (256 * p) % 256 == n % 256
    ensures n % (256 * p) / 256 == n / 256 % p
  {
    var a, b := n / 256, n % 256;
    var q, r := a / p, a % p;
    assert a == q * p + r;
    assert n == q * (256 * p) + (256 * r + b) by {
      assert q * (256 * p) == 256 * (q * p);
    }
    DivModUnique(n, 256 * p, q, 256 * r + b);
    DivModUnique(256 * r + b, 256, r, b);
  }

  /** The bytes of `len << 3` stored from the last position down, the low byte by a shift of three
      and the others from `len >> 5`, are the big-endian bit count modulo 2^64. */
  method StoreBitLength(pos: array<Byte>, at: nat, totalLen: nat)
    requires at + TOTAL_LEN_LEN == pos.Length && totalLen < TWO_64
    modifies pos
    ensures pos[..] == old(pos[..at]) + Be64(8 * totalLen)
  {
    hide BigEndian, Pow256;
    ghost var rest: nat := 8 * totalLen % TWO_64;
    Pow256Of8();
    BigEndianSplit(rest, 8);
    LowDigit(8 * totalLen, Pow256(7));
    var len: nat := totalLen;
    pos[at + 7] := LowByte(len * 8 % TWO_64);
    len := len / 32;
    assert 8 * totalLen / 256 == len;
    rest := rest / 256;
    ghost var done := [pos[at + 7]];
    var i := 7;
    while i > 0
      invariant 0 <= i <= 7 && |done| == 8 - i
      invariant Be64(8 * totalLen) == BigEndian(rest, i) + done
      invariant rest == len % Pow256(i)
      invariant pos[..at] == old(pos[..at])
      invariant pos[at + i..] == done
    {
      i := i - 1;
      Pow256Step(i);
      LowDigit(len, Pow256(i));
      pos[at + i] := LowByte(len);
      BigEndianSplit(rest, i + 1);
      done := [LowByte(rest)] + done;
      len := len / 256;
      rest := rest / 256;
    }
  }

  lemma Pow256Step(k: nat)
    ensures Pow256(k + 1) == 256 * Pow256(k)
  {
  }

  lemma BigEndianSplit(n: nat, width: nat)
    requires width > 0
    ensures BigEndian(n, width) == BigEndian(n / 256, width - 1) + [LowByte(n)]
  {
  }

  method InitialHash(h: array<Word>)
    requires h.Length == 8
    modifies h
    ensures Holds(h[..], H0)
  {
    h[0] := Word(0x6a09e667);
    h[1] := Word(0xbb67ae85);
    h[2] := Word(0x3c6ef372);
    h[3] := Word(0xa54ff53a);
    h[4] := Word(0x510e527f);
    h[5] := Word(0x9b05688c);
    h[6] := Word(0x1f83d9ab);
    h[7] := Word(0x5be0cd19);
  }

  lemma NoBlocks()
    ensures HashBlocks([]) == H0
  {
  }

  /** struct Sha_256. `chunkPos` is the index of the pointer into `chunk`; `written` is the message
      so far, which the structure does not keep. */
  class State {
    var hash: array<Byte>
    const chunk: array<Byte>
    var chunkPos: nat
    var spaceLeft: nat
    var totalLen: nat
    const h: array<Word>
    ghost var written: seq<Byte>

    /** `h` is the hash value of the whole blocks of the message, and the chunk starts with what is
        left over. */
    ghost predicate Buffered()
      reads this, chunk, h
    {
      && chunk.Length == CHUNK && h.Length == 8
      && chunkPos == |written| % CHUNK && spaceLeft == CHUNK - chunkPos
      && Holds(h[..], HashBlocks(written[..|written| - chunkPos]))
      && chunk[..chunkPos] == written[|written| - chunkPos..]
    }

    ghost predicate Valid()
      reads this, chunk, h
    {
      && Buffered()
      && totalLen == |written| % TWO_64
      && hash.Length == 32 && hash != chunk
    }

    constructor Init(hash: array<Byte>)
      requires hash.Length == 32
      ensures Valid() && written == [] && this.hash == hash
      ensures fresh(chunk) && fresh(h)
    {
      hide HashBlocks, H0, Zeros;
      this.hash := hash;
      chunk := new Byte[CHUNK];
      chunkPos := 0;
      spaceLeft := CHUNK;
      totalLen := 0;
      h := new Word[8];
      written := [];
      new;
      InitialHash(h);
      assert written[..|written| - chunkPos] == [];
      NoBlocks();
    }

    method Write(data: array<Byte>, len: nat)
      requires Valid() && len <= data.Length && data != chunk
      modifies this`written, this`chunkPos, this`spaceLeft, this`totalLen, chunk, h
      ensures Valid() && written == old(written) + data[..len]
    {
      hide HashBlocks;
      totalLen := (totalLen + len) % TWO_64;
      LengthAdds(|written|, len);
      var p, left := 0, len;
      while left > 0
        invariant 0 <= p && 0 <= left && p + left == len && Buffered()
        invariant written == old(written) + data[..p]
        invariant totalLen == (|old(written)| + len) % TWO_64
      {
        var n := Absorb(data, p, left);
        Extends(old(written), data[..], p, n);
        left := left - n;
        p := p + n;
      }
    }

    /** The loop body; returns how many bytes it used. */
    method Absorb(data: array<Byte>, p: nat, left: nat) returns (n: nat)
      requires Buffered() && data != chunk && left > 0 && p + left <= data.Length
      modifies this`written, this`chunkPos, this`spaceLeft, chunk, h
      ensures 0 < n <= left && Buffered() && written == old(written) + data[p..p + n]
    {
      hide HashBlocks;
      if spaceLeft == CHUNK && left >= CHUNK {
        WholeBlock(data, p);
        n := CHUNK;
      } else {
        n := if left < spaceLeft then left else spaceLeft;
        Fill(data, p, n);
      }
    }

    /** The fast path: a whole block straight from the input. */
    method WholeBlock(data: array<Byte>, p: nat)
      requires Buffered() && spaceLeft == CHUNK && p + CHUNK <= data.Length
      modifies this`written, h
      ensures Buffered() && spaceLeft == CHUNK && written == old(written) + data[p..p + CHUNK]
    {
      hide HashBlocks, Compress;
      ghost var was := written;
      assert was[..|was|] == was;
      ConsumeChunk(h, data, p, HashBlocks(was));
      HashBlocksAppend(was, data[p..p + CHUNK]);
      written := was + data[p..p + CHUNK];
      assert written[..|written|] == written;
    }

    /** The general case: copy into the chunk, and consume it when it is full. */
    method Fill(data: array<Byte>, p: nat, n: nat)
      requires Buffered() && data != chunk && 0 < n <= spaceLeft && p + n <= data.Length
      modifies this`written, this`chunkPos, this`spaceLeft, chunk, h
      ensures Buffered() && written == old(written) + data[p..p + n]
    {
      hide HashBlocks, Compress;
      ghost var was, pos, part := written, chunkPos, data[p..p + n];
      ghost var whole := was[..|was| - pos];
      Copy(chunk, chunkPos, data, p, n);
      spaceLeft := spaceLeft - n;
      written := was + part;
      assert chunk[..pos + n] == was[|was| - pos..] + part;
      assert written == whole + chunk[..pos + n];
      if spaceLeft == 0 {
        ConsumeChunk(h, chunk, 0, HashBlocks(whole));
        HashBlocksAppend(whole, chunk[..]);
        assert chunk[0..0 + CHUNK] == chunk[..];
        chunkPos := 0;
        spaceLeft := CHUNK;
        assert written[..|written|] == written;
      } else {
        chunkPos := chunkPos + n;
        assert written[..|written| - chunkPos] == whole;
      }
    }

    /** Pads with a one bit, zeros and the bit length, in one block or two as room allows, and
        delivers the digest. The structure must be initialised again before it is used again. */
    method Close() returns (r: array<Byte>)
      requires Valid()
      modifies chunk, h, hash
      ensures r == hash && hash[..] == Digest(written)
    {
      hide HashBlocks, Compress, Output, Be64;
      ghost var rest := written[|written| - chunkPos..];
      ghost var whole := written[..|written| - chunkPos];
      assert written == whole + rest;
      var pos, left := chunkPos, spaceLeft;
      chunk[pos] := Byte(0x80);
      pos := pos + 1;
      left := left - 1;
      ghost var marked := rest + [Byte(0x80)];
      assert chunk[..pos] == marked;
      SameBitLength(|written|);
      if left < TOTAL_LEN_LEN {
        Clear(chunk, pos, left);
        assert chunk[..] == marked + Zeros(left);
        Consume(whole, marked + Zeros(left));
        PadInTwoBlocks(whole, rest);
        assert [] + Zeros(CHUNK - TOTAL_LEN_LEN) == Zeros(CHUNK - TOTAL_LEN_LEN);
        FinishBlock(0, CHUNK, whole + (marked + Zeros(left)), [],
                    Zeros(CHUNK - TOTAL_LEN_LEN) + Be64(8 * totalLen));
      } else {
        PadInOneBlock(whole, rest);
        FinishBlock(pos, left, whole, marked, marked + Zeros(left - TOTAL_LEN_LEN) + Be64(8 * totalLen));
      }
      assert Holds(h[..], HashBlocks(Pad(written)));
      WriteHash(h, hash, HashBlocks(Pad(written)));
      r := hash;
    }

    /** Zeros and the bit length after what the block already holds, and consume it. */
    method FinishBlock(pos: nat, left: nat, ghost whole: seq<Byte>, ghost marked: seq<Byte>, ghost block: seq<Byte>)
      requires chunk.Length == CHUNK && h.Length == 8 && pos + left == CHUNK && left >= TOTAL_LEN_LEN
      requires |whole| % BLOCK_BYTES == 0 && Holds(h[..], HashBlocks(whole))
      requires chunk[..pos] == marked && totalLen < TWO_64
      requires block == marked + Zeros(left - TOTAL_LEN_LEN) + Be64(8 * totalLen)
      modifies chunk, h
      ensures Holds(h[..], HashBlocks(whole + block))
    {
      hide HashBlocks, Be64, Holds;
      var zeros := left - TOTAL_LEN_LEN;
      Clear(chunk, pos, zeros);
      assert chunk[..pos + zeros] == marked + Zeros(zeros);
      StoreBitLength(chunk, pos + zeros, totalLen);
      Consume(whole, block);
    }

    /** consume_chunk on the chunk buffer, as one more block of `whole`. */
    method Consume(ghost whole: seq<Byte>, ghost block: seq<Byte>)
      requires chunk.Length == CHUNK && h.Length == 8 && block == chunk[..]
      requires |whole| % BLOCK_BYTES == 0 && Holds(h[..], HashBlocks(whole))
      modifies h
      ensures Holds(h[..], HashBlocks(whole + block))
    {
      hide HashBlocks, Compress, Holds;
      assert chunk[0..0 + CHUNK] == block;
      ConsumeChunk(h, chunk, 0, HashBlocks(whole));
      HashBlocksAppend(whole, block);
    }
  }

  /** No room for the length: the marker and zeros fill this block, and the next is zeros and the length. */
  lemma PadInTwoBlocks(whole: seq<Byte>, rest: seq<Byte>)
    requires |whole| % CHUNK == 0 && CHUNK - TOTAL_LEN_LEN <= |rest| < CHUNK
    ensures var msg := whole + rest; var left := CHUNK - |rest| - 1;
            Pad(msg) == whole + (rest + [Byte(0x80)] + Zeros(left)) + (Zeros(CHUNK - TOTAL_LEN_LEN) + Be64(8 * |msg|))
  {
    hide Be64;
    var msg, left := whole + rest, CHUNK - |rest| - 1;
    assert ZeroCount(|msg|) == left + (CHUNK - TOTAL_LEN_LEN);
    assert Zeros(ZeroCount(|msg|)) == Zeros(left) + Zeros(CHUNK - TOTAL_LEN_LEN);
  }

  lemma PadInOneBlock(whole: seq<Byte>, rest: seq<Byte>)
    requires |whole| % CHUNK == 0 && |rest| < CHUNK - TOTAL_LEN_LEN
    ensures var msg := whole + rest; var left := CHUNK - |rest| - 1;
            Pad(msg) == whole + (rest + [Byte(0x80)] + Zeros(left - TOTAL_LEN_LEN) + Be64(8 * |msg|))
  {
    hide Be64;
    var msg, left := whole + rest, CHUNK - |rest| - 1;
    assert ZeroCount(|msg|) == left - TOTAL_LEN_LEN;
  }

  lemma SameBitLength(n: nat)
    ensures Be64(8 * (n % TWO_64)) == Be64(8 * n)
  {
    assert 8 * (n % TWO_64) % TWO_64 == 8 * n % TWO_64;
  }

  /** The final value, big-endian. */
  method WriteHash(h: array<Word>, hash: array<Byte>, ghost v: Vars)
    requires h.Length == 8 && hash.Length == 32 && Holds(h[..], v)
    modifies hash
    ensures hash[..] == Output(v)
  {
    hide WordByte;
    var j := 0;
    for i := 0 to 8
      invariant j == 4 * i && hash[..j] == BytesOf(h[..i])
    {
      hash[j] := WordByte(h[i], 0);
      hash[j + 1] := WordByte(h[i], 1);
      hash[j + 2] := WordByte(h[i], 2);
      hash[j + 3] := WordByte(h[i], 3);
      j := j + 4;
      assert h[..i + 1][..i] == h[..i];
    }
    assert h[..8] == [v.a, v.b, v.c, v.d, v.e, v.f, v.g, v.h];
    assert hash[..32] == hash[..];
  }

  lemma Extends(msg: seq<Byte>, data: seq<Byte>, p: nat, n: nat)
    requires p + n <= |data|
    ensures msg + data[..p] + data[p..p + n] == msg + data[..p + n]
  {
    assert data[..p] + data[p..p + n] == data[..p + n];
  }

  lemma LengthAdds(n: nat, len: nat)
    ensures (n % TWO_64 + len) % TWO_64 == (n + len) % TWO_64
  {
  }

  method CalcSha256(hash: array<Byte>, input: array<Byte>, len: nat)
    requires hash.Length == 32 && len <= input.Length
    modifies hash
    ensures hash[..] == Digest(old(input[..len]))
  {
    var sha := new State.Init(hash);
    assert [] + input[..len] == input[..len];
    sha.Write(input, len);
    var _ := sha.Close();
  }

  /** The message formed by successive writes. */
  ghost function Concat(parts: seq<seq<Byte>>): seq<Byte> {
    if |parts| == 0 then [] else Concat(parts[..|parts| - 1]) + parts[|parts| - 1]
  }

  /** What the object file reader hashes for one line: address and opcode, two bytes each, low first. */
  function LineBytes(addr: nat, opcode: nat): (s: seq<Byte>)
    ensures |s| == 4
  {
    [LowByte(addr), LowByte(addr / 256), LowByte(opcode), LowByte(opcode / 256)]
  }

  method HashLine(sha: State, addr: nat, opcode: nat)
    requires sha.Valid()
    modifies sha`written, sha`chunkPos, sha`spaceLeft, sha`totalLen, sha.chunk, sha.h
    ensures sha.Valid() && sha.written == old(sha.written) + LineBytes(addr, opcode)
  {
    hide State.Buffered;
    var buf := new Byte[4];
    buf[0] := LowByte(addr);
    buf[1] := LowByte(addr / 256);
    buf[2] := LowByte(opcode);
    buf[3] := LowByte(opcode / 256);
    assert buf[..4] == LineBytes(addr, opcode);
    sha.Write(buf, 4);
  }

  ghost function LineParts(lines: seq<(nat, nat)>): (parts: seq<seq<Byte>>)
    ensures |parts| == |lines|
  {
    seq(|lines|, i requires 0 <= i < |lines| => LineBytes(lines[i].0, lines[i].1))
  }

  lemma OnePartMore(lines: seq<(nat, nat)>, n: nat)
    requires n < |lines|
    ensures Concat(LineParts(lines)[..n + 1]) == Concat(LineParts(lines)[..n]) + LineBytes(lines[n].0, lines[n].1)
  {
    var parts := LineParts(lines);
    assert parts[..n + 1][..n] == parts[..n];
  }

  /** The hash of an object file: one init, one four-byte write for each accepted line, one close. */
  method ObjectFileHash(lines: seq<(nat, nat)>) returns (hash: array<Byte>)
    ensures hash[..] == Digest(Concat(LineParts(lines)))
  {
    hide State.Buffered, LineParts, LineBytes, Digest;
    ghost var parts := LineParts(lines);
    hash := new Byte[32];
    var sha := new State.Init(hash);
    for n := 0 to |lines|
      invariant sha.Valid() && fresh(sha) && fresh(sha.chunk) && fresh(sha.h)
      invariant sha.hash == hash && sha.written == Concat(parts[..n])
    {
      HashLine(sha, lines[n].0, lines[n].1);
      OnePartMore(lines, n);
    }
    assert parts[..|lines|] == parts;
    var _ := sha.Close();
  }
}
