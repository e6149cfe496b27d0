/** The packed page images of MOD files, unpacked by src/modutil.c and by the loader in src/proc.c,
    and the page checksum of src/modutil.c. */
module PageFormat {
  import opened Numbers

  import opened Bytes
  type RomWord = w: int | 0 <= w < 1024

  const IMAGE_BYTES := 5120
  const PAGE_WORDS := 4096

  // ---------- unpacking ----------

  /** The number whose base-256 digits are the bytes, low digit first. */
  function BytesNumber(bytes: seq<Octet>): nat {
    if |bytes| == 0 then 0 else bytes[0] + 256 * BytesNumber(bytes[1..])
  }

  /** The number whose base-1024 digits are the words, low digit first. */
  function WordsNumber(words: seq<RomWord>): nat {
    if |words| == 0 then 0 else words[0] + 1024 * WordsNumber(words[1..])
  }

  /** Four words from five bytes, with the masks and shifts of the source. */
  function FourWords(b0: Octet, b1: Octet, b2: Octet, b3: Octet, b4: Octet): (w: seq<RomWord>)
    ensures |w| == 4
  {
    [b1 % 4 * 256 + b0, b2 % 16 * 64 + b1 / 4, b3 % 64 * 16 + b2 / 16, b4 * 4 + b3 / 64]
  }

  function Unpacked(bytes: seq<Octet>): (w: seq<RomWord>)
    requires |bytes| % 5 == 0
    ensures 5 * |w| == 4 * |bytes|
  {
    if |bytes| == 0 then [] else FourWords(bytes[0], bytes[1], bytes[2], bytes[3], bytes[4]) + Unpacked(bytes[5..])
  }

  lemma FiveBytes(bytes: seq<Octet>)
    requires |bytes| >= 5
    ensures BytesNumber(bytes) == bytes[0] + 0x100 * bytes[1] + 0x1_0000 * bytes[2] + 0x100_0000 * bytes[3]
                                  + 0x1_0000_0000 * bytes[4] + 0x100_0000_0000 * BytesNumber(bytes[5..])
  {
    assert bytes[1..][1..] == bytes[2..] && bytes[2..][1..] == bytes[3..] && bytes[3..][1..] == bytes[4..]
           && bytes[4..][1..] == bytes[5..];
    assert BytesNumber(bytes[4..]) == bytes[4] + 256 * BytesNumber(bytes[5..]);
    assert BytesNumber(bytes[3..]) == bytes[3] + 256 * BytesNumber(bytes[4..]);
    assert BytesNumber(bytes[2..]) == bytes[2] + 256 * BytesNumber(bytes[3..]);
  }

  lemma FourDigits(words: seq<RomWord>, rest: seq<RomWord>)
    requires |words| == 4
    ensures WordsNumber(words + rest) == words[0] + 0x400 * words[1] + 0x10_0000 * words[2] + 0x4000_0000 * words[3]
                                         + 0x100_0000_0000 * WordsNumber(rest)
  {
    var all := words + rest;
    assert all[1..][1..] == all[2..] && all[2..][1..] == all[3..] && all[3..][1..] == rest;
    assert WordsNumber(all[3..]) == words[3] + 1024 * WordsNumber(rest);
    assert WordsNumber(all[2..]) == words[2] + 1024 * WordsNumber(all[3..]);
  }

  /** Unpacking changes the radix, not the number. */
  lemma {:induction false} RadixIdentity(bytes: seq<Octet>)
    requires |bytes| % 5 == 0
    ensures WordsNumber(Unpacked(bytes)) == BytesNumber(bytes)
  {
    if |bytes| > 0 {
      RadixIdentity(bytes[5..]);
      FiveBytes(bytes);
      FourDigits(FourWords(bytes[0], bytes[1], bytes[2], bytes[3], bytes[4]), Unpacked(bytes[5..]));
    }
  }

  lemma {:induction false} BytesNumberInjective(a: seq<Octet>, b: seq<Octet>)
    requires |a| == |b| && BytesNumber(a) == BytesNumber(b)
    ensures a == b
  {
    if |a| > 0 {
      assert a[0] == b[0];
      BytesNumberInjective(a[1..], b[1..]);
      assert a == [a[0]] + a[1..] && b == [b[0]] + b[1..];
    }
  }

  /** No two images unpack to the same page. */
  lemma UnpackedInjective(a: seq<Octet>, b: seq<Octet>)
    requires |a| == |b| && |a| % 5 == 0 && Unpacked(a) == Unpacked(b)
    ensures a == b
  {
    RadixIdentity(a);
    RadixIdentity(b);
    BytesNumberInjective(a, b);
  }

  lemma {:induction false} UnpackedAppend(bytes: seq<Octet>, five: seq<Octet>)
    requires |bytes| % 5 == 0 && |five| == 5
    ensures Unpacked(bytes + five) == Unpacked(bytes) + FourWords(five[0], five[1], five[2], five[3], five[4])
  {
    if |bytes| == 0 {
      assert bytes + five == five;
      assert five[5..] == [];
    } else {
      assert (bytes + five)[5..] == bytes[5..] + five;
      UnpackedAppend(bytes[5..], five);
    }
  }

  /** Five more bytes of the image, four more words. */
  lemma UnpackedNext(bytes: seq<Octet>, i: nat)
    requires i % 5 == 0 && i + 5 <= |bytes|
    ensures Unpacked(bytes[..i + 5])
            == Unpacked(bytes[..i]) + FourWords(bytes[i], bytes[i + 1], bytes[i + 2], bytes[i + 3], bytes[i + 4])
  {
    UnpackedAppend(bytes[..i], bytes[i..i + 5]);
    assert bytes[..i + 5] == bytes[..i] + bytes[i..i + 5];
  }

  /** unpack_image. */
  method UnpackImage(rom: array<RomWord>, bin: array<Octet>)
    requires rom.Length == PAGE_WORDS && bin.Length == IMAGE_BYTES
    modifies rom
    ensures rom[..] == Unpacked(bin[..])
  {
    ghost var image := bin[..];
    var ptr := 0;
    var i := 0;
    while i < IMAGE_BYTES
      invariant 0 <= i <= IMAGE_BYTES && i % 5 == 0 && 5 * ptr == 4 * i
      invariant rom[..ptr] == Unpacked(image[..i])
    {
      hide Unpacked;
      UnpackGroup(rom, ptr, bin, i);
      UnpackedNext(image, i);
      ptr := ptr + 4;
      i := i + 5;
    }
    assert image[..IMAGE_BYTES] == image && rom[..PAGE_WORDS] == rom[..];
  }

  /** The loop body. */
  method UnpackGroup(rom: array<RomWord>, ptr: nat, bin: array<Octet>, i: nat)
    requires ptr + 4 <= rom.Length && i + 5 <= bin.Length
    modifies rom
    ensures rom[..ptr + 4] == old(rom[..ptr]) + FourWords(bin[i], bin[i + 1], bin[i + 2], bin[i + 3], bin[i + 4])
  {
    var b0: int, b1: int, b2: int, b3: int, b4: int := bin[i], bin[i + 1], bin[i + 2], bin[i + 3], bin[i + 4];
    rom[ptr] := b1 % 4 * 256 + b0;
    rom[ptr + 1] := b2 % 16 * 64 + b1 / 4;
    rom[ptr + 2] := b3 % 64 * 16 + b2 / 16;
    rom[ptr + 3] := b4 * 4 + b3 / 64;
  }

  /** sim_load_mod1_rom_word: refused at an address outside the program memory. */
  method LoadWord(memory: array<RomWord>, addr: nat, data: RomWord) returns (ok: bool)
    modifies memory
    ensures ok == (addr < memory.Length)
    ensures memory[..] == if ok then old(memory[..])[addr := data] else old(memory[..])
  {
    ok := addr < memory.Length;
    if ok {
      memory[addr] := data;
    }
  }

  /** The four loads of one turn of the loop, stopping at the first that is refused. */
  method LoadFour(memory: array<RomWord>, addr: nat, data: seq<RomWord>) returns (ok: bool)
    requires |data| == 4
    modifies memory
    ensures ok == (addr + 4 <= memory.Length)
    ensures ok ==> memory[..] == old(memory[..addr]) + data + old(memory[addr + 4..])
  {
    for j := 0 to 4
      invariant j > 0 ==> addr + j <= memory.Length
      invariant addr + j <= memory.Length ==> memory[..] == old(memory[..addr]) + data[..j] + old(memory[addr + j..])
    {
      ok := LoadWord(memory, addr + j, data[j]);
      if !ok {
        return;
      }
    }
    ok := true;
  }

  /** The loader of sim_read_mod1_page: word by word into the page's addresses. */
  method LoadImage(memory: array<RomWord>, page: nat, image: array<Octet>) returns (ok: bool)
    requires image.Length == IMAGE_BYTES
    modifies memory
    ensures ok <==> PAGE_WORDS * (page + 1) <= memory.Length
    ensures ok ==>
              memory[..]
              == old(memory[..PAGE_WORDS * page]) + Unpacked(image[..]) + old(memory[PAGE_WORDS * (page + 1)..])
  {
    ghost var bytes := image[..];
    var base := PAGE_WORDS * page;
    var addr := base;
    var i := 0;
    while i < IMAGE_BYTES
      invariant 0 <= i <= IMAGE_BYTES && i % 5 == 0 && 5 * (addr - base) == 4 * i
      invariant i > 0 ==> addr <= memory.Length
      invariant addr <= memory.Length ==> memory[..] == old(memory[..base]) + Unpacked(bytes[..i]) + old(memory[addr..])
    {
      hide Unpacked, FourWords;
      var b0: int, b1: int, b2: int, b3: int, b4: int := image[i], image[i + 1], image[i + 2], image[i + 3],
          image[i + 4];
      var group := [b1 % 4 * 256 + b0, b2 % 16 * 64 + b1 / 4, b3 % 64 * 16 + b2 / 16, b4 * 4 + b3 / 64];
      GroupIsFourWords(b0, b1, b2, b3, b4, group);
      ok := LoadFour(memory, addr, group);
      if !ok {
        return;
      }
      UnpackedNext(bytes, i);
      addr := addr + 4;
      i := i + 5;
    }
    assert bytes[..IMAGE_BYTES] == bytes;
    return true;
  }

  lemma GroupIsFourWords(b0: Octet, b1: Octet, b2: Octet, b3: Octet, b4: Octet, group: seq<int>)
    requires group == [b1 % 4 * 256 + b0, b2 % 16 * 64 + b1 / 4, b3 % 64 * 16 + b2 / 16, b4 * 4 + b3 / 64]
    ensures group == FourWords(b0, b1, b2, b3, b4)
  {
  }

  // ---------- checksum ----------

  function Sum(words: seq<RomWord>): nat {
    if |words| == 0 then 0 else Sum(words[..|words| - 1]) + words[|words| - 1]
  }

  /** One step of the accumulator: an overflow into the eleventh bit adds one. */
  function EndAround(acc: nat, word: RomWord): nat {
    var s := acc + word;
    if s > 0x3ff then s % 0x400 + 1 else s
  }

  function Accumulated(words: seq<RomWord>): nat {
    if |words| == 0 then 0 else EndAround(Accumulated(words[..|words| - 1]), words[|words| - 1])
  }

  /** The accumulator is the sum modulo 1023, with 1023 for zero unless every word is zero. */
  function Residue(sum: nat): nat {
    if sum == 0 then 0 else (sum - 1) % 1023 + 1
  }

  lemma ResidueStep(s: nat, w: RomWord)
    ensures EndAround(Residue(s), w) == Residue(s + w) <= 1023
  {
    if s > 0 {
      var q, r := (s - 1) / 1023, (s - 1) % 1023;
      if r + w < 1023 {
        DivModUnique(s + w - 1, 1023, q, r + w);
      } else {
        DivModUnique(s + w - 1, 1023, q + 1, r + w - 1023);
      }
    } else if w > 0 {
      SmallModulo(w - 1, 1023);
    }
  }

  lemma {:induction false} AccumulatedIsResidue(words: seq<RomWord>)
    ensures Accumulated(words) == Residue(Sum(words)) <= 1023
  {
    if |words| > 0 {
      var n := |words| - 1;
      AccumulatedIsResidue(words[..n]);
      ResidueStep(Sum(words[..n]), words[n]);
    }
  }

  function Checksum(words: seq<RomWord>): RomWord {
    (0x400 - Residue(Sum(words))) % 0x400
  }

  /** compute_checksum: the two's complement of the accumulator over all words but the last. */
  method ComputeChecksum(rom: array<RomWord>) returns (checksum: RomWord)
    requires rom.Length == PAGE_WORDS
    ensures checksum == Checksum(rom[..PAGE_WORDS - 1])
  {
    var acc: int := 0;
    for i := 0 to PAGE_WORDS - 1
      invariant acc == Accumulated(rom[..i]) <= 0x3ff
    {
      AccumulatedIsResidue(rom[..i + 1]);
      assert rom[..i + 1][..i] == rom[..i];
      acc := acc + rom[i];
      if acc > 0x3ff {
        acc := acc % 0x400 + 1;
      }
    }
    AccumulatedIsResidue(rom[..PAGE_WORDS - 1]);
    checksum := (0x400 - acc) % 0x400;
  }

  /** A stored last word is accepted exactly when the end-around sum of the whole page comes to one, or
      the page is blank. */
  lemma AcceptedIff(words: seq<RomWord>, stored: RomWord)
    ensures stored == Checksum(words) <==>
            if Sum(words) == 0 then stored == 0 else stored != 0 && (Sum(words) + stored) % 1023 == 1
  {
    var s := Sum(words);
    if s > 0 {
      var r := (s - 1) % 1023;
      assert Checksum(words) == (1023 - r) % 1024 == 1023 - r;
      assert (s + stored) % 1023 == (r + 1 + stored) % 1023;
    }
  }

  lemma {:induction false} SumUpdate(words: seq<RomWord>, i: nat, w: RomWord)
    requires i < |words|
    ensures Sum(words[i := w]) == Sum(words) - words[i] + w
    ensures Sum(words) >= words[i]
  {
    var n := |words| - 1;
    if i == n {
      assert words[i := w][..n] == words[..n];
    } else {
      SumUpdate(words[..n], i, w);
      assert words[i := w][..n] == words[..n][i := w];
    }
  }

  /** Exactly which single-word changes the checksum misses: 0 for 1023 or back, on a page with
      another nonzero word. */
  lemma SingleChangeMissedIff(words: seq<RomWord>, i: nat, w: RomWord)
    requires i < |words| && w != words[i]
    ensures Checksum(words[i := w]) == Checksum(words) <==>
            ((w == 0 && words[i] == 1023) || (w == 1023 && words[i] == 0)) && Sum(words) > words[i]
  {
    SumUpdate(words, i, w);
    var s, t := Sum(words), Sum(words[i := w]);
    if s > 0 && t > 0 {
      if s < t {
        SameRemainder(s - 1, t - s);
      } else {
        SameRemainder(t - 1, s - t);
      }
    }
  }

  lemma SameRemainder(x: nat, d: nat)
    requires 0 < d <= 1023
    ensures (x + d) % 1023 == x % 1023 <==> d == 1023
  {
    var q, r := x / 1023, x % 1023;
    if r + d < 1023 {
      DivModUnique(x + d, 1023, q, r + d);
    } else {
      DivModUnique(x + d, 1023, q + 1, r + d - 1023);
    }
  }
}
