/** The checksum of the Woodstock ROM self-test: crc_update of src/proc_woodstock.c. A word enters ten
    bits at a time into a ten-bit register. */
module WoodstockCrc {

  type Bits = bv10

  const SEED: Bits := 0x3ff
  const GOOD: Bits := 0x078

  /** One bit of the register moved out at the bottom, folded back through the polynomial. */
  function Shift(x: Bits): Bits {
    (x >> 1) ^ (if x & 1 == 1 then 0x331 else 0)
  }

  lemma ShiftInjective(x: Bits, y: Bits)
    requires Shift(x) == Shift(y)
    ensures x == y
  {
  }

  function Shifts(x: Bits, n: nat): Bits
    decreases n
  {
    if n == 0 then x else Shift(Shifts(x, n - 1))
  }

  lemma {:induction false} ShiftsInjective(x: Bits, y: Bits, n: nat)
    requires Shifts(x, n) == Shifts(y, n)
    ensures x == y
    decreases n
  {
    hide Shift;
    if n > 0 {
      ShiftInjective(Shifts(x, n - 1), Shifts(y, n - 1));
      ShiftsInjective(x, y, n - 1);
    }
  }

  /** Register and word added bit by bit. */
  function Mix(crc: Bits, word: Bits): Bits {
    crc ^ word
  }

  lemma MixInjective(crc1: Bits, word1: Bits, crc2: Bits, word2: Bits)
    requires Mix(crc1, word1) == Mix(crc2, word2)
    ensures crc1 == crc2 <==> word1 == word2
  {
    MixCancels(crc1, word1);
    MixCancels(crc2, word2);
    hide Mix;
  }

  lemma MixCancels(crc: Bits, word: Bits)
    ensures Mix(crc, Mix(crc, word)) == word && Mix(Mix(crc, word), word) == crc
  {
    XorCancels(crc, word);
  }

  lemma XorCancels(a: Bits, b: Bits)
    ensures a ^ (a ^ b) == b && (a ^ b) ^ b == a
  {
  }

  /** A word enters the register by being added to it before ten shifts. */
  function Update(crc: Bits, word: Bits): Bits {
    Shifts(Mix(crc, word), 10)
  }

  /** Different words, or different registers, are never confused. */
  lemma UpdateInjective(crc1: Bits, word1: Bits, crc2: Bits, word2: Bits)
    requires Update(crc1, word1) == Update(crc2, word2)
    ensures crc1 == crc2 <==> word1 == word2
  {
    ShiftsInjective(Mix(crc1, word1), Mix(crc2, word2), 10);
    hide *;
    MixInjective(crc1, word1, crc2, word2);
  }

  // ---------- the loop ----------

  function Halved(word: Bits, n: nat): Bits
    decreases n
  {
    if n == 0 then word else Half(Halved(word, n - 1))
  }

  function Half(word: Bits): Bits {
    word >> 1
  }

  function LowBit(x: Bits): Bits {
    x & 1
  }

  /** Moving the register and taking a bit of the word. */
  function Folded(crc: Bits, word: Bits): Bits {
    if LowBit(crc) ^ LowBit(word) == 1 then Half(crc) ^ 0x331 else Half(crc)
  }

  /** While bits of the word remain, register and word together shift as one. */
  lemma LoopStep(crc: Bits, word: Bits)
    ensures Mix(Folded(crc, word), Half(word)) == Shift(Mix(crc, word))
  {
  }

  lemma {:induction false} WordIsGone(word: Bits)
    ensures Halved(word, 10) == 0
  {
    var h2 := Half(Half(word));
    assert Halved(word, 0) == word && Halved(word, 1) == Half(word) && Halved(word, 2) == h2;
    var h4 := Half(Half(h2));
    assert Halved(word, 3) == Half(h2) && Halved(word, 4) == h4;
    var h6 := Half(Half(h4));
    assert Halved(word, 5) == Half(h4) && Halved(word, 6) == h6;
    var h8 := Half(Half(h6));
    assert Halved(word, 7) == Half(h6) && Halved(word, 8) == h8;
    assert Halved(word, 9) == Half(h8) && Halved(word, 10) == Half(Half(h8));
  }

  lemma MixZero(crc: Bits)
    ensures Mix(crc, 0) == crc
  {
  }

  /** crc_update. */
  method CrcUpdate(crc0: Bits, word0: Bits) returns (crc: Bits)
    ensures crc == Update(crc0, word0)
  {
    hide Mix, Shift, Folded, Half, LowBit;
    crc := crc0;
    var word := word0;
    for i := 0 to 10
      invariant Mix(crc, word) == Shifts(Mix(crc0, word0), i)
      invariant word == Halved(word0, i)
    {
      LoopStep(crc, word);
      crc := NextCrc(crc, word);
      word := Half(word);
    }
    WordIsGone(word0);
    MixZero(crc);
  }

  /** One turn of the loop on the register. */
  method NextCrc(crc0: Bits, word: Bits) returns (crc: Bits)
    ensures crc == Folded(crc0, word)
  {
    crc := crc0;
    var b := LowBit(crc);
    crc := Half(crc);
    if b ^ LowBit(word) == 1 {
      crc := crc ^ 0x331;
    }
  }

  // ---------- a ROM ----------

  /** The register after reading a ROM. */
  function Fold(crc: Bits, words: seq<Bits>): Bits
    decreases |words|
  {
    if words == [] then crc else Update(Fold(crc, words[..|words| - 1]), words[|words| - 1])
  }

  lemma FoldNext(crc: Bits, words: seq<Bits>, word: Bits)
    ensures Fold(crc, words + [word]) == Update(Fold(crc, words), word)
  {
    assert (words + [word])[..|words|] == words;
  }

  /** One changed word, wherever it is, changes the checksum. */
  lemma {:induction false} OneWordDetected(crc: Bits, words: seq<Bits>, j: nat, other: Bits)
    requires j < |words| && other != words[j]
    ensures Fold(crc, words) != Fold(crc, words[j := other])
    decreases |words|
  {
    hide Update;
    var changed, last := words[j := other], |words| - 1;
    if j == last {
      assert changed[..last] == words[..last];
      if Fold(crc, words) == Fold(crc, changed) {
        UpdateInjective(Fold(crc, words[..last]), words[last], Fold(crc, words[..last]), other);
      }
    } else {
      assert changed[..last] == words[..last][j := other] && changed[last] == words[last];
      OneWordDetected(crc, words[..last], j, other);
      if Fold(crc, words) == Fold(crc, changed) {
        UpdateInjective(Fold(crc, words[..last]), words[last], Fold(crc, changed[..last]), words[last]);
      }
    }
  }
}
