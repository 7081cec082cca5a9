/** The integer a 64-bit word stands for, and how shifting and masking split it. */
module Words {
  /** Each bit at its weight. */
  function ValueOf(w: bv64): nat
    decreases w
  {
    if w == 0 then 0 else 2 * ValueOf(w >> 1) + (if w & 1 == 1 then 1 else 0)
  }

  lemma SplitAtOne(w: bv64)
    ensures ValueOf(w) == 2 * ValueOf(w >> 1) + ValueOf(w & 1) && ValueOf(w & 1) < 2
  {
    assert (w & 1) >> 1 == 0 && (w & 1) & 1 == w & 1;
  }

  lemma SplitAtTwo(w: bv64)
    ensures ValueOf(w) == 4 * ValueOf(w >> 2) + ValueOf(w & 3) && ValueOf(w & 3) < 4
  {
    assert (w >> 1) >> 1 == w >> 2 && (w & 3) >> 1 == (w >> 1) & 1 && (w & 3) & 1 == w & 1;
    hide ValueOf;
    SplitAtOne(w);
    SplitAtOne(w >> 1);
    SplitAtOne(w & 3);
  }

  lemma SplitAtFour(w: bv64)
    ensures ValueOf(w) == 0x10 * ValueOf(w >> 4) + ValueOf(w & 0xF) && ValueOf(w & 0xF) < 0x10
  {
    assert (w >> 2) >> 2 == w >> 4 && (w & 0xF) >> 2 == (w >> 2) & 3 && (w & 0xF) & 3 == w & 3;
    hide ValueOf;
    SplitAtTwo(w);
    SplitAtTwo(w >> 2);
    SplitAtTwo(w & 0xF);
  }

  lemma SplitAtEight(w: bv64)
    ensures ValueOf(w) == 0x100 * ValueOf(w >> 8) + ValueOf(w & 0xFF) && ValueOf(w & 0xFF) < 0x100
  {
    assert (w >> 4) >> 4 == w >> 8 && (w & 0xFF) >> 4 == (w >> 4) & 0xF && (w & 0xFF) & 0xF == w & 0xF;
    hide ValueOf;
    SplitAtFour(w);
    SplitAtFour(w >> 4);
    SplitAtFour(w & 0xFF);
  }

  lemma SplitAtTen(w: bv64)
    ensures ValueOf(w) == 0x400 * ValueOf(w >> 10) + ValueOf(w & 0x3FF) && ValueOf(w & 0x3FF) < 0x400
  {
    assert (w >> 2) >> 8 == w >> 10 && (w & 0x3FF) >> 2 == (w >> 2) & 0xFF && (w & 0x3FF) & 3 == w & 3;
    hide ValueOf;
    SplitAtTwo(w);
    SplitAtEight(w >> 2);
    SplitAtTwo(w & 0x3FF);
  }

  lemma SplitAtTwelve(w: bv64)
    ensures ValueOf(w) == 0x1000 * ValueOf(w >> 12) + ValueOf(w & 0xFFF) && ValueOf(w & 0xFFF) < 0x1000
  {
    assert (w >> 4) >> 8 == w >> 12 && (w & 0xFFF) >> 4 == (w >> 4) & 0xFF && (w & 0xFFF) & 0xF == w & 0xF;
    hide ValueOf;
    SplitAtFour(w);
    SplitAtEight(w >> 4);
    SplitAtFour(w & 0xFFF);
  }

  /** A word cut below bits 12 and 22. */
  lemma SplitFields(w: bv64)
    ensures ValueOf(w) == 0x1000 * ValueOf(w >> 12) + ValueOf(w & 0xFFF) && ValueOf(w & 0xFFF) < 0x1000
    ensures ValueOf(w >> 12) == 0x400 * ValueOf(w >> 22) + ValueOf((w >> 12) & 0x3FF) && ValueOf((w >> 12) & 0x3FF) < 0x400
  {
    assert (w >> 12) >> 10 == w >> 22;
    hide ValueOf;
    SplitAtTwelve(w);
    SplitAtTen(w >> 12);
  }
}
