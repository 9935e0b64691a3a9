/** An octet as a word of bits. */
module Binary {
  import opened Octets

  function Twice(w: bv8): bv8 {
    w << 1
  }

  function TwiceAndOne(w: bv8): bv8 {
    Twice(w) | 1
  }

  /** The conversion to an eight-bit word, bit by bit. */
  function Word(b: octet): bv8 {
    if b == 0 then 0 else if b % 2 == 0 then Twice(Word(b / 2)) else TwiceAndOne(Word(b / 2))
  }

  lemma TwiceEven(w: bv8)
    requires w as int < 128
    ensures (w << 1) as int == 2 * (w as int)
  {
  }

  lemma TwiceOdd(w: bv8)
    requires w as int < 128
    ensures ((w << 1) | 1) as int == 2 * (w as int) + 1
  {
  }

  /** The number a word of eight bits stands for. */
  function Value(w: bv8): int {
    w as int
  }

  lemma Twices(w: bv8)
    requires Value(w) < 128
    ensures Value(Twice(w)) == 2 * Value(w) && Value(TwiceAndOne(w)) == 2 * Value(w) + 1
  {
    TwiceEven(w);
    TwiceOdd(w);
  }

  lemma NoBits()
    ensures Value(0) == 0
  {
  }

  lemma {:induction false} ValueOfWord(b: octet)
    ensures Value(Word(b)) == b
  {
    hide Value, Twice, TwiceAndOne;
    if b == 0 {
      NoBits();
    } else {
      var half := b / 2;
      ValueOfWord(half);
      Twices(Word(half));
      assert Word(b) == if b % 2 == 0 then Twice(Word(half)) else TwiceAndOne(Word(half));
    }
  }

  lemma WordValue(b: octet)
    ensures Word(b) as int == b
  {
    ValueOfWord(b);
    hide Word;
  }
}
