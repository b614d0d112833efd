/** The hash a person's random stream is seeded with, in the program's signed 32-bit arithmetic. */
module RandomStream {

  const WORD: int := 0x1_0000_0000
  const HALF: int := 0x8000_0000
  const PRIME: int := 16777619
  const OFFSET: int := 2166136261
  const SEED: int := 20260923

  /** PRIME's inverse modulo WORD. */
  const UNPRIME: int := 899433627

  // ----- the program's operators -----

  function ToUint32(x: int): nat { x % WORD }

  function ToInt32(x: int): int {
    var u := x % WORD;
    if u >= HALF then u - WORD else u
  }

  /** Exclusive or of two naturals, bit by bit. */
  function Xor(a: nat, b: nat): nat
    decreases a + b
  {
    if a == 0 then b else if b == 0 then a else 2 * Xor(a / 2, b / 2) + (a % 2 + b % 2) % 2
  }

  /** `a ^ b`: the bits of both as 32-bit words, read as a signed number. */
  function SignedXor(a: int, b: int): int { ToInt32(Xor(ToUint32(a), ToUint32(b))) }

  /** `Math.imul(a, b)` */
  function Imul(a: int, b: int): int { ToInt32(ToInt32(a) * ToInt32(b)) }

  type Byte = x: int | 0 <= x < 256

  // ----- FNV-1a -----

  function Mix(h: nat, byte: Byte): nat { (Xor(h, byte) * PRIME) % WORD }

  function Fnv1a(h: nat, bytes: seq<Byte>): nat {
    if bytes == [] then h else Mix(Fnv1a(h, bytes[..|bytes| - 1]), bytes[|bytes| - 1])
  }

  function Initial(): nat { ToUint32(SignedXor(OFFSET, SEED)) }

  method HashOf(bytes: seq<Byte>) returns (hash: int)
    ensures hash == Fnv1a(Initial(), bytes)
  {
    hash := ToUint32(SignedXor(OFFSET, SEED));
    for i := 0 to |bytes|
      invariant 0 <= hash < WORD && hash == Fnv1a(Initial(), bytes[..i])
    {
      assert bytes[..i + 1][..i] == bytes[..i];
      StepIsMix(hash, bytes[i]);
      hash := ToUint32(Imul(SignedXor(hash, bytes[i]), PRIME));
    }
    assert bytes[..|bytes|] == bytes;
  }

  lemma WordsDropOut(x: int, words: int)
    ensures (x + words * WORD) % WORD == x % WORD
  {}

  lemma SignedAgain(x: int) returns (words: int)
    ensures x == ToInt32(x) + words * WORD
  {
    words := x / WORD + if x % WORD >= HALF then 1 else 0;
  }

  lemma Expand(a: int, b: int, i: int, j: int, w: int)
    ensures (a + i * w) * (b + j * w) == a * b + (i * b + j * a + i * j * w) * w
  {}

  lemma ImulIsProduct(a: int, b: int)
    ensures ToUint32(Imul(a, b)) == (a * b) % WORD
  {
    var i := SignedAgain(a);
    var j := SignedAgain(b);
    var x, y := ToInt32(a), ToInt32(b);
    Expand(x, y, i, j, WORD);
    WordsDropOut(x * y, i * y + j * x + i * j * WORD);
    var k := SignedAgain(x * y);
    WordsDropOut(Imul(a, b), k);
  }

  lemma SignedXorIs(h: nat, byte: Byte)
    requires h < WORD
    ensures SignedXor(h, byte) == ToInt32(Xor(h, byte))
  {
    SmallWord(h);
    SmallWord(byte);
  }

  lemma SmallWord(x: nat)
    requires x < WORD
    ensures ToUint32(x) == x
  {}

  /** The sign the operators give and take away again does not show. */
  lemma StepIsMix(h: nat, byte: Byte)
    requires h < WORD
    ensures ToUint32(Imul(SignedXor(h, byte), PRIME)) == Mix(h, byte)
  {
    SignedXorIs(h, byte);
    SignIsLost(Xor(h, byte));
  }

  lemma SignIsLost(x: nat)
    ensures ToUint32(Imul(ToInt32(x), PRIME)) == (x * PRIME) % WORD
  {
    var k := SignedAgain(x);
    ImulIsProduct(ToInt32(x), PRIME);
    FactorDropsWords(ToInt32(x), k, PRIME);
  }

  lemma FactorDropsWords(x: int, words: int, f: int)
    ensures ((x + words * WORD) * f) % WORD == (x * f) % WORD
  {
    Expand(x, f, words, 0, WORD);
    WordsDropOut(x * f, words * f);
  }

  // ----- what a step keeps -----

  lemma {:induction false} XorBelow(a: nat, b: nat, n: nat, top: nat)
    requires top == Power2(n) && a < top && b < top
    ensures Xor(a, b) < top
  {
    if n > 0 && a > 0 && b > 0 { XorBelow(a / 2, b / 2, n - 1, top / 2); }
  }

  /** Each bit is that of the one or of the other and not of both. */
  lemma {:induction false} XorBits(a: nat, b: nat, n: nat)
    ensures Bit(Xor(a, b), n) != 0 <==> Bit(a, n) != Bit(b, n)
    decreases n
  {
    if a > 0 && b > 0 {
      LowBit(a, b);
      if n > 0 { XorBits(a / 2, b / 2, n - 1); }
    } else {
      NoBits(n);
    }
  }

  function Bit(a: nat, n: nat): nat { if n == 0 then a % 2 else Bit(a / 2, n - 1) }

  lemma {:induction false} NoBits(n: nat)
    ensures Bit(0, n) == 0
  {
    if n > 0 { NoBits(n - 1); }
  }

  /** The stream's own start and step, in figures. */
  lemma InFigures(h: nat, byte: Byte)
    ensures Initial() == Xor(2166136261, 20260923) < 4294967296
    ensures Mix(h, byte) == (Xor(h, byte) * 16777619) % 4294967296
  {
    UnsignedXor(OFFSET, SEED);
  }

  lemma UnsignedXor(a: nat, b: nat)
    requires a < WORD && b < WORD
    ensures ToUint32(SignedXor(a, b)) == Xor(a, b) < WORD
  {
    XorOfWords(a, b);
    SmallWord(a);
    SmallWord(b);
    UnsignedAgain(Xor(a, b));
  }

  lemma UnsignedAgain(x: nat)
    requires x < WORD
    ensures ToUint32(ToInt32(x)) == x
  {
  }

  function Power2(n: nat): nat { if n == 0 then 1 else 2 * Power2(n - 1) }

  lemma LowBit(a: nat, b: nat)
    ensures Xor(a, b) / 2 == Xor(a / 2, b / 2) && Xor(a, b) % 2 == (a % 2 + b % 2) % 2
  {}

  lemma FromBits(a: nat, b: nat)
    requires a / 2 == b / 2 && a % 2 == b % 2
    ensures a == b
  {}

  /** Exclusive or undoes itself. */
  lemma {:induction false} XorUndoes(a: nat, b: nat)
    ensures Xor(Xor(a, b), b) == a
    decreases a + b
  {
    if a > 0 && b > 0 {
      XorUndoes(a / 2, b / 2);
      HalfUndoes(a, b, Xor(a, b));
    } else {
      XorSelf(b);
    }
  }

  lemma HalfUndoes(a: nat, b: nat, x: nat)
    requires x == Xor(a, b) && Xor(Xor(a / 2, b / 2), b / 2) == a / 2
    ensures Xor(x, b) == a
  {
    LowBit(a, b);
    LowBit(x, b);
    LowBitUndoes(a, b, x, Xor(x, b));
  }

  lemma LowBitUndoes(a: nat, b: nat, x: nat, y: nat)
    requires x % 2 == (a % 2 + b % 2) % 2 && y % 2 == (x % 2 + b % 2) % 2 && y / 2 == a / 2
    ensures y == a
  {
    FromBits(y, a);
  }

  lemma {:induction false} XorSelf(a: nat)
    ensures Xor(a, a) == 0
  {
    if a > 0 { XorSelf(a / 2); }
  }

  lemma {:induction false} XorSymmetric(a: nat, b: nat)
    ensures Xor(a, b) == Xor(b, a)
    decreases a + b
  {
    if a > 0 && b > 0 { XorSymmetric(a / 2, b / 2); }
  }

  lemma XorOfWords(a: nat, b: nat)
    requires a < WORD && b < WORD
    ensures Xor(a, b) < WORD
  {
    assert Power2(8) == 256;
    assert Power2(16) == 65536;
    assert Power2(24) == 16777216;
    assert Power2(32) == WORD;
    XorBelow(a, b, 32, WORD);
  }

  // ----- a step can be taken back -----

  function Unmix(h: nat, byte: Byte): nat { Xor((h * UNPRIME) % WORD, byte) }

  lemma InverseFactor(x: nat)
    requires x < WORD
    ensures ((x * PRIME) % WORD * UNPRIME) % WORD == x
    ensures ((x * UNPRIME) % WORD * PRIME) % WORD == x
  {
    var rounds := (PRIME * UNPRIME) / WORD;
    assert PRIME * UNPRIME == 1 + rounds * WORD;
    var i, j := (x * PRIME) / WORD, (x * UNPRIME) / WORD;
    assert (x * PRIME) % WORD * UNPRIME == x + (x * rounds - i * UNPRIME) * WORD;
    assert (x * UNPRIME) % WORD * PRIME == x + (x * rounds - j * PRIME) * WORD;
    WordsDropOut(x, x * rounds - i * UNPRIME);
    WordsDropOut(x, x * rounds - j * PRIME);
  }

  /** For each byte a step is a bijection on 32-bit words. */
  lemma MixIsBijection(h: nat, byte: Byte)
    requires h < WORD
    ensures Mix(h, byte) < WORD && Unmix(h, byte) < WORD
    ensures Unmix(Mix(h, byte), byte) == h && Mix(Unmix(h, byte), byte) == h
  {
    XorOfWords(h, byte);
    XorUndoes(h, byte);
    InverseFactor(Xor(h, byte));
    var x := (h * UNPRIME) % WORD;
    XorOfWords(x, byte);
    XorUndoes(x, byte);
    InverseFactor(h);
  }

  function Unhash(h: nat, bytes: seq<Byte>): nat
    decreases |bytes|
  {
    if bytes == [] then h else Unhash(Unmix(h, bytes[|bytes| - 1]), bytes[..|bytes| - 1])
  }

  lemma {:induction false} UnhashHash(h: nat, bytes: seq<Byte>)
    requires h < WORD
    ensures Fnv1a(h, bytes) < WORD && Unhash(Fnv1a(h, bytes), bytes) == h
    decreases |bytes|
  {
    if bytes != [] {
      var but, last := bytes[..|bytes| - 1], bytes[|bytes| - 1];
      UnhashHash(h, but);
      MixIsBijection(Fnv1a(h, but), last);
    }
  }

  lemma {:induction false} HashUnhash(h: nat, bytes: seq<Byte>)
    requires h < WORD
    ensures Unhash(h, bytes) < WORD && Fnv1a(Unhash(h, bytes), bytes) == h
    decreases |bytes|
  {
    if bytes != [] {
      var but, last := bytes[..|bytes| - 1], bytes[|bytes| - 1];
      MixIsBijection(h, last);
      HashUnhash(Unmix(h, last), but);
    }
  }

  /** So is hashing any bytes: the state before them can be had back from the state after. */
  lemma HashIsBijection(h: nat, bytes: seq<Byte>)
    requires h < WORD
    ensures Fnv1a(h, bytes) < WORD && Unhash(h, bytes) < WORD
    ensures Unhash(Fnv1a(h, bytes), bytes) == h && Fnv1a(Unhash(h, bytes), bytes) == h
  {
    UnhashHash(h, bytes);
    HashUnhash(h, bytes);
  }

  lemma {:induction false} HashMore(h: nat, a: seq<Byte>, b: seq<Byte>)
    ensures Fnv1a(h, a + b) == Fnv1a(Fnv1a(h, a), b)
  {
    if b == [] {
      assert a + b == a;
    } else {
      assert (a + b)[..|a + b| - 1] == a + b[..|b| - 1];
      HashMore(h, a, b[..|b| - 1]);
    }
  }

  lemma DifferentBytesMixApart(h: nat, x: Byte, y: Byte)
    requires h < WORD && Mix(h, x) == Mix(h, y)
    ensures x == y
  {
    MixIsBijection(h, x);
    MixIsBijection(h, y);
    XorOfWords(h, x);
    XorOfWords(h, y);
    InverseFactor(Xor(h, x));
    InverseFactor(Xor(h, y));
    XorSymmetric(h, x);
    XorSymmetric(h, y);
    XorUndoes(x, h);
    XorUndoes(y, h);
  }

  /** Bytes of one length that differ in exactly one place never hash to the same value. */
  lemma OneByteChangesTheHash(h: nat, before: seq<Byte>, x: Byte, y: Byte, after: seq<Byte>)
    requires h < WORD && x != y
    ensures Fnv1a(h, before + [x] + after) != Fnv1a(h, before + [y] + after)
  {
    var start := Fnv1a(h, before);
    HashIsBijection(h, before);
    HashMore(h, before + [x], after);
    HashMore(h, before + [y], after);
    assert (before + [x])[..|before|] == before && (before + [y])[..|before|] == before;
    if Mix(start, x) == Mix(start, y) { DifferentBytesMixApart(start, x, y); }
    MixIsBijection(start, x);
    MixIsBijection(start, y);
    HashIsBijection(Mix(start, x), after);
    HashIsBijection(Mix(start, y), after);
  }
}
