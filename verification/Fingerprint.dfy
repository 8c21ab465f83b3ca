/** The 64-bit FNV-1a fingerprint of an observed schema's rendering. */
module Fingerprint {

  const OFFSET_BASIS: nat := 0xcbf29ce484222325
  const PRIME: nat := 0x100000001b3
  const MODULUS: nat := 0x1_0000_0000_0000_0000

  /** The inverse of the prime modulo 2^64. */
  const INVERSE: nat := 0xce965057aff6957b

  type Word = h: nat | h < MODULUS

  type Byte = b: nat | b < 256

  function Power2(n: nat): (r: nat)
    ensures r > 0
  {
    if n == 0 then 1 else 2 * Power2(n - 1)
  }

  /** Exclusive or of two `n`-bit numbers, bit by bit. */
  function Xor(a: nat, b: nat, n: nat): (r: nat)
    ensures r < Power2(n)
  {
    if n == 0 then 0 else 2 * Xor(a / 2, b / 2, n - 1) + (a + b) % 2
  }

  lemma {:induction false} PowersAdd(m: nat, n: nat)
    ensures Power2(m + n) == Power2(m) * Power2(n)
  {
    if m > 0 { PowersAdd(m - 1, n); }
  }

  lemma {:induction false} PowerSquares(n: nat, power: nat)
    requires Power2(n) == power
    ensures Power2(n + n) == power * power
  {
    PowersAdd(n, n);
  }

  lemma {:induction false} BytesHave8Bits()
    ensures Power2(8) == 256
  {
  }

  lemma {:induction false} WordsHave64Bits()
    ensures Power2(64) == MODULUS
  {
    hide Power2;
    BytesHave8Bits();
    PowerSquares(8, 0x100);
    PowerSquares(16, 0x1_0000);
    PowerSquares(32, 0x1_0000_0000);
  }

  function XorByte(h: Word, b: Byte): Word {
    WordsHave64Bits();
    Xor(h, b, 64)
  }

  function Times(h: Word): Word {
    (h * PRIME) % MODULUS
  }

  function Mix(h: Word, b: Byte): Word {
    Times(XorByte(h, b))
  }

  /** The state after mixing in the bytes, first to last. */
  function Hash(h: Word, bytes: seq<Byte>): Word
    decreases |bytes|
  {
    if bytes == [] then h else Hash(Mix(h, bytes[0]), bytes[1..])
  }

  function HexDigit(d: nat): char
    requires d < 16
  {
    if d < 10 then '0' + d as char else 'a' + (d - 10) as char
  }

  /** The `n` low hexadecimal digits. */
  function Hex(h: nat, n: nat): (r: string)
    ensures |r| == n
  {
    if n == 0 then "" else Hex(h / 16, n - 1) + [HexDigit(h % 16)]
  }

  function FingerprintOf(rendering: seq<Byte>): string {
    "fnv1a64:" + Hex(Hash(OFFSET_BASIS, rendering), 16)
  }

  method Fingerprint(rendering: seq<Byte>) returns (r: string)
    ensures r == FingerprintOf(rendering)
  {
    var hash: Word := OFFSET_BASIS;
    for i := 0 to |rendering|
      invariant Hash(OFFSET_BASIS, rendering) == Hash(hash, rendering[i..])
    {
      assert rendering[i..][1..] == rendering[i + 1..];
      hash := XorByte(hash, rendering[i]);
      hash := Times(hash);
    }
    r := "fnv1a64:" + Hex(hash, 16);
  }

  // ---------------------------------------------------------------- each step is a bijection

  lemma {:induction false} TimesInverse(h: Word)
    ensures (Times(h) * INVERSE) % MODULUS == h
  {
    var quotient := h * PRIME / MODULUS;
    var r := Times(h);
    assert h * PRIME == quotient * MODULUS + r;
    var excess := PRIME * INVERSE / MODULUS;
    assert PRIME * INVERSE == excess * MODULUS + 1;
    assert r * INVERSE == (h * PRIME - quotient * MODULUS) * INVERSE;
    assert r * INVERSE == h * (PRIME * INVERSE) - quotient * INVERSE * MODULUS;
    assert r * INVERSE == h + (h * excess - quotient * INVERSE) * MODULUS;
    ModularUnique(r * INVERSE, h, h * excess - quotient * INVERSE);
  }

  lemma {:induction false} ModularUnique(x: int, h: Word, k: int)
    requires x == h + k * MODULUS
    ensures x % MODULUS == h
  {
  }

  lemma {:induction false} XorTwice(a: nat, b: nat, n: nat)
    requires a < Power2(n)
    ensures Xor(Xor(a, b, n), b, n) == a
  {
    if n > 0 {
      XorTwice(a / 2, b / 2, n - 1);
      var high, x := Xor(a / 2, b / 2, n - 1), Xor(a, b, n);
      XorLowBit(a, b, high);
      assert x == 2 * high + (a + b) % 2;
      assert Xor(x, b, n) == 2 * Xor(high, b / 2, n - 1) + a % 2;
    }
  }

  lemma {:induction false} XorLowBit(a: nat, b: nat, high: nat)
    ensures var x := 2 * high + (a + b) % 2; x / 2 == high && (x + b) % 2 == a % 2
  {
  }

  lemma {:induction false} XorCommutes(a: nat, b: nat, n: nat)
    ensures Xor(a, b, n) == Xor(b, a, n)
  {
    if n > 0 { XorCommutes(a / 2, b / 2, n - 1); }
  }

  lemma {:induction false} XorByteInjective(h: Word, h': Word, b: Byte)
    requires h != h'
    ensures XorByte(h, b) != XorByte(h', b)
  {
    WordsHave64Bits();
    XorTwice(h, b, 64);
    XorTwice(h', b, 64);
  }

  lemma {:induction false} XorByteSeparates(h: Word, b: Byte, b': Byte)
    requires b != b'
    ensures XorByte(h, b) != XorByte(h, b')
  {
    WordsHave64Bits();
    XorCommutes(h, b, 64);
    XorCommutes(h, b', 64);
    XorTwice(b, h, 64);
    XorTwice(b', h, 64);
  }

  lemma {:induction false} MixInjective(h: Word, h': Word, b: Byte)
    requires h != h'
    ensures Mix(h, b) != Mix(h', b)
  {
    hide XorByte, Times;
    XorByteInjective(h, h', b);
    TimesInverse(XorByte(h, b));
    TimesInverse(XorByte(h', b));
  }

  lemma {:induction false} MixSeparatesBytes(h: Word, b: Byte, b': Byte)
    requires b != b'
    ensures Mix(h, b) != Mix(h, b')
  {
    hide XorByte, Times;
    XorByteSeparates(h, b, b');
    TimesInverse(XorByte(h, b));
    TimesInverse(XorByte(h, b'));
  }

  lemma {:induction false} HashInjective(h: Word, h': Word, bytes: seq<Byte>)
    requires h != h'
    ensures Hash(h, bytes) != Hash(h', bytes)
    decreases |bytes|
  {
    hide Mix;
    if bytes != [] {
      MixInjective(h, h', bytes[0]);
      HashInjective(Mix(h, bytes[0]), Mix(h', bytes[0]), bytes[1..]);
    }
  }

  lemma {:induction false} HashSeesOneByte(h: Word, a: seq<Byte>, b: seq<Byte>, k: nat)
    requires |a| == |b| && k < |a| && a[k] != b[k]
    requires forall j :: 0 <= j < |a| && j != k ==> a[j] == b[j]
    ensures Hash(h, a) != Hash(h, b)
    decreases k
  {
    hide Mix;
    if k == 0 {
      assert a[1..] == b[1..];
      MixSeparatesBytes(h, a[0], b[0]);
      HashInjective(Mix(h, a[0]), Mix(h, b[0]), a[1..]);
    } else {
      HashSeesOneByte(Mix(h, a[0]), a[1..], b[1..], k - 1);
    }
  }

  // ---------------------------------------------------------------- the printed form

  function Power16(n: nat): (r: nat)
    ensures r > 0
  {
    if n == 0 then 1 else 16 * Power16(n - 1)
  }

  lemma {:induction false} HexInjective(h: nat, h': nat, n: nat)
    requires h < Power16(n) && h' < Power16(n) && Hex(h, n) == Hex(h', n)
    ensures h == h'
  {
    if n > 0 {
      assert Hex(h, n)[n - 1] == HexDigit(h % 16) && Hex(h', n)[n - 1] == HexDigit(h' % 16);
      assert Hex(h, n)[..n - 1] == Hex(h / 16, n - 1) && Hex(h', n)[..n - 1] == Hex(h' / 16, n - 1);
      HexInjective(h / 16, h' / 16, n - 1);
    }
  }

  lemma {:induction false} SixteenDigitsSuffice()
    ensures Power16(16) == MODULUS
  {
    assert Power16(4) == 0x1_0000;
    assert Power16(8) == 0x1_0000_0000;
    assert Power16(12) == 0x1_0000_0000_0000;
  }

  /** Two renderings of the same length that differ in exactly one byte have different fingerprints. */
  lemma {:induction false} OneByteChangesFingerprint(a: seq<Byte>, b: seq<Byte>, k: nat)
    requires |a| == |b| && k < |a| && a[k] != b[k]
    requires forall j :: 0 <= j < |a| && j != k ==> a[j] == b[j]
    ensures FingerprintOf(a) != FingerprintOf(b)
  {
    HashSeesOneByte(OFFSET_BASIS, a, b, k);
    SixteenDigitsSuffice();
    var x, y := Hash(OFFSET_BASIS, a), Hash(OFFSET_BASIS, b);
    if FingerprintOf(a) == FingerprintOf(b) {
      assert FingerprintOf(a)[8..] == Hex(x, 16) && FingerprintOf(b)[8..] == Hex(y, 16);
      HexInjective(x, y, 16);
    }
  }

  // ---------------------------------------------------------------- the published values

  /** Bit `k` of a number. */
  function BitOf(a: nat, k: nat): nat {
    a / Power2(k) % 2
  }

  lemma {:induction false} XorHalf(a: nat, b: nat, n: nat)
    requires n > 0
    ensures Xor(a, b, n) / 2 == Xor(a / 2, b / 2, n - 1) && Xor(a, b, n) % 2 == (a + b) % 2
  {
    XorLowBit(a, b, Xor(a / 2, b / 2, n - 1));
  }

  lemma {:induction false} LowestBit(a: nat)
    ensures BitOf(a, 0) == a % 2
  {
  }

  /** Bit by bit, exclusive or is one exactly where the two numbers differ. */
  lemma {:induction false} XorBits(a: nat, b: nat, n: nat, k: nat)
    requires k < n
    ensures BitOf(Xor(a, b, n), k) == if BitOf(a, k) == BitOf(b, k) then 0 else 1
  {
    hide Xor, BitOf, Power2;
    XorHalf(a, b, n);
    if k == 0 {
      LowestBit(Xor(a, b, n));
      LowestBit(a);
      LowestBit(b);
    } else {
      XorBits(a / 2, b / 2, n - 1, k - 1);
      Halves(Xor(a, b, n), k);
      Halves(a, k);
      Halves(b, k);
    }
  }

  lemma {:induction false} Halves(a: nat, k: nat)
    requires k > 0
    ensures BitOf(a, k) == BitOf(a / 2, k - 1)
  {
    var p := Power2(k - 1);
    var q := a / 2 / p;
    assert a == a / 2 * 2 + a % 2 && a / 2 == q * p + a / 2 % p;
    assert a == q * (2 * p) + (a / 2 % p * 2 + a % 2);
    DivideBack(a, 2 * p, q, a / 2 % p * 2 + a % 2);
  }

  lemma {:induction false} AtLeastOnce(x: nat, d: nat)
    requires x > 0
    ensures x * d >= d
  {
  }

  lemma {:induction false} NotMore(q: nat, q': nat, d: nat, r: nat, r': nat)
    requires q * d + r == q' * d + r' && r < d
    ensures q >= q'
  {
    assert (q' - q) * d == q' * d - q * d;
    if q < q' {
      AtLeastOnce(q' - q, d);
      assert false;
    }
  }

  lemma {:induction false} DivideBack(a: nat, d: nat, q: nat, r: nat)
    requires a == q * d + r && r < d
    ensures a / d == q
  {
    assert a == a / d * d + a % d;
    NotMore(q, a / d, d, r, a % d);
    NotMore(a / d, q, d, a % d, r);
  }

  lemma {:induction false} XorStep(a: nat, b: nat, n: nat, c: nat, d: nat)
    requires n > 0 && c == a / 2 && d == b / 2 && a < Power2(n)
    ensures Xor(a, b, n) == 2 * Xor(c, d, n - 1) + (a + b) % 2 && c < Power2(n - 1)
  {
  }

  lemma {:induction false} XorZero(a: nat, n: nat)
    requires a < Power2(n)
    ensures Xor(a, 0, n) == a
  {
    if n > 0 { XorZero(a / 2, n - 1); }
  }

  lemma {:induction false} XorOfA()
    ensures Xor(0xcbf29ce484222325, 0x61, 64) == 0xcbf29ce484222344
  {
    hide Xor, Power2;
    WordsHave64Bits();
    XorStep(0xcbf29ce484222325, 0x61, 64, 0x65f94e7242111192, 0x30);
    XorStep(0x65f94e7242111192, 0x30, 63, 0x32fca739210888c9, 0x18);
    XorStep(0x32fca739210888c9, 0x18, 62, 0x197e539c90844464, 0xc);
    XorStep(0x197e539c90844464, 0xc, 61, 0xcbf29ce48422232, 0x6);
    XorStep(0xcbf29ce48422232, 0x6, 60, 0x65f94e724211119, 0x3);
    XorStep(0x65f94e724211119, 0x3, 59, 0x32fca739210888c, 0x1);
    XorStep(0x32fca739210888c, 0x1, 58, 0x197e539c9084446, 0x0);
    XorZero(0x197e539c9084446, 57);
  }

  /** The values of the reference vectors for the empty text and for "a". */
  lemma {:induction false} PublishedValues()
    ensures Hash(OFFSET_BASIS, []) == 0xcbf29ce484222325
    ensures Hash(OFFSET_BASIS, [0x61]) == 0xaf63dc4c8601ec8c
  {
    hide Xor;
    XorOfA();
    assert [0x61][1..] == [];
    assert Hash(OFFSET_BASIS, [0x61]) == Hash(Mix(OFFSET_BASIS, 0x61), []) == Mix(OFFSET_BASIS, 0x61);
  }

  // ---------------------------------------------------------------- the written form

  lemma {:induction false} DigitIs(d: nat)
    requires d < 16
    ensures HexDigit(d) == "0123456789abcdef"[d]
  {
  }

  lemma {:induction false} DivideTwice(h: nat, power: nat)
    requires power > 0
    ensures h / 16 / power == h / (16 * power)
  {
    var q := h / 16 / power;
    assert h == h / 16 * 16 + h % 16 && h / 16 == q * power + h / 16 % power;
    assert h == q * (16 * power) + (h / 16 % power * 16 + h % 16);
    DivideBack(h, 16 * power, q, h / 16 % power * 16 + h % 16);
  }

  /** Digit `k` of `n` stands for the power `n - 1 - k` of sixteen. */
  lemma {:induction false} DigitsAre(h: nat, n: nat, k: nat)
    requires k < n
    ensures Hex(h, n)[k] == "0123456789abcdef"[h / Power16(n - 1 - k) % 16]
    decreases n
  {
    hide HexDigit;
    if k == n - 1 {
      DigitIs(h % 16);
    } else {
      DigitsAre(h / 16, n - 1, k);
      DivideTwice(h, Power16(n - 2 - k));
    }
  }

  /** A fingerprint is its prefix and the sixteen digits of the hash, most significant first. */
  lemma {:induction false} WrittenForm(rendering: seq<Byte>)
    ensures var text, hash := FingerprintOf(rendering), Hash(OFFSET_BASIS, rendering);
            && |text| == 24 && text[..8] == "fnv1a64:"
            && forall k :: 8 <= k < 24 ==> text[k] == "0123456789abcdef"[hash / Power16(23 - k) % 16]
  {
    hide Hash, Power16;
    var text, hash := FingerprintOf(rendering), Hash(OFFSET_BASIS, rendering);
    forall k | 8 <= k < 24 ensures text[k] == "0123456789abcdef"[hash / Power16(23 - k) % 16] {
      DigitsAre(hash, 16, k - 8);
    }
  }
}
