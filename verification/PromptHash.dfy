/** The 64-bit prompt fingerprint and its printed form. Words are numbers below 2^64 and the
    multiplication wraps explicitly. */
module PromptHash {

  const WORD := 0x1_0000_0000_0000_0000

  /** The constants of the source; the start value is one digit short of FNV-1a's own. */
  const OFFSET := 1469598103934665603
  const PRIME := 1099511628211

  /** The offset basis that FNV-1a defines for 64 bits. */
  const FNV_OFFSET := 14695981039346656037

  /** PRIME is odd, so it has an inverse modulo 2^64. */
  const INVERSE := 14886173955864302971

  type Word = w: nat | w < WORD

  type Byte = n: nat | n < 256

  function Pow2(n: nat): nat { if n == 0 then 1 else 2 * Pow2(n - 1) }

  /** Exclusive or of the low n bits. */
  function Xor(a: nat, b: nat, n: nat): (r: nat)
    ensures r < Pow2(n)
  {
    if n == 0 then 0 else 2 * Xor(a / 2, b / 2, n - 1) + (a + b) % 2
  }

  lemma {:induction false} Pow2Add(a: nat, b: nat)
    ensures Pow2(a + b) == Pow2(a) * Pow2(b)
    decreases a
  {
    if a > 0 {
      Pow2Add(a - 1, b);
    }
  }

  lemma Pow2Is64()
    ensures Pow2(64) == WORD
  {
    assert Pow2(4) == 16;
    Pow2Add(4, 4);
    Pow2Add(8, 8);
    Pow2Add(16, 16);
    Pow2Add(32, 32);
  }

  /** h ^= uint64(b). */
  function XorByte(h: Word, b: Byte): Word {
    Pow2Is64();
    Xor(h, b, 64)
  }

  /** h *= prime64, modulo 2^64. */
  function TimesPrime(h: Word): Word { h * PRIME % WORD }

  function Step(h: Word, b: Byte): Word { TimesPrime(XorByte(h, b)) }

  function HashFrom(h: Word, prompt: seq<Byte>): Word {
    if prompt == [] then h else Step(HashFrom(h, prompt[..|prompt| - 1]), prompt[|prompt| - 1])
  }

  function HexDigit(d: nat): char
    requires d < 16
  {
    "0123456789abcdef"[d]
  }

  /** The last n hexadecimal digits, with leading zeros: %016x is Hex(h, 16). */
  function Hex(h: nat, n: nat): (r: string)
    ensures |r| == n
  {
    if n == 0 then "" else Hex(h / 16, n - 1) + [HexDigit(h % 16)]
  }

  method PromptHash(prompt: seq<Byte>) returns (r: string)
    ensures prompt == [] ==> r == ""
    ensures prompt != [] ==> r == Hex(HashFrom(1_469_598_103_934_665_603, prompt), 16)
  {
    hide XorByte, TimesPrime;
    if prompt == [] {
      return "";
    }
    var h: Word := OFFSET;
    for i := 0 to |prompt|
      invariant h == HashFrom(OFFSET, prompt[..i])
    {
      assert prompt[..i + 1][..i] == prompt[..i];
      h := XorByte(h, prompt[i]);
      h := TimesPrime(h);
    }
    assert prompt[..|prompt|] == prompt;
    r := Hex(h, 16);
  }

  lemma XorStep(a: nat, b: nat, n: nat)
    requires n > 0
    ensures Xor(a, b, n) / 2 == Xor(a / 2, b / 2, n - 1) && Xor(a, b, n) % 2 == (a + b) % 2
  {
  }

  lemma ParityTwice(a: nat, b: nat, x: nat)
    requires x % 2 == (a + b) % 2
    ensures (x + b) % 2 == a % 2
  {
  }

  lemma Halve(a: nat, n: nat)
    requires n > 0 && a < Pow2(n)
    ensures a / 2 < Pow2(n - 1) && a == 2 * (a / 2) + a % 2
  {
  }

  lemma SameParts(x: nat, y: nat)
    requires x / 2 == y / 2 && x % 2 == y % 2
    ensures x == y
  {
  }

  lemma {:induction false} XorTwice(a: nat, b: nat, n: nat)
    requires a < Pow2(n)
    ensures Xor(Xor(a, b, n), b, n) == a
    decreases n
  {
    if n > 0 {
      hide Xor, Pow2;
      var x := Xor(a, b, n);
      XorStep(a, b, n);
      XorStep(x, b, n);
      ParityTwice(a, b, x);
      Halve(a, n);
      XorTwice(a / 2, b / 2, n - 1);
      SameParts(Xor(x, b, n), a);
    }
  }

  lemma {:induction false} XorCommutes(a: nat, b: nat, n: nat)
    ensures Xor(a, b, n) == Xor(b, a, n)
    decreases n
  {
    if n > 0 {
      XorCommutes(a / 2, b / 2, n - 1);
    }
  }

  lemma XorByteInjective(g: Word, h: Word, b: Byte, c: Byte)
    requires XorByte(g, b) == XorByte(h, c)
    ensures b == c ==> g == h
    ensures g == h ==> b == c
  {
    hide Xor, Pow2;
    Pow2Is64();
    XorTwice(g, b, 64);
    XorTwice(h, c, 64);
    XorCommutes(g, b, 64);
    XorCommutes(h, c, 64);
    XorTwice(b, g, 64);
    XorTwice(c, h, 64);
  }

  /** The multiplier is odd, so multiplying modulo 2^64 is a bijection: this undoes it. */
  lemma TimesPrimeInverse(x: Word)
    ensures TimesPrime(x) * INVERSE % WORD == x
  {
    var y, a := x * PRIME % WORD, x * PRIME / WORD;
    assert x * PRIME == a * WORD + y;
    var q := PRIME * INVERSE / WORD;
    assert PRIME * INVERSE == q * WORD + 1;
    assert y * INVERSE == x + (x * q - a * INVERSE) * WORD;
    ModUnique(y * INVERSE, x * q - a * INVERSE, x);
  }

  lemma ModUnique(n: int, k: int, r: Word)
    requires n == r + k * WORD
    ensures n % WORD == r
  {
  }

  /** Each step is injective in the state, and in the byte. */
  lemma StepInjective(g: Word, h: Word, b: Byte, c: Byte)
    requires Step(g, b) == Step(h, c)
    ensures b == c ==> g == h
    ensures g == h ==> b == c
  {
    hide XorByte, TimesPrime;
    TimesPrimeInverse(XorByte(g, b));
    TimesPrimeInverse(XorByte(h, c));
    XorByteInjective(g, h, b, c);
  }

  /** Equal tails keep different states apart. */
  lemma {:induction false} TailSeparates(g: Word, h: Word, tail: seq<Byte>)
    requires HashFrom(g, tail) == HashFrom(h, tail)
    ensures g == h
  {
    hide Step;
    if tail != [] {
      var n := |tail| - 1;
      StepInjective(HashFrom(g, tail[..n]), HashFrom(h, tail[..n]), tail[n], tail[n]);
      TailSeparates(g, h, tail[..n]);
    }
  }

  lemma {:induction false} HashSplit(h: Word, a: seq<Byte>, b: seq<Byte>)
    ensures HashFrom(h, a + b) == HashFrom(HashFrom(h, a), b)
    decreases |b|
  {
    hide Step;
    if b == [] {
      assert a + b == a;
    } else {
      assert (a + b)[..|a + b| - 1] == a + b[..|b| - 1];
      HashSplit(h, a, b[..|b| - 1]);
    }
  }

  lemma HashOne(h: Word, b: Byte)
    ensures HashFrom(h, [b]) == Step(h, b)
  {
    hide Step;
    assert [b][..0] == [];
  }

  lemma HashAround(h: Word, head: seq<Byte>, b: Byte, tail: seq<Byte>)
    ensures HashFrom(h, head + ([b] + tail)) == HashFrom(Step(HashFrom(h, head), b), tail)
  {
    hide Step;
    HashSplit(h, head, [b] + tail);
    HashSplit(HashFrom(h, head), [b], tail);
    HashOne(HashFrom(h, head), b);
  }

  function Power16(n: nat): nat { if n == 0 then 1 else 16 * Power16(n - 1) }

  lemma DigitInjective(d: nat, e: nat)
    requires d < 16 && e < 16 && HexDigit(d) == HexDigit(e)
    ensures d == e
  {
  }

  lemma {:induction false} HexInjective(g: nat, h: nat, n: nat)
    requires g < Power16(n) && h < Power16(n) && Hex(g, n) == Hex(h, n)
    ensures g == h
    decreases n
  {
    hide HexDigit;
    if n > 0 {
      var a, b := Hex(g, n), Hex(h, n);
      assert a[..n - 1] == Hex(g / 16, n - 1) && b[..n - 1] == Hex(h / 16, n - 1);
      assert a[n - 1] == HexDigit(g % 16) && b[n - 1] == HexDigit(h % 16);
      DigitInjective(g % 16, h % 16);
      HexInjective(g / 16, h / 16, n - 1);
    }
  }

  /** The printed form has exactly sixteen digits and loses nothing. */
  lemma PrintedFormInjective(g: Word, h: Word)
    requires Hex(g, 16) == Hex(h, 16)
    ensures g == h
  {
    hide Hex, Power16;
    Power16Is();
    HexInjective(g, h, 16);
  }

  lemma Power16Is()
    ensures Power16(16) == WORD
  {
    assert Power16(4) == 0x1_0000;
    assert Power16(8) == 0x1_0000_0000;
    assert Power16(12) == 0x1_0000_0000_0000;
  }

  /** Prompts of equal length that differ in exactly one byte never share a fingerprint. */
  lemma OneByteNeverCollides(p: seq<Byte>, q: seq<Byte>, k: nat)
    requires |p| == |q| && k < |p| && p[k] != q[k]
    requires forall i :: 0 <= i < |p| && i != k ==> p[i] == q[i]
    ensures Hex(HashFrom(OFFSET, p), 16) != Hex(HashFrom(OFFSET, q), 16)
  {
    hide Step, Hex, HashFrom;
    var head, tail := p[..k], p[k + 1..];
    assert p == head + ([p[k]] + tail) && q == head + ([q[k]] + tail);
    HashAround(OFFSET, head, p[k], tail);
    HashAround(OFFSET, head, q[k], tail);
    var h := HashFrom(OFFSET, head);
    if Hex(HashFrom(OFFSET, p), 16) == Hex(HashFrom(OFFSET, q), 16) {
      PrintedFormInjective(HashFrom(OFFSET, p), HashFrom(OFFSET, q));
      TailSeparates(Step(h, p[k]), Step(h, q[k]), tail);
      StepInjective(h, h, p[k], q[k]);
    }
  }

  /** The missing digit is never made up for: on every prompt the printed hash differs from the
      one FNV-1a would print. */
  lemma NeverFnv(p: seq<Byte>)
    ensures Hex(HashFrom(OFFSET, p), 16) != Hex(HashFrom(FNV_OFFSET, p), 16)
  {
    hide Hex, HashFrom;
    if Hex(HashFrom(OFFSET, p), 16) == Hex(HashFrom(FNV_OFFSET, p), 16) {
      PrintedFormInjective(HashFrom(OFFSET, p), HashFrom(FNV_OFFSET, p));
      TailSeparates(OFFSET, FNV_OFFSET, p);
    }
  }

  // ---- what one step and the printed form are ----

  /** The number without its last i bits. */
  function DropBits(a: nat, i: nat): nat
    decreases i
  {
    if i == 0 then a else DropBits(a / 2, i - 1)
  }

  /** The number without its last i hexadecimal digits. */
  function DropDigits(a: nat, i: nat): nat
    decreases i
  {
    if i == 0 then a else DropDigits(a / 16, i - 1)
  }

  lemma OddSum(a: nat, b: nat)
    ensures (a + b) % 2 == 1 <==> a % 2 != b % 2
  {
  }

  lemma DropsNone(a: nat)
    ensures DropBits(a, 0) == a
  {
  }

  lemma DropsOneMore(a: nat, i: nat)
    requires i > 0
    ensures DropBits(a, i) == DropBits(a / 2, i - 1)
  {
  }

  /** Bit i of an exclusive or is set exactly when one of the two bits is and the other is not. */
  lemma {:induction false} XorBit(a: nat, b: nat, n: nat, i: nat)
    requires i < n
    ensures DropBits(Xor(a, b, n), i) % 2 == 1 <==> DropBits(a, i) % 2 != DropBits(b, i) % 2
    decreases i
  {
    hide Xor, Pow2, DropBits;
    XorStep(a, b, n);
    if i == 0 {
      OddSum(a, b);
      DropsNone(a);
      DropsNone(b);
      DropsNone(Xor(a, b, n));
    } else {
      XorBit(a / 2, b / 2, n - 1, i - 1);
      DropsOneMore(a, i);
      DropsOneMore(b, i);
      DropsOneMore(Xor(a, b, n), i);
    }
  }

  /** Digit i of the printed form, from the left, in lower case. */
  lemma {:induction false} HexAt(h: nat, n: nat, i: nat)
    requires i < n
    ensures var d := DropDigits(h, n - 1 - i) % 16;
      Hex(h, n)[i] == if d < 10 then '0' + d as char else 'a' + (d - 10) as char
    decreases n
  {
    if i < n - 1 {
      HexAt(h / 16, n - 1, i);
    }
  }

  /** One byte: exclusive or, then times the FNV prime, modulo 2^64. */
  lemma HashByte(h: Word, prompt: seq<Byte>, b: Byte)
    ensures HashFrom(h, prompt + [b]) == Xor(HashFrom(h, prompt), b, 64) * 0x100_0000_01B3 % 0x1_0000_0000_0000_0000
  {
    hide Xor, Pow2;
    assert (prompt + [b])[..|prompt|] == prompt;
  }
}
