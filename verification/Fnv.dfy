/** The socket name of `native/clide-cli/clide.c`: FNV-1a over the bytes of the workspace path, in 64-bit
    arithmetic, printed as 16 hexadecimal digits. */
module Fnv {
  const OFFSET: nat := 0xcbf29ce484222325
  const PRIME: nat := 0x100000001b3
  const WORD: nat := 0x1_0000_0000_0000_0000

  /** The inverse of the prime modulo 2^64. */
  const INVERSE: nat := 0xce965057aff6957b
  const CARRY: nat := 887285111055

  /** A C string of bytes. */
  predicate Bytes(s: string) { forall i :: 0 <= i < |s| ==> 0 < s[i] as int < 256 }

  function Pow2(bits: nat): nat { if bits == 0 then 1 else 2 * Pow2(bits - 1) }

  /** Exclusive or of the low bits. */
  function Xor(a: nat, b: nat, bits: nat): (r: nat)
    ensures r < Pow2(bits)
  {
    if bits == 0 then 0 else 2 * Xor(a / 2, b / 2, bits - 1) + (if a % 2 == b % 2 then 0 else 1)
  }

  function Xor8(a: nat, b: nat): (r: nat)
    ensures r < 256
  {
    assert Pow2(4) == 16 && Pow2(8) == 256;
    Xor(a, b, 8)
  }

  /** `h ^= c` for a byte `c`. */
  function XorByte(h: nat, c: char): (r: nat)
    requires h < WORD && c as int < 256
    ensures r < WORD
  {
    h / 256 * 256 + Xor8(h % 256, c as nat)
  }

  function Step(h: nat, c: char): (r: nat)
    requires h < WORD && c as int < 256
    ensures r < WORD
  {
    XorByte(h, c) * PRIME % WORD
  }

  function HashFrom(h: nat, s: string): (r: nat)
    requires h < WORD && Bytes(s)
    ensures r < WORD
  {
    if |s| == 0 then h else Step(HashFrom(h, s[..|s| - 1]), s[|s| - 1])
  }

  function Digit(d: nat): char
    requires d < 16
  {
    if d < 10 then '0' + d as char else 'a' + (d - 10) as char
  }

  /** The `n` low hexadecimal digits of `h`, leading zeros included. */
  function Hex(h: nat, n: nat): (s: string)
    ensures |s| == n
  {
    if n == 0 then "" else Hex(h / 16, n - 1) + [Digit(h % 16)]
  }

  function SocketName(path: string): string
    requires Bytes(path)
  {
    Hex(HashFrom(OFFSET, path), 16)
  }

  method Fnv1a64Hex(s: string) returns (out: string)
    requires Bytes(s)
    ensures out == SocketName(s) && |out| == 16
  {
    var h: nat := OFFSET;
    var i := 0;
    while i < |s|
      invariant 0 <= i <= |s| && h < WORD
      invariant h == HashFrom(OFFSET, s[..i])
    {
      assert s[..i + 1][..i] == s[..i];
      h := XorByte(h, s[i]);
      h := h * PRIME % WORD;
      i := i + 1;
    }
    assert s[..i] == s;
    out := Hex(h, 16);
  }

  // ---- every step is a bijection ------------------------------------------------------------------

  lemma {:induction false} XorUndo(a: nat, b: nat, bits: nat)
    requires a < Pow2(bits)
    ensures Xor(Xor(a, b, bits), b, bits) == a
  {
    if bits > 0 {
      var r := Xor(a, b, bits);
      XorUndo(a / 2, b / 2, bits - 1);
      assert r / 2 == Xor(a / 2, b / 2, bits - 1);
    }
  }

  lemma Xor8Undo(a: nat, b: nat)
    requires a < 256
    ensures Xor8(Xor8(a, b), b) == a
  {
    assert Pow2(4) == 16 && Pow2(8) == 256;
    XorUndo(a, b, 8);
  }

  lemma {:induction false} XorCommutes(a: nat, b: nat, bits: nat)
    ensures Xor(a, b, bits) == Xor(b, a, bits)
  {
    if bits > 0 { XorCommutes(a / 2, b / 2, bits - 1); }
  }

  lemma XorByteUndo(h: nat, c: char)
    requires h < WORD && c as int < 256
    ensures XorByte(XorByte(h, c), c) == h
  {
    Xor8Undo(h % 256, c as nat);
    var r := XorByte(h, c);
    assert r / 256 == h / 256 && r % 256 == Xor8(h % 256, c as nat);
  }

  lemma InverseOfPrime()
    ensures PRIME * INVERSE == 1 + CARRY * WORD
  {}

  lemma ModUnique(x: int, q: int, r: int)
    requires x == q * WORD + r && 0 <= r < WORD
    ensures x % WORD == r
  {}

  /** Multiplying by the inverse undoes multiplying by the prime. */
  lemma TimesPrimeUndo(x: nat)
    requires x < WORD
    ensures (x * PRIME % WORD) * INVERSE % WORD == x
  {
    InverseOfPrime();
    var q, r := x * PRIME / WORD, x * PRIME % WORD;
    assert x * PRIME == q * WORD + r;
    calc {
      r * INVERSE;
      (x * PRIME - q * WORD) * INVERSE;
      x * PRIME * INVERSE - q * WORD * INVERSE;
      { assert x * PRIME * INVERSE == x * (PRIME * INVERSE); }
      x * (1 + CARRY * WORD) - q * WORD * INVERSE;
      (x * CARRY - q * INVERSE) * WORD + x;
    }
    ModUnique(r * INVERSE, x * CARRY - q * INVERSE, x);
  }

  /** The state before a step can be computed from the state after it and the byte. */
  function Unstep(h: nat, c: char): (r: nat)
    requires h < WORD && c as int < 256
    ensures r < WORD
  {
    XorByte(h * INVERSE % WORD, c)
  }

  lemma StepUndo(h: nat, c: char)
    requires h < WORD && c as int < 256
    ensures Unstep(Step(h, c), c) == h
  {
    TimesPrimeUndo(XorByte(h, c));
    XorByteUndo(h, c);
  }

  /** Two different bytes take the same state apart. */
  lemma StepSeparates(h: nat, a: char, b: char)
    requires h < WORD && a as int < 256 && b as int < 256 && a != b
    ensures Step(h, a) != Step(h, b)
  {
    TimesPrimeUndo(XorByte(h, a));
    TimesPrimeUndo(XorByte(h, b));
    var low := h % 256;
    if Xor8(low, a as nat) == Xor8(low, b as nat) {
      XorCommutes(low, a as nat, 8);
      XorCommutes(low, b as nat, 8);
      Xor8Undo(a as nat, low);
      Xor8Undo(b as nat, low);
    }
  }

  // ---- suffixes -----------------------------------------------------------------------------------

  lemma {:induction false} HashAppend(h: nat, a: string, b: string)
    requires h < WORD && Bytes(a) && Bytes(b)
    ensures Bytes(a + b) && HashFrom(h, a + b) == HashFrom(HashFrom(h, a), b)
  {
    if |b| == 0 {
      assert a + b == a;
    } else {
      HashAppend(h, a, b[..|b| - 1]);
      assert (a + b)[..|a + b| - 1] == a + b[..|b| - 1];
    }
  }

  /** A common suffix keeps states apart and together. */
  lemma {:induction false} SuffixIff(g: nat, h: nat, s: string)
    requires g < WORD && h < WORD && Bytes(s)
    ensures HashFrom(g, s) == HashFrom(h, s) <==> g == h
  {
    if |s| > 0 {
      var init, last := s[..|s| - 1], s[|s| - 1];
      SuffixIff(g, h, init);
      StepUndo(HashFrom(g, init), last);
      StepUndo(HashFrom(h, init), last);
    }
  }

  // ---- the digits ---------------------------------------------------------------------------------

  function Pow16(n: nat): nat { if n == 0 then 1 else 16 * Pow16(n - 1) }

  lemma {:induction false} HexInjective(g: nat, h: nat, n: nat)
    requires g < Pow16(n) && h < Pow16(n) && Hex(g, n) == Hex(h, n)
    ensures g == h
  {
    if n > 0 {
      assert Hex(g, n)[n - 1] == Hex(h, n)[n - 1];
      assert Hex(g, n)[..n - 1] == Hex(g / 16, n - 1) && Hex(h, n)[..n - 1] == Hex(h / 16, n - 1);
      HexInjective(g / 16, h / 16, n - 1);
    }
  }

  lemma SameNameIff(a: string, b: string)
    requires Bytes(a) && Bytes(b)
    ensures SocketName(a) == SocketName(b) <==> HashFrom(OFFSET, a) == HashFrom(OFFSET, b)
  {
    assert Pow16(4) == 0x1_0000 && Pow16(8) == 0x1_0000_0000;
    assert Pow16(12) == 0x1_0000_0000_0000 && Pow16(16) == WORD;
    if SocketName(a) == SocketName(b) { HexInjective(HashFrom(OFFSET, a), HashFrom(OFFSET, b), 16); }
  }

  // ---- reference values ---------------------------------------------------------------------------

  /** A step in numbers: the state is 256 * `high` + `low`, the exclusive or makes `mixed` of `low`, and the
      product has the quotient `q` and the rest `r`. */
  lemma StepIs(high: nat, low: nat, c: char, byte: nat, mixed: nat, q: nat, r: nat)
    requires 256 * high + low < WORD && low < 256 && c as int == byte < 256 && Xor(low, byte, 8) == mixed
    requires (256 * high + mixed) * PRIME == q * WORD + r && r < WORD
    ensures Step(256 * high + low, c) == r
  {
    var h := 256 * high + low;
    assert h / 256 == high && h % 256 == low;
    ModUnique((256 * high + mixed) * PRIME, q, r);
  }

  function Bits(p: seq<bool>): nat {
    if |p| == 0 then 0 else 2 * Bits(p[..|p| - 1]) + Bit(p[|p| - 1])
  }

  function Differ(p: seq<bool>, q: seq<bool>): seq<bool>
    requires |p| == |q|
  {
    seq(|p|, i requires 0 <= i < |p| => p[i] != q[i])
  }

  lemma {:induction false} XorOfBits(p: seq<bool>, q: seq<bool>)
    requires |p| == |q|
    ensures Xor(Bits(p), Bits(q), |p|) == Bits(Differ(p, q))
  {
    if |p| > 0 {
      var n := |p| - 1;
      XorOfBits(p[..n], q[..n]);
      LowBit(p);
      LowBit(q);
      LowBit(Differ(p, q));
      assert Differ(p, q)[..n] == Differ(p[..n], q[..n]);
    }
  }

  lemma LowBit(p: seq<bool>)
    requires |p| > 0
    ensures Bits(p) / 2 == Bits(p[..|p| - 1]) && Bits(p) % 2 == Bit(p[|p| - 1])
    ensures Bits(p) == 2 * Bits(p[..|p| - 1]) + Bit(p[|p| - 1])
  {}

  function Bit(on: bool): nat { if on then 1 else 0 }

  lemma FourBits(p: seq<bool>)
    requires |p| >= 4
    ensures var n := |p|;
            Bits(p) == 16 * Bits(p[..n - 4]) + 8 * Bit(p[n - 4]) + 4 * Bit(p[n - 3]) + 2 * Bit(p[n - 2]) + Bit(p[n - 1])
  {
    var n := |p|;
    assert p[..n - 1][..n - 2] == p[..n - 2] && p[..n - 2][..n - 3] == p[..n - 3] && p[..n - 3][..n - 4] == p[..n - 4];
  }

  /** Eight bits as a number, written out. */
  function Byte(p: seq<bool>): nat
    requires |p| == 8
  {
    128 * Bit(p[0]) + 64 * Bit(p[1]) + 32 * Bit(p[2]) + 16 * Bit(p[3])
    + 8 * Bit(p[4]) + 4 * Bit(p[5]) + 2 * Bit(p[6]) + Bit(p[7])
  }

  lemma EightBits(p: seq<bool>)
    requires |p| == 8
    ensures Bits(p) == Byte(p)
  {
    FourBits(p);
    FourBits(p[..4]);
    assert p[..4][..0] == [];
  }

  lemma XorOf(p: seq<bool>, q: seq<bool>)
    requires |p| == |q| == 8
    ensures Xor(Byte(p), Byte(q), 8) == Byte(Differ(p, q))
  {
    EightBits(p);
    EightBits(q);
    EightBits(Differ(p, q));
    XorOfBits(p, q);
  }

  lemma StepOfA()
    ensures Step(OFFSET, 'a') == 0xaf63dc4c8601ec8c
  {
    var p, q := [false, false, true, false, false, true, false, true],
                [false, true, true, false, false, false, false, true];
    XorOf(p, q);
    assert Byte(p) == 0x25 && Byte(q) == 0x61 && Byte(Differ(p, q)) == 0x44;
    StepIs(0xcbf29ce4842223, 0x25, 'a', 0x61, 0x44, 0xcbf29ce5de, 0xaf63dc4c8601ec8c);
  }

  lemma FirstStepOfFoo()
    ensures Step(OFFSET, 'f') == 0xaf63db4c8601ead9
  {
    var p, q := [false, false, true, false, false, true, false, true],
                [false, true, true, false, false, true, true, false];
    XorOf(p, q);
    assert Byte(p) == 0x25 && Byte(q) == 0x66 && Byte(Differ(p, q)) == 0x43;
    StepIs(0xcbf29ce4842223, 0x25, 'f', 0x66, 0x43, 0xcbf29ce5de, 0xaf63db4c8601ead9);
  }

  lemma SecondStepOfFoo()
    ensures Step(0xaf63db4c8601ead9, 'o') == 0x8985907b541d342
  {
    var p, q := [true, true, false, true, true, false, false, true],
                [false, true, true, false, true, true, true, true];
    XorOf(p, q);
    assert Byte(p) == 0xd9 && Byte(q) == 0x6f && Byte(Differ(p, q)) == 0xb6;
    StepIs(0xaf63db4c8601ea, 0xd9, 'o', 0x6f, 0xb6, 0xaf63db4db0, 0x8985907b541d342);
  }

  lemma ThirdStepOfFoo()
    ensures Step(0x8985907b541d342, 'o') == 0xdcb27518fed9d577
  {
    var p, q := [false, true, false, false, false, false, true, false],
                [false, true, true, false, true, true, true, true];
    XorOf(p, q);
    assert Byte(p) == 0x42 && Byte(q) == 0x6f && Byte(Differ(p, q)) == 0x2d;
    StepIs(0x8985907b541d3, 0x42, 'o', 0x6f, 0x2d, 0x8985907c3, 0xdcb27518fed9d577);
  }

  lemma HexNext(h: nat, d: nat, n: nat)
    requires d < 16
    ensures Hex(16 * h + d, n + 1) == Hex(h, n) + [Digit(d)]
  {
    assert (16 * h + d) / 16 == h && (16 * h + d) % 16 == d;
  }

  /** Four digits. */
  datatype Quad = Quad(a: nat, b: nat, c: nat, d: nat)

  predicate Proper(q: Quad) { q.a < 16 && q.b < 16 && q.c < 16 && q.d < 16 }

  function Number(q: Quad): nat { 4096 * q.a + 256 * q.b + 16 * q.c + q.d }

  function Text(q: Quad): string
    requires Proper(q)
  {
    [Digit(q.a), Digit(q.b), Digit(q.c), Digit(q.d)]
  }

  lemma FourMore(g: nat, q: Quad, h: nat, n: nat)
    requires Proper(q) && h == 0x1_0000 * g + Number(q)
    ensures Hex(h, n + 4) == Hex(g, n) + Text(q)
  {
    var g1 := 16 * g + q.a;
    var g2 := 16 * g1 + q.b;
    var g3 := 16 * g2 + q.c;
    HexNext(g, q.a, n);
    HexNext(g1, q.b, n + 1);
    HexNext(g2, q.c, n + 2);
    HexNext(g3, q.d, n + 3);
    assert h == 16 * g3 + q.d;
  }

  lemma SixteenDigits(h: nat, p: Quad, q: Quad, r: Quad, s: Quad)
    requires Proper(p) && Proper(q) && Proper(r) && Proper(s)
    requires h == 0x1_0000 * (0x1_0000 * (0x1_0000 * Number(p) + Number(q)) + Number(r)) + Number(s)
    ensures Hex(h, 16) == Text(p) + Text(q) + Text(r) + Text(s)
  {
    var first := Number(p);
    var second := 0x1_0000 * first + Number(q);
    var third := 0x1_0000 * second + Number(r);
    FirstFour(p, first);
    FourMore(first, q, second, 4);
    FourMore(second, r, third, 8);
    FourMore(third, s, h, 12);
  }

  lemma FirstFour(p: Quad, h: nat)
    requires Proper(p) && h == Number(p)
    ensures Hex(h, 4) == Text(p)
  {
    FourMore(0, p, h, 0);
    assert Hex(0, 0) + Text(p) == Text(p);
  }

  lemma DigitsOfEmpty(h: nat)
    requires h == 0xcbf29ce484222325
    ensures Hex(h, 16) == "cbf29ce484222325"
  {
    SixteenDigits(h, Quad(12, 11, 15, 2), Quad(9, 12, 14, 4),
                  Quad(8, 4, 2, 2), Quad(2, 3, 2, 5));
    assert "cbf2" + "9ce4" + "8422" + "2325" == "cbf29ce484222325";
  }

  lemma DigitsOfA(h: nat)
    requires h == 0xaf63dc4c8601ec8c
    ensures Hex(h, 16) == "af63dc4c8601ec8c"
  {
    SixteenDigits(h, Quad(10, 15, 6, 3), Quad(13, 12, 4, 12),
                  Quad(8, 6, 0, 1), Quad(14, 12, 8, 12));
    assert "af63" + "dc4c" + "8601" + "ec8c" == "af63dc4c8601ec8c";
  }

  lemma DigitsOfFoo(h: nat)
    requires h == 0xdcb27518fed9d577
    ensures Hex(h, 16) == "dcb27518fed9d577"
  {
    SixteenDigits(h, Quad(13, 12, 11, 2), Quad(7, 5, 1, 8),
                  Quad(15, 14, 13, 9), Quad(13, 5, 7, 7));
    assert "dcb2" + "7518" + "fed9" + "d577" == "dcb27518fed9d577";
  }

  lemma HashSnoc(s: string, c: char)
    requires Bytes(s) && 0 < c as int < 256
    ensures Bytes(s + [c]) && HashFrom(OFFSET, s + [c]) == Step(HashFrom(OFFSET, s), c)
  {
    assert (s + [c])[..|s|] == s;
  }

  /** The published values for the empty text, `a` and `foo`, which the server's side computes as well. */
  lemma ReferenceValues()
    ensures Bytes("") && Bytes("a") && Bytes("foo")
    ensures SocketName("") == "cbf29ce484222325"
    ensures SocketName("a") == "af63dc4c8601ec8c"
    ensures SocketName("foo") == "dcb27518fed9d577"
  {
    HashOfA();
    HashOfFoo();
    DigitsOfEmpty(HashFrom(OFFSET, ""));
    DigitsOfA(HashFrom(OFFSET, "a"));
    DigitsOfFoo(HashFrom(OFFSET, "foo"));
  }

  lemma HashOfA()
    ensures Bytes("a") && HashFrom(OFFSET, "a") == 0xaf63dc4c8601ec8c
  {
    StepOfA();
    HashSnoc("", 'a');
    assert "" + ['a'] == "a";
  }

  lemma HashOfFoo()
    ensures Bytes("foo") && HashFrom(OFFSET, "foo") == 0xdcb27518fed9d577
  {
    FirstStepOfFoo();
    SecondStepOfFoo();
    ThirdStepOfFoo();
    HashSnoc("", 'f');
    HashSnoc("f", 'o');
    HashSnoc("fo", 'o');
    assert "" + ['f'] == "f" && "f" + ['o'] == "fo" && "fo" + ['o'] == "foo";
  }

  // ---- main results -------------------------------------------------------------------------------

  /** A common suffix neither creates nor removes a collision. */
  lemma CommonSuffixIff(a: string, b: string, s: string)
    requires Bytes(a) && Bytes(b) && Bytes(s)
    ensures Bytes(a + s) && Bytes(b + s)
    ensures SocketName(a + s) == SocketName(b + s) <==> SocketName(a) == SocketName(b)
  {
    HashAppend(OFFSET, a, s);
    HashAppend(OFFSET, b, s);
    SuffixIff(HashFrom(OFFSET, a), HashFrom(OFFSET, b), s);
    SameNameIff(a, b);
    SameNameIff(a + s, b + s);
  }

  /** Paths of equal length that differ in exactly one byte get different names. */
  lemma OneByteApart(a: string, b: string, i: nat)
    requires Bytes(a) && Bytes(b) && |a| == |b| && i < |a|
    requires a[i] != b[i] && forall j :: 0 <= j < |a| && j != i ==> a[j] == b[j]
    ensures SocketName(a) != SocketName(b)
  {
    var p, s := a[..i], a[i + 1..];
    assert b[..i] == p && b[i + 1..] == s;
    assert a == (p + [a[i]]) + s && b == (p + [b[i]]) + s;
    CommonSuffixIff(p + [a[i]], p + [b[i]], s);
    StepSeparates(HashFrom(OFFSET, p), a[i], b[i]);
    assert (p + [a[i]])[..i] == p && (p + [b[i]])[..i] == p;
    SameNameIff(p + [a[i]], p + [b[i]]);
  }
}
