/**
  Hexadecimal text: digits, bytes written as two digits, and big-endian numbers.
 */
module HexText {
  import opened Basics

  predicate IsHexDigit(c: char) {
    '0' <= c <= '9' || 'A' <= c <= 'F' || 'a' <= c <= 'f'
  }

  predicate IsHexText(s: string) {
    forall i :: 0 <= i < |s| ==> IsHexDigit(s[i])
  }

  /** The value of a hexadecimal digit. */
  function DigitValue(c: char): (v: nat)
    requires IsHexDigit(c)
    ensures v < 16
  {
    if c <= '9' then c as int - '0' as int
    else if c <= 'F' then 10 + (c as int - 'A' as int)
    else 10 + (c as int - 'a' as int)
  }

  /** The digit printed by `%X`. */
  function HexDigit(v: nat): (c: char)
    requires v < 16
    ensures IsHexDigit(c) && DigitValue(c) == v
  {
    if v < 10 then ('0' as int + v) as char else ('A' as int + v - 10) as char
  }

  /** The byte that the digit pair `i` of a text stands for. */
  function PairAt(s: string, i: nat): Byte
    requires IsHexText(s) && 2 * i + 1 < |s|
  {
    16 * DigitValue(s[2 * i]) + DigitValue(s[2 * i + 1])
  }

  /** The bytes that a text of `n` digit pairs stands for. */
  function BytesOf(s: string, n: nat): (bytes: seq<Byte>)
    requires IsHexText(s) && |s| == 2 * n
    ensures |bytes| == n
  {
    seq(n, i requires 0 <= i < n => PairAt(s, i))
  }

  /** `%02X` of every byte. */
  function HexOf(bytes: seq<Byte>): (s: string)
    ensures IsHexText(s) && |s| == 2 * |bytes|
  {
    seq(2 * |bytes|, i requires 0 <= i < 2 * |bytes| =>
      HexDigit(if i % 2 == 0 then bytes[i / 2] / 16 else bytes[i / 2] % 16))
  }

  lemma BytesOfHexOf(bytes: seq<Byte>)
    ensures BytesOf(HexOf(bytes), |bytes|) == bytes
  {
    var s := HexOf(bytes);
    forall i | 0 <= i < |bytes|
      ensures PairAt(s, i) == bytes[i]
    {
      assert DigitValue(s[2 * i]) == bytes[i] / 16;
      assert DigitValue(s[2 * i + 1]) == bytes[i] % 16;
    }
  }

  lemma BytesOfConcat(a: string, n: nat, b: string, m: nat)
    requires IsHexText(a) && IsHexText(b) && |a| == 2 * n && |b| == 2 * m
    ensures BytesOf(a + b, n + m) == BytesOf(a, n) + BytesOf(b, m)
  {
    forall i | 0 <= i < n + m
      ensures PairAt(a + b, i) == if i < n then PairAt(a, i) else PairAt(b, i - n)
    {
    }
  }

  /** `digits` is how `data` is written. */
  predicate Spells(digits: string, data: seq<Byte>) {
    IsHexText(digits) && |digits| == 2 * |data| && BytesOf(digits, |data|) == data
  }

  lemma SpellsConcat(a: string, x: seq<Byte>, b: string, y: seq<Byte>)
    requires Spells(a, x) && Spells(b, y)
    ensures Spells(a + b, x + y)
  {
    BytesOfConcat(a, |x|, b, |y|);
  }

  lemma SpellsSplit(s: string, data: seq<Byte>, n: nat)
    requires Spells(s, data) && n <= |data|
    ensures Spells(s[..2 * n], data[..n]) && Spells(s[2 * n..], data[n..])
  {
    var a, b := s[..2 * n], s[2 * n..];
    assert s == a + b;
    BytesOfConcat(a, n, b, |data| - n);
  }

  function BigEndian(bytes: seq<Byte>): nat {
    if bytes == [] then 0 else 256 * BigEndian(bytes[..|bytes| - 1]) + bytes[|bytes| - 1]
  }

  function Power256(k: nat): (p: nat)
    ensures p >= 1
  {
    if k == 0 then 1 else 256 * Power256(k - 1)
  }

  /** `n` as `k` bytes, most significant first. */
  function ToBytes(n: nat, k: nat): (bytes: seq<Byte>)
    requires n < Power256(k)
    ensures |bytes| == k
  {
    if k == 0 then [] else ToBytes(n / 256, k - 1) + [n % 256]
  }

  lemma {:induction false} BigEndianToBytes(n: nat, k: nat)
    requires n < Power256(k)
    ensures BigEndian(ToBytes(n, k)) == n
  {
    if k > 0 {
      BigEndianToBytes(n / 256, k - 1);
      assert ToBytes(n, k)[..k - 1] == ToBytes(n / 256, k - 1);
    }
  }

  lemma {:induction false} BigEndianBound(bytes: seq<Byte>)
    ensures BigEndian(bytes) < Power256(|bytes|)
  {
    if bytes != [] {
      BigEndianBound(bytes[..|bytes| - 1]);
    }
  }

  function Sum(bytes: seq<Byte>): nat {
    if bytes == [] then 0 else Sum(bytes[..|bytes| - 1]) + bytes[|bytes| - 1]
  }

  lemma {:induction false} SumConcat(a: seq<Byte>, b: seq<Byte>)
    ensures Sum(a + b) == Sum(a) + Sum(b)
    decreases |b|
  {
    if b == [] {
      assert a + b == a;
    } else {
      assert (a + b)[..|a + b| - 1] == a + b[..|b| - 1];
      SumConcat(a, b[..|b| - 1]);
    }
  }

  // ---------------------------------------------------------- reading a line

  /** The `n` bytes written at `p`; none if there is a character that is no digit, or the text ends. */
  function ReadAt(s: string, p: nat, n: nat): (r: Option<seq<Byte>>)
    ensures r.Some? ==> |r.value| == n
  {
    if p + 2 * n <= |s| && IsHexText(s[p..p + 2 * n]) then Some(BytesOf(s[p..p + 2 * n], n)) else None
  }

  /** Reads back the piece of a text that is `t`. */
  lemma ReadPiece(before: string, t: string, n: nat, after: string)
    requires IsHexText(t) && |t| == 2 * n
    ensures ReadAt(before + (t + after), |before|, n) == Some(BytesOf(t, n))
  {
    var s := before + (t + after);
    assert s[|before|..|before| + 2 * n] == t;
  }

  lemma ReadHexPiece(before: string, bytes: seq<Byte>, after: string)
    ensures ReadAt(before + (HexOf(bytes) + after), |before|, |bytes|) == Some(bytes)
  {
    ReadPiece(before, HexOf(bytes), |bytes|, after);
    BytesOfHexOf(bytes);
  }
}
