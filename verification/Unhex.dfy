/**
  unhex: reads hex records line by line, checks them, and stores their bytes.
 */
module Unhex {
  import opened Basics
  import opened HexText
  import opened HexRecords

  const LONG_MINUS_ONE := 0xFFFF_FFFF

  /** What a line makes unhex do. */
  datatype Outcome =
    | Rejected
    | Stored(address: nat, data: seq<Byte>)
    | Based(base: nat)
    | Started
    | Ended
    | Skipped

  // ------------------------------------------------- scanning, as the source does

  lemma HexTextConcat(a: string, b: string)
    ensures IsHexText(a + b) <==> IsHexText(a) && IsHexText(b)
  {
    assert forall i :: 0 <= i < |a| ==> (a + b)[i] == a[i];
    assert forall i :: 0 <= i < |b| ==> (a + b)[|a| + i] == b[i];
  }

  lemma ReadAtStep(s: string, p: nat, n: nat)
    ensures ReadAt(s, p, n + 1) ==
            if ReadAt(s, p, n).Some? && ReadAt(s, p + 2 * n, 1).Some?
            then Some(ReadAt(s, p, n).value + ReadAt(s, p + 2 * n, 1).value) else None
  {
    if p + 2 * n + 2 <= |s| {
      var a, b, ab := s[p..p + 2 * n], s[p + 2 * n..p + 2 * n + 2], s[p..p + 2 * (n + 1)];
      assert ab == a + b;
      HexTextConcat(a, b);
      if IsHexText(a) && IsHexText(b) {
        BytesOfConcat(a, n, b, 1);
      }
    }
  }

  lemma ReadAtNothing(s: string, p: nat, n: nat)
    ensures ReadAt(s, p, n).Some? ==> ReadAt(s, p + 2 * n, 0) == Some([])
  {
  }

  function ToUpper(c: char): char {
    if 'a' <= c <= 'z' then (c as int - 32) as char else c
  }

  /** `getnibble` at `p`: the value and the next position, or -1; the text ends with a NUL. */
  method GetNibble(s: string, p: nat) returns (v: int, next: nat)
    requires p <= |s|
    ensures if p < |s| && IsHexDigit(s[p]) then v == DigitValue(s[p]) && next == p + 1 else v == -1
    ensures next <= |s|
  {
    next := p;
    if p == |s| {
      return -1, p;
    }
    var c := ToUpper(s[p]);
    if '0' <= c <= '9' {
      v := c as int - '0' as int;
    } else if 'A' <= c <= 'F' {
      v := 10 + (c as int - 'A' as int);
    } else {
      return -1, p;
    }
    next := p + 1;
  }

  /** `getbyte` */
  method GetByte(s: string, p: nat) returns (v: int, next: nat)
    requires p <= |s|
    ensures if ReadAt(s, p, 1).Some? then v == ReadAt(s, p, 1).value[0] && next == p + 2 else v == -1
    ensures next <= |s|
  {
    var n0, n1;
    n0, next := GetNibble(s, p);
    if p + 2 <= |s| {
      assert s[p..p + 2] == [s[p], s[p + 1]];
      if IsHexText(s[p..p + 2]) {
        assert IsHexDigit(s[p..p + 2][0]) && IsHexDigit(s[p..p + 2][1]);
        assert BytesOf(s[p..p + 2], 1)[0] == PairAt(s[p..p + 2], 0);
      }
    }
    if n0 == -1 {
      return -1, next;
    }
    n1, next := GetNibble(s, next);
    if n1 == -1 {
      return -1, next;
    }
    v := 16 * n0 + n1;
  }

  /** `getNbytes`, whose -1 is a 32-bit word of ones for the caller. */
  method GetNBytes(s: string, p: nat, n: nat) returns (v: nat, next: nat)
    requires p <= |s|
    ensures if ReadAt(s, p, n).Some? then v == BigEndian(ReadAt(s, p, n).value) && next == p + 2 * n
            else v == LONG_MINUS_ONE
    ensures next <= |s|
  {
    v, next := 0, p;
    var i := 0;
    assert s[p..p] == [];
    while i < n
      invariant 0 <= i <= n && next == p + 2 * i <= |s|
      invariant ReadAt(s, p, i).Some? && v == BigEndian(ReadAt(s, p, i).value)
    {
      ReadAtStep(s, p, i);
      var t;
      t, next := GetByte(s, next);
      if t == -1 {
        ReadAtPrefix(s, p, i + 1, n);
        return LONG_MINUS_ONE, next;
      }
      assert ReadAt(s, p, i + 1).value[..i] == ReadAt(s, p, i).value;
      v := 256 * v + t;
      i := i + 1;
    }
  }

  lemma ReadAtPrefix(s: string, p: nat, m: nat, n: nat)
    requires m <= n
    ensures ReadAt(s, p, n).Some? ==> ReadAt(s, p, m).Some?
  {
    if ReadAt(s, p, n).Some? {
      var a, b := s[p..p + 2 * m], s[p..p + 2 * n];
      assert forall i :: 0 <= i < 2 * m ==> a[i] == b[i];
    }
  }

  /** The data loop of the converters: the bytes and their sum, or nothing after a bad byte. */
  method GetData(s: string, p: nat, len: nat) returns (data: Option<seq<Byte>>, sum: nat, next: nat)
    requires p <= |s|
    ensures data == ReadAt(s, p, len)
    ensures data.Some? ==> sum == Sum(data.value) && next == p + 2 * len
    ensures next <= |s|
  {
    data, sum, next := Some([]), 0, p;
    assert s[p..p] == [];
    var i := 0;
    while i < len
      invariant 0 <= i <= len && next == p + 2 * i <= |s|
      invariant data.Some? && data == ReadAt(s, p, i) && sum == Sum(data.value)
    {
      ReadAtStep(s, p, i);
      var c;
      c, next := GetByte(s, next);
      if c == -1 {
        ReadAtPrefix(s, p, i + 1, len);
        return None, sum, next;
      }
      assert ReadAt(s, p + 2 * i, 1).value == [c];
      assert (data.value + [c])[..i] == data.value;
      data := Some(data.value + [c]);
      sum := sum + c;
      i := i + 1;
    }
  }

  // --------------------------------------------------------- Intel records

  /** The sum of the fields that every Intel record has. */
  function IntelSum(len: Byte, address: seq<Byte>, kind: Byte): nat {
    len + Sum(address) + kind
  }

  /** One line of `convert_Intel_records`, with the base address in force. */
  function ParseIntel(line: string, base: nat): Outcome {
    var len, address, kind := ReadAt(line, 1, 1), ReadAt(line, 3, 2), ReadAt(line, 7, 1);
    if !(":" <= line) || len.None? || address.None? || kind.None? then Rejected
    else
      var sum := IntelSum(len.value[0], address.value, kind.value[0]);
      match kind.value[0]
      case 0 =>
        var n: nat := len.value[0];
        var data, check := ReadAt(line, 9, n), ReadAt(line, 9 + 2 * n, 1);
        if data.None? || check.None? || check.value[0] != Checksum(INTEL_HEX, sum + Sum(data.value)) then Rejected
        else Stored((base + BigEndian(address.value)) % 0x1_0000_0000, data.value)
      case 1 =>
        var check := ReadAt(line, 9, 1);
        if check.None? || check.value[0] != Checksum(INTEL_HEX, sum) then Rejected else Ended
      case 2 =>
        var segment, check := ReadAt(line, 9, 2), ReadAt(line, 13, 1);
        if segment.None? || check.None? || check.value[0] != Checksum(INTEL_HEX, sum + Sum(segment.value)) then Rejected
        else Based(16 * BigEndian(segment.value))
      case 3 =>
        var segment, offset, check := ReadAt(line, 9, 2), ReadAt(line, 13, 2), ReadAt(line, 17, 1);
        if segment.None? || offset.None? || check.None? ||
           check.value[0] != Checksum(INTEL_HEX, sum + Sum(segment.value) + Sum(offset.value)) then Rejected
        else Started
      case _ => Rejected
  }

  /** unhex stores exactly what an Intel data record says, above the base, and stores nothing else. */
  lemma IntelAgrees(line: string, base: nat)
    ensures match Decode(INTEL_HEX, line)
            case Some(r) => ParseIntel(line, base) == Stored((base + r.address) % 0x1_0000_0000, r.data)
            case None => !ParseIntel(line, base).Stored?
  {
    hide ReadAt;
    var kind := ReadAt(line, 7, 1);
    if kind.Some? {
      assert kind.value == [kind.value[0]];
    }
  }

  // ------------------------------------------------------ Motorola S records

  /** A data record with `k` address bytes and length field `len`. */
  function ParseSData(line: string, k: nat, len: nat): Outcome {
    var address := ReadAt(line, 4, k);
    if address.None? || BigEndian(address.value) == LONG_MINUS_ONE || len < k + 1 then Rejected
    else
      var n := len - (k + 1);
      var data, check := ReadAt(line, 4 + 2 * k, n), ReadAt(line, 4 + 2 * k + 2 * n, 1);
      if data.None? || check.None? || check.value[0] != 255 - (len + Sum(address.value) + Sum(data.value)) % 256 then Rejected
      else Stored(BigEndian(address.value), data.value)
  }

  /** An end record with `k` address bytes and length field `len`. */
  function ParseSEnd(line: string, k: nat, len: nat): Outcome {
    var address, check := ReadAt(line, 4, k), ReadAt(line, 4 + 2 * k, 1);
    if address.None? || BigEndian(address.value) == LONG_MINUS_ONE || check.None? ||
       check.value[0] != 255 - (len + Sum(address.value)) % 256 then Rejected
    else Started
  }

  /** One line of `convert_S_records`. */
  function ParseS(line: string): Outcome {
    var len := ReadAt(line, 2, 1);
    if !("S" <= line) || |line| < 2 || !IsHexDigit(line[1]) || len.None? then Rejected
    else
      var kind := DigitValue(line[1]);
      if kind == 0 then Skipped
      else if 1 <= kind <= 3 then ParseSData(line, kind + 1, len.value[0])
      else if 7 <= kind <= 9 then ParseSEnd(line, 11 - kind, len.value[0])
      else Rejected
  }

  lemma SDataAgrees(f: Format, line: string)
    requires |f.header| == 2 && f.countOffset == f.addressBytes + 1 && f.kind == [] && !f.twos && f.header <= line
    ensures var r, len := Decode(f, line), ReadAt(line, 2, 1);
            match r
            case Some(r) =>
              len.Some? && ParseSData(line, f.addressBytes, len.value[0]) ==
                if r.address == LONG_MINUS_ONE then Rejected else Stored(r.address, r.data)
            case None => len.Some? ==> !ParseSData(line, f.addressBytes, len.value[0]).Stored?
  {
    hide ReadAt;
    ReadAtNothing(line, 4, f.addressBytes);
  }

  lemma DecodeHeader(f: Format, line: string)
    ensures Decode(f, line).Some? ==> f.header <= line
  {
  }

  /**
    unhex stores exactly what an S data record says, except one at the address that it
    takes for an error, and stores nothing for any other line.
   */
  lemma SAgrees(line: string)
    ensures forall f | f in {MOTOROLA_S1, MOTOROLA_S2, MOTOROLA_S3} && Decode(f, line).Some? ::
              ParseS(line) == var r := Decode(f, line).value;
                if r.address == LONG_MINUS_ONE then Rejected else Stored(r.address, r.data)
    ensures (forall f | f in {MOTOROLA_S1, MOTOROLA_S2, MOTOROLA_S3} :: Decode(f, line).None?) ==> !ParseS(line).Stored?
  {
    hide Decode, ParseSData, ReadAt;
    DecodeHeader(MOTOROLA_S1, line);
    DecodeHeader(MOTOROLA_S2, line);
    DecodeHeader(MOTOROLA_S3, line);
    if MOTOROLA_S1.header <= line {
      SDataAgrees(MOTOROLA_S1, line);
    } else if MOTOROLA_S2.header <= line {
      SDataAgrees(MOTOROLA_S2, line);
    } else if MOTOROLA_S3.header <= line {
      SDataAgrees(MOTOROLA_S3, line);
    }
  }

  // -------------------------------------------------- the converters, line by line

  /** The checksum test at the end of every line. */
  method ChecksumMatches(line: string, p: nat, expected: nat) returns (ok: bool)
    requires p <= |line|
    ensures ok <==> ReadAt(line, p, 1).Some? && ReadAt(line, p, 1).value[0] == expected
  {
    var incksum, _ := GetByte(line, p);
    ok := incksum != -1 && incksum == expected;
  }

  /** The body of the loop of `convert_Intel_records`, for the line without its end. */
  method ConvertIntelLine(line: string, base: nat) returns (o: Outcome)
    ensures o == ParseIntel(line, base)
  {
    hide ReadAt, Sum, BigEndian, Checksum;
    if |line| == 0 || line[0] != ':' {
      return Rejected;
    }
    var len, addr, rectype, p;
    len, p := GetByte(line, 1);
    if len == -1 {
      return Rejected;
    }
    addr, p := GetNBytes(line, p, 2);
    WordsBelow(line, 3, 2);
    if addr == LONG_MINUS_ONE {
      return Rejected;
    }
    rectype, p := GetByte(line, p);
    if rectype == -1 {
      return Rejected;
    }
    AddressSum2(line, 3);
    var cksum := len + addr % 256 + addr / 256 + rectype;
    if rectype == 0 {
      var data, sum;
      data, sum, p := GetData(line, p, len);
      if data.None? {
        return Rejected;
      }
      var ok := ChecksumMatches(line, p, Checksum(INTEL_HEX, cksum + sum));
      return if ok then Stored((base + addr) % 0x1_0000_0000, data.value) else Rejected;
    } else if rectype == 1 {
      var ok := ChecksumMatches(line, p, Checksum(INTEL_HEX, cksum));
      return if ok then Ended else Rejected;
    } else if rectype == 2 {
      var newBase;
      newBase, p := GetNBytes(line, p, 2);
      WordsBelow(line, 9, 2);
      if newBase == LONG_MINUS_ONE {
        return Rejected;
      }
      AddressSum2(line, 9);
      var ok := ChecksumMatches(line, p, Checksum(INTEL_HEX, cksum + (newBase % 256 + newBase / 256)));
      return if ok then Based(16 * newBase) else Rejected;
    } else if rectype == 3 {
      var seg, off;
      seg, p := GetNBytes(line, p, 2);
      off, p := GetNBytes(line, p, 2);
      WordsBelow(line, 9, 2);
      WordsBelow(line, 13, 2);
      if seg == LONG_MINUS_ONE || off == LONG_MINUS_ONE {
        return Rejected;
      }
      AddressSum2(line, 9);
      AddressSum2(line, 13);
      var ok := ChecksumMatches(line, p, Checksum(INTEL_HEX, cksum + (seg % 256 + seg / 256) + (off % 256 + off / 256)));
      return if ok then Started else Rejected;
    } else {
      return Rejected;
    }
  }

  /** Two bytes never read as the word of ones. */
  lemma WordsBelow(line: string, p: nat, n: nat)
    requires n <= 3
    ensures ReadAt(line, p, n).Some? ==> BigEndian(ReadAt(line, p, n).value) < LONG_MINUS_ONE
  {
    if ReadAt(line, p, n).Some? {
      BigEndianBound(ReadAt(line, p, n).value);
      Power256Upto3(n);
    }
  }

  lemma Power256Upto3(n: nat)
    requires n <= 3
    ensures Power256(n) <= 0x100_0000
  {
    assert Power256(1) == 256;
    assert Power256(2) == 256 * Power256(1);
    assert Power256(3) == 256 * Power256(2);
  }

  /** The last byte of a big-endian number. */
  lemma LastByte(b: seq<Byte>)
    requires b != []
    ensures var front, last := b[..|b| - 1], b[|b| - 1];
            && BigEndian(b) % 256 == last && BigEndian(b) / 256 == BigEndian(front)
            && Sum(b) == Sum(front) + last
  {
  }

  lemma AddressSum2(line: string, p: nat)
    ensures ReadAt(line, p, 2).Some? ==>
              var b := ReadAt(line, p, 2).value;
              Sum(b) == BigEndian(b) % 256 + BigEndian(b) / 256
  {
    hide BigEndian, Sum;
    var r := ReadAt(line, p, 2);
    if r.Some? {
      TwoByteSum(r.value);
    }
  }

  /** Two bytes, high one first, added up. */
  lemma TwoByteSum(b: seq<Byte>)
    requires |b| == 2
    ensures Sum(b) == BigEndian(b) % 256 + BigEndian(b) / 256
  {
    var high: int, low: int := b[0], b[1];
    assert b[..1] == [b[0]] && b[..1][..0] == [];
    assert Sum(b[..1]) == BigEndian(b[..1]) == high;
    assert Sum(b) == high + low && BigEndian(b) == 256 * high + low;
  }

  lemma Power256Is()
    ensures Power256(2) == 0x1_0000
  {
    assert Power256(1) == 256;
    assert Power256(2) == 256 * Power256(1);
  }

  lemma AddressSumMany(line: string, p: nat, n: nat)
    requires 2 <= n <= 4
    ensures ReadAt(line, p, n).Some? ==>
              var v := BigEndian(ReadAt(line, p, n).value);
              Sum(ReadAt(line, p, n).value) == v % 256 + v / 256 % 256 + v / 65536 % 256 + v / 16777216
  {
    var r := ReadAt(line, p, n);
    if r.Some? {
      BytesSum(r.value);
    }
  }

  /** The bytes of a word of `n` bytes, added up. */
  function WordSum(v: nat, n: nat): nat {
    if n == 0 then 0 else v % 256 + WordSum(v / 256, n - 1)
  }

  lemma {:induction false} SumIsWordSum(b: seq<Byte>)
    ensures Sum(b) == WordSum(BigEndian(b), |b|)
  {
    if b != [] {
      LastByte(b);
      SumIsWordSum(b[..|b| - 1]);
    }
  }

  lemma {:induction false} WordSumMore(v: nat, n: nat, m: nat)
    requires v < Power256(n) && n <= m
    ensures WordSum(v, n) == WordSum(v, m)
  {
    if n > 0 {
      WordSumMore(v / 256, n - 1, m - 1);
    } else if m > 0 {
      WordSumMore(0, 0, m - 1);
    }
  }

  lemma WordSum4(v: nat)
    requires v < 0x1_0000_0000
    ensures WordSum(v, 4) == v % 256 + v / 256 % 256 + v / 65536 % 256 + v / 16777216
  {
    var v1, v2, v3 := v / 256, v / 65536, v / 16777216;
    assert v1 / 256 == v2 && v2 / 256 == v3 && v3 < 256;
    assert WordSum(v3, 1) == v3 % 256 + WordSum(v3 / 256, 0);
    assert WordSum(v2, 2) == v2 % 256 + WordSum(v3, 1);
    assert WordSum(v1, 3) == v1 % 256 + WordSum(v2, 2);
  }

  lemma BytesSum(b: seq<Byte>)
    requires |b| <= 4
    ensures var v := BigEndian(b);
            Sum(b) == v % 256 + v / 256 % 256 + v / 65536 % 256 + v / 16777216
  {
    var v := BigEndian(b);
    SumIsWordSum(b);
    BigEndianBound(b);
    WordSumMore(v, |b|, 4);
    Power256Upto4(|b|);
    WordSum4(v);
  }

  lemma Power256Upto4(n: nat)
    requires n <= 4
    ensures Power256(n) <= 0x1_0000_0000
  {
    assert Power256(1) == 256;
    assert Power256(2) == 256 * Power256(1);
    assert Power256(3) == 256 * Power256(2);
    assert Power256(4) == 256 * Power256(3);
  }

  /** The body of the loop of `convert_S_records`, for the line without its end. */
  method ConvertSLine(line: string) returns (o: Outcome)
    ensures o == ParseS(line)
  {
    hide ReadAt;
    if |line| == 0 || line[0] != 'S' {
      return Rejected;
    }
    var rectype, len, p;
    rectype, p := GetNibble(line, 1);
    if rectype == -1 {
      return Rejected;
    }
    len, p := GetByte(line, p);
    if len == -1 {
      return Rejected;
    }
    if rectype == 0 {
      return Skipped;
    }
    if 1 <= rectype <= 3 {
      o := ConvertSData(line, p, rectype + 1, len);
    } else if 7 <= rectype <= 9 {
      var addr;
      addr, p := GetNBytes(line, p, 11 - rectype);
      if addr == LONG_MINUS_ONE {
        return Rejected;
      }
      AddressSumMany(line, 4, 11 - rectype);
      var cksum := len + (addr % 256 + addr / 256 % 256 + addr / 65536 % 256 + addr / 16777216);
      var ok := ChecksumMatches(line, p, 255 - cksum % 256);
      o := if ok then Started else Rejected;
    } else {
      o := Rejected;
    }
  }

  /** The data records of `convert_S_records`; a length below the overhead runs on to a bad byte. */
  method ConvertSData(line: string, start: nat, k: nat, length: nat) returns (o: Outcome)
    requires start == 4 <= |line| && 2 <= k <= 4
    ensures o == ParseSData(line, k, length)
  {
    hide ReadAt;
    var addr, p := GetNBytes(line, start, k);
    if addr == LONG_MINUS_ONE {
      return Rejected;
    }
    AddressSumMany(line, 4, k);
    var cksum := length + (addr % 256 + addr / 256 % 256 + addr / 65536 % 256 + addr / 16777216);
    if length < k + 1 {
      return Rejected;
    }
    var data, sum;
    data, sum, p := GetData(line, p, length - (k + 1));
    if data.None? {
      return Rejected;
    }
    var ok := ChecksumMatches(line, p, 255 - (cksum + sum) % 256);
    o := if ok then Stored(addr, data.value) else Rejected;
  }
}
