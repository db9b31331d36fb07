/**
  Intel and Motorola S hex records: what a data record says, how packhex prints one, and
  how it takes one apart.
 */
module HexRecords {
  import opened Basics
  import opened HexText

  /**
    The vital statistics of a format: its header, the number of address bytes, what the
    count field counts besides the data, the most data bytes in a record, the record type
    field (if it has one of its own) and whether the checksum is a two's complement.
   */
  datatype Format = Format(
    header: string, addressBytes: nat, countOffset: nat, maxCount: nat, kind: seq<Byte>, twos: bool)

  const INTEL_HEX := Format(":", 2, 0, 255, [0], true)
  const MOTOROLA_S1 := Format("S1", 2, 3, 252, [], false)
  const MOTOROLA_S2 := Format("S2", 3, 4, 251, [], false)
  const MOTOROLA_S3 := Format("S3", 4, 5, 250, [], false)

  /** The formats, in the order in which packhex tries them. */
  const FORMATS := [INTEL_HEX, MOTOROLA_S1, MOTOROLA_S2, MOTOROLA_S3]

  /** What the four formats have in common: a full record fills its count field. */
  predicate Proper(f: Format) {
    && f.countOffset + f.maxCount == 255 && f.maxCount > 0
    && (f.kind == [] || f.kind == [0])
    && f.header != []
  }

  function AddressSpace(f: Format): nat {
    Power256(f.addressBytes)
  }

  /** Two's complement for Intel, one's complement for Motorola. */
  function Checksum(f: Format, sum: nat): Byte {
    if f.twos then (256 - sum % 256) % 256 else 255 - sum % 256
  }

  // ------------------------------------------------------ what a record says

  datatype Record = Record(address: nat, data: seq<Byte>)

  /** The fields of a line as bytes, before anything is checked about them. */
  datatype Parts = Parts(count: Byte, address: seq<Byte>, kind: seq<Byte>, data: seq<Byte>, check: Byte)

  /** Splits a line into the fields of a data record. */
  function Split(f: Format, line: string): Option<Parts> {
    var h := |f.header|;
    var count := ReadAt(line, h, 1);
    var address := ReadAt(line, h + 2, f.addressBytes);
    var kind := ReadAt(line, h + 2 + 2 * f.addressBytes, |f.kind|);
    if count.None? || count.value[0] < f.countOffset || address.None? || kind.None? then None
    else
      var n := count.value[0] - f.countOffset;
      var data := ReadAt(line, DataStart(f), n);
      var check := ReadAt(line, DataStart(f) + 2 * n, 1);
      if data.None? || check.None? then None
      else Some(Parts(count.value[0], address.value, kind.value, data.value, check.value[0]))
  }

  predicate Checks(f: Format, p: Parts) {
    p.kind == f.kind && p.check == Checksum(f, p.count + Sum(p.address) + Sum(p.data))
  }

  /** The data record that `line` holds, if it is one and its checksum matches. */
  function Decode(f: Format, line: string): Option<Record> {
    if !(f.header <= line) then None
    else
      var parts := Split(f, line);
      if parts.None? || !Checks(f, parts.value) then None
      else Some(Record(BigEndian(parts.value.address), parts.value.data))
  }

  // --------------------------------------------------- how packhex prints one

  predicate Printable(f: Format, count: nat, address: nat, data: string) {
    IsHexText(data) && |data| == 2 * count && count <= f.maxCount && address < AddressSpace(f)
  }

  /** The sum of the bytes that the checksum covers. */
  function Total(f: Format, count: nat, address: nat, data: string): nat
    requires Printable(f, count, address, data)
  {
    f.countOffset + count + Sum(ToBytes(address, f.addressBytes)) + Sum(BytesOf(data, count))
  }

  /** The print formats of the `put_*_data_rec` routines. */
  function Render(f: Format, count: nat, address: nat, data: string, sum: nat): string
    requires Proper(f) && Printable(f, count, address, data)
  {
    f.header +
    (HexOf([count + f.countOffset]) +
     (HexOf(ToBytes(address, f.addressBytes)) + (HexOf(f.kind) + (data + HexOf([Checksum(f, sum)])))))
  }

  function Print(f: Format, count: nat, address: nat, data: string): string
    requires Proper(f) && Printable(f, count, address, data)
  {
    Render(f, count, address, data, Total(f, count, address, data))
  }

  lemma PrintLength(f: Format, count: nat, address: nat, data: string)
    requires Proper(f) && Printable(f, count, address, data)
    ensures |Print(f, count, address, data)| == DataStart(f) + 2 * count + 2
    ensures f.header <= Print(f, count, address, data)
  {
  }

  /** Reading back the pieces of a line at the places of the fields. */
  lemma PiecesAt(h: string, n: string, a: string, k: string, d: string, x: string, line: string)
    requires line == h + (n + (a + (k + (d + x))))
    ensures line == (h + n) + (a + (k + (d + x)))
    ensures line == (h + n + a) + (k + (d + x))
    ensures line == (h + n + a + k) + (d + x)
    ensures line == (h + n + a + k + d) + (x + [])
  {
  }

  lemma ReadRendered(f: Format, count: nat, address: nat, data: string, sum: nat)
    requires Proper(f) && Printable(f, count, address, data)
    ensures var line := Render(f, count, address, data, sum);
            var h := |f.header|;
            && ReadAt(line, h, 1) == Some([count + f.countOffset])
            && ReadAt(line, h + 2, f.addressBytes) == Some(ToBytes(address, f.addressBytes))
            && ReadAt(line, h + 2 + 2 * f.addressBytes, |f.kind|) == Some(f.kind)
            && ReadAt(line, DataStart(f), count) == Some(BytesOf(data, count))
            && ReadAt(line, DataStart(f) + 2 * count, 1) == Some([Checksum(f, sum)])
  {
    var n, bytes, check := [count + f.countOffset], ToBytes(address, f.addressBytes), [Checksum(f, sum)];
    var h, sn, sa, sk, sx := f.header, HexOf(n), HexOf(bytes), HexOf(f.kind), HexOf(check);
    PiecesAt(h, sn, sa, sk, data, sx, h + (sn + (sa + (sk + (data + sx)))));
    ReadHexPiece(h, n, sa + (sk + (data + sx)));
    ReadHexPiece(h + sn, bytes, sk + (data + sx));
    ReadHexPiece(h + sn + sa, f.kind, data + sx);
    ReadPiece(h + sn + sa + sk, data, count, sx);
    ReadHexPiece(h + sn + sa + sk + data, check, []);
  }

  lemma SplitRender(f: Format, count: nat, address: nat, data: string, sum: nat)
    requires Proper(f) && Printable(f, count, address, data)
    ensures Split(f, Render(f, count, address, data, sum)) ==
            Some(Parts(count + f.countOffset, ToBytes(address, f.addressBytes), f.kind, BytesOf(data, count), Checksum(f, sum)))
  {
    hide ReadAt, Render;
    ReadRendered(f, count, address, data, sum);
  }

  lemma RenderHeader(f: Format, count: nat, address: nat, data: string, sum: nat)
    requires Proper(f) && Printable(f, count, address, data)
    ensures f.header <= Render(f, count, address, data, sum)
  {
  }

  lemma DecodeParts(f: Format, line: string, p: Parts)
    requires f.header <= line && Split(f, line) == Some(p) && Checks(f, p)
    ensures Decode(f, line) == Some(Record(BigEndian(p.address), p.data))
  {
  }

  lemma DecodeRender(f: Format, count: nat, address: nat, data: string, line: string)
    requires Proper(f) && Printable(f, count, address, data)
    requires line == Render(f, count, address, data, Total(f, count, address, data))
    ensures Decode(f, line) == Some(Record(BigEndian(ToBytes(address, f.addressBytes)), BytesOf(data, count)))
  {
    hide Split, Render;
    var sum := Total(f, count, address, data);
    SplitRender(f, count, address, data, sum);
    var p := Parts(count + f.countOffset, ToBytes(address, f.addressBytes), f.kind, BytesOf(data, count), Checksum(f, sum));
    RenderHeader(f, count, address, data, sum);
    DecodeParts(f, line, p);
  }

  /** Every record that packhex prints decodes to the address and the bytes it was printed from. */
  lemma DecodePrint(f: Format, count: nat, address: nat, data: string)
    requires Proper(f) && Printable(f, count, address, data)
    ensures Decode(f, Print(f, count, address, data)) == Some(Record(address, BytesOf(data, count)))
  {
    DecodeRender(f, count, address, data, Print(f, count, address, data));
    BigEndianToBytes(address, f.addressBytes);
  }

  /** The sum of the first `n` digit pairs. */
  function PairSum(data: string, n: nat): nat
    requires IsHexText(data) && 2 * n <= |data|
  {
    if n == 0 then 0 else PairSum(data, n - 1) + PairAt(data, n - 1)
  }

  lemma {:induction false} PairSumIsSum(data: string, n: nat)
    requires IsHexText(data) && 2 * n == |data|
    ensures PairSum(data, n) == Sum(BytesOf(data, n))
  {
    PairSumPrefix(data, BytesOf(data, n), n);
    assert BytesOf(data, n)[..n] == BytesOf(data, n);
  }

  lemma {:induction false} PairSumPrefix(data: string, bytes: seq<Byte>, n: nat)
    requires IsHexText(data) && 2 * n <= |data| && n <= |bytes| && 2 * |bytes| <= |data|
    requires forall i :: 0 <= i < |bytes| ==> bytes[i] == PairAt(data, i)
    ensures PairSum(data, n) == Sum(bytes[..n])
  {
    if n > 0 {
      PairSumPrefix(data, bytes, n - 1);
      assert bytes[..n][..n - 1] == bytes[..n - 1];
    }
  }

  /** The loop over the data of the `put_*_data_rec` routines. */
  method SumRecord(f: Format, count: nat, address: nat, data: string) returns (sum: nat)
    requires Printable(f, count, address, data)
    ensures sum == Total(f, count, address, data)
  {
    var fields := f.countOffset + count + Sum(ToBytes(address, f.addressBytes));
    sum := fields;
    var i := 0;
    while i < count
      invariant 0 <= i <= count && sum == fields + PairSum(data, i)
    {
      var pair := data[2 * i..2 * i + 2];
      var value := GetNdigitHex(pair);
      PairValue(pair);
      sum := sum + value;
      i := i + 1;
    }
    PairSumIsSum(data, count);
  }

  /** The `put_*_data_rec` routines. */
  method PutDataRecord(f: Format, count: nat, address: nat, data: string) returns (line: string)
    requires Proper(f) && Printable(f, count, address, data)
    ensures line == Print(f, count, address, data)
  {
    var sum := SumRecord(f, count, address, data);
    line := Render(f, count, address, data, sum);
  }

  // ------------------------------------------------ how packhex takes one apart

  /** The macro HEX_DIGIT, for every character. */
  function MacroDigit(c: char): nat {
    (if c > '9' then c as int + 25 else c as int) % 16
  }

  /** `get_ndigit_hex` */
  function NdigitHex(s: string): nat {
    if s == [] then 0 else 16 * NdigitHex(s[..|s| - 1]) + MacroDigit(s[|s| - 1])
  }

  method GetNdigitHex(s: string) returns (value: nat)
    ensures value == NdigitHex(s)
  {
    value := 0;
    var i := 0;
    while i < |s|
      invariant 0 <= i <= |s| && value == NdigitHex(s[..i])
    {
      assert s[..i + 1][..i] == s[..i];
      value := value * 16 + MacroDigit(s[i]);
      i := i + 1;
    }
    assert s[..i] == s;
  }

  lemma MacroIsValue(c: char)
    requires IsHexDigit(c)
    ensures MacroDigit(c) == DigitValue(c)
  {
  }

  lemma PairValue(s: string)
    requires |s| == 2 && IsHexText(s)
    ensures NdigitHex(s) == 16 * DigitValue(s[0]) + DigitValue(s[1]) < 256
    ensures BytesOf(s, 1) == [NdigitHex(s)] && Sum(BytesOf(s, 1)) == NdigitHex(s)
  {
    MacroIsValue(s[0]);
    MacroIsValue(s[1]);
    assert s[..1] == [s[0]] && s[..1][..0] == [];
    assert NdigitHex(s[..1]) == MacroDigit(s[0]);
    var b := BytesOf(s, 1);
    assert b[0] == PairAt(s, 0) && b == [b[0]] && b[..0] == [];
  }

  /** On digit pairs the macro's number is the big-endian number of the bytes. */
  lemma {:induction false} NdigitIsBigEndian(s: string, n: nat)
    requires IsHexText(s) && |s| == 2 * n
    ensures NdigitHex(s) == BigEndian(BytesOf(s, n))
    decreases n
  {
    if n > 0 {
      hide NdigitHex, BytesOf, BigEndian, IsHexText;
      var front, pair := s[..2 * n - 2], s[2 * n - 2..];
      assert s == front + pair;
      HexTextParts(front, pair);
      NdigitIsBigEndian(front, n - 1);
      BytesOfConcat(front, n - 1, pair, 1);
      PairValue(pair);
      NdigitPair(front, pair);
      BigEndianAdd(BytesOf(front, n - 1), NdigitHex(pair));
    }
  }

  lemma HexTextParts(a: string, b: string)
    requires IsHexText(a + b)
    ensures IsHexText(a) && IsHexText(b)
  {
    assert forall i :: 0 <= i < |a| ==> a[i] == (a + b)[i];
    assert forall i :: 0 <= i < |b| ==> b[i] == (a + b)[|a| + i];
  }

  lemma NdigitPair(front: string, pair: string)
    requires |pair| == 2
    ensures NdigitHex(front + pair) == 256 * NdigitHex(front) + NdigitHex(pair)
  {
    var s, n := front + pair, |front|;
    assert s[..n + 1][..n] == front && pair[..1][..0] == [];
    assert NdigitHex(s[..n + 1]) == NdigitHex(front) * 16 + MacroDigit(pair[0]);
    assert NdigitHex(pair[..1]) == MacroDigit(pair[0]);
  }

  lemma BigEndianAdd(bytes: seq<Byte>, b: Byte)
    ensures BigEndian(bytes + [b]) == 256 * BigEndian(bytes) + b
  {
    assert (bytes + [b])[..|bytes|] == bytes;
  }

  function DataStart(f: Format): nat {
    |f.header| + 2 + 2 * f.addressBytes + 2 * |f.kind|
  }

  /** `is_*_data_rec`: Intel also looks at the last digit of the type; a line too short for it is none. */
  predicate IsDataRecord(f: Format, line: string) {
    f.header <= line && (f.kind != [] ==> |line| >= DataStart(f) && line[DataStart(f) - 1] == '0')
  }

  /** `get_*_rec_data_count` */
  function DataCount(f: Format, line: string): int
    requires |line| >= DataStart(f)
  {
    NdigitHex(line[|f.header|..|f.header| + 2]) - f.countOffset
  }

  /** `get_*_rec_address` */
  function DataAddress(f: Format, line: string): nat
    requires |line| >= DataStart(f)
  {
    NdigitHex(line[|f.header| + 2..|f.header| + 2 + 2 * f.addressBytes])
  }

  lemma CountAgrees(f: Format, line: string)
    requires Split(f, line).Some? && Proper(f)
    ensures |line| >= DataStart(f) + 2 * |Split(f, line).value.data| + 2
    ensures DataCount(f, line) == |Split(f, line).value.data| <= f.maxCount
  {
    var h := |f.header|;
    PairValue(line[h..h + 2]);
  }

  lemma AddressAgrees(f: Format, line: string)
    requires Split(f, line).Some? && |line| >= DataStart(f)
    ensures DataAddress(f, line) == BigEndian(Split(f, line).value.address) < AddressSpace(f)
  {
    var h := |f.header|;
    var a := line[h + 2..h + 2 + 2 * f.addressBytes];
    NdigitIsBigEndian(a, f.addressBytes);
    BigEndianBound(BytesOf(a, f.addressBytes));
  }

  lemma KindAgrees(f: Format, line: string)
    requires Split(f, line).Some? && Split(f, line).value.kind == [0] && |f.kind| == 1
    ensures |line| >= DataStart(f) && line[DataStart(f) - 1] == '0'
  {
    var t := line[|f.header| + 2 + 2 * f.addressBytes..DataStart(f)];
    assert |t| == 2 && t[1] == line[DataStart(f) - 1];
    assert BytesOf(t, 1)[0] == PairAt(t, 0) == 0;
  }

  /** The getters read out of a data record exactly what it says. */
  lemma GettersAgree(f: Format, line: string)
    requires Proper(f) && Decode(f, line).Some?
    ensures var r := Decode(f, line).value;
            var d := DataStart(f);
            && |line| >= d + 2 * |r.data| + 2
            && IsDataRecord(f, line)
            && DataCount(f, line) == |r.data| <= f.maxCount
            && DataAddress(f, line) == r.address < AddressSpace(f)
            && ReadAt(line, d, |r.data|) == Some(r.data)
  {
    CountAgrees(f, line);
    AddressAgrees(f, line);
    if f.kind != [] {
      KindAgrees(f, line);
    }
  }
}
