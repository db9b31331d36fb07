/**
  What a hex file puts into memory, by its record format alone: the bytes of a record are
  weighed by their place, and with its checksum they add up to nothing (Intel) or to a byte
  of ones (Motorola).  unhex stores exactly that.
 */
module HexImage {
  import opened Basics
  import opened HexText
  import opened HexRecords
  import opened Packhex
  import opened Unhex
  import opened UnhexFiles
  import PackhexFiles
  import PackhexMain

  // ---------------------------------------------------------------- records

  /** A big-endian number by the places of its bytes. */
  function PlaceValue(bytes: seq<Byte>): nat {
    if bytes == [] then 0 else bytes[0] * Power256(|bytes| - 1) + PlaceValue(bytes[1..])
  }

  datatype Rec = Rec(kind: nat, address: nat, payload: seq<Byte>)

  /** How many bytes follow the type of an Intel record before its checksum; only data records are as long as they say. */
  function IntelPayload(kind: nat, count: nat): Option<nat> {
    match kind
    case 0 => Some(count)
    case 1 => Some(0)
    case 2 => Some(2)
    case 3 => Some(4)
    case _ => None
  }

  /** The Intel record in a line: count, address, type, payload and checksum, which add up to zero. */
  function IntelRecord(line: string): Option<Rec> {
    var head := ReadAt(line, 1, 4);
    if !(":" <= line) || head.None? then None
    else
      var n := IntelPayload(head.value[3], head.value[0]);
      if n.None? then None
      else
        var all := ReadAt(line, 1, n.value + 5);
        if all.None? || Sum(all.value) % 256 != 0 then None
        else Some(Rec(head.value[3], PlaceValue(all.value[1..3]), all.value[4..4 + n.value]))
  }

  /** The number of address bytes of a Motorola record, data or end. */
  function AddressLength(kind: nat): Option<nat> {
    if 1 <= kind <= 3 then Some(kind + 1) else if 7 <= kind <= 9 then Some(11 - kind) else None
  }

  /**
    The Motorola record in a line: count, address, payload and checksum, which add up to a
    byte of ones.  A comment is not looked at, an end record has no payload whatever its
    count, and the highest address of all is not one.
   */
  function MotorolaRecord(line: string): Option<Rec> {
    var count := ReadAt(line, 2, 1);
    if !("S" <= line) || |line| < 2 || !IsHexDigit(line[1]) || count.None? then None
    else
      var kind, length := DigitValue(line[1]), AddressLength(DigitValue(line[1]));
      if kind == 0 then Some(Rec(0, 0, []))
      else if length.None? then None
      else CountedRecord(line, kind, length.value, if kind <= 3 then count.value[0] else length.value + 1)
  }

  /** A Motorola record with `k` address bytes and `rest` bytes after the count. */
  function CountedRecord(line: string, kind: nat, k: nat, rest: nat): Option<Rec> {
    var all := ReadAt(line, 2, rest + 1);
    if rest < k + 1 || all.None? || Sum(all.value) % 256 != 255 || PlaceValue(all.value[1..k + 1]) == 0xFFFF_FFFF then None
    else Some(Rec(kind, PlaceValue(all.value[1..k + 1]), all.value[k + 1..rest]))
  }

  function RecordIn(intel: bool, line: string): Option<Rec> {
    if intel then IntelRecord(line) else MotorolaRecord(line)
  }

  predicate IsData(intel: bool, r: Rec) {
    if intel then r.kind == 0 else 1 <= r.kind <= 3
  }

  predicate IsEnd(intel: bool, r: Rec) {
    intel && r.kind == 1
  }

  predicate IsSegment(intel: bool, r: Rec) {
    intel && r.kind == 2
  }

  // --------------------------------------------------- records as unhex reads them

  lemma {:induction false} PlaceValueAdd(bytes: seq<Byte>, last: Byte)
    ensures PlaceValue(bytes + [last]) == 256 * PlaceValue(bytes) + last
  {
    if bytes == [] {
      assert bytes + [last] == [last] && [last][1..] == [];
      assert Power256(0) == 1;
    } else {
      assert (bytes + [last])[1..] == bytes[1..] + [last];
      PlaceValueAdd(bytes[1..], last);
      var n := |bytes|;
      assert Power256(n) == 256 * Power256(n - 1);
      var first: int := bytes[0];
      assert first * (256 * Power256(n - 1)) == 256 * (first * Power256(n - 1));
    }
  }

  lemma {:induction false} PlaceValueIs(bytes: seq<Byte>)
    ensures PlaceValue(bytes) == BigEndian(bytes)
    decreases |bytes|
  {
    if bytes != [] {
      var n := |bytes| - 1;
      assert bytes == bytes[..n] + [bytes[n]];
      PlaceValueIs(bytes[..n]);
      PlaceValueAdd(bytes[..n], bytes[n]);
    }
  }

  /** Two fields next to each other are one longer field. */
  lemma ReadAtSplit(s: string, p: nat, n: nat, m: nat)
    ensures ReadAt(s, p, n + m) ==
            if ReadAt(s, p, n).Some? && ReadAt(s, p + 2 * n, m).Some?
            then Some(ReadAt(s, p, n).value + ReadAt(s, p + 2 * n, m).value) else None
  {
    if p + 2 * (n + m) <= |s| {
      var a, b, ab := s[p..p + 2 * n], s[p + 2 * n..p + 2 * n + 2 * m], s[p..p + 2 * (n + m)];
      assert ab == a + b;
      HexTextConcat(a, b);
      if IsHexText(a) && IsHexText(b) {
        BytesOfConcat(a, n, b, m);
      }
    }
  }

  /** The checksum that makes the bytes add up. */
  lemma ChecksumCloses(f: Format, sum: nat, check: Byte)
    ensures check == Checksum(f, sum) <==> (sum + check) % 256 == if f.twos then 0 else 255
  {
  }

  /** An Intel line in its fields. */
  lemma IntelFields(line: string, n: nat)
    ensures var head, all := ReadAt(line, 1, 4), ReadAt(line, 1, n + 5);
            var len, address, kind := ReadAt(line, 1, 1), ReadAt(line, 3, 2), ReadAt(line, 7, 1);
            var payload, check := ReadAt(line, 9, n), ReadAt(line, 9 + 2 * n, 1);
            && (head.Some? <==> len.Some? && address.Some? && kind.Some?)
            && (head.Some? ==> head.value == len.value + address.value + kind.value)
            && (all.Some? <==> head.Some? && payload.Some? && check.Some?)
            && (all.Some? ==> all.value == len.value + address.value + kind.value + payload.value + check.value)
  {
    hide ReadAt;
    ReadAtSplit(line, 1, 1, 2);
    ReadAtSplit(line, 1, 3, 1);
    ReadAtSplit(line, 1, 4, n);
    ReadAtSplit(line, 1, 4 + n, 1);
  }

  lemma SumOne(b: Byte)
    ensures Sum([b]) == b
  {
    assert [b][..0] == [];
  }

  /** Five fields added up. */
  lemma IntelAddsUp(len: seq<Byte>, address: seq<Byte>, kind: seq<Byte>, payload: seq<Byte>, check: seq<Byte>)
    requires |len| == |kind| == |check| == 1
    ensures Sum(len + address + kind + payload + check) ==
            IntelSum(len[0], address, kind[0]) + Sum(payload) + check[0]
  {
    hide Sum;
    SumConcat(len, address);
    SumConcat(len + address, kind);
    SumConcat(len + address + kind, payload);
    SumConcat(len + address + kind + payload, check);
    SumOne(len[0]);
    SumOne(kind[0]);
    SumOne(check[0]);
    assert len == [len[0]] && kind == [kind[0]] && check == [check[0]];
  }

  /** A record as unhex acts on it. */
  function OutcomeOf(intel: bool, r: Option<Rec>, base: nat): Outcome {
    if r.None? then Rejected
    else if IsData(intel, r.value) then
      Stored(((if intel then base else 0) + r.value.address) % 0x1_0000_0000, r.value.payload)
    else if IsEnd(intel, r.value) then Ended
    else if IsSegment(intel, r.value) then Based(16 * PlaceValue(r.value.payload))
    else if r.value.kind == 0 then Skipped
    else Started
  }

  lemma IntelSlices(len: seq<Byte>, address: seq<Byte>, kind: seq<Byte>, payload: seq<Byte>, check: seq<Byte>,
                    all: seq<Byte>)
    requires |len| == |kind| == |check| == 1 && |address| == 2
    requires all == len + address + kind + payload + check
    ensures all[1..3] == address && all[4..4 + |payload|] == payload
  {
  }

  lemma IntelCloses(all: nat, sum: nat, check: Byte)
    requires all == sum + check
    ensures all % 256 == 0 <==> check == Checksum(INTEL_HEX, sum)
  {
    ChecksumCloses(INTEL_HEX, sum, check);
  }

  /** The record in an Intel line whose payload is `n` bytes long, by its fields. */
  function FieldsRecord(line: string, n: nat): Option<Rec>
    requires ReadAt(line, 1, 1).Some? && ReadAt(line, 3, 2).Some? && ReadAt(line, 7, 1).Some?
  {
    var len, address, kind := ReadAt(line, 1, 1).value[0], ReadAt(line, 3, 2).value, ReadAt(line, 7, 1).value[0];
    var payload, check := ReadAt(line, 9, n), ReadAt(line, 9 + 2 * n, 1);
    if payload.None? || check.None? ||
       check.value[0] != Checksum(INTEL_HEX, IntelSum(len, address, kind) + Sum(payload.value)) then None
    else Some(Rec(kind, BigEndian(address), payload.value))
  }

  lemma IntelRecordIs(line: string, n: nat)
    requires ":" <= line && ReadAt(line, 1, 1).Some? && ReadAt(line, 3, 2).Some? && ReadAt(line, 7, 1).Some?
    requires IntelPayload(ReadAt(line, 7, 1).value[0], ReadAt(line, 1, 1).value[0]) == Some(n)
    ensures IntelRecord(line) == FieldsRecord(line, n)
  {
    IntelFields(line, n);
    hide ReadAt, Sum, BigEndian, PlaceValue, Checksum, IntelPayload, IntelSum;
    var all := ReadAt(line, 1, n + 5);
    if all.Some? {
      var len, address, kind := ReadAt(line, 1, 1).value, ReadAt(line, 3, 2).value, ReadAt(line, 7, 1).value;
      var payload, check := ReadAt(line, 9, n).value, ReadAt(line, 9 + 2 * n, 1).value;
      IntelSlices(len, address, kind, payload, check, all.value);
      IntelAddsUp(len, address, kind, payload, check);
      IntelCloses(Sum(all.value), IntelSum(len[0], address, kind[0]) + Sum(payload), check[0]);
      PlaceValueIs(address);
    }
  }

  lemma IntelDataFields(line: string, base: nat)
    requires ":" <= line && ReadAt(line, 1, 1).Some? && ReadAt(line, 3, 2).Some? && ReadAt(line, 7, 1).Some?
    requires ReadAt(line, 7, 1).value[0] == 0
    ensures ParseIntel(line, base) == OutcomeOf(true, FieldsRecord(line, ReadAt(line, 1, 1).value[0]), base)
  {
    hide ReadAt, Sum, BigEndian, PlaceValue, Checksum, IntelSum;
  }

  lemma IntelEndFields(line: string, base: nat)
    requires ":" <= line && ReadAt(line, 1, 1).Some? && ReadAt(line, 3, 2).Some? && ReadAt(line, 7, 1).Some?
    requires ReadAt(line, 7, 1).value[0] == 1
    ensures ParseIntel(line, base) == OutcomeOf(true, FieldsRecord(line, 0), base)
  {
    NoField(line);
    hide ReadAt, Sum, BigEndian, PlaceValue, Checksum, IntelSum;
  }

  lemma IntelSegmentFields(line: string, base: nat)
    requires ":" <= line && ReadAt(line, 1, 1).Some? && ReadAt(line, 3, 2).Some? && ReadAt(line, 7, 1).Some?
    requires ReadAt(line, 7, 1).value[0] == 2
    ensures ParseIntel(line, base) == OutcomeOf(true, FieldsRecord(line, 2), base)
  {
    hide ReadAt, Sum, BigEndian, PlaceValue, Checksum, IntelSum;
    if ReadAt(line, 9, 2).Some? {
      PlaceValueIs(ReadAt(line, 9, 2).value);
    }
  }

  lemma IntelStartFields(line: string, base: nat)
    requires ":" <= line && ReadAt(line, 1, 1).Some? && ReadAt(line, 3, 2).Some? && ReadAt(line, 7, 1).Some?
    requires ReadAt(line, 7, 1).value[0] == 3
    ensures ParseIntel(line, base) == OutcomeOf(true, FieldsRecord(line, 4), base)
  {
    StartFields(line);
    hide ReadAt, Sum, BigEndian, PlaceValue, Checksum, IntelSum;
  }

  /** Each kind of Intel record, by its fields. */
  lemma ParseIntelFields(line: string, base: nat, n: nat)
    requires ":" <= line && ReadAt(line, 1, 1).Some? && ReadAt(line, 3, 2).Some? && ReadAt(line, 7, 1).Some?
    requires IntelPayload(ReadAt(line, 7, 1).value[0], ReadAt(line, 1, 1).value[0]) == Some(n)
    ensures ParseIntel(line, base) == OutcomeOf(true, FieldsRecord(line, n), base)
  {
    hide ReadAt, ParseIntel, FieldsRecord, OutcomeOf;
    match ReadAt(line, 7, 1).value[0] {
      case 0 => IntelDataFields(line, base);
      case 1 => IntelEndFields(line, base);
      case 2 => IntelSegmentFields(line, base);
      case _ => IntelStartFields(line, base);
    }
  }

  lemma ParseIntelIs(line: string, base: nat)
    ensures ParseIntel(line, base) == OutcomeOf(true, IntelRecord(line), base)
  {
    IntelFields(line, 0);
    hide ReadAt, Sum, BigEndian, PlaceValue, Checksum, IntelSum;
    var len, address, kind := ReadAt(line, 1, 1), ReadAt(line, 3, 2), ReadAt(line, 7, 1);
    if ":" <= line && len.Some? && address.Some? && kind.Some? {
      var n := IntelPayload(kind.value[0], len.value[0]);
      if n.Some? {
        hide ParseIntel, IntelRecord, FieldsRecord, OutcomeOf;
        IntelRecordIs(line, n.value);
        ParseIntelFields(line, base, n.value);
      }
    }
  }

  lemma NoField(line: string)
    requires ReadAt(line, 7, 1).Some?
    ensures ReadAt(line, 9, 0) == Some([]) && Sum([]) == 0
  {
  }

  lemma StartFields(line: string)
    ensures var segment, offset, both := ReadAt(line, 9, 2), ReadAt(line, 13, 2), ReadAt(line, 9, 4);
            && (both.Some? <==> segment.Some? && offset.Some?)
            && (both.Some? ==> Sum(both.value) == Sum(segment.value) + Sum(offset.value))
  {
    ReadAtSplit(line, 9, 2, 2);
    hide ReadAt;
    if ReadAt(line, 9, 4).Some? {
      SumConcat(ReadAt(line, 9, 2).value, ReadAt(line, 13, 2).value);
    }
  }

  /** A Motorola line in its fields. */
  lemma MotorolaFields(line: string, k: nat, n: nat)
    ensures var count, address, all := ReadAt(line, 2, 1), ReadAt(line, 4, k), ReadAt(line, 2, k + n + 2);
            var payload, check := ReadAt(line, 4 + 2 * k, n), ReadAt(line, 4 + 2 * k + 2 * n, 1);
            && (all.Some? <==> count.Some? && address.Some? && payload.Some? && check.Some?)
            && (all.Some? ==> all.value == count.value + address.value + payload.value + check.value)
  {
    hide ReadAt;
    ReadAtSplit(line, 2, 1, k);
    ReadAtSplit(line, 2, 1 + k, n);
    ReadAtSplit(line, 2, 1 + k + n, 1);
  }

  lemma MotorolaAddsUp(count: seq<Byte>, address: seq<Byte>, payload: seq<Byte>, check: seq<Byte>)
    requires |count| == |check| == 1
    ensures Sum(count + address + payload + check) == count[0] + Sum(address) + Sum(payload) + check[0]
  {
    hide Sum;
    SumConcat(count, address);
    SumConcat(count + address, payload);
    SumConcat(count + address + payload, check);
    SumOne(count[0]);
    SumOne(check[0]);
    assert count == [count[0]] && check == [check[0]];
  }

  /** The record of a Motorola line with `k` address bytes and `n` bytes of payload. */
  lemma MotorolaValid(line: string, k: nat, n: nat, all: Option<seq<Byte>>)
    requires all == ReadAt(line, 2, k + n + 2)
    ensures var count, address := ReadAt(line, 2, 1), ReadAt(line, 4, k);
            var payload, check := ReadAt(line, 4 + 2 * k, n), ReadAt(line, 4 + 2 * k + 2 * n, 1);
            && (all.Some? <==> count.Some? && address.Some? && payload.Some? && check.Some?)
            && (all.Some? ==>
                  && (Sum(all.value) % 256 == 255 <==>
                        check.value[0] == 255 - (count.value[0] + Sum(address.value) + Sum(payload.value)) % 256)
                  && PlaceValue(all.value[1..k + 1]) == BigEndian(address.value)
                  && all.value[k + 1..k + n + 1] == payload.value)
  {
    MotorolaFields(line, k, n);
    hide ReadAt, Sum, BigEndian, PlaceValue;
    if all.Some? {
      var count, address := ReadAt(line, 2, 1), ReadAt(line, 4, k);
      var payload, check := ReadAt(line, 4 + 2 * k, n), ReadAt(line, 4 + 2 * k + 2 * n, 1);
      MotorolaAddsUp(count.value, address.value, payload.value, check.value);
      ChecksumCloses(MOTOROLA_S1, count.value[0] + Sum(address.value) + Sum(payload.value), check.value[0]);
      assert all.value[1..k + 1] == address.value;
      PlaceValueIs(address.value);
    }
  }

  lemma ParseSDataIs(line: string, kind: nat, count: nat)
    requires 1 <= kind <= 3 && ReadAt(line, 2, 1).Some? && ReadAt(line, 2, 1).value[0] == count
    ensures ParseSData(line, kind + 1, count) == OutcomeOf(false, CountedRecord(line, kind, kind + 1, count), 0)
  {
    hide ReadAt, Sum, BigEndian, PlaceValue;
    var k := kind + 1;
    AddressBelow(line, k);
    if count >= k + 1 {
      MotorolaValid(line, k, count - (k + 1), ReadAt(line, 2, count + 1));
    }
  }

  /** Addresses fit 32 bits. */
  lemma AddressBelow(line: string, k: nat)
    requires k <= 4
    ensures ReadAt(line, 4, k).Some? ==> BigEndian(ReadAt(line, 4, k).value) < 0x1_0000_0000
  {
    if ReadAt(line, 4, k).Some? {
      BigEndianBound(ReadAt(line, 4, k).value);
      Power256Upto4(k);
    }
  }

  lemma ParseSEndIs(line: string, kind: nat, count: nat)
    requires 7 <= kind <= 9 && ReadAt(line, 2, 1).Some? && ReadAt(line, 2, 1).value[0] == count
    ensures ParseSEnd(line, 11 - kind, count) == OutcomeOf(false, CountedRecord(line, kind, 11 - kind, 12 - kind), 0)
  {
    hide ReadAt, Sum, BigEndian, PlaceValue;
    EndValid(line, 11 - kind);
  }

  /** The record of a Motorola line with `k` address bytes and no payload. */
  lemma EndValid(line: string, k: nat)
    ensures var count, address, check := ReadAt(line, 2, 1), ReadAt(line, 4, k), ReadAt(line, 4 + 2 * k, 1);
            var all := ReadAt(line, 2, k + 2);
            && (all.Some? <==> count.Some? && address.Some? && check.Some?)
            && (all.Some? ==>
                  && (Sum(all.value) % 256 == 255 <==> check.value[0] == 255 - (count.value[0] + Sum(address.value)) % 256)
                  && PlaceValue(all.value[1..k + 1]) == BigEndian(address.value)
                  && all.value[k + 1..k + 1] == [])
  {
    ReadAtNothing(line, 4, k);
    assert Sum([]) == 0;
    hide ReadAt, Sum, BigEndian, PlaceValue;
    MotorolaValid(line, k, 0, ReadAt(line, 2, k + 2));
  }

  lemma ParseSIs(line: string)
    ensures ParseS(line) == OutcomeOf(false, MotorolaRecord(line), 0)
  {
    hide ReadAt, ParseSData, ParseSEnd, CountedRecord;
    var count := ReadAt(line, 2, 1);
    if "S" <= line && |line| >= 2 && IsHexDigit(line[1]) && count.Some? {
      var kind := DigitValue(line[1]);
      if 1 <= kind <= 3 {
        ParseSDataIs(line, kind, count.value[0]);
      } else if 7 <= kind <= 9 {
        ParseSEndIs(line, kind, count.value[0]);
      }
    }
  }

  /** unhex acts on every line as its record format says. */
  lemma ParseIs(intel: bool, line: string, base: nat)
    ensures Parse(intel, line, base) == OutcomeOf(intel, RecordIn(intel, line), base)
  {
    hide ParseIntel, ParseS, IntelRecord, MotorolaRecord;
    if intel {
      ParseIntelIs(line, base);
    } else {
      ParseSIs(line);
    }
  }

  // ------------------------------------------------------------------ images

  /** The segment in force after some records: that of the last extended-address record, or zero. */
  function Segment(intel: bool, records: seq<Rec>): nat {
    if records == [] then 0
    else
      var last := records[|records| - 1];
      if IsSegment(intel, last) then PlaceValue(last.payload) else Segment(intel, records[..|records| - 1])
  }

  /** What a record stores: the bytes of a data record, above sixteen times the segment in force. */
  function Stores(intel: bool, segment: nat, r: Rec): seq<Item> {
    if IsData(intel, r) then Writes(16 * segment + r.address, r.payload) else []
  }

  /** What some records store, one after the other. */
  function Image(intel: bool, records: seq<Rec>): seq<Item> {
    if records == [] then []
    else
      var before := records[..|records| - 1];
      Image(intel, before) + Stores(intel, Segment(intel, before), records[|records| - 1])
  }

  /** The bytes of a record go to one address after the other. */
  lemma {:induction false} WritesAre(address: nat, data: seq<Byte>, i: nat)
    requires i < |data|
    ensures Writes(address, data)[i] == Write(address + i, data[i])
    decreases |data|
  {
    if i < |data| - 1 {
      WritesAre(address, data[..|data| - 1], i);
    }
  }

  /** A line that the records before the end go on through. */
  predicate GoesOn(intel: bool, line: string) {
    RecordIn(intel, line).Some? && !IsEnd(intel, RecordIn(intel, line).value)
  }

  /** The number of lines before the first that is no record or an end record. */
  function Extent(intel: bool, lines: seq<string>): (n: nat)
    ensures n <= |lines| && (forall i :: 0 <= i < n ==> GoesOn(intel, lines[i]))
    ensures n < |lines| ==> !GoesOn(intel, lines[n])
  {
    if lines == [] || !GoesOn(intel, lines[0]) then 0 else 1 + Extent(intel, lines[1..])
  }

  /** The records of some lines. */
  function Records(intel: bool, lines: seq<string>): seq<Rec> {
    if lines == [] then []
    else
      var n, last := |lines| - 1, RecordIn(intel, lines[|lines| - 1]);
      Records(intel, lines[..n]) + if last.Some? then [last.value] else []
  }

  /** Every line is a record, up to the first end record or the end of the file. */
  predicate WellFormedFile(intel: bool, lines: seq<string>) {
    var n := Extent(intel, lines);
    n == |lines| || RecordIn(intel, lines[n]).Some?
  }

  lemma {:induction false} SegmentBounded(intel: bool, lines: seq<string>)
    ensures Segment(intel, Records(intel, lines)) < 0x1_0000
    decreases |lines|
  {
    if lines != [] {
      var n := |lines| - 1;
      SegmentBounded(intel, lines[..n]);
      var last := RecordIn(intel, lines[n]);
      hide RecordIn, Power256;
      if last.None? {
        assert Records(intel, lines) == Records(intel, lines[..n]);
      } else {
        ImageAdd(intel, Records(intel, lines[..n]), last.value);
        if IsSegment(intel, last.value) {
          SegmentPayload(intel, lines[n]);
          AddressValue(last.value.payload);
          Power256Is();
        }
      }
    }
  }

  lemma SegmentPayload(intel: bool, line: string)
    ensures var r := RecordIn(intel, line); r.Some? && IsSegment(intel, r.value) ==> |r.value.payload| == 2
  {
    hide ReadAt, Sum, PlaceValue;
  }

  lemma AddressBounded(intel: bool, line: string)
    ensures var r := RecordIn(intel, line);
            r.Some? ==> r.value.address < if intel then 0x1_0000 else 0x1_0000_0000
  {
    hide ReadAt, Sum, PlaceValue, DigitValue;
    var r := RecordIn(intel, line);
    if r.Some? {
      if intel {
        var head := ReadAt(line, 1, 4).value;
        var n := IntelPayload(head[3], head[0]).value;
        AddressValue(ReadAt(line, 1, n + 5).value[1..3]);
        Power256Is();
      } else if r.value.kind != 0 {
        var k := AddressLength(r.value.kind).value;
        var rest: nat := if r.value.kind <= 3 then ReadAt(line, 2, 1).value[0] else k + 1;
        AddressValue(ReadAt(line, 2, rest + 1).value[1..k + 1]);
        Power256Upto4(k);
      }
    }
  }

  lemma AddressValue(bytes: seq<Byte>)
    ensures PlaceValue(bytes) < Power256(|bytes|)
  {
    PlaceValueIs(bytes);
    BigEndianBound(bytes);
  }

  /** One more line that holds a record. */
  lemma RecordsAdd(intel: bool, before: seq<string>, line: string)
    requires RecordIn(intel, line).Some?
    ensures Records(intel, before + [line]) == Records(intel, before) + [RecordIn(intel, line).value]
  {
    hide RecordIn;
    assert (before + [line])[..|before|] == before;
  }

  lemma ImageAdd(intel: bool, records: seq<Rec>, r: Rec)
    ensures Segment(intel, records + [r]) == if IsSegment(intel, r) then PlaceValue(r.payload) else Segment(intel, records)
    ensures Image(intel, records + [r]) == Image(intel, records) + Stores(intel, Segment(intel, records), r)
  {
    hide Stores, PlaceValue, IsSegment;
    assert (records + [r])[..|records|] == records;
  }

  /** What unhex does with one line that goes on is what its record adds to the image. */
  lemma LineAdds(intel: bool, before: seq<string>, line: string, rest: Conversion)
    requires GoesOn(intel, line)
    ensures var records, r := Records(intel, before), RecordIn(intel, line).value;
            var base := 16 * Segment(intel, records);
            var o := Parse(intel, line, base);
            && NewBase(o, base) == 16 * Segment(intel, records + [r])
            && Then(o, rest) == Conversion(Stores(intel, Segment(intel, records), r) + rest.stores, rest.accepted)
  {
    hide RecordIn, Parse, PlaceValue, Writes, Records, Segment, Image;
    var records, r := Records(intel, before), RecordIn(intel, line).value;
    ParseIs(intel, line, 16 * Segment(intel, records));
    SegmentBounded(intel, before);
    AddressBounded(intel, line);
    ImageAdd(intel, records, r);
    StoresRegroup([], [], rest.stores);
    if !intel {
      NoSegments(records);
    }
  }

  lemma {:induction false} NoSegments(records: seq<Rec>)
    ensures Segment(false, records) == 0
  {
    if records != [] {
      NoSegments(records[..|records| - 1]);
    }
  }

  lemma {:induction false} ConvertedFrom(intel: bool, before: seq<string>, lines: seq<string>)
    ensures var n := Extent(intel, lines);
            var c := ConvertLines(intel, lines, 16 * Segment(intel, Records(intel, before)));
            && Image(intel, Records(intel, before + lines[..n])) == Image(intel, Records(intel, before)) + c.stores
            && c.accepted == WellFormedFile(intel, lines)
    decreases |lines|
  {
    hide RecordIn, Parse, Segment, Image, Stores, Records;
    var base := 16 * Segment(intel, Records(intel, before));
    if lines == [] {
      assert before + lines[..0] == before;
    } else if GoesOn(intel, lines[0]) {
      var r, records := RecordIn(intel, lines[0]).value, Records(intel, before);
      var rest := ConvertLines(intel, lines[1..], 16 * Segment(intel, records + [r]));
      LineAdds(intel, before, lines[0], rest);
      RecordsAdd(intel, before, lines[0]);
      ImageAdd(intel, records, r);
      ConvertedFrom(intel, before + [lines[0]], lines[1..]);
      StoresRegroup(Image(intel, records), Stores(intel, Segment(intel, records), r), rest.stores);
      ExtentPrefix(intel, before, lines);
    } else {
      assert before + lines[..0] == before;
      ParseIs(intel, lines[0], base);
    }
  }

  lemma ExtentPrefix(intel: bool, before: seq<string>, lines: seq<string>)
    requires lines != [] && GoesOn(intel, lines[0])
    ensures var n := Extent(intel, lines);
            n == Extent(intel, lines[1..]) + 1 && before + lines[..n] == before + [lines[0]] + lines[1..][..n - 1]
  {
    hide GoesOn;
    MoveLine(before, lines, Extent(intel, lines));
  }

  lemma MoveLine(before: seq<string>, lines: seq<string>, n: nat)
    requires 0 < n <= |lines|
    ensures before + lines[..n] == before + [lines[0]] + lines[1..][..n - 1]
  {
    assert lines[..n] == [lines[0]] + lines[1..][..n - 1];
  }

  lemma StoresRegroup(a: seq<Item>, b: seq<Item>, c: seq<Item>)
    ensures a + b + c == a + (b + c) && [] + c == c
  {
  }

  /**
    unhex accepts exactly the files all of whose lines are records, up to the first end
    record, and stores exactly the image of the records before the first line that is none
    or ends the file.
   */
  lemma UnhexStoresImage(intel: bool, lines: seq<string>)
    ensures var n := Extent(intel, lines);
            ConvertLines(intel, lines, 0) ==
              Conversion(Image(intel, Records(intel, lines[..n])), WellFormedFile(intel, lines))
  {
    hide RecordIn, ConvertLines, Extent;
    var n := Extent(intel, lines);
    ConvertedFrom(intel, [], lines);
    assert [] + lines[..n] == lines[..n];
    assert Segment(intel, Records(intel, [])) == 0;
  }

  /** A Motorola end record is checked and then passed over: what follows it counts. */
  lemma EndRecordPassedOver(line: string, rest: seq<string>, base: nat)
    requires MotorolaRecord(line).Some? && MotorolaRecord(line).value.kind >= 7
    ensures ConvertLines(false, [line] + rest, base) == ConvertLines(false, rest, base)
  {
    hide ParseS, MotorolaRecord;
    ParseSIs(line);
    assert ([line] + rest)[1..] == rest;
  }

  // ------------------------------------------------------------------- files

  /** The text of a file as `fgets` and the loops after it cut it up. */
  function Pieces(text: string): seq<string>
    decreases |text|
  {
    if text == [] then []
    else
      var n := ChunkLength(text);
      [Strip(text[..n])] + Pieces(text[n..])
  }

  lemma {:induction false} ConvertTextIsPieces(intel: bool, text: string, base: nat)
    ensures ConvertText(intel, text, base) == ConvertLines(intel, Pieces(text), base)
    decreases |text|
  {
    hide Parse, Strip, ChunkLength, Then;
    if text != [] {
      var n := ChunkLength(text);
      ConvertTextIsPieces(intel, text[n..], NewBase(Parse(intel, Strip(text[..n]), base), base));
    }
  }

  /** The same for the text of any file. */
  lemma UnhexFileStoresImage(intel: bool, text: string)
    ensures var lines := Pieces(text);
            var n := Extent(intel, lines);
            ConvertText(intel, text, 0) ==
              Conversion(Image(intel, Records(intel, lines[..n])), WellFormedFile(intel, lines))
  {
    hide Extent, Pieces, ConvertText, ConvertLines;
    ConvertTextIsPieces(intel, text, 0);
    UnhexStoresImage(intel, Pieces(text));
  }

  // ------------------------------------------------------- the records packhex takes

  /** Of the lines that hold a record, packhex takes exactly the data records of a format for one. */
  lemma IntelDataIff(line: string)
    requires IntelRecord(line).Some?
    ensures IsDataRecord(INTEL_HEX, line) <==> IntelRecord(line).value.kind == 0
  {
    IntelFields(line, 0);
    var t := line[7..9];
    assert t[1] == line[8];
    assert BytesOf(t, 1)[0] == PairAt(t, 0) == 16 * DigitValue(t[0]) + DigitValue(t[1]);
    assert IntelRecord(line).value.kind == PairAt(t, 0) by {
      hide PlaceValue, Sum;
    }
    DigitZero(line[8]);
  }

  lemma DigitZero(c: char)
    requires IsHexDigit(c)
    ensures DigitValue(c) == 0 <==> c == '0'
  {
  }

  lemma MotorolaDataIff(line: string, kind: nat, f: Format)
    requires MotorolaRecord(line).Some? && 1 <= kind <= 3 && f == [MOTOROLA_S1, MOTOROLA_S2, MOTOROLA_S3][kind - 1]
    ensures IsDataRecord(f, line) <==> MotorolaRecord(line).value.kind == kind
  {
    hide ReadAt, CountedRecord;
    CountedKind(line, DigitValue(line[1]));
    assert f.header <= line <==> line[1] == f.header[1];
    DigitIs(line[1], kind);
  }

  lemma CountedKind(line: string, kind: nat)
    ensures forall k: nat, rest: nat :: CountedRecord(line, kind, k, rest).Some? ==>
              CountedRecord(line, kind, k, rest).value.kind == kind
  {
  }

  lemma DigitIs(c: char, kind: nat)
    requires IsHexDigit(c) && 1 <= kind <= 3
    ensures DigitValue(c) == kind <==> c == "0123"[kind]
  {
  }

  /** packhex recognises every data record. */
  lemma DataRecognised(intel: bool, line: string)
    requires RecordIn(intel, line).Some? && IsData(intel, RecordIn(intel, line).value)
    ensures PackhexMain.Recognised(line)
  {
    hide IntelRecord, MotorolaRecord, IsDataRecord;
    if intel {
      IntelDataIff(line);
      assert IsDataRecord(FORMATS[0], line);
    } else {
      var kind := MotorolaRecord(line).value.kind;
      MotorolaDataIff(line, kind, FORMATS[kind]);
      assert IsDataRecord(FORMATS[kind], line);
    }
  }

  /**
    packhex's own conditions on its input are met by every line that holds a record and, if
    it is one of data, ends inside the address space.
   */
  lemma RecordsWellFormed(f: Format, line: string)
    requires f in FORMATS && RecordIn(f == INTEL_HEX, line).Some?
    requires var r := RecordIn(f == INTEL_HEX, line).value; r.address + |r.payload| <= AddressSpace(f)
    ensures PackhexFiles.WellFormed(f, line)
  {
    hide IntelRecord, MotorolaRecord, Decode, ParseIntel, ParseS, AddressSpace, IsDataRecord;
    if IsDataRecord(f, line) {
      if f == INTEL_HEX {
        IntelDataIff(line);
        ParseIntelIs(line, 0);
        IntelAgrees(line, 0);
        AddressBounded(true, line);
        DecodedBelow(line);
      } else {
        var kind := f.addressBytes - 1;
        MotorolaDataIff(line, kind, f);
        ParseSIs(line);
        AddressBounded(false, line);
        OneFormat(f, line);
      }
    }
  }

  lemma DecodedBelow(line: string)
    ensures Decode(INTEL_HEX, line).Some? ==> Decode(INTEL_HEX, line).value.address < 0x1_0000
  {
    if Decode(INTEL_HEX, line).Some? {
      GettersAgree(INTEL_HEX, line);
      Power256Is();
    }
  }

  /** An S data record is one of the format whose header it has. */
  lemma OneFormat(f: Format, line: string)
    requires f in {MOTOROLA_S1, MOTOROLA_S2, MOTOROLA_S3} && IsDataRecord(f, line) && ParseS(line).Stored?
    ensures Decode(f, line).Some? && ParseS(line) == Stored(Decode(f, line).value.address, Decode(f, line).value.data)
  {
    hide Decode, ParseS;
    SAgrees(line);
    DecodeHeader(MOTOROLA_S1, line);
    DecodeHeader(MOTOROLA_S2, line);
    DecodeHeader(MOTOROLA_S3, line);
    assert line[1] == f.header[1];
  }
}
