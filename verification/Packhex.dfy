/**
  packhex: splices the data of adjacent hex records into records of maximum length,
  without changing what the file says.
 */
module Packhex {
  import opened Basics
  import opened HexText
  import opened HexRecords

  // ----------------------------------------------------- lines and their items

  /** A line of a file: a data record with the digits its data was written in, or any other line. */
  datatype Line = Data(address: nat, data: seq<Byte>, digits: string) | Other(text: string)

  /** A byte stored at an address, or a line that is no data record of the format. */
  datatype Item = Write(address: nat, byte: Byte) | Text(line: string)

  predicate ValidData(f: Format, address: nat, data: seq<Byte>) {
    |data| <= f.maxCount && (data != [] ==> address + |data| <= AddressSpace(f))
  }

  predicate ValidLine(f: Format, l: Line) {
    match l
    case Data(address, data, digits) => ValidData(f, address, data) && Spells(digits, data)
    case Other(text) => !IsDataRecord(f, text)
  }

  predicate ValidLines(f: Format, lines: seq<Line>) {
    forall i :: 0 <= i < |lines| ==> ValidLine(f, lines[i])
  }

  /** No data record is empty. */
  predicate NoneEmpty(lines: seq<Line>) {
    forall i :: 0 <= i < |lines| && lines[i].Data? ==> lines[i].data != []
  }

  function Writes(address: nat, data: seq<Byte>): (items: seq<Item>)
    ensures |items| == |data|
  {
    if data == [] then [] else Writes(address, data[..|data| - 1]) + [Write(address + |data| - 1, data[|data| - 1])]
  }

  lemma {:induction false} WritesConcat(address: nat, a: seq<Byte>, b: seq<Byte>)
    ensures Writes(address, a + b) == Writes(address, a) + Writes(address + |a|, b)
    decreases |b|
  {
    if b == [] {
      assert a + b == a;
    } else {
      assert (a + b)[..|a + b| - 1] == a + b[..|b| - 1];
      WritesConcat(address, a, b[..|b| - 1]);
    }
  }

  function LineItems(l: Line): seq<Item> {
    if l.Data? then Writes(l.address, l.data) else [Text(l.text)]
  }

  /** The ordered stores and other lines of a file. */
  function Items(lines: seq<Line>): seq<Item> {
    if lines == [] then [] else Items(lines[..|lines| - 1]) + LineItems(lines[|lines| - 1])
  }

  lemma ItemsAdd(lines: seq<Line>, l: Line)
    ensures Items(lines + [l]) == Items(lines) + LineItems(l)
  {
    assert (lines + [l])[..|lines|] == lines;
  }

  // ------------------------------------------------------- the splicing loop

  /** The output so far and the record being accumulated. */
  datatype Packer = Packer(out: seq<Line>, address: nat, data: seq<Byte>, digits: string)

  predicate ValidPacker(f: Format, p: Packer) {
    && f.maxCount > 0
    && ValidData(f, p.address, p.data) && Spells(p.digits, p.data)
    && ValidLines(f, p.out) && NoneEmpty(p.out)
  }

  function Flush(p: Packer): seq<Line> {
    if p.data != [] then p.out + [Data(p.address, p.data, p.digits)] else p.out
  }

  function PackData(max: nat, p: Packer, l: Line): Packer
    requires l.Data? && |l.digits| == 2 * |l.data| && |l.data| <= max && |p.data| <= max
  {
    if p.data == [] || l.address != p.address + |p.data| then
      Packer(Flush(p), l.address, l.data, l.digits)
    else if |p.data| + |l.data| > max then
      var part := max - |p.data|;
      Packer(p.out + [Data(p.address, p.data + l.data[..part], p.digits + l.digits[..2 * part])],
             p.address + max, l.data[part..], l.digits[2 * part..])
    else
      p.(data := p.data + l.data, digits := p.digits + l.digits)
  }

  lemma PackDataValid(f: Format, p: Packer, l: Line)
    requires ValidPacker(f, p) && ValidLine(f, l) && l.Data?
    ensures ValidPacker(f, PackData(f.maxCount, p, l))
  {
    if p.data != [] && l.address == p.address + |p.data| {
      if |p.data| + |l.data| > f.maxCount {
        var part := f.maxCount - |p.data|;
        SpellsSplit(l.digits, l.data, part);
        SpellsConcat(p.digits, p.data, l.digits[..2 * part], l.data[..part]);
      } else {
        SpellsConcat(p.digits, p.data, l.digits, l.data);
      }
    }
  }

  /** One pass of the loop of `main`. */
  function PackLine(f: Format, p: Packer, l: Line): (p': Packer)
    requires ValidPacker(f, p) && ValidLine(f, l)
    ensures ValidPacker(f, p')
  {
    if l.Data? then PackDataValid(f, p, l); PackData(f.maxCount, p, l)
    else Packer(Flush(p) + [l], p.address, [], [])
  }

  function PackAll(f: Format, lines: seq<Line>): (p: Packer)
    requires f.maxCount > 0 && ValidLines(f, lines)
    ensures ValidPacker(f, p)
  {
    if lines == [] then Packer([], 0, [], [])
    else PackLine(f, PackAll(f, lines[..|lines| - 1]), lines[|lines| - 1])
  }

  // ------------------------------------------------- compaction keeps meaning

  /** What the packer has put out and holds. */
  function Said(p: Packer): seq<Item> {
    Items(p.out) + Writes(p.address, p.data)
  }

  lemma FlushSays(p: Packer)
    ensures Items(Flush(p)) == Said(p)
  {
    ItemsAdd(p.out, Data(p.address, p.data, p.digits));
  }

  lemma OverflowItems(out: seq<Line>, full: Line, address: nat, held: seq<Byte>, data: seq<Byte>, part: nat, next: nat)
    requires part <= |data| && next == address + |held| + part
    requires full.Data? && full.address == address && full.data == held + data[..part]
    ensures Items(out + [full]) + Writes(next, data[part..]) ==
            Items(out) + Writes(address, held) + Writes(address + |held|, data)
  {
    hide Items, Writes;
    var d1, d2 := data[..part], data[part..];
    assert data == d1 + d2;
    WritesConcat(address, held, d1);
    WritesConcat(address + |held|, d1, d2);
    ItemsAdd(out, full);
  }

  lemma OverflowSays(max: nat, p: Packer, l: Line)
    requires l.Data? && |l.digits| == 2 * |l.data| && |l.data| <= max && |p.data| <= max
    requires p.data != [] && l.address == p.address + |p.data| && |p.data| + |l.data| > max
    ensures Said(PackData(max, p, l)) == Said(p) + LineItems(l)
  {
    hide Items, Writes;
    var part := max - |p.data|;
    var full := Data(p.address, p.data + l.data[..part], p.digits + l.digits[..2 * part]);
    OverflowItems(p.out, full, p.address, p.data, l.data, part, p.address + max);
  }

  lemma PackDataSays(max: nat, p: Packer, l: Line)
    requires l.Data? && |l.digits| == 2 * |l.data| && |l.data| <= max && |p.data| <= max
    ensures Said(PackData(max, p, l)) == Said(p) + LineItems(l)
  {
    if p.data == [] || l.address != p.address + |p.data| {
      FlushSays(p);
    } else if |p.data| + |l.data| > max {
      OverflowSays(max, p, l);
    } else {
      WritesConcat(p.address, p.data, l.data);
    }
  }

  lemma PackLineSays(f: Format, p: Packer, l: Line)
    requires ValidPacker(f, p) && ValidLine(f, l)
    ensures Said(PackLine(f, p, l)) == Said(p) + LineItems(l)
  {
    if l.Data? {
      PackDataSays(f.maxCount, p, l);
    } else {
      FlushSays(p);
      ItemsAdd(Flush(p), l);
    }
  }

  /** Nothing is lost or reordered: what is put out, then what is held, is what was read. */
  lemma {:induction false} PackAllSays(f: Format, lines: seq<Line>)
    requires f.maxCount > 0 && ValidLines(f, lines)
    ensures Said(PackAll(f, lines)) == Items(lines)
  {
    if lines != [] {
      PackAllSays(f, lines[..|lines| - 1]);
      PackLineSays(f, PackAll(f, lines[..|lines| - 1]), lines[|lines| - 1]);
    }
  }

  // -------------------------------------------------- what the input says is held

  /** A stretch of data at consecutive addresses: where it ends and how long it is. */
  datatype Stretch = Stretch(next: nat, length: nat)

  /** A record extends a stretch if it goes on where it ends; anything else ends it. */
  function Extended(r: Stretch, l: Line): Stretch {
    if l.Other? then Stretch(0, 0)
    else Stretch(l.address + |l.data|, (if r.length > 0 && l.address == r.next then r.length else 0) + |l.data|)
  }

  /** The stretch of data at the end of some lines. */
  function LastStretch(lines: seq<Line>): Stretch {
    if lines == [] then Stretch(0, 0) else Extended(LastStretch(lines[..|lines| - 1]), lines[|lines| - 1])
  }

  /** What is held is the end of the last stretch. */
  lemma {:induction false} HeldIsStretch(f: Format, lines: seq<Line>)
    requires f.maxCount > 0 && ValidLines(f, lines)
    ensures var p, r := PackAll(f, lines), LastStretch(lines);
            && (p.data == [] <==> r.length == 0)
            && (p.data != [] ==> p.address + |p.data| == r.next && |p.data| <= r.length)
  {
    if lines != [] {
      HeldIsStretch(f, lines[..|lines| - 1]);
    }
  }

  /** Line `j` is a data record with data, and only empty records at its end follow. */
  predicate HeldFrom(lines: seq<Line>, j: nat) {
    && j < |lines| && lines[j].Data? && lines[j].data != []
    && forall i :: j < i < |lines| ==>
         lines[i].Data? && lines[i].data == [] && lines[i].address == lines[j].address + |lines[j].data|
  }

  predicate EndsInData(lines: seq<Line>) {
    exists j :: 0 <= j < |lines| && HeldFrom(lines, j)
  }

  lemma HeldFromAdd(front: seq<Line>, l: Line, j: nat)
    requires j < |front|
    ensures HeldFrom(front + [l], j) <==>
              HeldFrom(front, j) && l.Data? && l.data == [] && l.address == front[j].address + |front[j].data|
  {
    var lines := front + [l];
    assert lines[|front|] == l;
    assert forall i :: 0 <= i < |front| ==> lines[i] == front[i];
  }

  lemma {:induction false} StretchIffEndsInData(lines: seq<Line>)
    ensures LastStretch(lines).length > 0 <==> EndsInData(lines)
    ensures forall j :: 0 <= j < |lines| && HeldFrom(lines, j) ==> LastStretch(lines).next == lines[j].address + |lines[j].data|
  {
    if lines != [] {
      var n := |lines| - 1;
      var front, l := lines[..n], lines[n];
      assert lines == front + [l];
      StretchIffEndsInData(front);
      forall j | 0 <= j < n
        ensures HeldFrom(lines, j) <==> HeldFrom(front, j) && l.Data? && l.data == [] && l.address == LastStretch(front).next
      {
        HeldFromAdd(front, l, j);
      }
      assert HeldFrom(lines, n) <==> l.Data? && l.data != [];
      if LastStretch(lines).length > 0 && l.data == [] {
        var j :| 0 <= j < |front| && HeldFrom(front, j);
        assert HeldFrom(lines, j);
      }
    }
  }

  /**
    packhex does not flush at the end of its input: what the output says is what the
    input says exactly when the input does not end in a data record with data, followed by
    nothing but empty records at the address where it ends.
   */
  lemma PreservedIff(f: Format, lines: seq<Line>)
    requires f.maxCount > 0 && ValidLines(f, lines)
    ensures Items(PackAll(f, lines).out) == Items(lines) <==> !EndsInData(lines)
    ensures PackAll(f, lines).data == [] <==> !EndsInData(lines)
  {
    PackAllSays(f, lines);
    HeldIsStretch(f, lines);
    StretchIffEndsInData(lines);
  }

  // ----------------------------------------------------- how long records become

  /** Every data record has at most `limit` bytes. */
  predicate AllWithin(lines: seq<Line>, limit: nat) {
    forall i :: 0 <= i < |lines| && lines[i].Data? ==> |lines[i].data| <= limit
  }

  /** No stretch of consecutive data is longer than `limit` bytes. */
  predicate StretchesWithin(lines: seq<Line>, limit: nat) {
    forall i :: 0 <= i <= |lines| ==> LastStretch(lines[..i]).length <= limit
  }

  lemma StretchesWithinAdd(lines: seq<Line>, limit: nat)
    requires lines != []
    ensures StretchesWithin(lines, limit) <==>
              StretchesWithin(lines[..|lines| - 1], limit) && LastStretch(lines).length <= limit
  {
    hide LastStretch;
    var front := lines[..|lines| - 1];
    assert lines[..|lines|] == lines;
    assert forall i :: 0 <= i <= |front| ==> front[..i] == lines[..i];
  }

  lemma AllWithinAdd(lines: seq<Line>, l: Line, limit: nat)
    ensures AllWithin(lines + [l], limit) <==> AllWithin(lines, limit) && (l.Data? ==> |l.data| <= limit)
  {
    assert (lines + [l])[|lines|] == l;
    assert forall i :: 0 <= i < |lines| ==> (lines + [l])[i] == lines[i];
  }

  /** Records stay within a limit below the maximum exactly when the stretches of the input do. */
  lemma {:induction false} WithinIff(f: Format, lines: seq<Line>, limit: nat)
    requires f.maxCount > limit && ValidLines(f, lines)
    ensures var p := PackAll(f, lines);
            && (AllWithin(Flush(p), limit) <==> StretchesWithin(lines, limit))
            && (AllWithin(p.out, limit) ==> LastStretch(lines).length == |p.data|)
  {
    if lines != [] {
      var n := |lines| - 1;
      var p, l := PackAll(f, lines[..n]), lines[n];
      WithinIff(f, lines[..n], limit);
      HeldIsStretch(f, lines[..n]);
      StretchesWithinAdd(lines, limit);
      WithinStep(f, p, l, limit, LastStretch(lines[..n]));
    }
  }

  lemma WithinStep(f: Format, p: Packer, l: Line, limit: nat, r: Stretch)
    requires f.maxCount > limit && ValidPacker(f, p) && ValidLine(f, l)
    requires p.data == [] <==> r.length == 0
    requires p.data != [] ==> p.address + |p.data| == r.next
    requires AllWithin(p.out, limit) ==> r.length == |p.data|
    ensures var p', r' := PackLine(f, p, l), Extended(r, l);
            && (AllWithin(Flush(p'), limit) <==> AllWithin(Flush(p), limit) && r'.length <= limit)
            && (AllWithin(p'.out, limit) ==> r'.length == |p'.data|)
  {
    var p' := PackLine(f, p, l);
    AllWithinAdd(p.out, Data(p.address, p.data, p.digits), limit);
    AllWithinAdd(p'.out, Data(p'.address, p'.data, p'.digits), limit);
    AllWithinAdd(Flush(p), l, limit);
    if l.Data? && p.data != [] && l.address == p.address + |p.data| && |p.data| + |l.data| > f.maxCount {
      AllWithinAdd(p.out, p'.out[|p.out|], limit);
    }
  }

  /** The line goes on with a stretch. */
  predicate Extends(r: Stretch, l: Line) {
    l.Data? && r.length > 0 && l.address == r.next
  }

  /** No stretch that a later line ends is longer than `limit` bytes. */
  predicate EndedWithin(lines: seq<Line>, limit: nat) {
    forall i :: 0 <= i < |lines| && !Extends(LastStretch(lines[..i]), lines[i]) ==> LastStretch(lines[..i]).length <= limit
  }

  lemma EndedWithinAdd(lines: seq<Line>, limit: nat)
    requires lines != []
    ensures var front, l := lines[..|lines| - 1], lines[|lines| - 1];
            EndedWithin(lines, limit) <==>
              EndedWithin(front, limit) && (!Extends(LastStretch(front), l) ==> LastStretch(front).length <= limit)
  {
    hide LastStretch, Extends;
    var front := lines[..|lines| - 1];
    assert forall i :: 0 <= i < |front| ==> front[..i] == lines[..i] && front[i] == lines[i];
  }

  /**
    What is put out, without what is held, stays within the limit exactly when the
    stretches that ended do and the last one fits into one record.
   */
  lemma {:induction false} OutWithinIff(f: Format, lines: seq<Line>, limit: nat)
    requires f.maxCount > limit && ValidLines(f, lines)
    ensures AllWithin(PackAll(f, lines).out, limit) <==>
              EndedWithin(lines, limit) && LastStretch(lines).length <= f.maxCount
  {
    if lines != [] {
      var n := |lines| - 1;
      var p, l := PackAll(f, lines[..n]), lines[n];
      OutWithinIff(f, lines[..n], limit);
      WithinIff(f, lines[..n], limit);
      HeldIsStretch(f, lines[..n]);
      EndedWithinAdd(lines, limit);
      OutWithinStep(f, p, l, limit, LastStretch(lines[..n]));
    }
  }

  lemma OutWithinStep(f: Format, p: Packer, l: Line, limit: nat, r: Stretch)
    requires f.maxCount > limit && ValidPacker(f, p) && ValidLine(f, l)
    requires p.data == [] <==> r.length == 0
    requires p.data != [] ==> p.address + |p.data| == r.next && |p.data| <= r.length
    requires AllWithin(p.out, limit) ==> r.length == |p.data|
    ensures var p', r' := PackLine(f, p, l), Extended(r, l);
            if Extends(r, l) then
              AllWithin(p'.out, limit) && r'.length <= f.maxCount <==> AllWithin(p.out, limit) && r'.length <= f.maxCount
            else
              AllWithin(p'.out, limit) <==> AllWithin(p.out, limit) && |p.data| <= limit
    ensures AllWithin(PackLine(f, p, l).out, limit) ==> AllWithin(p.out, limit)
    ensures Extends(r, l) && AllWithin(PackLine(f, p, l).out, limit) ==> Extended(r, l).length <= f.maxCount
  {
    var p' := PackLine(f, p, l);
    AllWithinAdd(p.out, Data(p.address, p.data, p.digits), limit);
    AllWithinAdd(Flush(p), l, limit);
    if l.Data? && p.data != [] && l.address == p.address + |p.data| && |p.data| + |l.data| > f.maxCount {
      AllWithinAdd(p.out, p'.out[|p.out|], limit);
    }
  }

  // ------------------------------------------------------ compaction compacts

  /** The second record goes on where the first ends. */
  predicate Continues(a: Line, b: Line) {
    a.Data? && b.Data? && b.address == a.address + |a.data|
  }

  /** A record is only followed by its continuation when it is full. */
  predicate FullyPacked(max: nat, lines: seq<Line>) {
    forall i :: 0 < i < |lines| && Continues(lines[i - 1], lines[i]) ==> |lines[i - 1].data| == max
  }

  predicate PackedSoFar(max: nat, p: Packer) {
    && FullyPacked(max, Flush(p))
    && (p.data == [] ==> p.out == [] || p.out[|p.out| - 1].Other?)
  }

  lemma FullyPackedAdd(max: nat, lines: seq<Line>, l: Line)
    requires FullyPacked(max, lines)
    requires lines != [] && Continues(lines[|lines| - 1], l) ==> |lines[|lines| - 1].data| == max
    ensures FullyPacked(max, lines + [l])
  {
  }

  lemma FullyPackedReplace(max: nat, lines: seq<Line>, l: Line, l': Line)
    requires FullyPacked(max, lines + [l]) && l.Data? && l'.Data? && l.address == l'.address
    ensures FullyPacked(max, lines + [l'])
  {
    var before, after := lines + [l], lines + [l'];
    forall i | 0 < i < |after| && Continues(after[i - 1], after[i])
      ensures |after[i - 1].data| == max
    {
      assert before[i - 1] == after[i - 1] && Continues(before[i - 1], before[i]);
    }
  }

  lemma PackDataPacks(max: nat, p: Packer, l: Line)
    requires l.Data? && |l.digits| == 2 * |l.data| && 0 < |l.data| <= max && |p.data| <= max
    requires PackedSoFar(max, p)
    ensures PackedSoFar(max, PackData(max, p, l))
  {
    if p.data == [] || l.address != p.address + |p.data| {
      FullyPackedAdd(max, Flush(p), l);
    } else {
      var p' := PackData(max, p, l);
      var held := Data(p.address, p.data, p.digits);
      if |p.data| + |l.data| > max {
        var full := p'.out[|p.out|];
        FullyPackedReplace(max, p.out, held, full);
        FullyPackedAdd(max, p.out + [full], Data(p'.address, p'.data, p'.digits));
      } else {
        FullyPackedReplace(max, p.out, held, Data(p'.address, p'.data, p'.digits));
      }
    }
  }

  /** In the output of a file without empty data records, only full records are continued. */
  lemma {:induction false} PackAllPacks(f: Format, lines: seq<Line>)
    requires f.maxCount > 0 && ValidLines(f, lines) && NoneEmpty(lines)
    ensures PackedSoFar(f.maxCount, PackAll(f, lines)) && FullyPacked(f.maxCount, PackAll(f, lines).out)
  {
    if lines != [] {
      var p, l := PackAll(f, lines[..|lines| - 1]), lines[|lines| - 1];
      PackAllPacks(f, lines[..|lines| - 1]);
      if l.Data? {
        PackDataPacks(f.maxCount, p, l);
      } else {
        FullyPackedAdd(f.maxCount, Flush(p), l);
      }
    }
    var p := PackAll(f, lines);
    assert forall i :: 0 <= i < |p.out| ==> Flush(p)[i] == p.out[i];
  }

  // ---------------------------------------------------- where empty records get in the way

  /** The stretch at the end of some lines, looking past empty records. */
  function Remembered(lines: seq<Line>): Stretch {
    if lines == [] || lines[|lines| - 1].Other? then Stretch(0, 0)
    else if lines[|lines| - 1].data != [] then LastStretch(lines)
    else Remembered(lines[..|lines| - 1])
  }

  /**
    Line `j` goes on with a stretch that an empty record elsewhere has made packhex print,
    and its last record was not full.
   */
  predicate Breaks(max: nat, lines: seq<Line>, j: nat)
    requires max > 0
  {
    && j < |lines| && lines[j].Data? && lines[j].data != []
    && LastStretch(lines[..j]).length == 0
    && Remembered(lines[..j]).length % max != 0
    && lines[j].address == Remembered(lines[..j]).next
  }

  predicate Unbroken(max: nat, lines: seq<Line>)
    requires max > 0
  {
    forall j :: 0 <= j < |lines| ==> !Breaks(max, lines, j)
  }

  lemma UnbrokenAdd(max: nat, lines: seq<Line>)
    requires max > 0 && lines != []
    ensures Unbroken(max, lines) <==> Unbroken(max, lines[..|lines| - 1]) && !Breaks(max, lines, |lines| - 1)
  {
    hide LastStretch, Remembered;
    var front := lines[..|lines| - 1];
    forall j | 0 <= j < |front|
      ensures Breaks(max, lines, j) <==> Breaks(max, front, j)
    {
      assert lines[..j] == front[..j];
    }
  }

  /** A record of `n` bytes ends a stretch of `length` bytes cut into records of `max`. */
  predicate CutsTo(max: nat, length: nat, n: nat)
    requires max > 0
  {
    0 < n <= max && n <= length && (length - n) % max == 0
  }

  lemma CutsToFull(max: nat, length: nat, n: nat)
    requires max > 0 && CutsTo(max, length, n)
    ensures n == max <==> length % max == 0
  {
    var q := (length - n) / max;
    assert length - n == q * max;
    if n == max {
      assert length == (q + 1) * max + 0;
      QuotientUnique(length, max, q + 1, 0);
    } else {
      QuotientUnique(length, max, q, n);
    }
  }

  lemma CutsToOver(max: nat, length: nat, n: nat, more: nat)
    requires max > 0 && CutsTo(max, length, n) && more <= max
    ensures n + more <= max ==> CutsTo(max, length + more, n + more)
    ensures n + more > max ==> CutsTo(max, length + more, n + more - max)
  {
    if n + more > max {
      var q := (length - n) / max;
      assert length + more - (n + more - max) == (q + 1) * max + 0;
      QuotientUnique(length + more - (n + more - max), max, q + 1, 0);
    }
  }

  /** What the packer holds, or has printed last, is the end of the stretch. */
  predicate EndsStretch(max: nat, p: Packer, r: Stretch, m: Stretch)
    requires max > 0
  {
    if p.data != [] then r.length > 0 && m == r && p.address + |p.data| == r.next && CutsTo(max, r.length, |p.data|)
    else
      && r.length == 0
      && if m.length == 0 then p.out == [] || p.out[|p.out| - 1].Other?
         else
           && p.out != []
           && var last := p.out[|p.out| - 1];
              last.Data? && last.address + |last.data| == m.next && CutsTo(max, m.length, |last.data|)
  }

  /** The stretch to remember after one more line. */
  function Recalled(r': Stretch, m: Stretch, l: Line): Stretch {
    if l.Other? then Stretch(0, 0) else if l.data != [] then r' else m
  }

  lemma EndsStretchStep(f: Format, p: Packer, l: Line, r: Stretch, m: Stretch)
    requires ValidPacker(f, p) && ValidLine(f, l) && EndsStretch(f.maxCount, p, r, m)
    ensures EndsStretch(f.maxCount, PackLine(f, p, l), Extended(r, l), Recalled(Extended(r, l), m, l))
  {
    hide Spells;
    var max := f.maxCount;
    if l.Data? && p.data != [] {
      CutsToOver(max, r.length, |p.data|, |l.data|);
    }
    if l.Data? && l.data != [] {
      QuotientUnique(0, max, 0, 0);
    }
  }

  lemma {:induction false} EndsStretchAll(f: Format, lines: seq<Line>)
    requires f.maxCount > 0 && ValidLines(f, lines)
    ensures EndsStretch(f.maxCount, PackAll(f, lines), LastStretch(lines), Remembered(lines))
  {
    if lines != [] {
      var n := |lines| - 1;
      EndsStretchAll(f, lines[..n]);
      hide EndsStretch, PackLine, Extended;
      EndsStretchStep(f, PackAll(f, lines[..n]), lines[n], LastStretch(lines[..n]), Remembered(lines[..n]));
    }
  }

  lemma FullyPackedSnoc(max: nat, lines: seq<Line>, l: Line)
    ensures FullyPacked(max, lines + [l]) <==>
              && FullyPacked(max, lines)
              && (lines != [] && Continues(lines[|lines| - 1], l) ==> |lines[|lines| - 1].data| == max)
  {
    var all := lines + [l];
    assert forall i :: 0 <= i < |lines| ==> all[i] == lines[i];
    assert all[|lines|] == l;
  }

  /** Going on with a held record breaks nothing and mends nothing. */
  lemma ExtendPacks(f: Format, p: Packer, l: Line)
    requires ValidPacker(f, p) && ValidLine(f, l) && l.Data? && p.data != [] && l.address == p.address + |p.data|
    ensures FullyPacked(f.maxCount, Flush(PackLine(f, p, l))) <==> FullyPacked(f.maxCount, Flush(p))
  {
    hide Spells, FullyPacked;
    var max, p' := f.maxCount, PackLine(f, p, l);
    var held, held' := Data(p.address, p.data, p.digits), Data(p'.address, p'.data, p'.digits);
    FullyPackedSnoc(max, p.out, held);
    if |p.data| + |l.data| > max {
      var full := p'.out[|p.out|];
      FullyPackedSnoc(max, p.out, full);
      FullyPackedSnoc(max, p.out + [full], held');
    } else {
      FullyPackedSnoc(max, p.out, held');
    }
  }

  /** Any other line is put behind what there is. */
  lemma StartPacks(f: Format, p: Packer, l: Line, r: Stretch, m: Stretch)
    requires ValidPacker(f, p) && ValidLine(f, l) && EndsStretch(f.maxCount, p, r, m)
    requires !(l.Data? && p.data != [] && l.address == p.address + |p.data|)
    ensures var breaks := l.Data? && l.data != [] && r.length == 0 && m.length % f.maxCount != 0 && l.address == m.next;
            FullyPacked(f.maxCount, Flush(PackLine(f, p, l))) <==> FullyPacked(f.maxCount, Flush(p)) && !breaks
  {
    hide Spells, FullyPacked;
    var max := f.maxCount;
    FullyPackedSnoc(max, Flush(p), l);
    QuotientUnique(0, max, 0, 0);
    if p.data == [] && m.length > 0 {
      CutsToFull(max, m.length, |p.out[|p.out| - 1].data|);
    }
  }

  /**
    In what packhex puts out and holds, only full records are continued by the next, exactly
    when no record goes on with a stretch that an empty record has broken.
   */
  lemma {:induction false} PackedIff(f: Format, lines: seq<Line>)
    requires f.maxCount > 0 && ValidLines(f, lines)
    ensures FullyPacked(f.maxCount, Flush(PackAll(f, lines))) <==> Unbroken(f.maxCount, lines)
  {
    if lines != [] {
      var n := |lines| - 1;
      var front, l := lines[..n], lines[n];
      var p, r, m := PackAll(f, front), LastStretch(front), Remembered(front);
      PackedIff(f, front);
      EndsStretchAll(f, front);
      UnbrokenAdd(f.maxCount, lines);
      if l.Data? && p.data != [] && l.address == p.address + |p.data| {
        ExtendPacks(f, p, l);
      } else {
        StartPacks(f, p, l, r, m);
      }
    }
  }

  /** It happens: a record, an empty one elsewhere, and a continuation of the first are printed as two short records. */
  lemma EmptyRecordBreaks(max: nat, a: Line, e: Line, b: Line)
    requires max > 0 && a.Data? && e.Data? && b.Data? && 0 < |a.data| < max && e.data == [] && b.data != []
    requires e.address != a.address + |a.data| == b.address
    ensures Breaks(max, [a, e, b], 2)
  {
    var lines := [a, e, b];
    assert lines[..2] == [a, e] && [a, e][..1] == [a] && [a][..0] == [];
    assert LastStretch([a]) == Stretch(a.address + |a.data|, |a.data|) == Remembered([a]);
    QuotientUnique(|a.data|, max, 0, |a.data|);
  }
}
