/**
  unhex after packhex: exactly when converting the packed file makes the same stores in
  the same order as converting the original.
 */
module HexPipeline {
  import opened Basics
  import opened HexText
  import opened HexRecords
  import opened Packhex
  import opened PackhexFiles
  import opened PackhexMain
  import opened Unhex
  import opened UnhexFiles
  import opened HexTools

  /** What unhex does, item by item instead of line by line. */
  function Replay(intel: bool, items: seq<Item>, base: nat): Conversion
    decreases |items|
  {
    if items == [] then Conversion([], true)
    else
      match items[0]
      case Write(address, byte) =>
        var rest := Replay(intel, items[1..], base);
        Conversion([Write((if intel then base else 0) + address, byte)] + rest.stores, rest.accepted)
      case Text(line) =>
        var o := Parse(intel, line, base);
        Then(o, Replay(intel, items[1..], NewBase(o, base)))
  }

  lemma {:induction false} ReplayWrites(intel: bool, address: nat, data: seq<Byte>, more: seq<Item>, base: nat)
    ensures var rest := Replay(intel, more, base);
            Replay(intel, Writes(address, data) + more, base) ==
              Conversion(Writes((if intel then base else 0) + address, data) + rest.stores, rest.accepted)
    decreases |data|
  {
    hide Parse;
    if data == [] {
      assert Writes(address, data) + more == more;
    } else {
      var n := |data| - 1;
      var last := Write(address + n, data[n]);
      assert Writes(address, data) + more == Writes(address, data[..n]) + ([last] + more);
      assert ([last] + more)[1..] == more;
      ReplayWrites(intel, address, data[..n], [last] + more, base);
    }
  }

  lemma {:induction false} MeaningFirst(f: Format, file: seq<string>)
    requires file != []
    ensures Meaning(f, file) == TextItems(f, file[0]) + Meaning(f, file[1..])
    decreases |file|
  {
    hide TextItems;
    var n := |file| - 1;
    if n == 0 {
      assert file[..0] == [] && file[1..] == [];
    } else {
      MeaningFirst(f, file[..n]);
      assert file[..n][1..] == file[1..][..n - 1];
      assert file[1..][n - 1] == file[n];
    }
  }

  /** A data record that unhex stores where it says, without wrapping. */
  predicate Plain(f: Format, line: string) {
    var r := Decode(f, line);
    r.Some? ==> r.value.address + |r.value.data| <= AddressSpace(f) && r.value.address != LONG_MINUS_ONE
  }

  /** The largest base address that an Intel record can set. */
  const MAX_BASE := 0xF_FFF0

  lemma ConvertFirst(f: Format, line: string, rest: Conversion, restItems: seq<Item>, base: nat)
    requires f in FORMATS && Plain(f, line) && base <= MAX_BASE
    requires rest == Replay(IsIntel(f), restItems, NewBase(Parse(IsIntel(f), line, base), base))
    ensures Then(Parse(IsIntel(f), line, base), rest) == Replay(IsIntel(f), TextItems(f, line) + restItems, base)
  {
    hide Decode, Parse, Writes;
    var r := Decode(f, line);
    if r.Some? {
      ParseDecoded(f, line, base);
      SpaceIs(f);
      ReplayWrites(IsIntel(f), r.value.address, r.value.data, restItems, base);
    } else {
      assert ([Text(line)] + restItems)[1..] == restItems;
    }
  }

  lemma NewBaseBounded(intel: bool, line: string, base: nat)
    requires base <= MAX_BASE
    ensures NewBase(Parse(intel, line, base), base) <= MAX_BASE
  {
    hide ReadAt, Sum, BigEndian, Checksum, IntelSum;
    WordBound(line, 9);
  }

  lemma WordBound(line: string, p: nat)
    ensures ReadAt(line, p, 2).Some? ==> BigEndian(ReadAt(line, p, 2).value) < 0x1_0000
  {
    if ReadAt(line, p, 2).Some? {
      BigEndianBound(ReadAt(line, p, 2).value);
      Power256Is();
    }
  }

  /** What unhex stores is determined by what the file says. */
  lemma {:induction false} ConvertIsReplay(f: Format, file: seq<string>, base: nat)
    requires f in FORMATS && base <= MAX_BASE
    requires forall i :: 0 <= i < |file| ==> Plain(f, file[i])
    ensures ConvertLines(IsIntel(f), file, base) == Replay(IsIntel(f), Meaning(f, file), base)
    decreases |file|
  {
    hide Parse, TextItems, Plain;
    if file != [] {
      var base' := NewBase(Parse(IsIntel(f), file[0], base), base);
      NewBaseBounded(IsIntel(f), file[0], base);
      ConvertIsReplay(f, file[1..], base');
      MeaningFirst(f, file);
      ConvertFirst(f, file[0], ConvertLines(IsIntel(f), file[1..], base'), Meaning(f, file[1..]), base);
    }
  }

  // ------------------------------------------------------ packed files are plain

  predicate Below(limit: nat, address: nat, data: seq<Byte>) {
    data != [] ==> address + |data| <= limit
  }

  predicate AllBelow(limit: nat, lines: seq<Line>) {
    forall i :: 0 <= i < |lines| && lines[i].Data? ==> Below(limit, lines[i].address, lines[i].data)
  }

  lemma PackLineBelow(f: Format, limit: nat, p: Packer, l: Line)
    requires ValidPacker(f, p) && ValidLine(f, l)
    requires AllBelow(limit, p.out) && Below(limit, p.address, p.data) && (l.Data? ==> Below(limit, l.address, l.data))
    ensures var p' := PackLine(f, p, l); AllBelow(limit, p'.out) && Below(limit, p'.address, p'.data)
  {
  }

  /** Records that end below a limit are packed into records that do. */
  lemma {:induction false} PackAllBelow(f: Format, limit: nat, lines: seq<Line>)
    requires f.maxCount > 0 && ValidLines(f, lines) && AllBelow(limit, lines)
    ensures var p := PackAll(f, lines); AllBelow(limit, p.out) && Below(limit, p.address, p.data)
  {
    if lines != [] {
      var front := lines[..|lines| - 1];
      PackAllBelow(f, limit, front);
      PackLineBelow(f, limit, PackAll(f, front), lines[|lines| - 1]);
    }
  }

  /** The end of the addresses at which unhex can store a byte. */
  function Limit(f: Format): nat {
    if f == MOTOROLA_S3 then LONG_MINUS_ONE else AddressSpace(f)
  }

  /** A line that packhex and unhex both handle: a data record keeps away from the S3 address of all ones. */
  predicate Convertible(f: Format, line: string) {
    && WellFormed(f, line)
    && var r := Decode(f, line);
       r.Some? ==> r.value.address != LONG_MINUS_ONE && Below(Limit(f), r.value.address, r.value.data)
  }

  lemma WrittenPlain(f: Format, l: Line)
    requires f in FORMATS && Proper(f) && Writable(f, l) && (l.Data? ==> Below(Limit(f), l.address, l.data))
    ensures Plain(f, WriteLine(f, l))
  {
    hide Decode, Print;
    SpaceIs(f);
    if l.Data? {
      DecodePrint(f, |l.data|, l.address, l.digits);
    } else {
      DecodeIsData(f, l.text);
    }
  }

  lemma DecodeIsData(f: Format, text: string)
    requires Proper(f)
    ensures Decode(f, text).Some? ==> IsDataRecord(f, text)
  {
    if Decode(f, text).Some? {
      GettersAgree(f, text);
    }
  }

  lemma AllReadBelow(f: Format, file: seq<string>)
    requires f in FORMATS && Proper(f) && AllConvertible(f, file)
    ensures AllBelow(Limit(f), ReadFile(f, file))
  {
    hide Decode, ReadLine, Below;
    forall i | 0 <= i < |file| && ReadFile(f, file)[i].Data?
      ensures Below(Limit(f), ReadFile(f, file)[i].address, ReadFile(f, file)[i].data)
    {
      ReadLineIs(f, file[i]);
    }
  }

  predicate AllConvertible(f: Format, file: seq<string>) {
    forall i :: 0 <= i < |file| ==> Convertible(f, file[i])
  }

  lemma ConvertibleWellFormed(f: Format, file: seq<string>)
    requires AllConvertible(f, file)
    ensures AllWellFormed(f, file)
  {
  }

  /** What packhex has printed and holds, all as lines. */
  function FlushedFile(f: Format, file: seq<string>): seq<string>
    requires Proper(f) && AllWellFormed(f, file)
  {
    var p := PackAll(f, ReadFile(f, file));
    FlushValid(f, p);
    WriteFile(f, Flush(p))
  }

  lemma FlushValid(f: Format, p: Packer)
    requires ValidPacker(f, p)
    ensures ValidLines(f, Flush(p)) && NoneEmpty(Flush(p))
  {
  }

  /** Line by line, without a line buffer, unhex converts the spliced lines as it does the original ones. */
  lemma FlushedConvertsAlike(f: Format, file: seq<string>)
    requires f in FORMATS && Proper(f) && AllConvertible(f, file) && AllWellFormed(f, file)
    ensures ConvertLines(IsIntel(f), FlushedFile(f, file), 0) == ConvertLines(IsIntel(f), file, 0)
    ensures forall i :: 0 <= i < |FlushedFile(f, file)| ==> Plain(f, FlushedFile(f, file)[i])
  {
    hide Decode, ReadLine, WriteLine, IsDataRecord, Meaning, ConvertLines, PackAll, WellFormed, Items, Writes;
    SpaceIs(f);
    var lines := ReadFile(f, file);
    var p := PackAll(f, lines);
    AllReadBelow(f, file);
    PackAllBelow(f, Limit(f), lines);
    FlushValid(f, p);
    var out := Flush(p);
    forall i | 0 <= i < |out|
      ensures Plain(f, FlushedFile(f, file)[i])
    {
      WrittenPlain(f, out[i]);
    }
    forall i | 0 <= i < |file|
      ensures Plain(f, file[i])
    {
      ConvertiblePlain(f, file[i]);
    }
    PackAllSays(f, lines);
    FlushSays(p);
    ReadFileAgrees(f, file);
    WriteFileAgrees(f, out);
    ConvertIsReplay(f, FlushedFile(f, file), 0);
    ConvertIsReplay(f, file, 0);
  }

  lemma ConvertiblePlain(f: Format, line: string)
    requires Proper(f) && Convertible(f, line)
    ensures Plain(f, line)
  {
    hide Decode, IsDataRecord;
    DecodeIsData(f, line);
  }

  // ------------------------------------------------------ where unhex stops reading

  /** unhex stops at the line: it ends the file or is rejected. */
  predicate Stops(f: Format, line: string) {
    var o := Parse(IsIntel(f), line, 0);
    o.Rejected? || o.Ended?
  }

  lemma StopsAtAnyBase(f: Format, line: string, base: nat)
    ensures var o := Parse(IsIntel(f), line, base); Stops(f, line) <==> o.Rejected? || o.Ended?
  {
    hide ReadAt, Sum, BigEndian, Checksum, IntelSum;
  }

  /** The first line at which unhex stops, or the number of lines. */
  function StopIndex(f: Format, file: seq<string>): (k: nat)
    ensures k <= |file|
    ensures forall i :: 0 <= i < k ==> !Stops(f, file[i])
    ensures k < |file| ==> Stops(f, file[k])
  {
    if file == [] || Stops(f, file[0]) then 0 else 1 + StopIndex(f, file[1..])
  }

  predicate NoneStops(f: Format, lines: seq<string>) {
    forall i :: 0 <= i < |lines| ==> !Stops(f, lines[i])
  }

  predicate AllFit(lines: seq<string>) {
    forall i :: 0 <= i < |lines| ==> Fits(lines[i])
  }

  /** What comes after a line at which unhex stops does not matter. */
  lemma {:induction false} StoppedText(f: Format, lines: seq<string>, last: string, more: seq<string>, base: nat)
    requires AllFit(lines) && Fits(last) && NoneStops(f, lines) && Stops(f, last)
    ensures ConvertText(IsIntel(f), Join(lines + [last] + more), base) == ConvertLines(IsIntel(f), lines + [last], base)
    decreases |lines|
  {
    hide Parse, Stops, Fits, Strip, ChunkLength, Writes;
    var all := lines + [last] + more;
    ChunkIsLine(all[0], Join(all[1..]));
    StopsAtAnyBase(f, all[0], base);
    var o := Parse(IsIntel(f), all[0], base);
    if lines != [] {
      assert all[1..] == lines[1..] + [last] + more;
      assert (lines + [last])[1..] == lines[1..] + [last];
      StoppedText(f, lines[1..], last, more, NewBase(o, base));
    }
  }

  /** Where nothing stops, a file is accepted and a further record adds its stores. */
  lemma {:induction false} UnstoppedLines(f: Format, lines: seq<string>, last: string, base: nat)
    requires NoneStops(f, lines)
    ensures var c := ConvertLines(IsIntel(f), lines, base);
            && c.accepted
            && (!Stops(f, last) ==>
                  |ConvertLines(IsIntel(f), lines + [last], base).stores|
                  == |c.stores| + (var o := Parse(IsIntel(f), last, 0); if o.Stored? then |o.data| else 0))
    decreases |lines|
  {
    hide Parse, Stops;
    if lines == [] {
      assert lines + [last] == [last] && [last][1..] == [];
      StopsAtAnyBase(f, last, base);
      StoredAtAnyBase(f, last, base);
    } else {
      assert (lines + [last])[1..] == lines[1..] + [last];
      StopsAtAnyBase(f, lines[0], base);
      UnstoppedLines(f, lines[1..], last, NewBase(Parse(IsIntel(f), lines[0], base), base));
    }
  }

  lemma StoredAtAnyBase(f: Format, line: string, base: nat)
    ensures var o, o' := Parse(IsIntel(f), line, base), Parse(IsIntel(f), line, 0);
            (o.Stored? <==> o'.Stored?) && (o.Stored? ==> o.data == o'.data)
  {
    hide ReadAt, Sum, BigEndian, Checksum, IntelSum;
  }

  // ---------------------------------------------------------- lines packhex prints

  /** A line of packhex that unhex does not stop at. */
  predicate Passing(f: Format, l: Line)
    requires Proper(f)
  {
    && Writable(f, l)
    && if l.Data? then Below(Limit(f), l.address, l.data) else Fits(l.text) && !Stops(f, l.text)
  }

  predicate AllPassing(f: Format, lines: seq<Line>)
    requires Proper(f)
  {
    && ValidLines(f, lines) && NoneEmpty(lines)
    && forall i :: 0 <= i < |lines| ==> Passing(f, lines[i])
  }

  /** A record is read whole exactly when it has at most the readable count. */
  lemma PassingData(f: Format, l: Line, more: string, base: nat)
    requires f in FORMATS && Proper(f) && l.Data? && Passing(f, l)
    ensures var line := WriteLine(f, l);
            && !Stops(f, line)
            && Parse(IsIntel(f), line, 0).Stored? && Parse(IsIntel(f), line, 0).data == l.data
            && (Fits(line) <==> |l.data| <= ReadableCount(f))
            && (|l.data| > ReadableCount(f) ==> !ConvertText(IsIntel(f), line + ['\n'] + more, base).accepted)
  {
    hide Print, Decode, Parse, ConvertText;
    var n := |l.data|;
    DecodePrint(f, n, l.address, l.digits);
    ParseDecoded(f, WriteLine(f, l), 0);
    PrintedLineFits(f, n, l.address, l.digits);
    ReadableIffFits(f, n, l.address, l.digits);
    SpaceIs(f);
    if n > ReadableCount(f) {
      LongRecordRejected(f, n, l.address, l.digits, base, more);
    }
  }

  lemma PassingLines(f: Format, lines: seq<Line>)
    requires f in FORMATS && Proper(f) && AllPassing(f, lines)
    ensures NoneStops(f, WriteFile(f, lines))
    ensures AllWithin(lines, ReadableCount(f)) ==> AllFit(WriteFile(f, lines))
  {
    hide Stops, Fits, Passing, Parse, ConvertText;
    forall i | 0 <= i < |lines|
      ensures !Stops(f, WriteLine(f, lines[i]))
      ensures (lines[i].Data? && |lines[i].data| > ReadableCount(f)) || Fits(WriteLine(f, lines[i]))
    {
      PassingLine(f, lines[i]);
    }
  }

  lemma PassingLine(f: Format, l: Line)
    requires f in FORMATS && Proper(f) && Passing(f, l)
    ensures !Stops(f, WriteLine(f, l))
    ensures (l.Data? && |l.data| > ReadableCount(f)) || Fits(WriteLine(f, l))
  {
    hide Stops, Fits, Parse, ConvertText;
    if l.Data? {
      PassingData(f, l, [], 0);
    }
  }

  /** A record that is too long makes unhex reject the file, wherever it is. */
  lemma {:induction false} LongRejects(f: Format, lines: seq<Line>, more: seq<string>, base: nat)
    requires f in FORMATS && Proper(f) && AllPassing(f, lines) && !AllWithin(lines, ReadableCount(f))
    ensures !ConvertText(IsIntel(f), Join(WriteFile(f, lines) + more), base).accepted
    decreases |lines|
  {
    hide Parse, Stops, Fits, Strip, ChunkLength, Writes, Passing, WriteLine;
    var all := WriteFile(f, lines) + more;
    var first := all[0];
    assert all[1..] == WriteFile(f, lines[1..]) + more;
    if lines[0].Data? && |lines[0].data| > ReadableCount(f) {
      PassingData(f, lines[0], Join(all[1..]), base);
    } else {
      PassingLine(f, lines[0]);
      ChunkIsLine(first, Join(all[1..]));
      StopsAtAnyBase(f, first, base);
      LongRejects(f, lines[1..], more, NewBase(Parse(IsIntel(f), first, base), base));
    }
  }

  lemma {:induction false} OthersFromInput(f: Format, lines: seq<Line>, l: Line)
    requires f.maxCount > 0 && ValidLines(f, lines)
    ensures l in Flush(PackAll(f, lines)) && l.Other? ==> l in lines
  {
    if lines != [] {
      var n := |lines| - 1;
      var p := PackAll(f, lines[..n]);
      OthersFromInput(f, lines[..n], l);
      OthersFromStep(f, p, lines[n], l);
    }
  }

  lemma OthersFromStep(f: Format, p: Packer, x: Line, l: Line)
    requires ValidPacker(f, p) && ValidLine(f, x)
    ensures l in Flush(PackLine(f, p, x)) && l.Other? ==> l == x || l in Flush(p)
  {
  }

  /** unhex goes on through what packhex makes of lines at which it does not stop. */
  lemma FlushPassing(f: Format, file: seq<string>, lines: seq<Line>)
    requires f in FORMATS && Proper(f) && AllConvertible(f, file) && AllFit(file) && NoneStops(f, file)
    requires AllWellFormed(f, file) && lines == ReadFile(f, file)
    ensures AllPassing(f, Flush(PackAll(f, lines)))
  {
    hide Stops, Fits, Decode, Below, PackAll, WellFormed;
    var p := PackAll(f, lines);
    FlushValid(f, p);
    AllReadBelow(f, file);
    PackAllBelow(f, Limit(f), lines);
    var out := Flush(p);
    forall i | 0 <= i < |out|
      ensures Passing(f, out[i])
    {
      if out[i].Other? {
        OthersFromInput(f, lines, out[i]);
        var j :| 0 <= j < |lines| && lines[j] == out[i];
        assert out[i].text == file[j];
      }
    }
  }

  lemma {:induction false} OutGrows(f: Format, lines: seq<Line>, k: nat)
    requires f.maxCount > 0 && ValidLines(f, lines) && k <= |lines|
    ensures PackAll(f, lines[..k]).out <= PackAll(f, lines).out
    decreases |lines|
  {
    if k == |lines| {
      assert lines[..k] == lines;
    } else {
      var front := lines[..|lines| - 1];
      OutGrows(f, front, k);
      assert front[..k] == lines[..k];
    }
  }

  lemma ReadFilePrefix(f: Format, file: seq<string>, k: nat)
    requires Proper(f) && AllWellFormed(f, file) && k <= |file|
    ensures AllWellFormed(f, file[..k]) && ReadFile(f, file[..k]) == ReadFile(f, file)[..k]
  {
    hide ReadLine, WellFormed;
  }

  /** A line that stops unhex makes packhex print all it holds first. */
  lemma PackedToStop(f: Format, file: seq<string>, k: nat, fl: seq<Line>)
    requires Proper(f) && AllWellFormed(f, file) && k < |file| && !IsDataRecord(f, file[k])
    requires fl == Flush(PackAll(f, ReadFile(f, file)[..k])) && ValidLines(f, fl) && NoneEmpty(fl)
    ensures WriteFile(f, fl) + [file[k]] <= PackFile(f, file)
    ensures AllWellFormed(f, file[..k + 1]) && FlushedFile(f, file[..k + 1]) == WriteFile(f, fl) + [file[k]]
  {
    hide WellFormed, IsDataRecord, Print;
    var lines := ReadFile(f, file);
    ReadFilePrefix(f, file, k + 1);
    OutGrows(f, lines, k + 1);
    assert lines[..k + 1][..k] == lines[..k] && lines[..k + 1][k] == lines[k] == Other(file[k]);
    assert PackAll(f, lines[..k + 1]).out == fl + [Other(file[k])] && PackAll(f, lines[..k + 1]).data == [];
    assert WriteFile(f, fl + [Other(file[k])]) == WriteFile(f, fl) + [file[k]];
  }

  // ------------------------------------------------------------------ the theorem

  /** No stretch of consecutive data in the lines that unhex reads is longer than it can read in one record. */
  predicate Readable(f: Format, file: seq<string>)
    requires Proper(f) && AllWellFormed(f, file)
  {
    StretchesWithin(ReadFile(f, file)[..StopIndex(f, file)], ReadableCount(f))
  }

  /**
    What packhex prints of a file that it is left holding data of is readable: all
    stretches but the last are, and the last fits into one record.
   */
  predicate PrintedReadable(f: Format, file: seq<string>)
    requires Proper(f) && AllWellFormed(f, file)
  {
    var lines := ReadFile(f, file);
    EndedWithin(lines, ReadableCount(f)) && LastStretch(lines).length <= f.maxCount
  }

  /** packhex prints all the data that unhex reads. */
  predicate Complete(f: Format, file: seq<string>) {
    StopIndex(f, file) < |file| || !TextEndsInData(f, file)
  }

  lemma StopIsOther(f: Format, line: string)
    requires f in FORMATS && Proper(f) && Convertible(f, line) && Stops(f, line)
    ensures !IsDataRecord(f, line)
  {
    hide Decode, Parse, IsDataRecord;
    if IsDataRecord(f, line) {
      ParseDecoded(f, line, 0);
    }
  }

  lemma StoppedPlain(f: Format, file: seq<string>, k: nat)
    requires AllFit(file) && k == StopIndex(f, file) < |file|
    ensures ConvertText(IsIntel(f), Join(file), 0) == ConvertLines(IsIntel(f), file[..k + 1], 0)
  {
    hide Stops, Fits, ConvertText, ConvertLines, Join;
    assert file == file[..k] + [file[k]] + file[k + 1..] && file[..k] + [file[k]] == file[..k + 1];
    StoppedText(f, file[..k], file[k], file[k + 1..], 0);
  }

  lemma StoppedPacked(f: Format, fl: seq<Line>, line: string, more: seq<string>)
    requires f in FORMATS && Proper(f) && AllPassing(f, fl) && Fits(line) && Stops(f, line)
    ensures var packed := ConvertText(IsIntel(f), Join(WriteFile(f, fl) + [line] + more), 0);
            if AllWithin(fl, ReadableCount(f)) then packed == ConvertLines(IsIntel(f), WriteFile(f, fl) + [line], 0)
            else !packed.accepted
  {
    hide Stops, Fits, ConvertText, ConvertLines, Join, WriteLine;
    PassingLines(f, fl);
    if AllWithin(fl, ReadableCount(f)) {
      StoppedText(f, WriteFile(f, fl), line, more, 0);
    } else {
      assert WriteFile(f, fl) + [line] + more == WriteFile(f, fl) + ([line] + more);
      LongRejects(f, fl, [line] + more, 0);
    }
  }

  /** A file that unhex stops reading. */
  lemma StoppedCase(f: Format, file: seq<string>, k: nat)
    requires f in FORMATS && Proper(f) && AllConvertible(f, file) && AllWellFormed(f, file) && AllFit(file)
    requires k == StopIndex(f, file) < |file|
    ensures var packed, plain := ConvertText(IsIntel(f), Join(PackFile(f, file)), 0), ConvertText(IsIntel(f), Join(file), 0);
            if Readable(f, file) then packed == plain else !packed.accepted
  {
    hide Stops, Fits, WellFormed, Convertible, PackAll, ConvertText, ConvertLines, WriteFile, ReadFile, PackFile, FlushedFile,
         StretchesWithin, Join, AllWithin, Flush, Passing;
    var lines := ReadFile(f, file);
    var fl := Flush(PackAll(f, lines[..k]));
    ReadFilePrefix(f, file, k);
    FlushPassing(f, file[..k], lines[..k]);
    WithinIff(f, lines[..k], ReadableCount(f));
    StopIsOther(f, file[k]);
    PackedToStop(f, file, k, fl);
    var more := PackFile(f, file)[|fl| + 1..];
    assert PackFile(f, file) == WriteFile(f, fl) + [file[k]] + more;
    StoppedPlain(f, file, k);
    StoppedPacked(f, fl, file[k], more);
    FlushedConvertsAlike(f, file[..k + 1]);
  }

  lemma WriteFileSplit(f: Format, out: seq<Line>, l: Line)
    requires Proper(f) && ValidLines(f, out + [l]) && NoneEmpty(out + [l])
    ensures ValidLines(f, out) && NoneEmpty(out) && Writable(f, l)
    ensures WriteFile(f, out + [l]) == WriteFile(f, out) + [WriteLine(f, l)]
  {
    assert (out + [l])[|out|] == l;
    assert forall i :: 0 <= i < |out| ==> (out + [l])[i] == out[i];
  }

  /** Data that packhex is left holding is missing from the conversion. */
  lemma HeldMissing(f: Format, file: seq<string>, p: Packer)
    requires f in FORMATS && Proper(f) && ValidPacker(f, p) && p.data != [] && AllPassing(f, Flush(p))
    requires ConvertLines(IsIntel(f), WriteFile(f, Flush(p)), 0) == ConvertLines(IsIntel(f), file, 0)
    ensures var packed := ConvertText(IsIntel(f), Join(WriteFile(f, p.out)), 0);
            && packed != Conversion(ConvertLines(IsIntel(f), file, 0).stores, true)
            && (packed.accepted <==> AllWithin(p.out, ReadableCount(f)))
  {
    hide Stops, Fits, ConvertText, ConvertLines, Parse, WriteLine;
    var held := Data(p.address, p.data, p.digits);
    WriteFileSplit(f, p.out, held);
    assert AllPassing(f, p.out) by {
      assert forall i :: 0 <= i < |p.out| ==> p.out[i] == Flush(p)[i];
    }
    assert Flush(p)[|p.out|] == held;
    PassingLines(f, p.out);
    PassingData(f, held, [], 0);
    if AllWithin(p.out, ReadableCount(f)) {
      ConvertTextIsLines(IsIntel(f), WriteFile(f, p.out), 0);
      UnstoppedLines(f, WriteFile(f, p.out), WriteLine(f, held), 0);
    } else {
      LongRejects(f, p.out, [], 0);
      assert WriteFile(f, p.out) + [] == WriteFile(f, p.out);
    }
  }

  /** A file that unhex reads to its end. */
  lemma UnstoppedCase(f: Format, file: seq<string>)
    requires f in FORMATS && Proper(f) && AllConvertible(f, file) && AllWellFormed(f, file) && AllFit(file)
    requires StopIndex(f, file) == |file|
    ensures var packed, plain := ConvertText(IsIntel(f), Join(PackFile(f, file)), 0), ConvertText(IsIntel(f), Join(file), 0);
            && plain.accepted
            && if TextEndsInData(f, file) then packed != plain && (packed.accepted <==> PrintedReadable(f, file))
               else if Readable(f, file) then packed == plain else !packed.accepted
  {
    hide Stops, Fits, WellFormed, Convertible, PackAll, ConvertText, ConvertLines, WriteFile, ReadFile, StretchesWithin,
         TextEndsInData, EndsInData;
    var lines := ReadFile(f, file);
    var p := PackAll(f, lines);
    var fl := Flush(p);
    assert lines[..|file|] == lines;
    FlushPassing(f, file, lines);
    WithinIff(f, lines, ReadableCount(f));
    FlushedConvertsAlike(f, file);
    PassingLines(f, fl);
    ConvertTextIsLines(IsIntel(f), file, 0);
    UnstoppedLines(f, file, [], 0);
    PreservedIff(f, lines);
    TextEndsInDataIff(f, file);
    OutWithinIff(f, lines, ReadableCount(f));
    if p.data != [] {
      HeldMissing(f, file, p);
    } else if AllWithin(fl, ReadableCount(f)) {
      ConvertTextIsLines(IsIntel(f), WriteFile(f, fl), 0);
    } else {
      LongRejects(f, fl, [], 0);
      assert WriteFile(f, fl) + [] == WriteFile(f, fl);
    }
  }

  /**
    unhex after packhex, through the line buffer of unhex, for every file of convertible
    lines that fit the buffer.  The packed file is accepted exactly when the original is
    and no stretch of consecutive data that packhex prints and unhex reads exceeds what one
    record may have; of data that packhex is left holding, it prints only what overflows a
    full record.  The same bytes are stored at the same addresses in the same order if the
    file is readable and complete, and for an accepted original only then.
   */
  lemma UnhexAfterPackhex(f: Format, file: seq<string>)
    requires f in FORMATS && Proper(f) && AllConvertible(f, file) && AllFit(file)
    ensures AllWellFormed(f, file)
    ensures var packed, plain := ConvertText(IsIntel(f), Join(PackFile(f, file)), 0), ConvertText(IsIntel(f), Join(file), 0);
            && (packed.accepted <==>
                  plain.accepted && if Complete(f, file) then Readable(f, file) else PrintedReadable(f, file))
            && (Readable(f, file) && Complete(f, file) ==> packed == plain)
            && (plain.accepted ==> (packed == plain <==> Readable(f, file) && Complete(f, file)))
  {
    hide ConvertText, Readable, PrintedReadable, PackFile, TextEndsInData, Convertible, Fits, WellFormed;
    ConvertibleWellFormed(f, file);
    var k := StopIndex(f, file);
    if k < |file| {
      StoppedCase(f, file, k);
    } else {
      UnstoppedCase(f, file);
    }
  }

  lemma AdjacentStretch(lines: seq<Line>, i: nat)
    requires i + 1 < |lines| && lines[i].Data? && lines[i + 1].Data? && lines[i].data != []
    requires lines[i + 1].address == lines[i].address + |lines[i].data|
    ensures LastStretch(lines[..i + 2]).length >= |lines[i].data| + |lines[i + 1].data|
  {
    var one, two := lines[..i + 1], lines[..i + 2];
    assert two[..i + 1] == one && two[i + 1] == lines[i + 1];
    assert one[i] == lines[i];
  }

  /**
    It is easily not so: two records, each short enough, that follow each other in the file
    and in memory and together have too many bytes make unhex reject the packed file.
   */
  lemma AdjacentRecordsRejected(f: Format, file: seq<string>, i: nat, a: Record, b: Record)
    requires f in FORMATS && Proper(f) && AllConvertible(f, file) && AllFit(file) && Complete(f, file)
    requires i + 1 < StopIndex(f, file) && Decode(f, file[i]) == Some(a) && Decode(f, file[i + 1]) == Some(b)
    requires a.data != [] && b.address == a.address + |a.data| && |a.data| + |b.data| > ReadableCount(f)
    ensures AllWellFormed(f, file) && !ConvertText(IsIntel(f), Join(PackFile(f, file)), 0).accepted
  {
    hide ConvertText, PackFile, Convertible, Fits, WellFormed, Decode, ReadLine, Stops, TextEndsInData;
    UnhexAfterPackhex(f, file);
    ReadLineIs(f, file[i]);
    ReadLineIs(f, file[i + 1]);
    var lines := ReadFile(f, file)[..StopIndex(f, file)];
    AdjacentStretch(lines, i);
  }

  // ------------------------------------------------------------- the whole program

  lemma {:induction false} PackOthers(f: Format, others: seq<Line>)
    requires f.maxCount > 0 && ValidLines(f, others)
    requires forall i :: 0 <= i < |others| ==> others[i].Other?
    ensures PackAll(f, others) == Packer(others, 0, [], [])
  {
    hide IsDataRecord, Spells;
    if others != [] {
      var n := |others| - 1;
      PackOthers(f, others[..n]);
      assert others[..n] + [others[n]] == others;
    }
  }

  /** Lines that are no data records are put out as they are and change nothing else. */
  lemma {:induction false} PackAfterOthers(f: Format, others: seq<Line>, lines: seq<Line>)
    requires f.maxCount > 0 && ValidLines(f, others) && ValidLines(f, lines)
    requires forall i :: 0 <= i < |others| ==> others[i].Other?
    ensures ValidLines(f, others + lines)
    ensures var p := PackAll(f, lines); PackAll(f, others + lines) == p.(out := others + p.out)
    decreases |lines|
  {
    hide PackLine, ValidLine;
    var all := others + lines;
    if lines == [] {
      assert all == others && others + [] == others;
      PackOthers(f, others);
    } else {
      var n := |lines| - 1;
      assert all[..|all| - 1] == others + lines[..n] && all[|all| - 1] == lines[n];
      PackAfterOthers(f, others, lines[..n]);
      PackPrefixed(f, PackAll(f, lines[..n]), others, lines[n]);
    }
  }

  lemma PackPrefixed(f: Format, p: Packer, others: seq<Line>, l: Line)
    requires ValidPacker(f, p) && ValidPacker(f, p.(out := others + p.out)) && ValidLine(f, l)
    ensures PackLine(f, p.(out := others + p.out), l) == PackLine(f, p, l).(out := others + PackLine(f, p, l).out)
  {
    var q := p.(out := others + p.out);
    assert Flush(q) == others + Flush(p);
    if l.Other? {
      assert Flush(q) + [l] == others + (Flush(p) + [l]);
    } else if p.data != [] && l.address == p.address + |p.data| && |p.data| + |l.data| > f.maxCount {
      var full := [PackLine(f, p, l).out[|p.out|]];
      assert others + p.out + full == others + (p.out + full);
    }
  }

  lemma ReadHeadAndTail(f: Format, file: seq<string>, k: nat)
    requires Proper(f) && AllWellFormed(f, file) && k <= |file|
    requires forall i :: 0 <= i < k ==> !IsDataRecord(f, file[i])
    ensures AllWellFormed(f, file[k..]) && ReadFile(f, file)[k..] == ReadFile(f, file[k..])
    ensures forall i :: 0 <= i < k ==> ReadFile(f, file)[i] == Other(file[i])
  {
    hide IsDataRecord, WellFormed, Decode;
  }

  lemma WriteAfterOthers(f: Format, texts: seq<string>, others: seq<Line>, lines: seq<Line>)
    requires Proper(f) && ValidLines(f, others + lines) && NoneEmpty(others + lines) && |others| == |texts|
    requires forall i :: 0 <= i < |others| ==> others[i] == Other(texts[i])
    requires ValidLines(f, lines) && NoneEmpty(lines)
    ensures WriteFile(f, others + lines) == texts + WriteFile(f, lines)
  {
    hide IsDataRecord, Print, Spells;
  }

  /** What the program prints is what the splicing loop would print for the whole file. */
  lemma PacksIsPackFile(f: Format, file: seq<string>, out: seq<string>)
    requires Packs(file, out, Some(f)) && AllWellFormed(f, file)
    ensures out == PackFile(f, file)
  {
    hide IsDataRecord, WellFormed, Recognised, Identifies, WriteFile, ReadFile, PackAll;
    var k := FirstRecord(file);
    var lines := ReadFile(f, file);
    forall i | 0 <= i < k
      ensures !IsDataRecord(f, file[i])
    {
      NotOfFormat(f, file[i]);
    }
    ReadHeadAndTail(f, file, k);
    assert lines == lines[..k] + lines[k..];
    PackAfterOthers(f, lines[..k], lines[k..]);
    WriteAfterOthers(f, file[..k], lines[..k], PackAll(f, lines[k..]).out);
  }

  lemma NotOfFormat(f: Format, text: string)
    requires f in FORMATS && !Recognised(text)
    ensures !IsDataRecord(f, text)
  {
  }

  /** unhex after the whole of packhex, in the format of the first record. */
  lemma UnhexAfterPack(f: Format, file: seq<string>, out: seq<string>)
    requires Packs(file, out, Some(f)) && AllConvertible(f, file) && AllFit(file)
    ensures AllWellFormed(f, file)
    ensures var packed, plain := ConvertText(IsIntel(f), Join(out), 0), ConvertText(IsIntel(f), Join(file), 0);
            && (packed.accepted <==>
                  plain.accepted && if Complete(f, file) then Readable(f, file) else PrintedReadable(f, file))
            && (Readable(f, file) && Complete(f, file) ==> packed == plain)
            && (plain.accepted ==> (packed == plain <==> Readable(f, file) && Complete(f, file)))
  {
    hide ConvertText, Readable, PrintedReadable, PackFile, Complete, Convertible, Fits, WellFormed;
    UnhexAfterPackhex(f, file);
    PacksIsPackFile(f, file, out);
  }
}
