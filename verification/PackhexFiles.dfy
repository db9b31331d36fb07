/**
  packhex on files of text: the lines it reads, the lines it prints, and the theorem
  that both say the same.
 */
module PackhexFiles {
  import opened Basics
  import opened HexText
  import opened HexRecords
  import opened Packhex

  /** What packhex takes for a data record is one, and it ends inside the address space. */
  predicate WellFormed(f: Format, text: string) {
    IsDataRecord(f, text) ==>
      Decode(f, text).Some? && Decode(f, text).value.address + |Decode(f, text).value.data| <= AddressSpace(f)
  }

  predicate AllWellFormed(f: Format, file: seq<string>) {
    forall i :: 0 <= i < |file| ==> WellFormed(f, file[i])
  }

  /** What a line says, by the definition of the record format. */
  function TextItems(f: Format, text: string): seq<Item> {
    var r := Decode(f, text);
    if r.Some? then Writes(r.value.address, r.value.data) else [Text(text)]
  }

  /** The ordered stores and other lines of a file. */
  function Meaning(f: Format, file: seq<string>): seq<Item> {
    if file == [] then [] else Meaning(f, file[..|file| - 1]) + TextItems(f, file[|file| - 1])
  }

  /** A line as packhex takes it apart. */
  function ReadLine(f: Format, text: string): (l: Line)
    requires Proper(f) && WellFormed(f, text)
    ensures ValidLine(f, l)
  {
    if IsDataRecord(f, text) then
      GettersAgree(f, text);
      var count := DataCount(f, text);
      Data(DataAddress(f, text), ReadAt(text, DataStart(f), count).value, text[DataStart(f)..DataStart(f) + 2 * count])
    else
      Other(text)
  }

  function ReadFile(f: Format, file: seq<string>): (lines: seq<Line>)
    requires Proper(f) && AllWellFormed(f, file)
    ensures |lines| == |file| && ValidLines(f, lines)
  {
    seq(|file|, i requires 0 <= i < |file| => ReadLine(f, file[i]))
  }

  predicate Writable(f: Format, l: Line) {
    ValidLine(f, l) && (l.Data? ==> l.data != [])
  }

  function WriteLine(f: Format, l: Line): string
    requires Proper(f) && Writable(f, l)
  {
    if l.Data? then Print(f, |l.data|, l.address, l.digits) else l.text
  }

  function WriteFile(f: Format, lines: seq<Line>): (file: seq<string>)
    requires Proper(f) && ValidLines(f, lines) && NoneEmpty(lines)
    ensures |file| == |lines|
  {
    seq(|lines|, i requires 0 <= i < |lines| => WriteLine(f, lines[i]))
  }

  lemma ReadLineAgrees(f: Format, text: string)
    requires Proper(f) && WellFormed(f, text)
    ensures LineItems(ReadLine(f, text)) == TextItems(f, text)
  {
    if Decode(f, text).Some? {
      GettersAgree(f, text);
    }
  }

  lemma WriteLineAgrees(f: Format, l: Line)
    requires Proper(f) && Writable(f, l)
    ensures TextItems(f, WriteLine(f, l)) == LineItems(l)
  {
    if l.Data? {
      DecodePrint(f, |l.data|, l.address, l.digits);
    } else if Decode(f, l.text).Some? {
      GettersAgree(f, l.text);
    }
  }

  lemma {:induction false} MeaningIsItems(f: Format, file: seq<string>, lines: seq<Line>)
    requires |file| == |lines|
    requires forall i :: 0 <= i < |file| ==> TextItems(f, file[i]) == LineItems(lines[i])
    ensures Meaning(f, file) == Items(lines)
    decreases |file|
  {
    if file != [] {
      MeaningIsItems(f, file[..|file| - 1], lines[..|lines| - 1]);
    }
  }

  lemma ReadFileAgrees(f: Format, file: seq<string>)
    requires Proper(f) && AllWellFormed(f, file)
    ensures Meaning(f, file) == Items(ReadFile(f, file))
  {
    forall i | 0 <= i < |file|
      ensures TextItems(f, file[i]) == LineItems(ReadFile(f, file)[i])
    {
      ReadLineAgrees(f, file[i]);
    }
    MeaningIsItems(f, file, ReadFile(f, file));
  }

  lemma WriteFileAgrees(f: Format, lines: seq<Line>)
    requires Proper(f) && ValidLines(f, lines) && NoneEmpty(lines)
    ensures Meaning(f, WriteFile(f, lines)) == Items(lines)
  {
    forall i | 0 <= i < |lines|
      ensures TextItems(f, WriteFile(f, lines)[i]) == LineItems(lines[i])
    {
      WriteLineAgrees(f, lines[i]);
    }
    MeaningIsItems(f, WriteFile(f, lines), lines);
  }

  /** What packhex prints for a file of one format. */
  function PackFile(f: Format, file: seq<string>): seq<string>
    requires Proper(f) && AllWellFormed(f, file)
  {
    WriteFile(f, PackAll(f, ReadFile(f, file)).out)
  }

  lemma ReadLineIs(f: Format, text: string)
    requires Proper(f) && WellFormed(f, text)
    ensures match ReadLine(f, text)
            case Data(address, data, _) => Decode(f, text) == Some(Record(address, data))
            case Other(_) => Decode(f, text).None?
  {
    if IsDataRecord(f, text) || Decode(f, text).Some? {
      GettersAgree(f, text);
    }
  }

  /** Line `j` is a data record with data, and only empty records at its end follow. */
  predicate TextHeldFrom(f: Format, file: seq<string>, j: nat) {
    && j < |file| && Decode(f, file[j]).Some? && Decode(f, file[j]).value.data != []
    && forall i :: j < i < |file| ==> Decode(f, file[i]) == Some(Record(RecordEnd(f, file[j]), []))
  }

  /** The address after a data record. */
  function RecordEnd(f: Format, text: string): nat {
    var r := Decode(f, text);
    if r.Some? then r.value.address + |r.value.data| else 0
  }

  /** The file ends in data that packhex is left holding. */
  predicate TextEndsInData(f: Format, file: seq<string>) {
    exists j :: 0 <= j < |file| && TextHeldFrom(f, file, j)
  }

  lemma TextHeldFromIff(f: Format, file: seq<string>, j: nat)
    requires Proper(f) && AllWellFormed(f, file)
    ensures TextHeldFrom(f, file, j) <==> HeldFrom(ReadFile(f, file), j)
  {
    hide Decode, ReadLine, WellFormed;
    forall i | 0 <= i < |file|
      ensures match ReadFile(f, file)[i]
              case Data(address, data, _) => Decode(f, file[i]) == Some(Record(address, data))
              case Other(_) => Decode(f, file[i]).None?
    {
      ReadLineIs(f, file[i]);
    }
  }

  lemma TextEndsInDataIff(f: Format, file: seq<string>)
    requires Proper(f) && AllWellFormed(f, file)
    ensures TextEndsInData(f, file) <==> EndsInData(ReadFile(f, file))
    ensures TextEndsInData(f, file) ==> IsDataRecord(f, file[|file| - 1])
  {
    hide TextHeldFrom, HeldFrom, Decode;
    forall j: nat
      ensures TextHeldFrom(f, file, j) <==> HeldFrom(ReadFile(f, file), j)
    {
      TextHeldFromIff(f, file, j);
    }
    if TextEndsInData(f, file) {
      var j :| 0 <= j < |file| && TextHeldFrom(f, file, j);
      LastHeld(f, file, j);
    }
  }

  lemma LastHeld(f: Format, file: seq<string>, j: nat)
    requires Proper(f) && TextHeldFrom(f, file, j)
    ensures IsDataRecord(f, file[|file| - 1])
  {
    GettersAgree(f, file[|file| - 1]);
  }

  /**
    Compaction preserves meaning: on every well-formed file the output has the same
    stores in the same order between the same other lines, exactly when the file does not
    end in data that packhex is left holding, in particular whenever the last line is no
    data record.
   */
  lemma PackFilePreservesMeaning(f: Format, file: seq<string>)
    requires Proper(f) && AllWellFormed(f, file)
    ensures Meaning(f, PackFile(f, file)) == Meaning(f, file) <==> !TextEndsInData(f, file)
    ensures file == [] || !IsDataRecord(f, file[|file| - 1]) ==> Meaning(f, PackFile(f, file)) == Meaning(f, file)
  {
    hide Meaning, IsDataRecord, TextEndsInData, EndsInData, WellFormed;
    var lines := ReadFile(f, file);
    ReadFileAgrees(f, file);
    WriteFileAgrees(f, PackAll(f, lines).out);
    PreservedIff(f, lines);
    TextEndsInDataIff(f, file);
    NothingEndsInData(f);
  }

  lemma NothingEndsInData(f: Format)
    ensures !TextEndsInData(f, [])
  {
  }

  /** The loop of `main`, from the line that identified the format on. */
  method SpliceRecords(f: Format, file: seq<string>) returns (out: seq<string>)
    requires Proper(f) && AllWellFormed(f, file)
    ensures out == PackFile(f, file)
  {
    out := [];
    var outbuff, dTotal, outAddress := "", 0, 0;
    ghost var lines := ReadFile(f, file);
    ghost var p := PackAll(f, []);
    var i := 0;
    while i < |file|
      invariant 0 <= i <= |file| && p == PackAll(f, lines[..i])
      invariant out == WriteFile(f, p.out)
      invariant outbuff == p.digits && dTotal == |p.data| && outAddress == p.address
    {
      assert lines[..i + 1][..i] == lines[..i];
      var inbuff := file[i];
      var emitted := [];
      emitted, dTotal, outAddress, outbuff := SpliceLine(f, inbuff, dTotal, outAddress, outbuff, p);
      p := PackLine(f, p, lines[i]);
      out := out + emitted;
      i := i + 1;
    }
    assert lines[..i] == lines;
  }

  lemma WriteFileAdd(f: Format, lines: seq<Line>, l: Line)
    requires Proper(f) && ValidLines(f, lines) && NoneEmpty(lines) && Writable(f, l)
    ensures ValidLines(f, lines + [l]) && NoneEmpty(lines + [l])
    ensures WriteFile(f, lines + [l]) == WriteFile(f, lines) + [WriteLine(f, l)]
  {
  }

  /** Prints the accumulated record, if there is one. */
  method FlushRecord(f: Format, dTotal: nat, outAddress: nat, outbuff: string, ghost p: Packer) returns (emitted: seq<string>)
    requires Proper(f) && ValidPacker(f, p)
    requires dTotal == |p.data| && outAddress == p.address && outbuff == p.digits
    ensures ValidLines(f, Flush(p)) && NoneEmpty(Flush(p))
    ensures WriteFile(f, Flush(p)) == WriteFile(f, p.out) + emitted
  {
    emitted := [];
    if dTotal != 0 {
      WriteFileAdd(f, p.out, Data(p.address, p.data, p.digits));
      var line := PutDataRecord(f, dTotal, outAddress, outbuff);
      emitted := [line];
    }
  }

  /** The line that completes a maximum-length record. */
  lemma FullLine(f: Format, p: Packer, l: Line) returns (full: Line)
    requires Proper(f) && ValidPacker(f, p) && ValidLine(f, l) && l.Data?
    requires p.data != [] && l.address == p.address + |p.data| && |p.data| + |l.data| > f.maxCount
    ensures Writable(f, full) && full.Data? && |full.data| == f.maxCount && full.address == p.address
    ensures full.digits == p.digits + l.digits[..2 * (f.maxCount - |p.data|)]
    ensures PackLine(f, p, l).out == p.out + [full]
  {
    var n := f.maxCount - |p.data|;
    full := Data(p.address, p.data + l.data[..n], p.digits + l.digits[..2 * n]);
    SpellsSplit(l.digits, l.data, n);
    SpellsConcat(p.digits, p.data, l.digits[..2 * n], l.data[..n]);
  }

  /** Completes a maximum-length record and prints it. */
  method FillRecord(f: Format, total: nat, address: nat, buffer: string, part: string, ghost p: Packer, ghost l: Line)
    returns (emitted: seq<string>)
    requires Proper(f) && ValidPacker(f, p) && ValidLine(f, l) && l.Data?
    requires total == |p.data| && address == p.address && buffer == p.digits && total > 0
    requires l.address == address + total && total + |l.data| > f.maxCount
    requires part == l.digits[..2 * (f.maxCount - total)]
    ensures WriteFile(f, PackLine(f, p, l).out) == WriteFile(f, p.out) + emitted
  {
    ghost var full := FullLine(f, p, l);
    WriteFileAdd(f, p.out, full);
    var line := PutDataRecord(f, f.maxCount, address, buffer + part);
    emitted := [line];
  }

  /** The three cases of a data record of `dCount` bytes at `inAddress`, written as `inData`. */
  method SpliceData(f: Format, dCount: nat, inAddress: nat, inData: string,
                    total: nat, address: nat, buffer: string, ghost p: Packer, ghost l: Line)
    returns (emitted: seq<string>, dTotal: nat, outAddress: nat, outbuff: string)
    requires Proper(f) && ValidPacker(f, p) && ValidLine(f, l) && l.Data?
    requires dCount == |l.data| && inAddress == l.address && inData == l.digits
    requires total == |p.data| && address == p.address && buffer == p.digits
    ensures var p' := PackLine(f, p, l);
            && dTotal == |p'.data| && outAddress == p'.address && outbuff == p'.digits
            && WriteFile(f, p'.out) == WriteFile(f, p.out) + emitted
  {
    emitted, dTotal, outAddress, outbuff := [], total, address, buffer;
    if dTotal == 0 || inAddress != outAddress + dTotal {
      emitted := FlushRecord(f, dTotal, outAddress, outbuff, p);
      dTotal := dCount;
      outAddress := inAddress;
      outbuff := inData;
    } else {
      var dExcess := dTotal + dCount - f.maxCount;
      if dExcess > 0 {
        emitted := FillRecord(f, dTotal, outAddress, outbuff, inData[..2 * (dCount - dExcess)], p, l);
        outbuff := inData[2 * (dCount - dExcess)..];
        dTotal := dExcess;
        outAddress := outAddress + f.maxCount;
      } else {
        outbuff := outbuff + inData;
        dTotal := dTotal + dCount;
      }
    }
  }

  /** One pass: what is printed, and the accumulated record after it. */
  method SpliceLine(f: Format, inbuff: string, total: nat, address: nat, buffer: string, ghost p: Packer)
    returns (emitted: seq<string>, dTotal: nat, outAddress: nat, outbuff: string)
    requires Proper(f) && WellFormed(f, inbuff) && ValidPacker(f, p)
    requires total == |p.data| && address == p.address && buffer == p.digits
    ensures var p' := PackLine(f, p, ReadLine(f, inbuff));
            && dTotal == |p'.data| && outAddress == p'.address && outbuff == p'.digits
            && WriteFile(f, p'.out) == WriteFile(f, p.out) + emitted
  {
    ghost var l := ReadLine(f, inbuff);
    if IsDataRecord(f, inbuff) {
      GettersAgree(f, inbuff);
      var dCount, inAddress, inStart := DataCount(f, inbuff), DataAddress(f, inbuff), DataStart(f);
      var inData := inbuff[inStart..inStart + 2 * dCount];
      emitted, dTotal, outAddress, outbuff := SpliceData(f, dCount, inAddress, inData, total, address, buffer, p, l);
    } else {
      emitted := FlushRecord(f, total, address, buffer, p);
      WriteFileAdd(f, Flush(p), l);
      emitted := emitted + [inbuff];
      dTotal, outAddress, outbuff := 0, address, "";
    }
  }
}
