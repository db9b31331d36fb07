/**
  The two hex tools together: unhex reads what packhex prints, and a file that packhex
  has compacted converts to the same stores as the original.
 */
module HexTools {
  import opened Basics
  import opened HexText
  import opened HexRecords
  import opened Packhex
  import opened Unhex
  import opened UnhexFiles

  predicate IsIntel(f: Format) {
    f == INTEL_HEX
  }

  lemma SpaceIs(f: Format)
    requires f in FORMATS
    ensures AddressSpace(f) == if f == MOTOROLA_S3 then 0x1_0000_0000 else if f == MOTOROLA_S2 then 0x100_0000 else 0x1_0000
  {
    assert Power256(1) == 256;
    assert Power256(2) == 256 * Power256(1);
    assert Power256(3) == 256 * Power256(2);
    assert Power256(4) == 256 * Power256(3);
  }

  // ------------------------------------------------ unhex reads what packhex prints

  /** What unhex makes of a line that is a data record of its format. */
  lemma ParseDecoded(f: Format, line: string, base: nat)
    requires f in FORMATS && Decode(f, line).Some?
    ensures var r := Decode(f, line).value;
            Parse(IsIntel(f), line, base) ==
              if IsIntel(f) then Stored((base + r.address) % 0x1_0000_0000, r.data)
              else if r.address == LONG_MINUS_ONE then Rejected
              else Stored(r.address, r.data)
  {
    hide Decode, ParseIntel, ParseS;
    IntelAgrees(line, base);
    SAgrees(line);
  }

  /**
    A printed record with room for its newline in the buffer is stored, byte for byte, at
    its address above the base; only the S3 address of all ones is taken for an error.
   */
  lemma PrintedRecordRead(f: Format, count: nat, address: nat, data: string, base: nat)
    requires f in FORMATS && Proper(f) && Printable(f, count, address, data)
    requires |Print(f, count, address, data)| < LIMIT
    ensures var c := ConvertText(IsIntel(f), Join([Print(f, count, address, data)]), base);
            if f == MOTOROLA_S3 && address == LONG_MINUS_ONE then c == Conversion([], false)
            else
              var start := if IsIntel(f) then (base + address) % 0x1_0000_0000 else address;
              c == Conversion(Writes(start, BytesOf(data, count)), true)
  {
    hide Decode, Print, Parse, Writes;
    var line := Print(f, count, address, data);
    PrintedLineFits(f, count, address, data);
    assert forall i :: 0 <= i < |[line]| ==> Fits([line][i]);
    ConvertTextIsLines(IsIntel(f), [line], base);
    DecodePrint(f, count, address, data);
    ParseDecoded(f, line, base);
    SpaceIs(f);
    assert [line][1..] == [];
  }

  lemma PrintedChars(f: Format, count: nat, address: nat, data: string)
    requires f in FORMATS && Proper(f) && Printable(f, count, address, data)
    ensures forall i :: |f.header| <= i < |Print(f, count, address, data)| ==> IsHexDigit(Print(f, count, address, data)[i])
  {
  }

  lemma PrintedLineFits(f: Format, count: nat, address: nat, data: string)
    requires f in FORMATS && Proper(f) && Printable(f, count, address, data)
    ensures var line := Print(f, count, address, data);
            && '\n' !in line && |line| > |f.header| && line[|line| - 1] != '\r'
            && (Fits(line) <==> |line| < LIMIT)
  {
    PrintLength(f, count, address, data);
    PrintedChars(f, count, address, data);
    hide Print;
    var line := Print(f, count, address, data);
    forall i | 0 <= i < |line|
      ensures line[i] != '\n'
    {
      if i < |f.header| {
        assert line[i] == f.header[i];
      } else {
        assert IsHexDigit(line[i]);
      }
    }
    assert IsHexDigit(line[|line| - 1]);
  }

  /** How many data bytes leave room for the line end in the buffer of unhex. */
  function ReadableCount(f: Format): nat {
    if f == INTEL_HEX then 249 else if f == MOTOROLA_S1 then 250 else if f == MOTOROLA_S2 then 249 else 248
  }

  lemma ReadableIffFits(f: Format, count: nat, address: nat, data: string)
    requires f in FORMATS && Proper(f) && Printable(f, count, address, data)
    ensures |Print(f, count, address, data)| < LIMIT <==> count <= ReadableCount(f)
  {
    PrintLength(f, count, address, data);
  }

  lemma ReadAtCut(s: string, k: nat, p: nat, n: nat)
    requires p + 2 * n <= k <= |s|
    ensures ReadAt(s[..k], p, n) == ReadAt(s, p, n)
  {
    assert s[..k][p..p + 2 * n] == s[p..p + 2 * n];
  }

  lemma ReadAtEnd(s: string, p: nat, n: nat)
    requires p + 2 * n > |s|
    ensures ReadAt(s, p, n).None?
  {
  }

  /** A data record that is cut off before its checksum is rejected. */
  lemma CutRecordRejected(f: Format, count: nat, address: nat, data: string, base: nat, k: nat)
    requires f in FORMATS && Proper(f) && Printable(f, count, address, data)
    requires DataStart(f) <= k < |Print(f, count, address, data)|
    ensures Parse(IsIntel(f), Print(f, count, address, data)[..k], base) == Rejected
  {
    hide ReadAt, Render, Sum, BigEndian, Checksum, IntelSum;
    var line := Print(f, count, address, data);
    var h := |f.header|;
    PrintLength(f, count, address, data);
    ReadRendered(f, count, address, data, Total(f, count, address, data));
    RenderHeader(f, count, address, data, Total(f, count, address, data));
    ReadAtCut(line, k, h, 1);
    ReadAtCut(line, k, h + 2, f.addressBytes);
    ReadAtCut(line, k, h + 2 + 2 * f.addressBytes, |f.kind|);
    ReadAtEnd(line[..k], DataStart(f) + 2 * count, 1);
    assert f.header <= line[..k];
  }

  /** A record whose line is too long for the buffer makes unhex reject the file. */
  lemma LongRecordRejected(f: Format, count: nat, address: nat, data: string, base: nat, more: string)
    requires f in FORMATS && Proper(f) && Printable(f, count, address, data)
    requires |Print(f, count, address, data)| >= LIMIT
    ensures !ConvertText(IsIntel(f), Print(f, count, address, data) + ['\n'] + more, base).accepted
  {
    hide Print, Parse, Writes;
    var line := Print(f, count, address, data);
    var text := line + ['\n'] + more;
    PrintedLineFits(f, count, address, data);
    PrintedChars(f, count, address, data);
    LineLengthIs(line, more);
    assert ChunkLength(text) == LIMIT;
    assert text[..LIMIT] == line[..LIMIT];
    assert IsHexDigit(line[LIMIT - 1]);
    assert Strip(line[..LIMIT]) == line[..LIMIT];
    var o := Parse(IsIntel(f), line[..LIMIT], base);
    if |line| > LIMIT {
      CutRecordRejected(f, count, address, data, base, LIMIT);
    } else {
      assert text[LIMIT..] == [] + ['\n'] + more;
      LineEndRejected(IsIntel(f), more, NewBase(o, base));
      assert line[..LIMIT] == line;
      DecodePrint(f, count, address, data);
      ParseDecoded(f, line, base);
    }
  }

  /** A line end that is left over for a line of its own is rejected. */
  lemma LineEndRejected(intel: bool, more: string, base: nat)
    ensures !ConvertText(intel, [] + ['\n'] + more, base).accepted
  {
    var text := [] + ['\n'] + more;
    LineLengthIs([], more);
    assert ChunkLength(text) == 1 && text[..1] == ['\n'] && Strip(text[..1]) == [];
  }

  /** unhex reads a printed record exactly when its count leaves room for the line end. */
  lemma PrintedRecordReadable(f: Format, count: nat, address: nat, data: string, base: nat)
    requires f in FORMATS && Proper(f) && Printable(f, count, address, data)
    ensures ConvertText(IsIntel(f), Join([Print(f, count, address, data)]), base).accepted <==>
            count <= ReadableCount(f) && !(f == MOTOROLA_S3 && address == LONG_MINUS_ONE)
  {
    hide Print, ConvertText, Writes;
    ReadableIffFits(f, count, address, data);
    var line := Print(f, count, address, data);
    if |line| < LIMIT {
      PrintedRecordRead(f, count, address, data, base);
    } else {
      LongRecordRejected(f, count, address, data, base, []);
      assert [line][1..] == [];
      assert Join([line]) == line + ['\n'] + [];
    }
  }
}
