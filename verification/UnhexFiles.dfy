/**
  unhex on files: lines come through a buffer of 512 characters, records are converted
  until one is rejected or ends the file, and every byte is stored at its address.
 */
module UnhexFiles {
  import opened HexText
  import opened Packhex
  import opened Unhex

  // --------------------------------------------------------- lines of a file

  /** What `fgets` can put into `buff[512]`. */
  const LIMIT := 511

  /** The number of characters before the first newline, or all of them. */
  function LineLength(text: string): (n: nat)
    ensures n <= |text|
    ensures forall i :: 0 <= i < n ==> text[i] != '\n'
    ensures n < |text| ==> text[n] == '\n'
  {
    if text == [] || text[0] == '\n' then 0 else 1 + LineLength(text[1..])
  }

  function ChunkLength(text: string): (n: nat)
    requires text != []
    ensures 0 < n <= |text| && n <= LIMIT
  {
    var n := LineLength(text);
    if n < |text| && n + 1 <= LIMIT then n + 1 else if |text| < LIMIT then |text| else LIMIT
  }

  /** The loops at the head of the converters: no newline, then no carriage return. */
  function Strip(chunk: string): string {
    var a := if chunk != [] && chunk[|chunk| - 1] == '\n' then chunk[..|chunk| - 1] else chunk;
    if a != [] && a[|a| - 1] == '\r' then a[..|a| - 1] else a
  }

  // ------------------------------------------------------------- conversion

  function Parse(intel: bool, line: string, base: nat): Outcome {
    if intel then ParseIntel(line, base) else ParseS(line)
  }

  /** Everything stored, and whether the file was accepted. */
  datatype Conversion = Conversion(stores: seq<Item>, accepted: bool)

  /** The conversion of a file that goes on as `rest` after a line with outcome `o`. */
  function Then(o: Outcome, rest: Conversion): Conversion {
    match o
    case Rejected => Conversion([], false)
    case Ended => Conversion([], true)
    case Stored(address, data) => Conversion(Writes(address, data) + rest.stores, rest.accepted)
    case _ => rest
  }

  function NewBase(o: Outcome, base: nat): nat {
    if o.Based? then o.base else base
  }

  /** A file of lines, once they are read. */
  function ConvertLines(intel: bool, lines: seq<string>, base: nat): Conversion
    decreases |lines|
  {
    if lines == [] then Conversion([], true)
    else
      var o := Parse(intel, lines[0], base);
      Then(o, ConvertLines(intel, lines[1..], NewBase(o, base)))
  }

  /** `convert_Intel_records` or `convert_S_records` on the text of a file. */
  function ConvertText(intel: bool, text: string, base: nat): Conversion
    decreases |text|
  {
    if text == [] then Conversion([], true)
    else
      var n := ChunkLength(text);
      var o := Parse(intel, Strip(text[..n]), base);
      Then(o, ConvertText(intel, text[n..], NewBase(o, base)))
  }

  /** The loop of the converters; `write_record` stores byte after byte. */
  method ConvertFile(intel: bool, text: string) returns (stores: seq<Item>, accepted: bool)
    ensures Conversion(stores, accepted) == ConvertText(intel, text, 0)
  {
    hide Parse, ParseIntel, ParseS, Writes;
    stores, accepted := [], true;
    var rest, base := text, 0;
    while rest != []
      invariant accepted
      invariant ConvertText(intel, text, 0) ==
                var c := ConvertText(intel, rest, base); Conversion(stores + c.stores, c.accepted)
      decreases |rest|
    {
      var n := ChunkLength(rest);
      var o := ConvertLine(intel, Strip(rest[..n]), base);
      ghost var c := ConvertText(intel, rest[n..], NewBase(o, base));
      match o {
        case Rejected =>
          accepted := false;
          return;
        case Ended =>
          return;
        case Stored(address, data) =>
          assert stores + (Writes(address, data) + c.stores) == stores + Writes(address, data) + c.stores;
          stores := stores + Writes(address, data);
        case Based(b) =>
          base := b;
        case Started =>
        case Skipped =>
      }
      rest := rest[n..];
    }
  }

  method ConvertLine(intel: bool, line: string, base: nat) returns (o: Outcome)
    ensures o == Parse(intel, line, base)
  {
    if intel {
      o := ConvertIntelLine(line, base);
    } else {
      o := ConvertSLine(line);
    }
  }

  // ------------------------------------------------- lines that fit the buffer

  /** A line that `fgets` returns whole and the converters leave as it is. */
  predicate Fits(line: string) {
    |line| < LIMIT && '\n' !in line && (line != [] ==> line[|line| - 1] != '\r')
  }

  function Join(lines: seq<string>): string {
    if lines == [] then [] else lines[0] + ['\n'] + Join(lines[1..])
  }

  lemma {:induction false} LineLengthIs(line: string, more: string)
    requires '\n' !in line
    ensures LineLength(line + ['\n'] + more) == |line|
    decreases |line|
  {
    var text := line + ['\n'] + more;
    if line == [] {
      assert text[0] == '\n';
    } else {
      assert text[1..] == line[1..] + ['\n'] + more;
      LineLengthIs(line[1..], more);
    }
  }

  lemma ChunkIsLine(line: string, more: string)
    requires Fits(line)
    ensures var text := line + ['\n'] + more;
            var n := ChunkLength(text);
            Strip(text[..n]) == line && text[n..] == more
  {
    LineLengthIs(line, more);
    var text := line + ['\n'] + more;
    assert text[..|line| + 1] == line + ['\n'];
  }

  lemma {:induction false} ConvertTextIsLines(intel: bool, lines: seq<string>, base: nat)
    requires forall i :: 0 <= i < |lines| ==> Fits(lines[i])
    ensures ConvertText(intel, Join(lines), base) == ConvertLines(intel, lines, base)
    decreases |lines|
  {
    hide Parse, ParseIntel, ParseS, Writes, Strip, ChunkLength;
    if lines != [] {
      ChunkIsLine(lines[0], Join(lines[1..]));
      var o := Parse(intel, lines[0], base);
      ConvertTextIsLines(intel, lines[1..], NewBase(o, base));
    }
  }

  /** Lines that end in a carriage return and a newline. */
  function JoinCrlf(lines: seq<string>): string {
    if lines == [] then [] else lines[0] + ['\r', '\n'] + JoinCrlf(lines[1..])
  }

  lemma CrlfChunkIsLine(line: string, more: string)
    requires Fits(line) && |line| + 2 <= LIMIT
    ensures var text := line + ['\r', '\n'] + more;
            var n := ChunkLength(text);
            Strip(text[..n]) == line && text[n..] == more
  {
    var text := line + ['\r', '\n'] + more;
    assert text == (line + ['\r']) + ['\n'] + more;
    LineLengthIs(line + ['\r'], more);
    assert text[..|line| + 2] == line + ['\r', '\n'];
  }

  /** A file reads the same with either line end, as long as both characters fit the buffer. */
  lemma {:induction false} LineEndsAgree(intel: bool, lines: seq<string>, base: nat)
    requires forall i :: 0 <= i < |lines| ==> Fits(lines[i]) && |lines[i]| + 2 <= LIMIT
    ensures ConvertText(intel, JoinCrlf(lines), base) == ConvertText(intel, Join(lines), base)
    decreases |lines|
  {
    hide Parse, ParseIntel, ParseS, Writes, Strip, ChunkLength;
    if lines != [] {
      ChunkIsLine(lines[0], Join(lines[1..]));
      CrlfChunkIsLine(lines[0], JoinCrlf(lines[1..]));
      var o := Parse(intel, lines[0], base);
      LineEndsAgree(intel, lines[1..], NewBase(o, base));
    }
  }
}
