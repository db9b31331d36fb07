/**
  Canonical input: what a program reads is determined by a fold over the characters
  typed, whatever is echoed and however the reads are sized.
 */
module CanonicalInput {
  import opened Basics
  import opened LineDiscipline

  // -------------------------------------------------- the driver's own loop

  /** The terminal after `Fill`, whether a line was completed, and the input not yet processed. */
  datatype Filled = Filled(tty: Tty, complete: bool, rest: seq<Byte>)

  function Fill(s: Settings, t: Tty, input: seq<Byte>): Filled
    decreases |input|
  {
    if input == [] then Filled(t, false, [])
    else
      var r := Type(s, t, input[0]);
      if r.done then Filled(r.tty, true, input[1..]) else Fill(s, r.tty, input[1..])
  }

  // ------------------------------------------------------- the reference fold

  /** A line being edited, or completed. */
  datatype Edited = Edited(line: seq<Byte>, done: bool)

  /** Append up to 255, erase drops the last, kill clears, a line end or end-of-file delivers. */
  function Edit(s: Settings, line: seq<Byte>, c: Byte): Edited {
    if c != NUL && c == s.cc.verase then Edited(if line == [] then [] else line[..|line| - 1], false)
    else if c != NUL && c == s.cc.vkill then Edited([], false)
    else if c != NUL && c == s.cc.veof then Edited(line, true)
    else if c != NUL && (c == NL || c == s.cc.veol || c == s.cc.veol2) then Edited(line + [c], true)
    else Edited(if |line| < 255 then line + [c] else line, false)
  }

  function EditTyped(s: Settings, line: seq<Byte>, c: Byte): Edited {
    var mapped := MapInput(s.i, c);
    if mapped.None? then Edited(line, false) else Edit(s, line, mapped.value)
  }

  /** Everything that `input` delivers when `line` has been typed so far. */
  function Delivered(s: Settings, line: seq<Byte>, input: seq<Byte>): seq<Byte>
    decreases |input|
  {
    if input == [] then []
    else
      var e := EditTyped(s, line, input[0]);
      if e.done then e.line + Delivered(s, [], input[1..]) else Delivered(s, e.line, input[1..])
  }

  // ------------------------------------------------------------- refinement

  lemma {:induction false} EraseAllLine(s: Settings, t: Tty)
    ensures EraseAll(s, t).line == []
    decreases |t.line|
  {
    if t.line != [] {
      EraseLastLine(s, t, true);
      EraseAllLine(s, EraseLast(s, t, true));
    }
  }

  lemma EraseLine(s: Settings, t: Tty, kill: bool)
    ensures Erase(s, t, kill).line == if kill || t.line == [] then [] else t.line[..|t.line| - 1]
  {
    if t.line != [] {
      EraseLastLine(s, t, false);
      EraseAllLine(s, t);
      EchoKeepsLine(s, t.(line := []), s.cc.vkill);
      EchoKeepsLine(s, Echo(s, t.(line := []), s.cc.vkill), NL);
    }
  }

  /** One typed character edits the line as the fold says, whatever the echo flags are. */
  lemma TypeFollowsFold(s: Settings, t: Tty, c: Byte)
    requires s.l.icanon
    ensures Edited(Type(s, t, c).tty.line, Type(s, t, c).done) == EditTyped(s, t.line, c)
  {
    var mapped := MapInput(s.i, c);
    if mapped.Some? {
      EchoKeepsLine(s, t, mapped.value);
      EraseLine(s, t, false);
      EraseLine(s, t, true);
    }
  }

  /** The fold stopped at the first line it delivers. */
  datatype FirstLine = FirstLine(line: seq<Byte>, complete: bool, rest: seq<Byte>)

  function FoldLine(s: Settings, line: seq<Byte>, input: seq<Byte>): FirstLine
    decreases |input|
  {
    if input == [] then FirstLine(line, false, [])
    else
      var e := EditTyped(s, line, input[0]);
      if e.done then FirstLine(e.line, true, input[1..]) else FoldLine(s, e.line, input[1..])
  }

  lemma {:induction false} FillFollowsFold(s: Settings, t: Tty, input: seq<Byte>)
    requires s.l.icanon
    ensures var f := Fill(s, t, input);
            FirstLine(f.tty.line, f.complete, f.rest) == FoldLine(s, t.line, input)
    decreases |input|
  {
    if input != [] {
      TypeFollowsFold(s, t, input[0]);
      FillFollowsFold(s, Type(s, t, input[0]).tty, input[1..]);
    }
  }

  lemma {:induction false} FoldLineDelivers(s: Settings, line: seq<Byte>, input: seq<Byte>)
    ensures var f := FoldLine(s, line, input);
            Delivered(s, line, input) == if f.complete then f.line + Delivered(s, [], f.rest) else []
    ensures FoldLine(s, line, input).complete ==> |FoldLine(s, line, input).rest| < |input|
    decreases |input|
  {
    if input != [] {
      FoldLineDelivers(s, EditTyped(s, line, input[0]).line, input[1..]);
    }
  }

  // ------------------------------------------------------------------ reads

  /** The canonical buffer, how much of it was read, and the characters not yet processed. */
  datatype Reader = Reader(line: seq<Byte>, index: nat, input: seq<Byte>)

  datatype ReadResult = ReadResult(data: seq<Byte>, reader: Reader)

  function Taken(available: seq<Byte>, count: nat): seq<Byte> {
    if count < |available| then available[..count] else available
  }

  /** One read of at most `count` bytes; none while no line is complete. */
  function ReadOnce(s: Settings, r: Reader, count: nat): Option<ReadResult>
    requires r.index <= |r.line|
  {
    if r.index < |r.line| then
      var data := Taken(r.line[r.index..], count);
      Some(ReadResult(data, r.(index := r.index + |data|)))
    else
      var f := FoldLine(s, [], r.input);
      if !f.complete then None
      else
        var data := Taken(f.line, count);
        Some(ReadResult(data, Reader(f.line, |data|, f.rest)))
  }

  /** What is still to be read. */
  function Remaining(s: Settings, r: Reader): seq<Byte>
    requires r.index <= |r.line|
  {
    r.line[r.index..] + Delivered(s, [], r.input)
  }

  lemma ReadOnceConserves(s: Settings, r: Reader, count: nat)
    requires r.index <= |r.line|
    ensures var o := ReadOnce(s, r, count);
            if o.None? then Remaining(s, r) == []
            else
              && o.value.reader.index <= |o.value.reader.line|
              && |o.value.data| <= count
              && Remaining(s, r) == o.value.data + Remaining(s, o.value.reader)
  {
    FoldLineDelivers(s, [], r.input);
    var o := ReadOnce(s, r, count);
    if o.Some? {
      var r' := o.value.reader;
      if r.index < |r.line| {
        assert r.line[r.index..] == o.value.data + r'.line[r'.index..];
      } else {
        assert r'.line == o.value.data + r'.line[r'.index..];
        assert r.line[r.index..] == [];
      }
    }
  }

  /** Reads of the given sizes, one after the other, until one would have to wait. */
  function ReadMany(s: Settings, r: Reader, counts: seq<nat>): ReadResult
    requires r.index <= |r.line|
    decreases |counts|
  {
    if counts == [] then ReadResult([], r)
    else
      ReadOnceConserves(s, r, counts[0]);
      var o := ReadOnce(s, r, counts[0]);
      if o.None? then ReadResult([], r)
      else
        var more := ReadMany(s, o.value.reader, counts[1..]);
        ReadResult(o.value.data + more.data, more.reader)
  }

  lemma {:induction false} ReadManyConserves(s: Settings, r: Reader, counts: seq<nat>)
    requires r.index <= |r.line|
    ensures var m := ReadMany(s, r, counts);
            && m.reader.index <= |m.reader.line|
            && Remaining(s, r) == m.data + Remaining(s, m.reader)
    decreases |counts|
  {
    if counts != [] {
      ReadOnceConserves(s, r, counts[0]);
      var o := ReadOnce(s, r, counts[0]);
      if o.Some? {
        ReadManyConserves(s, o.value.reader, counts[1..]);
      }
    }
  }

  /**
    For every input and every split into reads of any sizes, the bytes returned are a
    prefix of what the fold delivers, and what is not returned is still there to be read.
   */
  lemma ReadsFollowFold(s: Settings, input: seq<Byte>, counts: seq<nat>)
    ensures var m := ReadMany(s, Reader([], 0, input), counts);
            m.reader.index <= |m.reader.line| && m.data + Remaining(s, m.reader) == Delivered(s, [], input)
  {
    var r := Reader([], 0, input);
    assert r.line[r.index..] == [];
    ReadManyConserves(s, r, counts);
  }

  /** The line the next read returns bytes of: the rest of the buffered one, or else the next one typed. */
  function NextLine(s: Settings, r: Reader): Option<seq<Byte>>
    requires r.index <= |r.line|
  {
    var f := FoldLine(s, [], r.input);
    if r.index < |r.line| then Some(r.line[r.index..]) else if f.complete then Some(f.line) else None
  }

  /**
    A read waits exactly while there is no line; otherwise it returns the start of that
    line, all of it if there is room, and leaves the rest of it for the next read.
   */
  lemma ReadSize(s: Settings, r: Reader, count: nat)
    requires r.index <= |r.line|
    ensures var o, line := ReadOnce(s, r, count), NextLine(s, r);
            && (o.None? <==> line.None?)
            && (o.Some? ==>
                  && o.value.data <= line.value
                  && |o.value.data| == (if count < |line.value| then count else |line.value|)
                  && (count < |line.value| ==> NextLine(s, o.value.reader) == Some(line.value[count..])))
  {
  }

  lemma ReadAdvances(s: Settings, r: Reader, count: nat)
    requires r.index <= |r.line| && count > 0 && ReadOnce(s, r, count).Some?
    ensures var o := ReadOnce(s, r, count).value;
            && o.reader.index <= |o.reader.line|
            && |Remaining(s, o.reader)| + |o.reader.input| < |Remaining(s, r)| + |r.input|
  {
    ReadOnceConserves(s, r, count);
    ReadSize(s, r, count);
    FoldLineDelivers(s, [], r.input);
    var o := ReadOnce(s, r, count).value;
    assert |Remaining(s, r)| == |o.data| + |Remaining(s, o.reader)|;
    hide Remaining;
    if r.index < |r.line| {
      assert o.data != [];
    }
  }

  lemma {:induction false} EnoughReads(s: Settings, r: Reader, counts: seq<nat>)
    requires r.index <= |r.line|
    requires forall i :: 0 <= i < |counts| ==> counts[i] > 0
    requires |counts| >= |Remaining(s, r)| + |r.input|
    ensures ReadMany(s, r, counts).data == Remaining(s, r)
    decreases |counts|
  {
    if counts != [] {
      ReadOnceConserves(s, r, counts[0]);
      var o := ReadOnce(s, r, counts[0]);
      if o.Some? {
        ReadAdvances(s, r, counts[0]);
        hide ReadOnce, Remaining;
        EnoughReads(s, o.value.reader, counts[1..]);
      }
    }
  }

  /** Enough reads of any positive sizes return all that the fold delivers. */
  lemma ReadsReturnAll(s: Settings, input: seq<Byte>, counts: seq<nat>)
    requires forall i :: 0 <= i < |counts| ==> counts[i] > 0
    requires |counts| >= |Delivered(s, [], input)| + |input|
    ensures ReadMany(s, Reader([], 0, input), counts).data == Delivered(s, [], input)
  {
    var r := Reader([], 0, input);
    assert Remaining(s, r) == Delivered(s, [], input);
    EnoughReads(s, r, counts);
  }

  // ----------------------------------------------------------- the input flags

  /** The character without its parity bit under ISTRIP and in lower case under IUCLC. */
  function Plain(i: InputFlags, c: Byte): Byte {
    var stripped := if i.istrip && c >= 128 then c - 128 else c;
    if i.iuclc && 'A' as int <= stripped <= 'Z' as int then stripped - 'A' as int + 'a' as int else stripped
  }

  /** IGNCR drops returns, ICRNL turns them into newlines, INLCR newlines into returns; nothing else is touched. */
  lemma InputFlagsMean(i: InputFlags, c: Byte)
    ensures var mapped, plain := MapInput(i, c), Plain(i, c);
            && (mapped.None? <==> plain == CR && i.igncr)
            && (mapped == Some(NL) <==> (plain == CR && !i.igncr && i.icrnl) || (plain == NL && !i.inlcr))
            && (mapped == Some(CR) <==> (plain == CR && !i.igncr && !i.icrnl) || (plain == NL && i.inlcr))
            && (plain != CR && plain != NL ==> mapped == Some(plain))
  {
  }

  /** A character that is put into the line as it is. */
  predicate Ordinary(s: Settings, c: Byte) {
    MapInput(s.i, c) == Some(c) && (c == NUL || c !in {NL, s.cc.verase, s.cc.vkill, s.cc.veof, s.cc.veol, s.cc.veol2})
  }

  /**
    Text and the return key, under ICRNL, deliver the text and a newline, up to 255
    characters of it.
   */
  lemma {:induction false} ReturnDelivers(s: Settings, line: seq<Byte>, text: seq<Byte>)
    requires s.i.icrnl && !s.i.igncr && NL !in {s.cc.verase, s.cc.vkill, s.cc.veof}
    requires forall k :: 0 <= k < |text| ==> Ordinary(s, text[k])
    requires |line| <= 255
    ensures Delivered(s, line, text + [CR]) == (line + text)[..if |line + text| < 255 then |line + text| else 255] + [NL]
    decreases |text|
  {
    InputFlagsMean(s.i, CR);
    if text == [] {
      assert text + [CR] == [CR] && [CR][1..] == [];
      assert line + text == line;
    } else {
      assert (text + [CR])[1..] == text[1..] + [CR];
      var line' := EditTyped(s, line, text[0]).line;
      ReturnDelivers(s, line', text[1..]);
      if |line| < 255 {
        assert line' + text[1..] == line + text;
      } else {
        assert (line' + text[1..])[..255] == line == (line + text)[..255];
      }
    }
  }

  /** A line being edited holds at most 255 characters, a delivered one at most 256. */
  lemma {:induction false} LineBounded(s: Settings, line: seq<Byte>, input: seq<Byte>)
    requires |line| <= 255
    ensures var f := FoldLine(s, line, input);
            |f.line| <= (if f.complete then CBUFSIZE else CBUFSIZE - 1)
    decreases |input|
  {
    if input != [] && !EditTyped(s, line, input[0]).done {
      LineBounded(s, EditTyped(s, line, input[0]).line, input[1..]);
    }
  }

  /** Characters that arrive in two bursts edit the line as if they had arrived in one. */
  lemma {:induction false} FillInBursts(s: Settings, t: Tty, first: seq<Byte>, second: seq<Byte>)
    ensures var f := Fill(s, t, first);
            Fill(s, t, first + second) ==
              if f.complete then f.(rest := f.rest + second) else Fill(s, f.tty, second)
    decreases |first|
  {
    if first == [] {
      assert first + second == second;
    } else {
      assert (first + second)[1..] == first[1..] + second;
      FillInBursts(s, Type(s, t, first[0]).tty, first[1..], second);
    }
  }
}
