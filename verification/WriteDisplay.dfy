/**
  What a write sends and what the terminal then shows, from the data and the output flags
  alone.
 */
module WriteDisplay {
  import opened Basics
  import opened LineDiscipline
  import opened Display

  /** Without OPOST the bytes go out as they are. */
  lemma RawWrite(o: OutputFlags, t: Tty, data: seq<Byte>)
    requires !o.opost
    ensures WriteData(o, t, data) == t.(sent := t.sent + data)
  {
  }

  // --------------------------------------------------------- the bytes sent

  /** The first tab stop to the right of `column`; there is one every eight columns. */
  function NextStop(column: nat): nat {
    8 * (column / 8 + 1)
  }

  /** OLCUC */
  function Cased(olcuc: bool, c: Byte): Byte {
    if olcuc && 'a' as int <= c <= 'z' as int then c - 'a' as int + 'A' as int else c
  }

  /** The flags as their manual has them; `column` is where the terminal's cursor is. */
  function Translation(o: OutputFlags, column: nat, c: Byte): seq<Byte> {
    if c == NL && o.onlcr then [CR, NL]
    else if c == CR && o.onocr && column == 0 then []
    else if c == CR && o.ocrnl then [NL]
    else if c == TAB && o.xtabs then seq(NextStop(column) - column, i => SPACE)
    else [Cased(o.olcuc, c)]
  }

  /** The translation of `data` for a terminal that is `d` and shows what it is sent. */
  function Translated(o: OutputFlags, d: Screen, data: seq<Byte>): seq<Byte>
    decreases |data|
  {
    if data == [] then []
    else
      var bytes := Translation(o, d.column, data[0]);
      bytes + Translated(o, ShowAll(o.onlret, d, bytes), data[1..])
  }

  lemma ProcessSends(o: OutputFlags, t: Tty, c: Byte)
    requires o.opost
    ensures Process(o, t, c).sent == t.sent + Translation(o, t.column, c)
  {
    if c == TAB && o.xtabs {
      assert Copies(SPACE, TabWidth(t.column)) == Translation(o, t.column, c);
    }
  }

  /** A write sends the translation of its data for the terminal as it stands. */
  lemma {:induction false} WriteSends(o: OutputFlags, d: Screen, t: Tty, data: seq<Byte>)
    requires o.opost && Tracks(o.onlret, d, t)
    ensures WriteData(o, t, data).sent == t.sent + Translated(o, ShowAll(o.onlret, d, t.sent), data)
    decreases |data|
  {
    if data != [] {
      var t', now := Process(o, t, data[0]), ShowAll(o.onlret, d, t.sent);
      var bytes := Translation(o, now.column, data[0]);
      ProcessSends(o, t, data[0]);
      ProcessTracks(o, d, t, data[0]);
      ShowConcat(o.onlret, d, t.sent, bytes);
      hide Process, Translation;
      WriteSends(o, d, t', data[1..]);
    }
  }

  /** Takes the return before every newline out again. */
  function Collapsed(bytes: seq<Byte>): seq<Byte> {
    if bytes == [] then []
    else if |bytes| > 1 && bytes[0] == CR && bytes[1] == NL then [NL] + Collapsed(bytes[2..])
    else [bytes[0]] + Collapsed(bytes[1..])
  }

  function AllCased(olcuc: bool, data: seq<Byte>): seq<Byte> {
    seq(|data|, i requires 0 <= i < |data| => Cased(olcuc, data[i]))
  }

  /** No flag makes two different characters of the data the same. */
  predicate Lossless(o: OutputFlags, data: seq<Byte>) {
    (CR in data ==> !o.onocr && !o.ocrnl) && (TAB in data ==> !o.xtabs)
  }

  lemma LosslessTranslation(o: OutputFlags, column: nat, data: seq<Byte>)
    requires data != [] && Lossless(o, data)
    ensures Translation(o, column, data[0]) == if o.onlcr && data[0] == NL then [CR, NL] else [Cased(o.olcuc, data[0])]
    ensures Lossless(o, data[1..])
    ensures Cased(o.olcuc, data[0]) == NL <==> data[0] == NL
  {
  }

  lemma CollapsedNewline(rest: seq<Byte>)
    ensures Collapsed([CR, NL] + rest) == [NL] + Collapsed(rest)
  {
    assert ([CR, NL] + rest)[2..] == rest;
  }

  lemma CollapsedOther(c: Byte, rest: seq<Byte>)
    requires rest != [] ==> rest[0] != NL
    ensures Collapsed([c] + rest) == [c] + Collapsed(rest)
  {
    assert ([c] + rest)[1..] == rest;
  }

  lemma AllCasedStep(olcuc: bool, data: seq<Byte>)
    requires data != []
    ensures AllCased(olcuc, data) == [Cased(olcuc, data[0])] + AllCased(olcuc, data[1..])
  {
  }

  lemma {:induction false} TranslatedReadsBack(o: OutputFlags, d: Screen, data: seq<Byte>)
    requires Lossless(o, data)
    ensures var sent := Translated(o, d, data);
            && (if o.onlcr then Collapsed(sent) else sent) == AllCased(o.olcuc, data)
            && (o.onlcr && sent != [] ==> sent[0] != NL)
    decreases |data|
  {
    if data != [] {
      var c := Cased(o.olcuc, data[0]);
      var d' := ShowAll(o.onlret, d, Translation(o, d.column, data[0]));
      var rest := Translated(o, d', data[1..]);
      LosslessTranslation(o, d.column, data);
      TranslatedReadsBack(o, d', data[1..]);
      AllCasedStep(o.olcuc, data);
      if o.onlcr && data[0] == NL {
        CollapsedNewline(rest);
      } else if o.onlcr {
        CollapsedOther(c, rest);
      }
      hide ShowAll, Translation, AllCased, Collapsed, Lossless;
    }
  }

  /**
    A write can be read back: the bytes it sends, without the returns that ONLCR puts
    before newlines, are the data, in upper case under OLCUC.
   */
  lemma WriteReadsBack(o: OutputFlags, d: Screen, t: Tty, data: seq<Byte>)
    requires o.opost && Tracks(o.onlret, d, t) && Lossless(o, data)
    ensures var sent := WriteData(o, t, data).sent;
            && t.sent <= sent
            && (if o.onlcr then Collapsed(sent[|t.sent|..]) else sent[|t.sent|..]) == AllCased(o.olcuc, data)
  {
    hide Collapsed, Lossless, Translated, WriteData, AllCased;
    WriteSends(o, d, t, data);
    var now := ShowAll(o.onlret, d, t.sent);
    TranslatedReadsBack(o, now, data);
    assert (t.sent + Translated(o, now, data))[|t.sent|..] == Translated(o, now, data);
  }

  // ------------------------------------------------------- what is displayed

  /** A terminal that obeys the output flags itself. */
  function Obey(o: OutputFlags, d: Screen, c: Byte): Screen {
    if c == NL then d.(row := d.row + 1, column := if o.onlcr || o.onlret then 0 else d.column)
    else if c == CR && o.onocr && d.column == 0 then d
    else if c == CR && o.ocrnl then d.(row := d.row + 1, column := if o.onlret then 0 else d.column)
    else if c == CR then d.(column := 0)
    else if c == TAB then
      d.(column := NextStop(d.column),
         cells := map at | at in d.cells && !(o.xtabs && at.0 == d.row && d.column <= at.1 < NextStop(d.column))
                    :: d.cells[at])
    else if c == BS then d.(column := if d.column == 0 then 0 else d.column - 1)
    else if c < 32 || c == 127 then d
    else d.(column := d.column + 1, cells := SetCell(d.cells, (d.row, d.column), Cased(o.olcuc, c)))
  }

  function ObeyAll(o: OutputFlags, d: Screen, data: seq<Byte>): Screen
    decreases |data|
  {
    if data == [] then d else ObeyAll(o, Obey(o, d, data[0]), data[1..])
  }

  lemma TranslationShows(o: OutputFlags, d: Screen, c: Byte)
    ensures ShowAll(o.onlret, d, Translation(o, d.column, c)) == Obey(o, d, c)
  {
    if c == NL && o.onlcr {
      Show2(o.onlret, d, CR, NL);
    } else if c == CR && o.ocrnl {
      Show1(o.onlret, d, NL);
    } else if c == TAB {
      if o.xtabs {
        var n := NextStop(d.column) - d.column;
        assert Translation(o, d.column, c) == Copies(SPACE, n);
        ShowSpaces(o.onlret, d, n);
      } else {
        assert Obey(o, d, c).cells == d.cells;
        Show1(o.onlret, d, TAB);
      }
    } else {
      Show1(o.onlret, d, Cased(o.olcuc, c));
    }
  }

  lemma {:induction false} TranslatedShows(o: OutputFlags, d: Screen, data: seq<Byte>)
    ensures ShowAll(o.onlret, d, Translated(o, d, data)) == ObeyAll(o, d, data)
    decreases |data|
  {
    if data != [] {
      var bytes := Translation(o, d.column, data[0]);
      TranslationShows(o, d, data[0]);
      hide Translation, Obey;
      var d' := ShowAll(o.onlret, d, bytes);
      TranslatedShows(o, d', data[1..]);
      ShowConcat(o.onlret, d, bytes, Translated(o, d', data[1..]));
    }
  }

  /**
    After a write the terminal shows, cell by cell and with its cursor, what one would
    that was given the data and obeyed the flags itself.
   */
  lemma WriteShows(o: OutputFlags, d: Screen, t: Tty, data: seq<Byte>)
    requires o.opost && Tracks(o.onlret, d, t)
    ensures ShowAll(o.onlret, d, WriteData(o, t, data).sent) == ObeyAll(o, ShowAll(o.onlret, d, t.sent), data)
  {
    hide WriteData, Translated, ObeyAll;
    var now := ShowAll(o.onlret, d, t.sent);
    WriteSends(o, d, t, data);
    ShowConcat(o.onlret, d, t.sent, Translated(o, now, data));
    TranslatedShows(o, now, data);
  }

  function CountOf(b: Byte, data: seq<Byte>): nat {
    if data == [] then 0 else (if data[0] == b then 1 else 0) + CountOf(b, data[1..])
  }

  lemma {:induction false} ObeyRows(o: OutputFlags, d: Screen, data: seq<Byte>)
    requires !o.ocrnl || CR !in data
    ensures ObeyAll(o, d, data).row == d.row + CountOf(NL, data)
    decreases |data|
  {
    if data != [] {
      ObeyRows(o, Obey(o, d, data[0]), data[1..]);
    }
  }

  /** Every newline of the data takes the terminal one row down. */
  lemma WriteRows(o: OutputFlags, d: Screen, t: Tty, data: seq<Byte>)
    requires o.opost && Tracks(o.onlret, d, t) && (!o.ocrnl || CR !in data)
    ensures ShowAll(o.onlret, d, WriteData(o, t, data).sent).row ==
            ShowAll(o.onlret, d, t.sent).row + CountOf(NL, data)
  {
    hide WriteData, ShowAll, ObeyAll;
    WriteShows(o, d, t, data);
    ObeyRows(o, ShowAll(o.onlret, d, t.sent), data);
  }

  // -------------------------------------------------------------------- echo

  /** A control character is shown as a caret and the character with bit 6 flipped. */
  lemma UncontrolFlips(c: Byte)
    requires IsControl(c)
    ensures (c as bv8 ^ 0x40) as int == Uncontrol(c)
  {
  }

  /** What is sent for a character echoed: a caret and a letter for a control character, else what a write of it sends. */
  function EchoOf(s: Settings, t: Tty, c: Byte): seq<Byte> {
    if s.l.echoctl && (c < 32 || c == 127) && c != TAB && c != NL then [CARET, Uncontrol(c)]
    else WriteData(s.o, t.(sent := []), [c]).sent
  }

  lemma EchoIs(s: Settings, t: Tty, c: Byte)
    ensures Echo(s, t, c).sent == t.sent + EchoOf(s, t, c)
  {
    assert [c][1..] == [];
    if s.o.opost {
      ProcessSends(s.o, t, c);
      var t' := t.(sent := []);
      ProcessSends(s.o, t', c);
      assert t'.sent + Translation(s.o, t.column, c) == Translation(s.o, t.column, c);
      assert WriteData(s.o, t', [c]) == ProcessAll(s.o, Process(s.o, t', c), []);
    }
  }

  /** In canonical mode the key erases, or ends the line; no control function is on the NUL key. */
  predicate Erases(s: Settings, c: Byte) {
    s.l.icanon && c != NUL && (c == s.cc.verase || c == s.cc.vkill)
  }

  predicate EndsLine(s: Settings, c: Byte) {
    s.l.icanon && c != NUL && !Erases(s, c) && c in {s.cc.veof, NL, s.cc.veol, s.cc.veol2}
  }

  /** The key is put into the line. */
  predicate Kept(s: Settings, line: seq<Byte>, c: Byte) {
    !Erases(s, c) && (if EndsLine(s, c) then c != s.cc.veof else |line| < 255)
  }

  /** The key is shown: under ECHO if it is kept or erases something, and a newline under ECHONL too. */
  predicate Echoed(s: Settings, line: seq<Byte>, c: Byte) {
    || (s.l.echo && (Kept(s, line, c) || (Erases(s, c) && line != [])))
    || (s.l.echonl && EndsLine(s, c) && Kept(s, line, c) && c == NL)
  }

  /**
    What a key shows, unless it takes characters off the display under ECHOE: nothing if it
    is ignored or not to be echoed, else itself, and after a kill a newline under ECHOK.
   */
  lemma KeyShows(s: Settings, t: Tty, key: Byte)
    requires var c := MapInput(s.i, key); c.Some? && Erases(s, c.value) ==> !(s.l.echo && s.l.echoe)
    ensures var c := MapInput(s.i, key);
            Type(s, t, key).tty.sent ==
              if c.None? || !Echoed(s, t.line, c.value) then t.sent
              else if Erases(s, c.value) && c.value != s.cc.verase && s.l.echok then
                var after := Echo(s, t, c.value);
                after.sent + EchoOf(s, after, NL)
              else t.sent + EchoOf(s, t, c.value)
  {
    var mapped := MapInput(s.i, key);
    if mapped.Some? {
      var c := mapped.value;
      EchoIs(s, t, c);
      EchoIs(s, Echo(s, t, c), NL);
      EchoLineFree(s, t, c, []);
      if t.line != [] {
        EchoLineFree(s, t, c, t.line[..|t.line| - 1]);
        EchoLineFree(s, Echo(s, t, c), NL, []);
      }
      hide Echo, EchoOf, MapInput;
    }
  }

  /** Echo does not look at the line. */
  lemma EchoLineFree(s: Settings, t: Tty, c: Byte, line: seq<Byte>)
    ensures Echo(s, t.(line := line), c) == Echo(s, t, c).(line := line)
  {
  }
}
