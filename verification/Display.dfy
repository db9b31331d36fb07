/**
  What the driver's output does to a terminal, and two promises about it: the driver
  always knows the cursor column, and the display always shows the line being edited.
 */
module Display {
  import opened Basics
  import opened LineDiscipline

  /** A terminal: the non-blank cells by row and column, and the cursor. */
  datatype Screen = Screen(cells: map<(nat, nat), Byte>, row: nat, column: nat)

  function SetCell(cells: map<(nat, nat), Byte>, at: (nat, nat), b: Byte): map<(nat, nat), Byte> {
    if b == SPACE then cells - {at} else cells[at := b]
  }

  /** One byte arrives at a terminal; `onlret` says that its newline also returns the cursor. */
  function Show(onlret: bool, d: Screen, b: Byte): Screen {
    if b == NL then d.(row := d.row + 1, column := if onlret then 0 else d.column)
    else if b == CR then d.(column := 0)
    else if b == TAB then d.(column := d.column + TabWidth(d.column))
    else if b == BS then d.(column := if d.column > 0 then d.column - 1 else 0)
    else if IsControl(b) then d
    else d.(cells := SetCell(d.cells, (d.row, d.column), b), column := d.column + 1)
  }

  function ShowAll(onlret: bool, d: Screen, bytes: seq<Byte>): Screen
    decreases |bytes|
  {
    if bytes == [] then d else ShowAll(onlret, Show(onlret, d, bytes[0]), bytes[1..])
  }

  lemma {:induction false} ShowConcat(onlret: bool, d: Screen, a: seq<Byte>, b: seq<Byte>)
    ensures ShowAll(onlret, d, a + b) == ShowAll(onlret, ShowAll(onlret, d, a), b)
    decreases |a|
  {
    if a == [] {
      assert a + b == b;
    } else {
      assert (a + b)[1..] == a[1..] + b;
      ShowConcat(onlret, Show(onlret, d, a[0]), a[1..], b);
    }
  }

  lemma Show1(onlret: bool, d: Screen, b: Byte)
    ensures ShowAll(onlret, d, [b]) == Show(onlret, d, b)
  {
    assert [b][1..] == [];
  }

  lemma Show2(onlret: bool, d: Screen, a: Byte, b: Byte)
    ensures ShowAll(onlret, d, [a, b]) == Show(onlret, Show(onlret, d, a), b)
  {
    assert [a, b][1..] == [b];
    Show1(onlret, Show(onlret, d, a), b);
  }

  lemma Show3(onlret: bool, d: Screen, a: Byte, b: Byte, c: Byte)
    ensures ShowAll(onlret, d, [a, b, c]) == Show(onlret, Show(onlret, Show(onlret, d, a), b), c)
  {
    assert [a, b, c][1..] == [b, c];
    Show2(onlret, Show(onlret, d, a), b, c);
  }

  lemma {:induction false} ShowSpaces(onlret: bool, d: Screen, n: nat)
    ensures ShowAll(onlret, d, Copies(SPACE, n)).column == d.column + n
    ensures ShowAll(onlret, d, Copies(SPACE, n)).row == d.row
    ensures ShowAll(onlret, d, Copies(SPACE, n)).cells ==
            map at | at in d.cells && !(at.0 == d.row && d.column <= at.1 < d.column + n) :: d.cells[at]
    decreases n
  {
    if n > 0 {
      assert Copies(SPACE, n)[1..] == Copies(SPACE, n - 1);
      ShowSpaces(onlret, Show(onlret, d, SPACE), n - 1);
    }
  }

  lemma {:induction false} ShowBackspaces(onlret: bool, d: Screen, n: nat)
    requires n <= d.column
    ensures ShowAll(onlret, d, Copies(BS, n)) == d.(column := d.column - n)
    decreases n
  {
    if n > 0 {
      assert Copies(BS, n)[1..] == Copies(BS, n - 1);
      ShowBackspaces(onlret, Show(onlret, d, BS), n - 1);
    }
  }

  // -------------------------------------------------------- cursor tracking

  /** The terminal has shown everything sent since it was `d`, and stands where the driver thinks. */
  predicate Tracks(onlret: bool, d: Screen, t: Tty) {
    ShowAll(onlret, d, t.sent).column == t.column
  }

  lemma ProcessTracks(o: OutputFlags, d: Screen, t: Tty, c: Byte)
    requires o.opost && Tracks(o.onlret, d, t)
    ensures Tracks(o.onlret, d, Process(o, t, c))
  {
    var now := ShowAll(o.onlret, d, t.sent);
    var t' := Process(o, t, c);
    if c == NL {
      Show1(o.onlret, now, NL);
      Show2(o.onlret, now, CR, NL);
      if o.onlcr {
        assert t.sent + [CR] + [NL] == t.sent + [CR, NL];
        ShowConcat(o.onlret, d, t.sent, [CR, NL]);
      } else {
        ShowConcat(o.onlret, d, t.sent, [NL]);
      }
    } else if c == CR {
      Show1(o.onlret, now, NL);
      Show1(o.onlret, now, CR);
      ShowConcat(o.onlret, d, t.sent, [NL]);
      ShowConcat(o.onlret, d, t.sent, [CR]);
    } else if c == TAB {
      Show1(o.onlret, now, TAB);
      ShowSpaces(o.onlret, now, TabWidth(t.column));
      ShowConcat(o.onlret, d, t.sent, [TAB]);
      ShowConcat(o.onlret, d, t.sent, Copies(SPACE, TabWidth(t.column)));
    } else {
      var c' := if o.olcuc && c != BS then ToUpper(c) else c;
      Show1(o.onlret, now, c');
      ShowConcat(o.onlret, d, t.sent, [c']);
    }
  }

  lemma {:induction false} WriteTracks(o: OutputFlags, d: Screen, t: Tty, data: seq<Byte>)
    requires o.opost && Tracks(o.onlret, d, t)
    ensures Tracks(o.onlret, d, WriteData(o, t, data))
    decreases |data|
  {
    if data != [] {
      ProcessTracks(o, d, t, data[0]);
      WriteTracks(o, d, Process(o, t, data[0]), data[1..]);
    }
  }

  lemma EchoTracks(s: Settings, d: Screen, t: Tty, c: Byte)
    requires s.o.opost && Tracks(s.o.onlret, d, t)
    ensures Tracks(s.o.onlret, d, Echo(s, t, c))
  {
    if s.l.echoctl && IsControl(c) && c != TAB && c != NL {
      Show2(s.o.onlret, ShowAll(s.o.onlret, d, t.sent), CARET, Uncontrol(c));
      ShowConcat(s.o.onlret, d, t.sent, [CARET, Uncontrol(c)]);
    } else {
      ProcessTracks(s.o, d, t, c);
    }
  }

  lemma RubOutTracks(onlret: bool, d: Screen, t: Tty)
    requires Tracks(onlret, d, t)
    ensures Tracks(onlret, d, RubOut(t))
  {
    Show3(onlret, ShowAll(onlret, d, t.sent), BS, SPACE, BS);
    ShowConcat(onlret, d, t.sent, [BS, SPACE, BS]);
  }

  lemma BackUpTracks(onlret: bool, d: Screen, t: Tty, column: nat)
    requires Tracks(onlret, d, t)
    ensures Tracks(onlret, d, BackUp(t, column))
  {
    if t.column > column {
      ShowBackspaces(onlret, ShowAll(onlret, d, t.sent), t.column - column);
      ShowConcat(onlret, d, t.sent, Copies(BS, t.column - column));
    }
  }

  lemma EraseLastTracks(s: Settings, d: Screen, t: Tty, kill: bool)
    requires s.o.opost && t.line != [] && Tracks(s.o.onlret, d, t)
    ensures Tracks(s.o.onlret, d, EraseLast(s, t, kill))
  {
    var t' := t.(line := t.line[..|t.line| - 1]);
    var c := t.line[|t.line| - 1];
    EchoTracks(s, d, t', s.cc.verase);
    BackUpTracks(s.o.onlret, d, t', Layout(s.l.echoctl, t'.start, t'.line));
    RubOutTracks(s.o.onlret, d, t');
    RubOutTracks(s.o.onlret, d, RubOut(t'));
  }

  lemma {:induction false} EraseAllTracks(s: Settings, d: Screen, t: Tty)
    requires s.o.opost && Tracks(s.o.onlret, d, t)
    ensures Tracks(s.o.onlret, d, EraseAll(s, t))
    decreases |t.line|
  {
    if t.line != [] {
      EraseLastTracks(s, d, t, true);
      EraseLastLine(s, t, true);
      EraseAllTracks(s, d, EraseLast(s, t, true));
    }
  }

  lemma EraseTracks(s: Settings, d: Screen, t: Tty, kill: bool)
    requires s.o.opost && Tracks(s.o.onlret, d, t)
    ensures Tracks(s.o.onlret, d, Erase(s, t, kill))
  {
    if t.line != [] {
      EraseLastTracks(s, d, t, false);
      EraseAllTracks(s, d, t);
      var t' := t.(line := []);
      EchoTracks(s, d, t', s.cc.vkill);
      EchoTracks(s, d, Echo(s, t', s.cc.vkill), NL);
    }
  }

  lemma TypeTracks(s: Settings, d: Screen, t: Tty, c: Byte)
    requires s.o.opost && Tracks(s.o.onlret, d, t)
    ensures Tracks(s.o.onlret, d, Type(s, t, c).tty)
  {
    var mapped := MapInput(s.i, c);
    if mapped.Some? {
      EchoTracks(s, d, t, mapped.value);
      EraseTracks(s, d, t, false);
      EraseTracks(s, d, t, true);
    }
  }

  /** What a program or a typist does to the terminal. */
  datatype Activity = Written(data: seq<Byte>) | Typed(c: Byte) | ReadBegins

  function Do(s: Settings, t: Tty, a: Activity): Tty {
    match a
    case Written(data) => WriteData(s.o, t, data)
    case Typed(c) => Type(s, t, c).tty
    case ReadBegins => t.(line := [], start := t.column)
  }

  function DoAll(s: Settings, t: Tty, activities: seq<Activity>): Tty
    decreases |activities|
  {
    if activities == [] then t else DoAll(s, Do(s, t, activities[0]), activities[1..])
  }

  /**
    While OPOST is set, for all other settings and every run of writes, typing and reads
    in any order, the driver's column is the column of a terminal that was fed every byte
    the driver sent.
   */
  lemma {:induction false} CursorTracked(s: Settings, d: Screen, t: Tty, activities: seq<Activity>)
    requires s.o.opost && Tracks(s.o.onlret, d, t)
    ensures Tracks(s.o.onlret, d, DoAll(s, t, activities))
    decreases |activities|
  {
    if activities != [] {
      match activities[0] {
        case Written(data) => WriteTracks(s.o, d, t, data);
        case Typed(c) => TypeTracks(s, d, t, c);
        case ReadBegins =>
      }
      CursorTracked(s, d, Do(s, t, activities[0]), activities[1..]);
    }
  }
}
