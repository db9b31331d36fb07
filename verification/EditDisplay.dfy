/**
  Erase undoes typing: with echo and visible erasure on, and nobody else writing, the
  display shows exactly the line being edited, character by character and key by key.
 */
module EditDisplay {
  import opened Basics
  import opened LineDiscipline
  import opened Display

  /** The settings the promise is made for: ICANON, ECHO, ECHOE, ECHOCTL and OPOST. */
  predicate Visible(s: Settings) {
    s.l.icanon && s.l.echo && s.l.echoe && s.l.echoctl && s.o.opost
  }

  /** The bytes that echo `c` at `column`. */
  function EchoBytes(s: Settings, column: nat, c: Byte): seq<Byte> {
    Echo(s, Tty([], column, 0, []), c).sent
  }

  /** The bytes that echo `line` from `start`: what typing it directly would have sent. */
  function LineBytes(s: Settings, start: nat, line: seq<Byte>): seq<Byte>
    decreases |line|
  {
    if line == [] then []
    else
      var before := line[..|line| - 1];
      LineBytes(s, start, before) + EchoBytes(s, Layout(true, start, before), line[|line| - 1])
  }

  /** The bytes that take the echo of `c` at `column` off the display again. */
  function EraseBytes(column: nat, c: Byte): seq<Byte> {
    if c == TAB then Copies(BS, TabWidth(column))
    else if IsControl(c) then [BS, SPACE, BS] + [BS, SPACE, BS]
    else [BS, SPACE, BS]
  }

  lemma EchoBytesAre(s: Settings, column: nat, c: Byte)
    requires Visible(s) && c != NL
    ensures EchoBytes(s, column, c) ==
            if c == TAB then (if s.o.xtabs then Copies(SPACE, TabWidth(column)) else [TAB])
            else if IsControl(c) then [CARET, Uncontrol(c)]
            else [if s.o.olcuc then ToUpper(c) else c]
  {
  }

  lemma EchoSends(s: Settings, t: Tty, c: Byte)
    requires Visible(s) && c != NL
    ensures Echo(s, t, c).sent == t.sent + EchoBytes(s, t.column, c)
    ensures Echo(s, t, c).column == Widen(true, t.column, c)
  {
  }

  /** Nothing is shown at or to the right of the cursor. */
  predicate BlankRight(d: Screen) {
    forall at :: at in d.cells && at.0 == d.row ==> at.1 < d.column
  }

  lemma ShowEcho(s: Settings, d: Screen, c: Byte)
    requires Visible(s) && c != NL && BlankRight(d)
    ensures var d' := ShowAll(s.o.onlret, d, EchoBytes(s, d.column, c));
            BlankRight(d') && d'.column == Widen(true, d.column, c)
  {
    hide ShowAll, EchoBytes;
    EchoBytesAre(s, d.column, c);
    if c == TAB {
      if s.o.xtabs {
        ShowSpaces(s.o.onlret, d, TabWidth(d.column));
      } else {
        Show1(s.o.onlret, d, TAB);
      }
    } else if IsControl(c) {
      Show2(s.o.onlret, d, CARET, Uncontrol(c));
    } else {
      Show1(s.o.onlret, d, if s.o.olcuc then ToUpper(c) else c);
    }
  }

  lemma ShowRubOut(onlret: bool, d: Screen, b: Byte)
    requires !IsControl(b) && BlankRight(d)
    ensures ShowAll(onlret, Show(onlret, d, b), [BS, SPACE, BS]) == d
  {
    Show3(onlret, Show(onlret, d, b), BS, SPACE, BS);
  }

  lemma ShowTabErase(s: Settings, d: Screen)
    requires Visible(s) && BlankRight(d)
    ensures ShowAll(s.o.onlret, ShowAll(s.o.onlret, d, EchoBytes(s, d.column, TAB)), EraseBytes(d.column, TAB)) == d
  {
    hide ShowAll, EchoBytes;
    var n := TabWidth(d.column);
    EchoBytesAre(s, d.column, TAB);
    Show1(s.o.onlret, d, TAB);
    ShowSpaces(s.o.onlret, d, n);
    assert (map at | at in d.cells && !(at.0 == d.row && d.column <= at.1 < d.column + n) :: d.cells[at]) == d.cells;
    ShowBackspaces(s.o.onlret, d.(column := d.column + n), n);
  }

  lemma ShowControlErase(s: Settings, d: Screen, c: Byte)
    requires Visible(s) && IsControl(c) && c != TAB && c != NL && BlankRight(d)
    ensures ShowAll(s.o.onlret, ShowAll(s.o.onlret, d, EchoBytes(s, d.column, c)), EraseBytes(d.column, c)) == d
  {
    var onlret := s.o.onlret;
    var d1 := Show(onlret, d, CARET);
    EchoBytesAre(s, d.column, c);
    Show2(onlret, d, CARET, Uncontrol(c));
    ShowRubOut(onlret, d, CARET);
    ShowRubOut(onlret, d1, Uncontrol(c));
    ShowConcat(onlret, Show(onlret, d1, Uncontrol(c)), [BS, SPACE, BS], [BS, SPACE, BS]);
  }

  /** A character that was echoed and erased leaves the display as it was. */
  lemma ShowEchoErase(s: Settings, d: Screen, c: Byte)
    requires Visible(s) && c != NL && BlankRight(d)
    ensures ShowAll(s.o.onlret, ShowAll(s.o.onlret, d, EchoBytes(s, d.column, c)), EraseBytes(d.column, c)) == d
  {
    if c == TAB {
      ShowTabErase(s, d);
    } else if IsControl(c) {
      ShowControlErase(s, d, c);
    } else {
      var b := if s.o.olcuc then ToUpper(c) else c;
      EchoBytesAre(s, d.column, c);
      Show1(s.o.onlret, d, b);
      ShowRubOut(s.o.onlret, d, b);
    }
  }

  lemma {:induction false} ShowLine(s: Settings, d: Screen, line: seq<Byte>)
    requires Visible(s) && NL !in line && BlankRight(d)
    ensures var d' := ShowAll(s.o.onlret, d, LineBytes(s, d.column, line));
            BlankRight(d') && d'.column == Layout(true, d.column, line)
    decreases |line|
  {
    if line != [] {
      var before := line[..|line| - 1];
      var c := line[|line| - 1];
      ShowLine(s, d, before);
      ShowConcat(s.o.onlret, d, LineBytes(s, d.column, before), EchoBytes(s, Layout(true, d.column, before), c));
      ShowEcho(s, ShowAll(s.o.onlret, d, LineBytes(s, d.column, before)), c);
    }
  }

  /**
    The terminal was `d` when the read began and `base` had been sent.  Now the driver's
    column is where the line laid out from the start column ends, and what was sent since
    shows the line as if it had been typed without a mistake.
   */
  predicate Shown(s: Settings, d: Screen, base: seq<Byte>, t: Tty) {
    && d.column == t.start
    && NL !in t.line
    && base <= t.sent
    && t.column == Layout(true, t.start, t.line)
    && ShowAll(s.o.onlret, d, t.sent[|base|..]) == ShowAll(s.o.onlret, d, LineBytes(s, t.start, t.line))
  }

  lemma SentSince(base: seq<Byte>, sent: seq<Byte>, more: seq<Byte>)
    requires base <= sent
    ensures base <= sent + more && (sent + more)[|base|..] == sent[|base|..] + more
  {
  }

  lemma KeepShown(s: Settings, d: Screen, base: seq<Byte>, t: Tty, c: Byte)
    requires Visible(s) && BlankRight(d) && Shown(s, d, base, t) && c != NL
    ensures Shown(s, d, base, Keep(s, t, c, true))
  {
    var t' := Keep(s, t, c, true);
    var bytes := EchoBytes(s, t.column, c);
    EchoSends(s, t, c);
    EchoKeepsLine(s, t, c);
    SentSince(base, t.sent, bytes);
    assert t'.line[..|t'.line| - 1] == t.line;
    ShowConcat(s.o.onlret, d, t.sent[|base|..], bytes);
    ShowConcat(s.o.onlret, d, LineBytes(s, t.start, t.line), bytes);
  }

  lemma EraseLastSends(s: Settings, t: Tty, kill: bool)
    requires Visible(s) && t.line != [] && t.column == Layout(true, t.start, t.line)
    ensures var column := Layout(true, t.start, t.line[..|t.line| - 1]);
            EraseLast(s, t, kill) ==
              Tty(t.line[..|t.line| - 1], column, t.start, t.sent + EraseBytes(column, t.line[|t.line| - 1]))
  {
  }

  lemma EraseLastShown(s: Settings, d: Screen, base: seq<Byte>, t: Tty, kill: bool)
    requires Visible(s) && BlankRight(d) && Shown(s, d, base, t) && t.line != []
    ensures Shown(s, d, base, EraseLast(s, t, kill))
  {
    var before := t.line[..|t.line| - 1];
    var c := t.line[|t.line| - 1];
    var column := Layout(true, t.start, before);
    EraseLastSends(s, t, kill);
    SentSince(base, t.sent, EraseBytes(column, c));
    ShowConcat(s.o.onlret, d, t.sent[|base|..], EraseBytes(column, c));
    ShowConcat(s.o.onlret, d, LineBytes(s, t.start, before), EchoBytes(s, column, c));
    ShowLine(s, d, before);
    ShowEchoErase(s, ShowAll(s.o.onlret, d, LineBytes(s, t.start, before)), c);
  }

  lemma {:induction false} EraseAllShown(s: Settings, d: Screen, base: seq<Byte>, t: Tty)
    requires Visible(s) && BlankRight(d) && Shown(s, d, base, t)
    ensures Shown(s, d, base, EraseAll(s, t)) && EraseAll(s, t).line == []
    decreases |t.line|
  {
    if t.line != [] {
      EraseLastShown(s, d, base, t, true);
      EraseLastLine(s, t, true);
      EraseAllShown(s, d, base, EraseLast(s, t, true));
    }
  }

  lemma EraseShown(s: Settings, d: Screen, base: seq<Byte>, t: Tty, kill: bool)
    requires Visible(s) && BlankRight(d) && Shown(s, d, base, t)
    ensures Shown(s, d, base, Erase(s, t, kill))
  {
    if t.line != [] {
      if kill {
        EraseAllShown(s, d, base, t);
      } else {
        EraseLastShown(s, d, base, t, false);
      }
    }
  }

  lemma TypeShown(s: Settings, d: Screen, base: seq<Byte>, t: Tty, c: Byte)
    requires Visible(s) && BlankRight(d) && Shown(s, d, base, t) && !Type(s, t, c).done
    ensures Shown(s, d, base, Type(s, t, c).tty)
  {
    var mapped := MapInput(s.i, c);
    if mapped.Some? {
      var b := mapped.value;
      if b != NUL && (b == s.cc.verase || b == s.cc.vkill) {
        EraseShown(s, d, base, t, b != s.cc.verase);
      } else {
        assert b != NL;
        KeepShown(s, d, base, t, b);
      }
    }
  }

  /** Types `input`, which must not complete the line. */
  function TypeAll(s: Settings, t: Tty, input: seq<Byte>): Option<Tty>
    decreases |input|
  {
    if input == [] then Some(t)
    else if Type(s, t, input[0]).done then None
    else TypeAll(s, Type(s, t, input[0]).tty, input[1..])
  }

  lemma {:induction false} TypeAllShown(s: Settings, d: Screen, base: seq<Byte>, t: Tty, input: seq<Byte>)
    requires Visible(s) && BlankRight(d) && Shown(s, d, base, t) && TypeAll(s, t, input).Some?
    ensures Shown(s, d, base, TypeAll(s, t, input).value)
    decreases |input|
  {
    if input != [] {
      TypeShown(s, d, base, t, input[0]);
      TypeAllShown(s, d, base, Type(s, t, input[0]).tty, input[1..]);
    }
  }

  /**
    From the start of a read until its line is complete, for every sequence of characters,
    erasures and kills: the column is that of the line laid out from the start column, and
    the display is the one that typing just the line would have given.
   */
  lemma DisplayShowsLine(s: Settings, d: Screen, t: Tty, input: seq<Byte>)
    requires Visible(s) && BlankRight(d) && d.column == t.column == t.start && t.line == []
    requires TypeAll(s, t, input).Some?
    ensures var t' := TypeAll(s, t, input).value;
            && t.sent <= t'.sent
            && t'.column == Layout(true, t.start, t'.line)
            && ShowAll(s.o.onlret, d, t'.sent[|t.sent|..]) == ShowAll(s.o.onlret, d, LineBytes(s, t.start, t'.line))
  {
    assert t.sent[|t.sent|..] == [];
    TypeAllShown(s, d, t.sent, t, input);
  }

  /**
    A read begun with the cursor anywhere on a line with nothing to its right: whatever is
    then typed, short of completing the line, the terminal shows the line being edited from
    that column on, after all that was sent before.
   */
  lemma ReadShowsLine(s: Settings, d: Screen, t: Tty, input: seq<Byte>)
    requires Visible(s) && Tracks(s.o.onlret, d, t) && BlankRight(ShowAll(s.o.onlret, d, t.sent))
    requires TypeAll(s, Do(s, t, ReadBegins), input).Some?
    ensures var now, t' := ShowAll(s.o.onlret, d, t.sent), TypeAll(s, Do(s, t, ReadBegins), input).value;
            && t'.column == Layout(true, now.column, t'.line)
            && ShowAll(s.o.onlret, d, t'.sent) == ShowAll(s.o.onlret, now, LineBytes(s, now.column, t'.line))
  {
    hide ShowAll, TypeAll, LineBytes, Layout;
    var now, t0 := ShowAll(s.o.onlret, d, t.sent), Do(s, t, ReadBegins);
    DisplayShowsLine(s, now, t0, input);
    var t' := TypeAll(s, t0, input).value;
    assert t'.sent == t.sent + t'.sent[|t.sent|..];
    ShowConcat(s.o.onlret, d, t.sent, t'.sent[|t.sent|..]);
  }

  /** Typing a character and erasing it restores the line, the column and the display. */
  lemma EraseUndoesTyping(s: Settings, d: Screen, base: seq<Byte>, t: Tty, c: Byte)
    requires Visible(s) && BlankRight(d) && Shown(s, d, base, t) && c != NL
    ensures var t' := Erase(s, Keep(s, t, c, true), false);
            && t'.line == t.line && t'.column == t.column
            && base <= t'.sent
            && ShowAll(s.o.onlret, d, t'.sent[|base|..]) == ShowAll(s.o.onlret, d, t.sent[|base|..])
  {
    var typed := Keep(s, t, c, true);
    KeepShown(s, d, base, t, c);
    EchoKeepsLine(s, t, c);
    EraseLastLine(s, typed, false);
    assert typed.line[..|typed.line| - 1] == t.line;
    EraseLastShown(s, d, base, typed, false);
  }

  /** Killing the line restores the start column and the display of the start of the read. */
  lemma KillRestoresStart(s: Settings, d: Screen, base: seq<Byte>, t: Tty)
    requires Visible(s) && BlankRight(d) && Shown(s, d, base, t)
    ensures var t' := Erase(s, t, true);
            t'.line == [] && t'.column == t.start && base <= t'.sent && ShowAll(s.o.onlret, d, t'.sent[|base|..]) == d
  {
    EraseAllShown(s, d, base, t);
  }
}
