/**
  The terminal driver as it works: a fixed canonical buffer with a count and a read
  index, updated in place.  Every routine is proved against LineDiscipline.
 */
module TerminalDriver {
  import opened Basics
  import opened LineDiscipline
  import opened CanonicalInput

  class Driver {
    const settings: Settings
    const cbuf: array<Byte>
    var ccount: nat
    var cindex: nat
    var column: nat
    var readStartColumn: nat
    ghost var sent: seq<Byte>

    constructor (s: Settings)
      ensures Valid() && fresh(cbuf) && settings == s && cindex == 0
      ensures View() == Tty([], 0, 0, [])
    {
      settings := s;
      cbuf := new Byte[CBUFSIZE](i => 0);
      ccount, cindex, column, readStartColumn, sent := 0, 0, 0, 0, [];
    }

    predicate Valid()
      reads this
    {
      cbuf.Length == CBUFSIZE && cindex <= ccount <= CBUFSIZE
    }

    ghost function View(): Tty
      requires Valid()
      reads this, cbuf
    {
      Tty(cbuf[..ccount], column, readStartColumn, sent)
    }

    /** `osend`: the bytes go to the device in order (see OutputRing). */
    method Osend(bytes: seq<Byte>)
      requires Valid()
      modifies this`sent
      ensures View() == Send(old(View()), bytes)
    {
      sent := sent + bytes;
    }

    method Oproc(ch: Byte)
      requires Valid()
      modifies this`column, this`sent
      ensures View() == Process(settings.o, old(View()), ch)
    {
      var c := ch;
      if settings.o.opost {
        if c == NL {
          if settings.o.onlret {
            column := 0;
          }
          if settings.o.onlcr {
            Osend([CR]);
            column := 0;
          }
        } else if c == CR {
          if settings.o.onocr && column == 0 {
            return;
          }
          if settings.o.ocrnl {
            c := NL;
            if settings.o.onlret {
              column := 0;
            }
          } else {
            column := 0;
          }
        } else if c == TAB {
          var i := 8 - column % 8;
          if settings.o.xtabs {
            column := column + i;
            Osend(Copies(SPACE, i));
            return;
          }
          column := column + i;
        } else if c == BS {
          if column > 0 {
            column := column - 1;
          }
        } else {
          if settings.o.olcuc {
            c := ToUpper(c);
          }
          if !IsControl(c) {
            column := column + 1;
          }
        }
      }
      Osend([c]);
    }

    method Write(buffer: seq<Byte>) returns (moved: nat)
      requires Valid()
      modifies this`column, this`sent
      ensures View() == WriteData(settings.o, old(View()), buffer)
      ensures moved == |buffer|
    {
      if settings.o.opost {
        var i := 0;
        while i < |buffer|
          invariant 0 <= i <= |buffer|
          invariant ProcessAll(settings.o, View(), buffer[i..]) == ProcessAll(settings.o, old(View()), buffer)
        {
          assert buffer[i..][1..] == buffer[i + 1..];
          Oproc(buffer[i]);
          i := i + 1;
        }
      } else {
        Osend(buffer);
      }
      moved := |buffer|;
    }

    method EchoChar(c: Byte)
      requires Valid()
      modifies this`column, this`sent
      ensures View() == Echo(settings, old(View()), c)
    {
      if settings.l.echoctl && IsControl(c) && c != TAB && c != NL {
        Osend([CARET, Uncontrol(c)]);
        column := column + 2;
      } else {
        Oproc(c);
      }
    }

    /** The column before the tab at the end of the line: the line without it, laid out again. */
    method FindColumn() returns (col: nat)
      requires Valid()
      ensures col == Layout(settings.l.echoctl, readStartColumn, cbuf[..ccount])
    {
      col := readStartColumn;
      var i := 0;
      while i != ccount
        invariant 0 <= i <= ccount
        invariant col == Layout(settings.l.echoctl, readStartColumn, cbuf[..i])
      {
        var c := cbuf[i];
        i := i + 1;
        assert cbuf[..i][..i - 1] == cbuf[..i - 1];
        if c == TAB {
          col := col + 8 - col % 8;
        } else if IsControl(c) {
          if settings.l.echoctl {
            col := col + 2;
          }
        } else {
          col := col + 1;
        }
      }
    }

    method BackUpTo(col: nat)
      requires Valid()
      modifies this`column, this`sent
      ensures View() == BackUp(old(View()), col)
    {
      while column > col
        invariant column <= old(column) && (column < col ==> column == old(column))
        invariant sent == old(sent) + Copies(BS, old(column) - column)
      {
        Osend([BS]);
        column := column - 1;
      }
    }

    method RubOutCell()
      requires Valid()
      modifies this`column, this`sent
      ensures View() == RubOut(old(View()))
    {
      Osend([BS, SPACE, BS]);
      if column > 0 {
        column := column - 1;
      }
    }

    /** The body of the loop of `erase`. */
    method EraseLastChar(kill: bool)
      requires Valid() && cindex == 0 && ccount > 0
      modifies this`ccount, this`column, this`sent
      ensures Valid() && ccount == old(ccount) - 1
      ensures View() == EraseLast(settings, old(View()), kill)
    {
      ccount := ccount - 1;
      var c := cbuf[ccount];
      assert cbuf[..ccount + 1][..ccount] == cbuf[..ccount];
      if settings.l.echo {
        if !kill && !settings.l.echoe {
          EchoChar(settings.cc.verase);
        } else if c == TAB {
          var col := FindColumn();
          BackUpTo(col);
        } else {
          if IsControl(c) && settings.l.echoctl {
            RubOutCell();
          }
          if !IsControl(c) || settings.l.echoctl {
            RubOutCell();
          }
        }
      }
    }

    method EraseChars(kill: bool)
      requires Valid() && cindex == 0
      modifies this`ccount, this`column, this`sent
      ensures Valid() && View() == Erase(settings, old(View()), kill) && ccount <= old(ccount)
    {
      if ccount == 0 {
        return;
      }
      if kill {
        if !settings.l.echo {
          ccount := 0;
          return;
        }
        if !settings.l.echoe {
          ccount := 0;
          EchoChar(settings.cc.vkill);
          if settings.l.echok {
            EchoChar(NL);
          }
          return;
        }
      }
      if !kill {
        EraseLastChar(false);
        return;
      }
      while ccount > 0
        invariant Valid() && ccount <= old(ccount)
        invariant EraseAll(settings, View()) == EraseAll(settings, old(View()))
        decreases ccount
      {
        EraseLastChar(true);
      }
    }

    method Append(c: Byte)
      requires Valid() && ccount < CBUFSIZE
      modifies this`ccount, cbuf
      ensures Valid() && ccount == old(ccount) + 1 && View() == old(View()).(line := old(View()).line + [c])
    {
      cbuf[ccount] := c;
      ccount := ccount + 1;
    }

    /** The input mapping of `iproc`; nothing is left of a character to be ignored. */
    method MapCharacter(ch: Byte) returns (mapped: Option<Byte>)
      ensures mapped == MapInput(settings.i, ch)
    {
      var c := ch;
      if settings.i.istrip {
        c := c % 128;
      }
      if settings.i.iuclc {
        c := ToLower(c);
      }
      if c == CR {
        if settings.i.igncr {
          return None;
        }
        if settings.i.icrnl {
          c := NL;
        }
      } else if c == NL && settings.i.inlcr {
        c := CR;
      }
      mapped := Some(c);
    }

    /** Echoes a character if asked to and puts it into the line. */
    method KeepCharacter(c: Byte, shown: bool)
      requires Valid() && ccount < CBUFSIZE
      modifies this`ccount, this`column, this`sent, cbuf
      ensures Valid() && ccount == old(ccount) + 1 && View() == Keep(settings, old(View()), c, shown)
    {
      hide Echo;
      if shown {
        EchoChar(c);
        EchoKeepsLine(settings, old(View()), c);
      }
      Append(c);
    }

    /** `iproc` after the input mapping. */
    method AcceptCharacter(c: Byte) returns (done: bool)
      requires Valid() && cindex == 0 && ccount < CBUFSIZE
      modifies this`ccount, this`column, this`sent, cbuf
      ensures Valid() && Input(View(), done) == Accept(settings, old(View()), c)
      ensures !done ==> ccount < CBUFSIZE
    {
      hide Keep, Erase;
      if c != NUL && settings.l.icanon {
        if c == settings.cc.verase {
          EraseChars(false);
          return false;
        } else if c == settings.cc.vkill {
          EraseChars(true);
          return false;
        } else if c == settings.cc.veof {
          return true;
        } else if c == NL {
          KeepCharacter(c, settings.l.echo || settings.l.echonl);
          return true;
        } else if c == settings.cc.veol || c == settings.cc.veol2 {
          KeepCharacter(c, settings.l.echo);
          return true;
        }
      }
      if ccount < CBUFSIZE - 1 {
        KeepCharacter(c, settings.l.echo);
      }
      return false;
    }

    /** `iproc` */
    method Iproc(ch: Byte) returns (done: bool)
      requires Valid() && cindex == 0 && ccount < CBUFSIZE
      modifies this`ccount, this`column, this`sent, cbuf
      ensures Valid() && Input(View(), done) == Type(settings, old(View()), ch)
      ensures !done ==> ccount < CBUFSIZE
    {
      hide Accept, MapInput;
      var mapped := MapCharacter(ch);
      if mapped.None? {
        return false;
      }
      done := AcceptCharacter(mapped.value);
    }

    /** The canonical loop of `fillBufferQueue` over the characters queued so far. */
    method FillBuffer(input: seq<Byte>) returns (complete: bool, used: nat)
      requires Valid() && cindex == 0 && ccount < CBUFSIZE
      modifies this`ccount, this`column, this`sent, cbuf
      ensures Valid() && used <= |input|
      ensures Filled(View(), complete, input[used..]) == Fill(settings, old(View()), input)
      ensures !complete ==> ccount < CBUFSIZE && used == |input|
    {
      used := 0;
      complete := false;
      while used < |input|
        invariant Valid() && cindex == 0 && ccount < CBUFSIZE && used <= |input| && !complete
        invariant Fill(settings, View(), input[used..]) == Fill(settings, old(View()), input)
      {
        assert input[used..][1..] == input[used + 1..];
        var done := Iproc(input[used]);
        used := used + 1;
        if done {
          complete := true;
          return;
        }
      }
    }

    /** The start of `rtems_termios_read`: an exhausted buffer is emptied for a new line. */
    method BeginRead() returns (fill: bool)
      requires Valid()
      modifies this`ccount, this`cindex, this`readStartColumn
      ensures Valid() && fill == (old(cindex) == old(ccount))
      ensures fill ==> cindex == 0 && View() == Tty([], column, column, sent)
      ensures !fill ==> cindex == old(cindex) && View() == old(View())
    {
      fill := cindex == ccount;
      if fill {
        cindex, ccount := 0, 0;
        readStartColumn := column;
      }
    }

    /** The end of `rtems_termios_read`: copies out what fits and is there. */
    method CopyOut(count: nat) returns (data: seq<Byte>)
      requires Valid()
      modifies this`cindex
      ensures Valid() && View() == old(View())
      ensures data == Taken(old(View()).line[old(cindex)..], count)
      ensures cindex == old(cindex) + |data|
    {
      data := [];
      var n := count;
      while n > 0 && cindex < ccount
        invariant Valid() && old(cindex) <= cindex && |data| == cindex - old(cindex) && n == count - |data|
        invariant data == cbuf[old(cindex)..cindex]
      {
        data := data + [cbuf[cindex]];
        cindex := cindex + 1;
        n := n - 1;
      }
      assert cbuf[old(cindex)..cindex] == cbuf[..ccount][old(cindex)..][..cindex - old(cindex)];
    }

    /**
      `rtems_termios_read` in canonical mode with `input` queued: either it returns `data`,
      or it has processed all of `input` and waits for more.
     */
    method Read(input: seq<Byte>, count: nat) returns (returned: bool, data: seq<Byte>, used: nat)
      requires Valid() && settings.l.icanon
      modifies this`ccount, this`cindex, this`column, this`readStartColumn, this`sent, cbuf
      ensures Valid() && used <= |input|
      ensures var before := Reader(old(View()).line, old(cindex), input);
              var after := Reader(View().line, cindex, input[used..]);
              if returned then ReadOnce(settings, before, count) == Some(ReadResult(data, after))
              else ReadOnce(settings, before, count).None? && used == |input|
    {
      used := 0;
      data := [];
      var fill := BeginRead();
      if fill {
        ghost var t := View();
        var complete;
        complete, used := FillBuffer(input);
        FillFollowsFold(settings, t, input);
        if !complete {
          returned := false;
          return;
        }
      }
      data := CopyOut(count);
      returned := true;
    }
  }
}
