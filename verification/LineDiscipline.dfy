/**
  The terminal line discipline as functions on values: output processing, echo, the
  canonical line editor and its erasure, each giving the new line, the new column and
  the bytes passed on to the device.
 */
module LineDiscipline {
  import opened Basics

  const CBUFSIZE := 256

  const NUL: Byte := 0
  const BS: Byte := 8
  const TAB: Byte := 9
  const NL: Byte := 10
  const CR: Byte := 13
  const SPACE: Byte := 32
  const CARET: Byte := 94
  const DEL: Byte := 127

  datatype OutputFlags = OutputFlags(
    opost: bool, onlret: bool, onlcr: bool, onocr: bool, ocrnl: bool, xtabs: bool, olcuc: bool)

  datatype InputFlags = InputFlags(istrip: bool, iuclc: bool, igncr: bool, icrnl: bool, inlcr: bool)

  datatype LocalFlags = LocalFlags(icanon: bool, echo: bool, echoe: bool, echok: bool, echonl: bool, echoctl: bool)

  datatype ControlChars = ControlChars(verase: Byte, vkill: Byte, veof: Byte, veol: Byte, veol2: Byte)

  datatype Settings = Settings(o: OutputFlags, i: InputFlags, l: LocalFlags, cc: ControlChars)

  predicate IsControl(c: Byte) {
    c < 32 || c == DEL
  }

  function ToUpper(c: Byte): Byte {
    if 97 <= c <= 122 then c - 32 else c
  }

  function ToLower(c: Byte): Byte {
    if 65 <= c <= 90 then c + 32 else c
  }

  /** `c ^ 0x40` for a control character: the letter that is shown after a caret. */
  function Uncontrol(c: Byte): Byte
    requires IsControl(c)
  {
    if c < 32 then c + 64 else c - 64
  }

  /**
    The terminal: the line being edited, the driver's idea of the cursor column, the
    column at which the line began, and every byte passed to `osend` so far.
   */
  datatype Tty = Tty(line: seq<Byte>, column: nat, start: nat, sent: seq<Byte>)

  function Send(t: Tty, bytes: seq<Byte>): Tty {
    t.(sent := t.sent + bytes)
  }

  function Copies(b: Byte, n: nat): (s: seq<Byte>)
    ensures |s| == n && forall i :: 0 <= i < n ==> s[i] == b
  {
    seq(n, i => b)
  }

  function TabWidth(column: nat): nat {
    8 - column % 8
  }

  function ProcessNewline(o: OutputFlags, t: Tty): Tty {
    var t1 := if o.onlret then t.(column := 0) else t;
    var t2 := if o.onlcr then Send(t1, [CR]).(column := 0) else t1;
    Send(t2, [NL])
  }

  function ProcessReturn(o: OutputFlags, t: Tty): Tty {
    if o.onocr && t.column == 0 then t
    else if o.ocrnl then Send(if o.onlret then t.(column := 0) else t, [NL])
    else Send(t.(column := 0), [CR])
  }

  function ProcessTab(o: OutputFlags, t: Tty): Tty {
    var t' := t.(column := t.column + TabWidth(t.column));
    Send(t', if o.xtabs then Copies(SPACE, TabWidth(t.column)) else [TAB])
  }

  function ProcessOther(o: OutputFlags, t: Tty, c: Byte): Tty {
    var c' := if o.olcuc then ToUpper(c) else c;
    Send(if IsControl(c') then t else t.(column := t.column + 1), [c'])
  }

  /** `oproc` */
  function Process(o: OutputFlags, t: Tty, c: Byte): Tty {
    if !o.opost then Send(t, [c])
    else if c == NL then ProcessNewline(o, t)
    else if c == CR then ProcessReturn(o, t)
    else if c == TAB then ProcessTab(o, t)
    else if c == BS then Send(if t.column > 0 then t.(column := t.column - 1) else t, [BS])
    else ProcessOther(o, t, c)
  }

  function ProcessAll(o: OutputFlags, t: Tty, data: seq<Byte>): Tty
    decreases |data|
  {
    if data == [] then t else ProcessAll(o, Process(o, t, data[0]), data[1..])
  }

  /** `rtems_termios_write` */
  function WriteData(o: OutputFlags, t: Tty, data: seq<Byte>): Tty {
    if o.opost then ProcessAll(o, t, data) else Send(t, data)
  }

  /** `echo` */
  function Echo(s: Settings, t: Tty, c: Byte): Tty {
    if s.l.echoctl && IsControl(c) && c != TAB && c != NL then
      Send(t, [CARET, Uncontrol(c)]).(column := t.column + 2)
    else
      Process(s.o, t, c)
  }

  /** The column after `c` is echoed at `column`, as the erase routine computes it. */
  function Widen(echoctl: bool, column: nat, c: Byte): nat {
    if c == TAB then column + TabWidth(column)
    else if IsControl(c) then (if echoctl then column + 2 else column)
    else column + 1
  }

  /** The column after `line` is laid out from `start`. */
  function Layout(echoctl: bool, start: nat, line: seq<Byte>): nat
    decreases |line|
  {
    if line == [] then start else Widen(echoctl, Layout(echoctl, start, line[..|line| - 1]), line[|line| - 1])
  }

  function BackUp(t: Tty, column: nat): Tty {
    if t.column > column then Send(t, Copies(BS, t.column - column)).(column := column) else t
  }

  /** Backspace, blank and backspace again. */
  function RubOut(t: Tty): Tty {
    Send(if t.column > 0 then t.(column := t.column - 1) else t, [BS, SPACE, BS])
  }

  /** One pass of the loop of `erase`: drops the last character and takes it off the display. */
  function EraseLast(s: Settings, t: Tty, kill: bool): Tty
    requires t.line != []
  {
    var c := t.line[|t.line| - 1];
    var t' := t.(line := t.line[..|t.line| - 1]);
    if !s.l.echo then t'
    else if !kill && !s.l.echoe then Echo(s, t', s.cc.verase)
    else if c == TAB then BackUp(t', Layout(s.l.echoctl, t'.start, t'.line))
    else
      var t1 := if IsControl(c) && s.l.echoctl then RubOut(t') else t';
      if !IsControl(c) || s.l.echoctl then RubOut(t1) else t1
  }

  /** Output processing and echo leave the line alone. */
  lemma EchoKeepsLine(s: Settings, t: Tty, c: Byte)
    ensures Echo(s, t, c).line == t.line && Echo(s, t, c).start == t.start
  {
  }

  lemma EraseLastLine(s: Settings, t: Tty, kill: bool)
    requires t.line != []
    ensures EraseLast(s, t, kill).line == t.line[..|t.line| - 1]
    ensures EraseLast(s, t, kill).start == t.start
  {
    EchoKeepsLine(s, t.(line := t.line[..|t.line| - 1]), s.cc.verase);
  }

  function EraseAll(s: Settings, t: Tty): Tty
    decreases |t.line|
  {
    if t.line == [] then t else EraseLastLine(s, t, true); EraseAll(s, EraseLast(s, t, true))
  }

  /** `erase` */
  function Erase(s: Settings, t: Tty, kill: bool): Tty {
    if t.line == [] then t
    else if !kill then EraseLast(s, t, false)
    else if !s.l.echo then t.(line := [])
    else if !s.l.echoe then
      var t' := Echo(s, t.(line := []), s.cc.vkill);
      if s.l.echok then Echo(s, t', NL) else t'
    else EraseAll(s, t)
  }

  /** The input mapping at the head of `iproc`; nothing is left of an ignored carriage return. */
  function MapInput(i: InputFlags, c: Byte): Option<Byte> {
    var c1 := if i.istrip then c % 128 else c;
    var c2 := if i.iuclc then ToLower(c1) else c1;
    if c2 == CR then (if i.igncr then None else if i.icrnl then Some(NL) else Some(CR))
    else if c2 == NL && i.inlcr then Some(CR)
    else Some(c2)
  }

  datatype Input = Input(tty: Tty, done: bool)

  function Keep(s: Settings, t: Tty, c: Byte, shown: bool): Tty {
    var t' := if shown then Echo(s, t, c) else t;
    t'.(line := t'.line + [c])
  }

  /** `iproc` after the input mapping. */
  function Accept(s: Settings, t: Tty, c: Byte): Input {
    if c != NUL && s.l.icanon && c == s.cc.verase then Input(Erase(s, t, false), false)
    else if c != NUL && s.l.icanon && c == s.cc.vkill then Input(Erase(s, t, true), false)
    else if c != NUL && s.l.icanon && c == s.cc.veof then Input(t, true)
    else if c != NUL && s.l.icanon && c == NL then Input(Keep(s, t, c, s.l.echo || s.l.echonl), true)
    else if c != NUL && s.l.icanon && (c == s.cc.veol || c == s.cc.veol2) then Input(Keep(s, t, c, s.l.echo), true)
    else if |t.line| < CBUFSIZE - 1 then Input(Keep(s, t, c, s.l.echo), false)
    else Input(t, false)
  }

  /** `iproc` */
  function Type(s: Settings, t: Tty, c: Byte): Input {
    var mapped := MapInput(s.i, c);
    if mapped.None? then Input(t, false) else Accept(s, t, mapped.value)
  }
}
