/** packhex as a whole: it finds the first data record and with it the format, and splices from there. */
module PackhexMain {
  import opened Basics
  import opened HexText
  import opened HexRecords
  import opened Packhex
  import opened PackhexFiles

  /** Some format takes the line for a data record. */
  predicate Recognised(text: string) {
    exists i :: 0 <= i < |FORMATS| && IsDataRecord(FORMATS[i], text)
  }

  /** The first line that is recognised, or the number of lines. */
  function FirstRecord(file: seq<string>): (k: nat)
    ensures k <= |file|
    ensures forall i :: 0 <= i < k ==> !Recognised(file[i])
    ensures k < |file| ==> Recognised(file[k])
  {
    if file == [] || Recognised(file[0]) then 0 else 1 + FirstRecord(file[1..])
  }

  /** `f` is the first format that takes the line for a data record. */
  predicate Identifies(f: Format, text: string) {
    exists i :: 0 <= i < |FORMATS| && f == FORMATS[i] && IsDataRecord(f, text)
                && forall j :: 0 <= j < i ==> !IsDataRecord(FORMATS[j], text)
  }

  /** One line of `identify_first_data_record`. */
  method Identify(text: string) returns (f: Option<Format>)
    ensures f.None? <==> !Recognised(text)
    ensures f.Some? ==> Identifies(f.value, text) && Proper(f.value) && f.value in FORMATS
  {
    for i := 0 to |FORMATS|
      invariant forall j :: 0 <= j < i ==> !IsDataRecord(FORMATS[j], text)
    {
      if IsDataRecord(FORMATS[i], text) {
        return Some(FORMATS[i]);
      }
    }
    f := None;
  }

  lemma Regroup(a: seq<Item>, b: seq<Item>, c: seq<Item>)
    ensures a + (b + c) == (a + b) + c
  {
  }

  lemma {:induction false} MeaningConcat(f: Format, lines: seq<string>, rest: seq<string>)
    ensures Meaning(f, lines + rest) == Meaning(f, lines) + Meaning(f, rest)
    decreases |rest|
  {
    hide TextItems;
    if rest == [] {
      assert lines + rest == lines;
    } else {
      var n := |rest| - 1;
      assert (lines + rest)[..|lines + rest| - 1] == lines + rest[..n];
      MeaningConcat(f, lines, rest[..n]);
      Regroup(Meaning(f, lines), Meaning(f, rest[..n]), TextItems(f, rest[n]));
    }
  }

  lemma SameTail(a: seq<Item>, b: seq<Item>, c: seq<Item>)
    ensures a + b == a + c <==> b == c
  {
    if a + b == a + c {
      assert b == (a + b)[|a|..] == (a + c)[|a|..] == c;
    }
  }

  lemma HeldFromTail(f: Format, head: seq<string>, tail: seq<string>, j: nat)
    ensures TextHeldFrom(f, tail, j) <==> TextHeldFrom(f, head + tail, |head| + j)
  {
    hide Decode;
    var file := head + tail;
    assert forall i :: 0 <= i < |tail| ==> file[|head| + i] == tail[i];
    if TextHeldFrom(f, tail, j) {
      forall i | |head| + j < i < |file|
        ensures Decode(f, file[i]) == Some(Record(RecordEnd(f, tail[j]), []))
      {
        assert file[i] == tail[i - |head|];
      }
    }
  }

  /** The lines before the first record are no data. */
  lemma EndsAfterFirst(f: Format, file: seq<string>)
    requires f in FORMATS && Proper(f)
    ensures TextEndsInData(f, file) <==> TextEndsInData(f, file[FirstRecord(file)..])
  {
    hide Decode, TextHeldFrom;
    var k := FirstRecord(file);
    var head, tail := file[..k], file[k..];
    assert file == head + tail;
    forall j: nat
      ensures TextHeldFrom(f, tail, j) <==> TextHeldFrom(f, file, k + j)
    {
      HeldFromTail(f, head, tail, j);
    }
    forall j: nat | j < k
      ensures !TextHeldFrom(f, file, j)
    {
      Unrecognised(f, file, j);
    }
    if TextEndsInData(f, file) {
      var j :| 0 <= j < |file| && TextHeldFrom(f, file, j);
      assert TextHeldFrom(f, tail, j - k);
    }
  }

  lemma Unrecognised(f: Format, file: seq<string>, j: nat)
    requires f in FORMATS && Proper(f) && j < |file| && !Recognised(file[j])
    ensures !TextHeldFrom(f, file, j)
  {
    if Decode(f, file[j]).Some? {
      GettersAgree(f, file[j]);
    }
  }

  /** What packhex prints for a whole file. */
  ghost predicate Packs(file: seq<string>, out: seq<string>, format: Option<Format>) {
    var k := FirstRecord(file);
    match format
    case None => k == |file| && out == file
    case Some(f) =>
      && k < |file| && f in FORMATS && Proper(f) && Identifies(f, file[k]) && AllWellFormed(f, file[k..])
      && out == file[..k] + PackFile(f, file[k..])
  }

  /**
    The output of packhex means what its input does, in the format of the first record,
    exactly when the file does not end in data that packhex is left holding, in particular
    whenever the last line is no data record.
   */
  lemma PackPreservesMeaning(file: seq<string>, out: seq<string>, f: Format)
    requires Packs(file, out, Some(f))
    ensures Meaning(f, out) == Meaning(f, file) <==> !TextEndsInData(f, file)
    ensures !IsDataRecord(f, file[|file| - 1]) ==> Meaning(f, out) == Meaning(f, file)
  {
    hide Meaning, PackFile, Identifies, IsDataRecord, WellFormed, TextEndsInData, Recognised;
    var k := FirstRecord(file);
    EndsAfterFirst(f, file);
    var head, tail := file[..k], file[k..];
    assert file == head + tail && tail[|tail| - 1] == file[|file| - 1];
    PackFilePreservesMeaning(f, tail);
    MeaningConcat(f, head, tail);
    MeaningConcat(f, head, PackFile(f, tail));
    SameTail(Meaning(f, head), Meaning(f, PackFile(f, tail)), Meaning(f, tail));
  }

  lemma FirstRecordIs(file: seq<string>, k: nat)
    requires k <= |file| && (forall i :: 0 <= i < k ==> !Recognised(file[i])) && (k < |file| ==> Recognised(file[k]))
    ensures FirstRecord(file) == k
  {
    hide Recognised;
  }

  /** `identify_first_data_record`: what it echoes, and the format it finds. */
  method IdentifyFirst(file: seq<string>) returns (echoed: seq<string>, format: Option<Format>)
    ensures echoed == file[..FirstRecord(file)]
    ensures format.None? <==> FirstRecord(file) == |file|
    ensures format.Some? ==>
              format.value in FORMATS && Proper(format.value) && Identifies(format.value, file[FirstRecord(file)])
  {
    hide Recognised, Identifies;
    echoed, format := [], None;
    var k := 0;
    while k < |file|
      invariant 0 <= k <= |file| && echoed == file[..k] && format.None?
      invariant forall i :: 0 <= i < k ==> !Recognised(file[i])
    {
      format := Identify(file[k]);
      if format.Some? {
        FirstRecordIs(file, k);
        return;
      }
      echoed := echoed + [file[k]];
      k := k + 1;
    }
    FirstRecordIs(file, k);
  }

  /** `main`, on a file that is well-formed in the format of its first record. */
  method Pack(file: seq<string>) returns (out: seq<string>, format: Option<Format>)
    requires var k := FirstRecord(file);
             k < |file| ==> forall f | f in FORMATS && Identifies(f, file[k]) :: AllWellFormed(f, file[k..])
    ensures Packs(file, out, format)
  {
    hide Recognised, Identifies, WellFormed, PackFile;
    out, format := IdentifyFirst(file);
    if format.Some? {
      var spliced := SpliceRecords(format.value, file[|out|..]);
      out := out + spliced;
    }
  }
}
