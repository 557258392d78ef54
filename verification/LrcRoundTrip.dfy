/** Printing cues as LRC and parsing them back. */
module LrcRoundTrip {
  import opened Text
  import opened StableSort
  import opened Lrc

  /** 100 minutes: from here on a start has three minute digits, which the stamp pattern does not take. */
  const HUNDRED_MINUTES_MS: nat := 6_000_000

  ghost predicate StampFree(s: string) {
    forall i :: 0 <= i <= |s| ==> StampAt(s[i..]).None?
  }

  /** Texts that the format can carry: one trimmed, non-blank line without stamps. */
  ghost predicate Printable(text: string) {
    Trimmed(text) && '\n' !in text && StampFree(text)
  }

  ghost predicate AllPrintable(cues: seq<Cue>) {
    forall i :: 0 <= i < |cues| ==> Printable(cues[i].text)
  }

  predicate Readable(c: Cue) {
    c.startMs < HUNDRED_MINUTES_MS
  }

  /** What is left of a cue: its start, rounded down to 10 ms, and its text. */
  function AsLine(c: Cue): ParsedLine {
    ParsedLine(c.startMs / 10 * 10, c.text)
  }

  function ReadableLines(cues: seq<Cue>): seq<ParsedLine> {
    if cues == [] then []
    else (if Readable(cues[0]) then [AsLine(cues[0])] else []) + ReadableLines(cues[1..])
  }

  // ----- One line -----

  lemma {:induction false} NoStamps(s: string)
    requires StampFree(s)
    ensures Stamps(s) == [] && StripStamps(s) == s
    decreases |s|
  {
    hide StampAt;
    if s != [] {
      assert s[0..] == s;
      forall i | 0 <= i <= |s[1..]| ensures StampAt(s[1..][i..]).None? {
        assert s[1..][i..] == s[i + 1..];
      }
      NoStamps(s[1..]);
    }
  }

  /** The printed stamp, with digit strings for its three numbers. */
  ghost function StampText(mm: string, ss: string, cs: string): string {
    "[" + mm + ":" + ss + "." + cs + "]"
  }

  lemma ShortStamp(mm: string, ss: string, cs: string, text: string)
    requires AllDigits(mm) && AllDigits(ss) && AllDigits(cs) && |mm| == 2 && |ss| == 2 && |cs| == 2
    ensures StampAt(StampText(mm, ss, cs) + text) == Some(Stamp(mm, ss, cs, 10))
    ensures (StampText(mm, ss, cs) + text)[10..] == text
  {
    var s := StampText(mm, ss, cs) + text;
    assert s[0] == '[' && s[1] == mm[0] && s[2] == mm[1] && s[3] == ':' && s[4] == ss[0] && s[5] == ss[1];
    assert s[6] == '.' && s[7] == cs[0] && s[8] == cs[1] && s[9] == ']';
    assert Shape(s, "[dd:dd") && s[1..3] == mm && s[4..6] == ss;
    var rest := s[6..];
    assert rest[0] == '.' && rest[1] == cs[0] && rest[2] == cs[1] && rest[3] == ']';
    assert !Shape(rest, "]") by { assert "]"[0] == ']'; }
    assert !Shape(rest, ".d]") by { assert ".d]"[2] == ']'; }
    assert !Shape(rest, ":d]") by { assert ":d]"[0] == ':'; }
    assert Shape(rest, ".dd]") && rest[1..3] == cs;
  }

  lemma LongStamp(s: string, mm: string)
    requires AllDigits(mm) && |mm| >= 3 && |s| >= 4 && s[0] == '[' && s[1] == mm[0] && s[2] == mm[1] && s[3] == mm[2]
    ensures StampAt(s) == None
  {
    assert "[dd:dd"[3] == ':' && "[d:dd"[2] == ':';
  }

  lemma NoBracketNoStamp(s: string)
    requires s == [] || s[0] != '['
    ensures StampAt(s) == None
  {}

  lemma {:induction false} AfterBracketFree(s: string, text: string)
    requires '[' !in s && StampFree(text)
    ensures Stamps(s + text) == []
    decreases |s|
  {
    hide StampAt;
    if s == [] {
      assert s + text == text;
      NoStamps(text);
    } else {
      assert (s + text)[0] == s[0] && (s + text)[1..] == s[1..] + text;
      NoBracketNoStamp(s + text);
      AfterBracketFree(s[1..], text);
    }
  }

  lemma TextTrimmed(text: string)
    requires Printable(text)
    ensures Trim(text) == text && text != ""
  {
    TrimIdentity(text);
  }

  lemma ReadLine(mm: string, ss: string, cs: string, text: string)
    requires AllDigits(mm) && AllDigits(ss) && AllDigits(cs) && |mm| == 2 && |ss| == 2 && |cs| == 2
    requires Printable(text)
    ensures LineEntries(StampText(mm, ss, cs) + text)
         == [ParsedLine((Value(mm) * 60 + Value(ss)) * 1000 + Value(cs) * 10, text)]
  {
    hide StampAt, Value, Trim, StampText, Stamps, StripStamps, AllDigits;
    var line, st := StampText(mm, ss, cs) + text, Stamp(mm, ss, cs, 10);
    ShortStamp(mm, ss, cs, text);
    FirstStamp(line, st);
    NoStamps(text);
    TextTrimmed(text);
    assert Stamps(line) == [ParseTimestampMs(st)];
  }

  lemma FirstStamp(s: string, st: Stamp)
    requires StampAt(s) == Some(st)
    ensures Stamps(s) == [ParseTimestampMs(st)] + Stamps(s[st.length..])
    ensures StripStamps(s) == StripStamps(s[st.length..])
  {
    hide StampAt, ParseTimestampMs;
  }

  lemma SkipLine(mm: string, ss: string, cs: string, text: string)
    requires AllDigits(mm) && AllDigits(ss) && AllDigits(cs) && |mm| >= 3 && |ss| == 2 && |cs| == 2
    requires Printable(text)
    ensures LineEntries(StampText(mm, ss, cs) + text) == []
  {
    hide StampAt;
    var line, rest := StampText(mm, ss, cs) + text, mm + ":" + ss + "." + cs + "]";
    assert line[0] == '[' && line[1] == mm[0] && line[2] == mm[1] && line[3] == mm[2];
    LongStamp(line, mm);
    assert line[1..] == rest + text;
    BracketFree(mm, ss, cs);
    AfterBracketFree(rest, text);
  }

  lemma BracketFree(mm: string, ss: string, cs: string)
    requires AllDigits(mm) && AllDigits(ss) && AllDigits(cs)
    ensures '[' !in mm + ":" + ss + "." + cs + "]"
  {
    OnlyDigits(mm, '[');
    OnlyDigits(ss, '[');
    OnlyDigits(cs, '[');
  }

  lemma Centiseconds(start: nat)
    ensures var cs := start / 10; (cs / 6000 * 60 + cs / 100 % 60) * 1000 + cs % 100 * 10 == start / 10 * 10
    ensures start / 10 / 6000 < 100 <==> start < HUNDRED_MINUTES_MS
  {
    var cs := start / 10;
    var q := cs / 100;
    assert cs / 6000 == q / 60;
  }

  /** A printed line gives its cue back, or nothing when the cue starts at 100 minutes or later. */
  lemma PrintedLine(c: Cue)
    requires Printable(c.text)
    ensures LineEntries(LrcLine(c)) == if Readable(c) then [AsLine(c)] else []
  {
    hide LineEntries, Pad, Printable;
    Centiseconds(c.startMs);
    PaddedLine(c.startMs / 10 / 6000, c.startMs / 10 / 100 % 60, c.startMs / 10 % 100, c.text);
  }

  lemma PaddedLine(m: nat, s: nat, cs: nat, text: string)
    requires s < 60 && cs < 100 && Printable(text)
    ensures LineEntries("[" + Pad(2, m) + ":" + Pad(2, s) + "." + Pad(2, cs) + "]" + text)
         == if m < 100 then [ParsedLine((m * 60 + s) * 1000 + cs * 10, text)] else []
  {
    hide LineEntries, Pad, Printable;
    PadWidth(m);
    PadWidth(s);
    PadWidth(cs);
    PadValue(2, m);
    PadValue(2, s);
    PadValue(2, cs);
    if m < 100 {
      ReadLine(Pad(2, m), Pad(2, s), Pad(2, cs), text);
    } else {
      SkipLine(Pad(2, m), Pad(2, s), Pad(2, cs), text);
    }
  }

  // ----- The file -----

  ghost function Lines(cues: seq<Cue>): seq<string> {
    if cues == [] then [""] else [LrcLine(cues[0])] + Lines(cues[1..])
  }

  lemma LineOk(c: Cue)
    requires Trimmed(c.text) && '\n' !in c.text
    ensures '\n' !in LrcLine(c) && LrcLine(c)[|LrcLine(c)| - 1] != '\r'
  {
    var cs := c.startMs / 10;
    OnlyDigits(Pad(2, cs / 6000), '\n');
    OnlyDigits(Pad(2, (cs / 100) % 60), '\n');
    OnlyDigits(Pad(2, cs % 100), '\n');
    LastOfLine(LineStamp(c.startMs), c.text);
  }

  lemma LastOfLine(a: string, text: string)
    requires Trimmed(text)
    ensures (a + text)[|a + text| - 1] != '\r'
  {}

  lemma {:induction false} FileLines(cues: seq<Cue>)
    requires AllPrintable(cues)
    ensures SplitLines(Printed(cues)) == Lines(cues)
  {
    hide SplitLines, LrcLine, StampFree;
    if cues == [] {
      SplitLine("", "");
    } else {
      LineOk(cues[0]);
      SplitLine(LrcLine(cues[0]), Printed(cues[1..]));
      FileLines(cues[1..]);
    }
  }

  lemma {:induction false} FileEntries(cues: seq<Cue>)
    requires AllPrintable(cues)
    ensures AllEntries(Lines(cues)) == ReadableLines(cues)
  {
    hide LineEntries, LrcLine, Printable, AsLine, Readable;
    if cues == [] {
      assert LineEntries("") == [] by { NoLine(); }
      assert Lines(cues)[1..] == [];
    } else {
      PrintedLine(cues[0]);
      FileEntries(cues[1..]);
      assert Lines(cues)[1..] == Lines(cues[1..]);
    }
  }

  lemma NoLine()
    ensures LineEntries("") == []
  {}

  lemma {:induction false} ReadableHaveText(cues: seq<Cue>, l: ParsedLine)
    requires AllPrintable(cues) && l in ReadableLines(cues)
    ensures l.text != ""
  {
    if !(Readable(cues[0]) && l == AsLine(cues[0])) {
      ReadableHaveText(cues[1..], l);
    }
  }

  lemma {:induction false} AllWithText(lines: seq<ParsedLine>)
    requires forall l :: l in lines ==> l.text != ""
    ensures WithText(lines) == lines
  {
    if lines != [] {
      AllWithText(lines[1..]);
    }
  }

  /** Printing cues and parsing the file gives back, sorted by start with ties in file order, exactly the cues that
      start before 100 minutes. */
  lemma PrintThenParse(cues: seq<Cue>)
    requires AllPrintable(cues)
    ensures ParsedLrc(Printed(cues)) == SortBy(ReadableLines(cues), StartKey())
  {
    var lines := ReadableLines(cues);
    FileLines(cues);
    FileEntries(cues);
    SortCorrect(lines, StartKey());
    forall l | l in SortBy(lines, StartKey()) ensures l.text != "" {
      assert l in multiset(SortBy(lines, StartKey()));
      ReadableHaveText(cues, l);
    }
    AllWithText(SortBy(lines, StartKey()));
  }

  // ----- Cues in order -----

  function CueStart(): (key: Cue -> real)
    ensures forall c :: key(c) == c.startMs as real
  {
    (c: Cue) => c.startMs as real
  }

  ghost function AsLines(cues: seq<Cue>): seq<ParsedLine> {
    seq(|cues|, i requires 0 <= i < |cues| => AsLine(cues[i]))
  }

  lemma {:induction false} ReadableAll(cues: seq<Cue>)
    ensures |ReadableLines(cues)| <= |cues|
    ensures |ReadableLines(cues)| == |cues| <==> forall i :: 0 <= i < |cues| ==> Readable(cues[i])
    ensures |ReadableLines(cues)| == |cues| ==> ReadableLines(cues) == AsLines(cues)
  {
    hide Readable, AsLine;
    if cues != [] {
      var rest := cues[1..];
      ReadableAll(rest);
      assert cues == [cues[0]] + rest;
      if |ReadableLines(cues)| == |cues| {
        assert Readable(cues[0]) && |ReadableLines(rest)| == |rest|;
        assert AsLines(cues) == [AsLine(cues[0])] + AsLines(rest);
      }
    }
  }

  lemma {:induction false} ReadableAreLines(cues: seq<Cue>, l: ParsedLine) returns (i: nat)
    requires l in ReadableLines(cues)
    ensures i < |cues| && l == AsLine(cues[i])
  {
    hide Readable, AsLine;
    if l == AsLine(cues[0]) {
      i := 0;
    } else {
      i := ReadableAreLines(cues[1..], l);
      i := i + 1;
    }
  }

  lemma LineOrder(a: Cue, b: Cue)
    requires a.startMs <= b.startMs
    ensures AsLine(a).startMs <= AsLine(b).startMs
  {}

  lemma {:induction false} ReadableInOrder(cues: seq<Cue>)
    requires Sorted(cues, CueStart())
    ensures Sorted(ReadableLines(cues), StartKey())
  {
    hide Readable, AsLine, StartKey, CueStart;
    if cues != [] {
      SortedTail(cues, CueStart());
      ReadableInOrder(cues[1..]);
      var rest := ReadableLines(cues[1..]);
      forall l | l in rest ensures StartKey()(AsLine(cues[0])) <= StartKey()(l) {
        var i := ReadableAreLines(cues[1..], l);
        assert CueStart()(cues[0]) <= CueStart()(cues[i + 1]);
        LineOrder(cues[0], cues[i + 1]);
      }
      SortedCons(AsLine(cues[0]), rest, StartKey());
    }
  }

  /** For cues in order of start, the round trip gives every start and text back, in order, exactly when all starts
      are below 100 minutes. */
  lemma RoundTripIff(cues: seq<Cue>)
    requires AllPrintable(cues) && Sorted(cues, CueStart())
    ensures ParsedLrc(Printed(cues)) == AsLines(cues) <==> forall i :: 0 <= i < |cues| ==> Readable(cues[i])
  {
    PrintThenParse(cues);
    ReadableInOrder(cues);
    SortIdentity(ReadableLines(cues), StartKey());
    ReadableAll(cues);
    assert |AsLines(cues)| == |cues|;
  }

  /** Printing what was parsed gives the identical file. */
  lemma ReprintIdentical(cues: seq<Cue>, again: seq<Cue>)
    requires AllPrintable(cues) && Sorted(cues, CueStart()) && forall i :: 0 <= i < |cues| ==> Readable(cues[i])
    requires |again| == |ParsedLrc(Printed(cues))|
    requires forall i :: 0 <= i < |again| ==>
               ParsedLine(again[i].startMs, again[i].text) == ParsedLrc(Printed(cues))[i]
    ensures Printed(again) == Printed(cues)
  {
    RoundTripIff(cues);
    SameLines(cues, again);
  }

  lemma {:induction false} SameLines(cues: seq<Cue>, again: seq<Cue>)
    requires |again| == |cues|
    requires forall i :: 0 <= i < |cues| ==> ParsedLine(again[i].startMs, again[i].text) == AsLine(cues[i])
    ensures Printed(again) == Printed(cues)
  {
    if cues != [] {
      assert LrcLine(again[0]) == LrcLine(cues[0]) by {
        assert again[0].startMs / 10 == cues[0].startMs / 10;
      }
      SameLines(cues[1..], again[1..]);
    }
  }
}
