/** Printing cues as WebVTT and parsing them back. */
module VttRoundTrip {
  import opened Basics
  import opened Text
  import opened Vtt

  /** 100 hours: from here on an end time has three hour digits, which the timing pattern does not take. */
  const HUNDRED_HOURS_MS: nat := 360_000_000

  /** No `<`, then something other than `>`, then a `>` later on. */
  ghost predicate TagFree(s: string) {
    forall i, j :: 0 <= i && i + 1 < j < |s| && s[i] == '<' && s[i + 1] != '>' ==> s[j] != '>'
  }

  /** Texts that the format can carry: one trimmed, non-blank line without tags. */
  ghost predicate Printable(text: string) {
    Trimmed(text) && '\n' !in text && TagFree(text)
  }

  ghost predicate AllPrintable(cues: seq<Cue>) {
    forall i :: 0 <= i < |cues| ==> Printable(cues[i].text)
  }

  // ----- Time stamps -----

  ghost predicate StampChars(s: string) {
    forall i :: 0 <= i < |s| ==> IsDigit(s[i]) || s[i] == ':' || s[i] == '.'
  }

  ghost function StampText(hh: string, mm: string, ss: string, ff: string): string {
    hh + [':'] + (mm + [':'] + (ss + ['.'] + ff))
  }

  /** The printed stamp, piece by piece. */
  lemma StampPieces(ms: nat)
    ensures FmtTsVtt(ms)
         == StampText(Pad(2, ms / 3_600_000), Pad(2, (ms / 60_000) % 60), Pad(2, (ms / 1000) % 60), Pad(3, ms % 1000))
  {
    ReplaceStamp(Pad(2, ms / 3_600_000), Pad(2, (ms / 60_000) % 60), Pad(2, (ms / 1000) % 60), Pad(3, ms % 1000));
  }

  lemma ReplaceStamp(hh: string, mm: string, ss: string, ff: string)
    requires AllDigits(hh) && AllDigits(mm) && AllDigits(ss) && AllDigits(ff)
    ensures ReplaceChar(hh + ":" + mm + ":" + ss + "," + ff, ',', '.') == StampText(hh, mm, ss, ff)
  {
    hide ReplaceChar, AllDigits;
    var p1 := hh + ":";
    var p2 := p1 + mm;
    var p3 := p2 + ":";
    var p4 := p3 + ss;
    var p5 := p4 + ",";
    ReplaceConcat(hh, ":");
    ReplaceConcat(p1, mm);
    ReplaceConcat(p2, ":");
    ReplaceConcat(p3, ss);
    ReplaceConcat(p4, ",");
    ReplaceConcat(p5, ff);
    ReplaceDigits(hh);
    ReplaceDigits(mm);
    ReplaceDigits(ss);
    ReplaceDigits(ff);
    ReplacePunctuation();
    StampAssoc(hh, mm, ss, ff);
  }

  lemma StampAssoc(hh: string, mm: string, ss: string, ff: string)
    ensures hh + ":" + mm + ":" + ss + "." + ff == StampText(hh, mm, ss, ff)
  {}

  lemma ReplacePunctuation()
    ensures ReplaceChar(":", ',', '.') == ":" && ReplaceChar(",", ',', '.') == "."
  {}

  lemma ReplaceConcat(a: string, b: string)
    ensures ReplaceChar(a + b, ',', '.') == ReplaceChar(a, ',', '.') + ReplaceChar(b, ',', '.')
  {}

  lemma ReplaceDigits(s: string)
    requires AllDigits(s)
    ensures ReplaceChar(s, ',', '.') == s
  {}

  lemma StampTextChars(hh: string, mm: string, ss: string, ff: string)
    requires AllDigits(hh) && AllDigits(mm) && AllDigits(ss) && AllDigits(ff)
    ensures StampChars(StampText(hh, mm, ss, ff))
  {
    StampConcat(ss, ['.']);
    StampConcat(ss + ['.'], ff);
    StampConcat(mm, [':']);
    StampConcat(mm + [':'], ss + ['.'] + ff);
    StampConcat(hh, [':']);
    StampConcat(hh + [':'], mm + [':'] + (ss + ['.'] + ff));
  }

  lemma StampConcat(a: string, b: string)
    requires StampChars(a) && StampChars(b)
    ensures StampChars(a + b)
  {}

  lemma PrintedStampChars(ms: nat)
    ensures StampChars(FmtTsVtt(ms)) && FmtTsVtt(ms) != []
  {
    StampPieces(ms);
    StampTextChars(Pad(2, ms / 3_600_000), Pad(2, (ms / 60_000) % 60), Pad(2, (ms / 1000) % 60), Pad(3, ms % 1000));
  }

  lemma StampTrimmed(s: string)
    requires StampChars(s) && s != []
    ensures Trimmed(s) && Trim(s) == s && FirstWord(s) == s
  {
    TrimIdentity(s);
    StampFirstWord(s);
  }

  lemma {:induction false} StampFirstWord(s: string)
    requires StampChars(s)
    ensures FirstWord(s) == s
  {
    if s != [] {
      StampFirstWord(s[1..]);
    }
  }

  lemma DigitsTrimmed(s: string)
    requires AllDigits(s) && s != []
    ensures Trim(s) == s
  {
    TrimIdentity(s);
  }

  lemma NumberOfDigits(s: string)
    requires AllDigits(s) && s != []
    ensures Number(s) == Some(Value(s) as real)
  {
    hide Trim, Value, AllDigits, IndexOf, DecimalValue;
    DigitsTrimmed(s);
    OnlyDigits(s, '.');
    IndexOfNone(s, '.');
    assert s[..|s|] == s;
    NoFraction(s);
  }

  lemma NoFraction(s: string)
    requires AllDigits(s)
    ensures AllDigits("") && DecimalValue(s, "") == Value(s) as real
  {
    assert Pow10(0) == 1;
  }

  lemma DecimalTrimmed(a: string, b: string)
    requires AllDigits(a) && AllDigits(b) && a != [] && b != []
    ensures Trim(a + ['.'] + b) == a + ['.'] + b
  {
    TrimIdentity(a + ['.'] + b);
  }

  lemma NumberOfDecimal(a: string, b: string)
    requires AllDigits(a) && AllDigits(b) && a != [] && b != []
    ensures Number(a + ['.'] + b) == Some(DecimalValue(a, b))
  {
    hide Trim, AllDigits, IndexOf, DecimalValue;
    var s := a + ['.'] + b;
    DecimalTrimmed(a, b);
    OnlyDigits(a, '.');
    IndexOfFirst(s, '.', |a|) by { assert s[..|a|] == a; }
    assert s[..|a|] == a && s[|a| + 1..] == b;
  }

  lemma ParseStamp(hh: string, mm: string, ss: string, ff: string)
    requires AllDigits(hh) && AllDigits(mm) && AllDigits(ss) && AllDigits(ff)
    requires hh != [] && mm != [] && ss != [] && ff != []
    ensures ParseVttTimestamp(StampText(hh, mm, ss, ff))
         == ToMs(Some(Value(hh) as real), Some(Value(mm) as real), Some(DecimalValue(ss, ff)))
  {
    hide Number, Trim, Value, AllDigits, ToMs, DecimalValue;
    var ts := StampText(hh, mm, ss, ff);
    StampTextChars(hh, mm, ss, ff);
    StampTrimmed(ts);
    var last := ss + ['.'] + ff;
    SplitStamp(hh, mm, ss, ff);
    NumberOfDigits(hh);
    NumberOfDigits(mm);
    NumberOfDecimal(ss, ff);
  }

  lemma SplitStamp(hh: string, mm: string, ss: string, ff: string)
    requires AllDigits(hh) && AllDigits(mm) && AllDigits(ss) && AllDigits(ff)
    ensures SplitOn(StampText(hh, mm, ss, ff), ':') == [hh, mm, ss + ['.'] + ff]
  {
    hide AllDigits, SplitOn;
    var last := ss + ['.'] + ff;
    OnlyDigits(hh, ':');
    OnlyDigits(mm, ':');
    OnlyDigits(ss, ':');
    OnlyDigits(ff, ':');
    SplitOnFirst(hh, ':', mm + [':'] + last);
    SplitOnFirst(mm, ':', last);
    SplitOnFirst(last, ':', []);
  }

  lemma ParsePadded(h: nat, m: nat, s: nat, f: nat)
    requires f < 1000
    ensures ParseVttTimestamp(StampText(Pad(2, h), Pad(2, m), Pad(2, s), Pad(3, f)))
         == Some(h * 3_600_000 + m * 60_000 + s * 1000 + f)
  {
    hide *;
    ParseStamp(Pad(2, h), Pad(2, m), Pad(2, s), Pad(3, f));
    PadValue(2, h);
    PadValue(2, m);
    PadValue(2, s);
    PadValue(3, f);
    PadWidth(f);
    Thousandths(Pad(2, s), Pad(3, f));
    Seconds(h, m, s, f);
  }

  /** The parser reads a printed stamp as the milliseconds that were printed. */
  lemma StampRoundTrip(ms: nat)
    ensures ParseVttTimestamp(FmtTsVtt(ms)) == Some(ms)
  {
    hide *;
    Decompose(ms);
    StampPieces(ms);
    ParsePadded(ms / 3_600_000, (ms / 60_000) % 60, (ms / 1000) % 60, ms % 1000);
  }

  lemma Thousandths(ss: string, ff: string)
    requires AllDigits(ss) && AllDigits(ff) && |ff| == 3
    ensures DecimalValue(ss, ff) == Value(ss) as real + Value(ff) as real / 1000.0
  {
    assert Pow10(1) == 10 && Pow10(2) == 100 && Pow10(3) == 1000;
  }

  lemma Decompose(ms: nat)
    ensures ms == ms / 3_600_000 * 3_600_000 + ms / 60_000 % 60 * 60_000 + ms / 1000 % 60 * 1000 + ms % 1000
  {
    var q := ms / 1000;
    var p := q / 60;
    assert ms / 60_000 == p && p / 60 == ms / 3_600_000;
  }

  lemma Seconds(h: nat, m: nat, s: nat, f: nat)
    ensures ToMs(Some(h as real), Some(m as real), Some(s as real + f as real / 1000.0))
         == Some(h * 3_600_000 + m * 60_000 + s * 1000 + f)
  {
    var n := h * 3_600_000 + m * 60_000 + s * 1000 + f;
    assert (h as real * 3600.0 + m as real * 60.0 + (s as real + f as real / 1000.0)) * 1000.0 == n as real;
  }

  // ----- Timing lines -----

  /** At a stamp's characters there is no arrow. */
  lemma HeadStamp(s: string)
    requires s != [] && (IsDigit(s[0]) || s[0] == ':' || s[0] == '.')
    ensures TrimLeft(s) == s && !StartsWith(s, ARROW)
  {}

  lemma NoArrow(s: string, i: nat)
    requires i <= |s| && (i < |s| ==> s[i] != '-')
    ensures !StartsWith(s[i..], ARROW)
  {}

  lemma ArrowAt(a: string, b: string)
    requires StampChars(a)
    ensures var line := a + " --> " + b;
            IndexOfString(line, ARROW) == Some(|a| + 1) && Contains(line, ARROW)
  {
    var line := a + " --> " + b;
    assert line[|a| + 1..] == "--> " + b;
    assert StartsWith(line[|a| + 1..], ARROW);
    ContainsAt(line, ARROW, |a| + 1);
    forall i | 0 <= i < |a| + 1 ensures !StartsWith(line[i..], ARROW) {
      assert line[i] == if i < |a| then a[i] else ' ';
      NoArrow(line, i);
    }
  }

  lemma NoArrowAfter(b: string)
    requires '>' !in b
    ensures IndexOfString(" " + b, ARROW) == None
  {
    var s := " " + b;
    forall i | 0 <= i <= |s| ensures !StartsWith(s[i..], ARROW) {
      assert ARROW[2] == '>' && forall k :: 1 <= k < |s| ==> s[k] == b[k - 1] && s[k] != '>';
      assert i + 3 <= |s| ==> s[i..][..3][2] == s[i + 2];
    }
  }

  lemma LineTrimmed(a: string, b: string)
    requires StampChars(a) && StampChars(b) && a != [] && b != []
    ensures Trimmed(a + " --> " + b)
  {
    var line := a + " --> " + b;
    assert line[0] == a[0] && line[|line| - 1] == b[|b| - 1];
  }

  /** The arrow of a printed line, and its two sides. */
  lemma LineSides(a: string, b: string)
    requires StampChars(a) && '>' !in b && a != []
    ensures Sides(a + " --> " + b) == (a + " ", " " + b)
  {
    hide IndexOfString;
    var line := a + " --> " + b;
    ArrowAt(a, b);
    NoArrowAfter(b);
    assert line[..|a| + 1] == a + " " && line[|a| + 4..] == " " + b;
  }

  lemma SideTrimmed(a: string)
    requires StampChars(a) && a != []
    ensures Trim(a + " ") == a && Trim(" " + a) == a && FirstWord(a) == a
  {
    TrimTail(a, " ");
    TrimLeftOver(" ", a);
    StampTrimmed(a);
    assert TrimLeft(a) == a;
  }

  lemma NoStampHere(s: string)
    requires s == [] || !IsDigit(s[0])
    ensures StampLength(s) == 0 && !TimingHere(s)
  {
    assert "dd:dd:dd.ddd"[0] == 'd' && "d:dd:dd.ddd"[0] == 'd' && "dd:dd.ddd"[0] == 'd';
  }

  /** The pattern's characters are digits, colons and dots. */
  lemma StampLengthChars(s: string)
    ensures forall i :: 0 <= i < StampLength(s) ==> IsDigit(s[i]) || s[i] == ':' || s[i] == '.'
  {
    var n := StampLength(s);
    var shape := if n == 12 then "dd:dd:dd.ddd" else if n == 11 then "d:dd:dd.ddd" else "dd:dd.ddd";
    if n > 0 {
      assert Shape(s, shape) && |shape| == n;
      assert forall i :: 0 <= i < |shape| ==> shape[i] == 'd' || shape[i] == ':' || shape[i] == '.';
    }
  }

  /** A match of the timing pattern in a printed line has its arrow at the line's arrow, so its second stamp is `b`. */
  lemma {:induction false} TimingOnlyAtArrow(line: string, a: string, b: string)
    requires StampChars(a) && StampChars(b) && b != [] && line == a + (" --> " + b)
    ensures HasTiming(line) ==> StampLength(b) > 0
    ensures TimingHere(line) ==> StampLength(line) == |a|
    decreases |line|
  {
    hide StampLength, HasTiming, TrimLeft;
    if a == [] {
      NoTimingInTail(line, b);
    } else {
      if TimingHere(line) {
        MatchedArrow(line, a, b);
      }
      assert line[1..] == a[1..] + (" --> " + b);
      TimingOnlyAtArrow(line[1..], a[1..], b);
      HasTimingStep(line);
    }
  }

  lemma HasTimingStep(s: string)
    requires s != []
    ensures HasTiming(s) <==> TimingHere(s) || HasTiming(s[1..])
  {}

  /** After the stamps' characters only the arrow can follow white space. */
  lemma MatchedArrow(line: string, a: string, b: string)
    requires StampChars(a) && StampChars(b) && b != [] && line == a + (" --> " + b) && TimingHere(line)
    ensures StampLength(b) > 0 && StampLength(line) == |a|
  {
    hide StampLength;
    var k := StampLength(line);
    StampLengthChars(line);
    assert line[|a|] == ' ';
    assert k <= |a|;
    if k < |a| {
      assert line[k..][0] == a[k];
      HeadStamp(line[k..]);
      assert false;
    }
    ArrowTail(line[k..], b);
  }

  lemma ArrowTail(s: string, b: string)
    requires b != [] && !IsSpace(b[0]) && s == " --> " + b
    ensures TrimLeft(s) == "--> " + b && TrimLeft(TrimLeft(s)[3..]) == b
  {
    assert s[1..] == "--> " + b;
    assert s[1..][3..] == " " + b;
    assert (" " + b)[1..] == b;
  }

  /** No timing starts after the first stamp: what follows is blank, arrow, or the last stamp. */
  lemma NoTimingInTail(s: string, b: string)
    requires StampChars(b) && s == " --> " + b
    ensures !HasTiming(s) && !TimingHere(s)
  {
    hide TimingHere;
    var s1, s2, s3, s4, s5 := "--> " + b, "-> " + b, "> " + b, " " + b, b;
    assert s[1..] == s1 && s1[1..] == s2 && s2[1..] == s3 && s3[1..] == s4 && s4[1..] == s5;
    NoStampHere(s);
    NoStampHere(s1);
    NoStampHere(s2);
    NoStampHere(s3);
    NoStampHere(s4);
    NoTimingInStamp(b);
    HasTimingStep(s4);
    HasTimingStep(s3);
    HasTimingStep(s2);
    HasTimingStep(s1);
    HasTimingStep(s);
  }

  lemma NoTimingAtStamp(b: string)
    requires StampChars(b)
    ensures !TimingHere(b)
  {
    hide StampLength;
    var n := StampLength(b);
    if n < |b| {
      assert b[n..][0] == b[n];
      HeadStamp(b[n..]);
    } else {
      assert b[n..] == [];
    }
  }

  lemma {:induction false} NoTimingInStamp(b: string)
    requires StampChars(b)
    ensures !HasTiming(b)
  {
    hide TimingHere;
    NoTimingAtStamp(b);
    if b != [] {
      NoTimingInStamp(b[1..]);
    }
  }

  /** Up to 99 hours a printed stamp has exactly the pattern's length; from 100 on the pattern fails at its start. */
  lemma StampLengthOf(ms: nat)
    ensures StampLength(FmtTsVtt(ms)) > 0 <==> ms < HUNDRED_HOURS_MS
  {
    hide StampLength;
    StampPieces(ms);
    PadWidth(ms / 3_600_000);
    PadWidth((ms / 60_000) % 60);
    PadWidth((ms / 1000) % 60);
    PadWidth(ms % 1000);
    StampShape(FmtTsVtt(ms), Pad(2, ms / 3_600_000), Pad(2, (ms / 60_000) % 60), Pad(2, (ms / 1000) % 60), Pad(3, ms % 1000));
  }

  lemma StampShape(ts: string, hh: string, mm: string, ss: string, ff: string)
    requires AllDigits(hh) && AllDigits(mm) && AllDigits(ss) && AllDigits(ff)
    requires |hh| >= 2 && |mm| == 2 && |ss| == 2 && |ff| == 3
    requires ts == StampText(hh, mm, ss, ff)
    ensures StampLength(ts) > 0 <==> |hh| == 2
  {
    var shape := "dd:dd:dd.ddd";
    if |hh| == 2 {
      assert ts[0] == hh[0] && ts[1] == hh[1] && ts[2] == ':' && ts[3] == mm[0] && ts[4] == mm[1] && ts[5] == ':';
      assert ts[6] == ss[0] && ts[7] == ss[1] && ts[8] == '.' && ts[9] == ff[0] && ts[10] == ff[1] && ts[11] == ff[2];
      assert Shape(ts, shape);
    } else {
      assert ts[0] == hh[0] && ts[1] == hh[1] && ts[2] == hh[2];
      assert shape[2] == ':' && "d:dd:dd.ddd"[1] == ':' && "dd:dd.ddd"[2] == ':';
    }
  }

  // ----- The printed file, line by line -----

  /** A cue whose end time the timing pattern takes. */
  predicate Readable(c: Cue) {
    c.endMs < HUNDRED_HOURS_MS
  }

  function ReadableCues(cues: seq<Cue>): seq<Cue> {
    if cues == [] then []
    else (if Readable(cues[0]) then [cues[0]] else []) + ReadableCues(cues[1..])
  }

  function AsParsed(cues: seq<Cue>): seq<ParsedCue> {
    seq(|cues|, i requires 0 <= i < |cues| => ParsedCue(Some(cues[i].startMs), Some(cues[i].endMs), cues[i].text))
  }

  /** Every line of the text is trimmed and not blank. */
  ghost predicate Lined(text: string) {
    forall i :: 0 <= i < |SplitLines(text)| ==> Trimmed(SplitLines(text)[i])
  }

  ghost predicate AllLined(cues: seq<Cue>) {
    forall i :: 0 <= i < |cues| ==> Lined(cues[i].text)
  }

  lemma PrintableLined(text: string)
    requires Printable(text)
    ensures Lined(text) && SplitLines(text) == [text]
  {
    SplitLine(text, "");
  }

  lemma {:induction false} LinedTrimmed(text: string)
    requires Lined(text)
    ensures Trimmed(text)
    decreases |text|
  {
    var k := IndexOf(text, '\n');
    assert Trimmed(SplitLines(text)[0]);
    if k < |text| {
      LinedTail(text, k);
      LinedTrimmed(text[k + 1..]);
    }
  }

  lemma LinedTail(text: string, k: nat)
    requires Lined(text) && k == IndexOf(text, '\n') < |text|
    ensures Lined(text[k + 1..])
  {
    hide SplitLines, IndexOf, Trimmed, ChompCr;
    SplitLinesStep(text);
    TailRows(SplitLines(text), ChompCr(text[..k]), SplitLines(text[k + 1..]));
  }

  lemma TailRows(rows: seq<string>, first: string, more: seq<string>)
    requires rows == [first] + more && forall i :: 0 <= i < |rows| ==> Trimmed(rows[i])
    ensures forall i :: 0 <= i < |more| ==> Trimmed(more[i])
  {
    hide Trimmed;
    forall i | 0 <= i < |more| ensures Trimmed(more[i]) {
      assert more[i] == rows[i + 1];
    }
  }

  lemma NoneBefore(text: string, k: nat)
    requires k == IndexOf(text, '\n')
    ensures k <= |text| && '\n' !in text[..k]
  {}

  /** The lines of a text and of what follows it on a new line. */
  lemma {:induction false} SplitText(text: string, tail: string)
    requires Lined(text)
    ensures SplitLines(text + "\n" + tail) == SplitLines(text) + SplitLines(tail)
    decreases |text|
  {
    hide SplitLines, IndexOf, Lined, ChompCr;
    var k := IndexOf(text, '\n');
    SplitLinesStep(text);
    if k == |text| {
      IndexMeans(text, '\n');
      LinedTrimmed(text);
      NotCr(text);
      SplitLine(text, tail);
    } else {
      var rest := text[k + 1..];
      LinedTail(text, k);
      SplitText(rest, tail);
      var s := text + "\n" + tail;
      assert s[k] == text[k] && s[..k] == text[..k] && s[k + 1..] == rest + "\n" + tail;
      IndexMeans(text, '\n');
      NoneBefore(text, k);
      IndexOfFirst(s, '\n', k);
      SplitLinesStep(s);
      Assoc([ChompCr(text[..k])], SplitLines(rest), SplitLines(tail));
    }
  }

  /** The file after its header, without the white space at its end. */
  ghost function Blocks(cues: seq<Cue>): string {
    if cues == [] then "" else "\n\n" + Block(cues[0]) + Blocks(cues[1..])
  }

  lemma {:induction false} BlocksSnoc(cues: seq<Cue>, c: Cue)
    ensures Blocks(cues + [c]) == Blocks(cues) + ("\n\n" + Block(c))
  {
    hide Block;
    if cues == [] {
      assert [c][1..] == [];
      assert Blocks([c]) == "\n\n" + Block(c) + Blocks([]);
    } else {
      BlocksSnoc(cues[1..], c);
      assert (cues + [c])[0] == cues[0] && (cues + [c])[1..] == cues[1..] + [c];
      Assoc("\n\n" + Block(cues[0]), Blocks(cues[1..]), "\n\n" + Block(c));
    }
  }

  lemma {:induction false} PrintedBlocks(cues: seq<Cue>)
    ensures Printed(cues) == "WEBVTT" + Blocks(cues) + "\n\n"
  {
    hide Block;
    if cues != [] {
      var init, c := cues[..|cues| - 1], cues[|cues| - 1];
      PrintedBlocks(init);
      BlocksSnoc(init, c);
      assert cues == init + [c];
      PrintedStep("WEBVTT", Blocks(init), Block(c));
    }
  }

  lemma PrintedStep(head: string, blocks: string, block: string)
    ensures head + blocks + "\n\n" + (block + "\n\n") == head + (blocks + ("\n\n" + block)) + "\n\n"
  {}

  lemma LastChar(a: string, b: string)
    requires b != ""
    ensures (a + b)[|a + b| - 1] == b[|b| - 1]
  {}

  lemma BlockEnd(c: Cue)
    requires Lined(c.text)
    ensures Block(c) != "" && !IsSpace(Block(c)[|Block(c)| - 1])
  {
    LinedTrimmed(c.text);
    hide TimingLine, IsSpace;
    LastChar(TimingLine(c) + "\n", c.text);
  }

  lemma BlocksEnd(cues: seq<Cue>)
    requires AllLined(cues) && cues != []
    ensures Blocks(cues) != "" && !IsSpace(Blocks(cues)[|Blocks(cues)| - 1])
  {
    hide IsSpace, Block, Blocks, Lined;
    var n := |cues| - 1;
    BlockEnd(cues[n]);
    BlocksSnoc(cues[..n], cues[n]);
    assert cues == cues[..n] + [cues[n]];
    LastChar("\n\n", Block(cues[n]));
    LastChar(Blocks(cues[..n]), "\n\n" + Block(cues[n]));
  }

  lemma FileEnd(cues: seq<Cue>)
    requires AllLined(cues)
    ensures var body := "WEBVTT" + Blocks(cues); !IsSpace(body[|body| - 1])
  {
    if cues != [] {
      BlocksEnd(cues);
      LastChar("WEBVTT", Blocks(cues));
    }
  }

  /** What trimming leaves of the printed file. */
  lemma TrimmedFile(cues: seq<Cue>)
    requires AllLined(cues)
    ensures Trim(Printed(cues)) == "WEBVTT" + Blocks(cues)
    ensures Trim("WEBVTT" + Blocks(cues)) == "WEBVTT" + Blocks(cues)
  {
    hide *;
    var body := "WEBVTT" + Blocks(cues);
    PrintedBlocks(cues);
    FileEnd(cues);
    BodyTrimmed(body);
    TrimTail(body, "\n\n") by { Newlines(); }
    TrimIdentity(body);
  }

  lemma BodyTrimmed(body: string)
    requires StartsWith(body, "WEBVTT") && !IsSpace(body[|body| - 1])
    ensures Trimmed(body) && body[0] == 'W'
  {
    assert body[0] == body[..6][0] == 'W';
  }

  lemma Newlines()
    ensures forall c :: c in "\n\n" ==> IsSpace(c)
  {}

  /** The lines of the blocks. */
  ghost function LinesFrom(cues: seq<Cue>): seq<string>
    decreases |cues|, 0
  {
    if cues == [] then [] else [TimingLine(cues[0])] + (SplitLines(cues[0].text) + MoreLines(cues[1..]))
  }

  ghost function MoreLines(cues: seq<Cue>): seq<string>
    decreases |cues|, 1
  {
    if cues == [] then [] else [""] + LinesFrom(cues)
  }

  lemma TimingLineOk(c: Cue)
    ensures Trimmed(TimingLine(c)) && '\n' !in TimingLine(c)
    ensures TimingLine(c)[0] == '0' || IsDigit(TimingLine(c)[0])
  {
    var a, b := FmtTsVtt(c.startMs), FmtTsVtt(c.endMs);
    PrintedStampChars(c.startMs);
    PrintedStampChars(c.endMs);
    LineTrimmed(a, b);
    StampPieces(c.startMs);
    assert TimingLine(c)[0] == a[0] == Pad(2, c.startMs / 3_600_000)[0];
  }

  lemma {:induction false} SplitBlocks(cues: seq<Cue>)
    requires AllLined(cues) && cues != []
    ensures SplitLines(Block(cues[0]) + Blocks(cues[1..])) == LinesFrom(cues)
    decreases |cues|
  {
    hide SplitLines, TimingLine, Lined;
    var c, rest := cues[0], Blocks(cues[1..]);
    TimingLineOk(c);
    NotCr(TimingLine(c));
    SplitLine(TimingLine(c), c.text + rest);
    assert Block(c) + rest == TimingLine(c) + "\n" + (c.text + rest);
    if |cues| == 1 {
      assert c.text + rest == c.text;
      assert SplitLines(c.text) + [] == SplitLines(c.text);
    } else {
      assert cues[1..][1..] == cues[2..] && cues[1..][0] == cues[1];
      assert rest == "\n\n" + Block(cues[1]) + Blocks(cues[2..]);
      TextThenBlank(c.text, Block(cues[1]), Blocks(cues[2..]));
      SplitBlocks(cues[1..]);
      Assoc(SplitLines(c.text), [""], LinesFrom(cues[1..]));
    }
  }

  lemma TextThenBlank(text: string, block: string, rest: string)
    requires Lined(text)
    ensures SplitLines(text + ("\n\n" + block + rest)) == SplitLines(text) + [""] + SplitLines(block + rest)
  {
    hide SplitLines, Lined;
    SplitText(text, "\n" + (block + rest));
    SplitLine("", block + rest);
    assert text + ("\n\n" + block + rest) == text + "\n" + ("\n" + (block + rest));
    assert "" + "\n" + (block + rest) == "\n" + (block + rest);
    Assoc(SplitLines(text), [""], SplitLines(block + rest));
  }

  lemma NotCr(s: string)
    requires Trimmed(s)
    ensures s[|s| - 1] != '\r'
  {}

  lemma SplitTwoBreaks(line: string, block: string, rest: string)
    requires line != [] && '\n' !in line && line[|line| - 1] != '\r'
    ensures SplitLines(line + ("\n\n" + block + rest)) == [line, ""] + SplitLines(block + rest)
  {
    hide SplitLines;
    SplitLine(line, "\n" + (block + rest));
    SplitLine("", block + rest);
    assert line + ("\n\n" + block + rest) == line + "\n" + ("\n" + (block + rest));
    assert "" + "\n" + (block + rest) == "\n" + (block + rest);
  }

  lemma FileLines(cues: seq<Cue>)
    requires AllLined(cues)
    ensures SplitLines("WEBVTT" + Blocks(cues)) == ["WEBVTT"] + MoreLines(cues)
  {
    hide SplitLines, Block, Lined, LinesFrom;
    if cues == [] {
      assert "WEBVTT" + Blocks(cues) == "WEBVTT";
      SplitLine("WEBVTT", "");
    } else {
      SplitBlocks(cues);
      SplitTwoBreaks("WEBVTT", Block(cues[0]), Blocks(cues[1..]));
      assert ["WEBVTT"] + ([""] + LinesFrom(cues)) == ["WEBVTT", ""] + LinesFrom(cues);
    }
  }

  // ----- Parsing the lines -----

  lemma TimingOfLine(c: Cue)
    ensures HasTiming(TimingLine(c)) <==> Readable(c)
  {
    hide HasTiming, StampLength, FmtTsVtt;
    var a, b := FmtTsVtt(c.startMs), FmtTsVtt(c.endMs);
    PrintedStampChars(c.startMs);
    PrintedStampChars(c.endMs);
    StampLengthOf(c.endMs);
    assert TimingLine(c) == a + (" --> " + b);
    TimingOnlyAtArrow(TimingLine(c), a, b);
    if Readable(c) {
      LineHasTiming(c);
    }
  }

  lemma {:induction false} HasTimingAt(s: string, i: nat)
    requires i <= |s| && TimingHere(s[i..])
    ensures HasTiming(s)
    decreases i
  {
    hide TimingHere;
    if i == 0 {
      assert s[0..] == s;
    } else {
      assert s[1..][i - 1..] == s[i..];
      HasTimingAt(s[1..], i - 1);
    }
  }

  lemma TwelveHere(hh: string, mm: string, ss: string, ff: string, tail: string)
    requires AllDigits(hh) && AllDigits(mm) && AllDigits(ss) && AllDigits(ff)
    requires |hh| == 2 && |mm| == 2 && |ss| == 2 && |ff| == 3
    ensures StampLength(StampText(hh, mm, ss, ff) + tail) == 12
    ensures (StampText(hh, mm, ss, ff) + tail)[12..] == tail
  {
    var ts, shape := StampText(hh, mm, ss, ff) + tail, "dd:dd:dd.ddd";
    assert ts[0] == hh[0] && ts[1] == hh[1] && ts[2] == ':' && ts[3] == mm[0] && ts[4] == mm[1] && ts[5] == ':';
    assert ts[6] == ss[0] && ts[7] == ss[1] && ts[8] == '.' && ts[9] == ff[0] && ts[10] == ff[1] && ts[11] == ff[2];
    assert Shape(ts, shape);
  }

  lemma StampBegins(b: string)
    requires StampLength(b) > 0
    ensures b != [] && !IsSpace(b[0])
  {}

  /** However many hour digits the start has, its last two begin a match. */
  lemma StampThenArrow(hh: string, mm: string, ss: string, ff: string, b: string)
    requires AllDigits(hh) && AllDigits(mm) && AllDigits(ss) && AllDigits(ff)
    requires |hh| >= 2 && |mm| == 2 && |ss| == 2 && |ff| == 3
    requires StampLength(b) > 0
    ensures HasTiming(StampText(hh, mm, ss, ff) + (" --> " + b))
  {
    StampBegins(b);
    hide StampLength, HasTiming;
    var n := |hh| - 2;
    var line, tail := StampText(hh, mm, ss, ff) + (" --> " + b), " --> " + b;
    TwelveHere(hh[n..], mm, ss, ff, tail);
    assert line[n..] == StampText(hh[n..], mm, ss, ff) + tail;
    ArrowTail(tail, b);
    TwelveThenArrow(line[n..], tail, b);
    HasTimingAt(line, n);
  }

  lemma TwelveThenArrow(s: string, tail: string, b: string)
    requires StampLength(s) == 12 && s[12..] == tail && TrimLeft(tail) == "--> " + b
    requires TrimLeft(TrimLeft(tail)[3..]) == b && StampLength(b) > 0
    ensures TimingHere(s)
  {
    hide StampLength, TrimLeft;
    assert ("--> " + b)[..3] == "-->";
  }

  lemma LineHasTiming(c: Cue)
    requires Readable(c)
    ensures HasTiming(TimingLine(c))
  {
    StampLengthOf(c.endMs);
    StartHasTiming(c.startMs, FmtTsVtt(c.endMs));
    assert TimingLine(c) == FmtTsVtt(c.startMs) + (" --> " + FmtTsVtt(c.endMs));
  }

  lemma StartHasTiming(ms: nat, b: string)
    requires StampLength(b) > 0
    ensures HasTiming(FmtTsVtt(ms) + (" --> " + b))
  {
    hide StampLength, HasTiming, Pad, FmtTsVtt, StampText, StampChars;
    StampPieces(ms);
    PadWidth(ms / 3_600_000);
    PadWidth((ms / 60_000) % 60);
    PadWidth((ms / 1000) % 60);
    PadWidth(ms % 1000);
    StampThenArrow(Pad(2, ms / 3_600_000), Pad(2, (ms / 60_000) % 60), Pad(2, (ms / 1000) % 60), Pad(3, ms % 1000), b);
  }

  lemma {:induction false} NoTagsToStrip(s: string)
    requires TagFree(s)
    ensures StripTags(s) == s
    decreases |s|
  {
    if s != [] {
      var k := IndexOf(s[1..], '>');
      if s[0] == '<' && 1 <= k < |s| - 1 {
        assert false;
      }
      forall i, j | 0 <= i && i + 1 < j < |s[1..]| && s[1..][i] == '<' && s[1..][i + 1] != '>' ensures s[1..][j] != '>' {
        assert s[1..][i] == s[i + 1] && s[1..][i + 1] == s[i + 2] && s[1..][j] == s[j + 1];
      }
      NoTagsToStrip(s[1..]);
    }
  }

  lemma TextOfCue(text: string)
    requires Printable(text)
    ensures CueText([text]) == text && text != "" && Trim(text) == text
  {
    NoTagsToStrip(text);
    TrimIdentity(text);
  }

  lemma CueOfLines(c: Cue, rows: seq<string>)
    requires CueText(rows) != ""
    ensures OneCue(TimingLine(c), rows) == [ParsedCue(Some(c.startMs), Some(c.endMs), CueText(rows))]
  {
    hide CueText, FmtTsVtt, ParseVttTimestamp, Sides, Trim, FirstWord;
    var a, b := FmtTsVtt(c.startMs), FmtTsVtt(c.endMs);
    PrintedStampChars(c.startMs);
    PrintedStampChars(c.endMs);
    LineSides(a, b);
    SideTrimmed(a);
    SideTrimmed(b);
    StampRoundTrip(c.startMs);
    StampRoundTrip(c.endMs);
  }

  lemma NotAHeader(c: Cue)
    ensures !HeaderLine(TimingLine(c)) && Contains(TimingLine(c), ARROW) && Trim(TimingLine(c)) == TimingLine(c)
  {
    var a, b := FmtTsVtt(c.startMs), FmtTsVtt(c.endMs);
    PrintedStampChars(c.startMs);
    PrintedStampChars(c.endMs);
    ArrowAt(a, b);
    TimingLineOk(c);
    TrimIdentity(TimingLine(c));
    DigitIsNoHeader(TimingLine(c));
  }

  lemma DigitIsNoHeader(s: string)
    requires s != [] && IsDigit(s[0])
    ensures !HeaderLine(s)
  {
    assert "WEBVTT"[0] == 'W' && "NOTE"[0] == 'N' && "STYLE"[0] == 'S';
    assert forall p: string :: StartsWith(s, p) && p != "" ==> s[..|p|][0] == p[0];
  }

  lemma {:induction false} TextUpToBlank(rows: seq<string>, cues: seq<Cue>)
    requires forall i :: 0 <= i < |rows| ==> Trimmed(rows[i])
    ensures TakeText(rows + MoreLines(cues)) == (rows, LinesFrom(cues))
  {
    hide LinesFrom, Trim, Trimmed;
    var more := MoreLines(cues);
    if rows == [] {
      assert rows + more == more && Trim("") == "" by { TrimIdentity(""); }
      if cues == [] {
        assert LinesFrom(cues) == [] by { NoLines(); }
      } else {
        assert more[0] == "" && more[1..] == LinesFrom(cues);
      }
    } else {
      TextUpToBlank(rows[1..], cues);
      TrimIdentity(rows[0]);
      NotBlank(rows[0]);
      assert (rows + more)[1..] == rows[1..] + more && (rows + more)[0] == rows[0];
      assert [rows[0]] + rows[1..] == rows;
    }
  }

  lemma NotBlank(s: string)
    requires Trimmed(s)
    ensures s != ""
  {}

  lemma NoLines()
    ensures LinesFrom([]) == []
  {}

  /** A cue that the parser can read is read whole, */
  lemma ReadableBlock(c: Cue, cues: seq<Cue>)
    requires Readable(c) && Lined(c.text) && CueText(SplitLines(c.text)) != ""
    ensures NextCue([TimingLine(c)] + (SplitLines(c.text) + MoreLines(cues)))
         == ([ParsedCue(Some(c.startMs), Some(c.endMs), CueText(SplitLines(c.text)))], LinesFrom(cues))
  {
    hide HasTiming, HeaderLine, TakeText, OneCue, TimingLine, LinesFrom, MoreLines, Trim, Contains, CueText, SplitLines;
    var rows := SplitLines(c.text);
    var lines := [TimingLine(c)] + (rows + MoreLines(cues));
    assert lines[1..] == rows + MoreLines(cues);
    NotAHeader(c);
    TimingOfLine(c);
    TextUpToBlank(rows, cues);
    CueOfLines(c, rows);
  }

  /** and one whose timing line is not taken leaves no trace, whatever its text looks like. */
  lemma UnreadableBlock(c: Cue, cues: seq<Cue>)
    requires !Readable(c) && Printable(c.text)
    ensures CuesOf([TimingLine(c)] + ([c.text] + MoreLines(cues))) == CuesOf(LinesFrom(cues))
  {
    hide HasTiming, HeaderLine, TakeText, OneCue, Printable, TimingLine, LinesFrom, MoreLines, Trim, Contains;
    var lines := [TimingLine(c)] + ([c.text] + MoreLines(cues));
    assert lines[1..] == [c.text] + MoreLines(cues);
    NotAHeader(c);
    TimingOfLine(c);
    assert NextCue(lines) == ([], lines[1..]);
    LoneText(c.text, cues);
  }

  lemma BlankThenLines(cues: seq<Cue>)
    ensures CuesOf(MoreLines(cues)) == CuesOf(LinesFrom(cues))
  {
    hide LinesFrom;
    if cues == [] {
      NoLines();
    } else {
      assert MoreLines(cues)[1..] == LinesFrom(cues);
      assert NextCue(MoreLines(cues)) == ([], LinesFrom(cues));
    }
  }

  lemma NothingFromNoText(timing: string)
    ensures OneCue(timing, []) == []
  {
    assert Join([], " ") == "";
  }

  lemma MoreHasNoArrow(cues: seq<Cue>)
    ensures MoreLines(cues) != [] ==> !Contains(MoreLines(cues)[0], ARROW)
  {}

  lemma LoneText(text: string, cues: seq<Cue>)
    requires Printable(text)
    ensures CuesOf([text] + MoreLines(cues)) == CuesOf(LinesFrom(cues))
  {
    hide HasTiming, HeaderLine, TakeText, OneCue, Printable, LinesFrom, MoreLines, Trim, Contains;
    var more := MoreLines(cues);
    var lines := [text] + more;
    assert lines[1..] == more && lines[0] == text;
    TextOfCue(text);
    BlankThenLines(cues);
    MoreHasNoArrow(cues);
    if more != [] {
      assert lines[1] == more[0];
    }
    if !HeaderLine(text) && HasTiming(text) {
      TextUpToBlank([], cues);
      assert [] + more == more;
      NothingFromNoText(text);
      assert NextCue(lines) == ([], LinesFrom(cues));
    } else {
      assert NextCue(lines) == ([], more);
    }
  }

  /** What the parser makes of cues with texts of any number of lines. */
  function AsRead(cues: seq<Cue>): seq<ParsedCue> {
    seq(|cues|, i requires 0 <= i < |cues| =>
      ParsedCue(Some(cues[i].startMs), Some(cues[i].endMs), CueText(SplitLines(cues[i].text))))
  }

  lemma AsReadCons(c: Cue, cues: seq<Cue>)
    ensures AsRead([]) == []
    ensures AsRead([c] + cues)
         == [ParsedCue(Some(c.startMs), Some(c.endMs), CueText(SplitLines(c.text)))] + AsRead(cues)
  {}

  /** Texts whose block is read back: those of a single line anyway, those of several when the timing line is taken. */
  ghost predicate Legible(c: Cue) {
    Printable(c.text) || (Readable(c) && Lined(c.text) && CueText(SplitLines(c.text)) != "")
  }

  lemma LegibleLined(c: Cue)
    requires Legible(c)
    ensures Lined(c.text) && CueText(SplitLines(c.text)) != ""
    ensures !Readable(c) ==> Printable(c.text) && SplitLines(c.text) == [c.text]
  {
    if Printable(c.text) {
      PrintableLined(c.text);
      TextOfCue(c.text);
    }
  }

  lemma {:induction false} CuesOfLines(cues: seq<Cue>)
    requires forall i :: 0 <= i < |cues| ==> Legible(cues[i])
    ensures CuesOf(LinesFrom(cues)) == AsRead(ReadableCues(cues))
    decreases |cues|
  {
    hide NextCue, Printable, TimingLine, AsRead, Legible, SplitLines, CueText, Lined, Readable;
    if cues == [] {
      AsReadCons(Cue(0, 0, ""), []);
    } else {
      var c, rest := cues[0], cues[1..];
      CuesOfLines(rest);
      LegibleLined(c);
      if Readable(c) {
        ReadableBlock(c, rest);
        AsReadCons(c, ReadableCues(rest));
      } else {
        UnreadableBlock(c, rest);
        assert ReadableCues(cues) == [] + ReadableCues(rest) == ReadableCues(rest);
      }
    }
  }

  lemma HeaderSkipped(lines: seq<string>)
    ensures CuesOf(["WEBVTT"] + lines) == CuesOf(lines)
  {
    var all := ["WEBVTT"] + lines;
    TrimIdentity("WEBVTT");
    assert StartsWith("WEBVTT", "WEBVTT");
    assert all[1..] == lines;
    assert NextCue(all) == ([], lines);
  }

  /** A body that begins with the header goes to the WebVTT parser. */
  lemma HeaderGoesToWebvtt(blocks: string, body: string, formatHint: Option<Format>)
    requires Trim(body) == "WEBVTT" + blocks && Trim(Trim(body)) == Trim(body)
    requires formatHint != Some(Srv3) && formatHint != Some(Srv1)
    ensures ParsedBody(body, formatHint) == Cues(CuesOf(SplitLines(Trim(body))))
  {
    hide CuesOf, Trim, Contains, SplitLines;
    var t := Trim(body);
    assert t[0] == 'W';
    ContainsAt(t, "WEBVTT", 0) by { assert t[0..] == t && t[..6] == "WEBVTT"; }
  }

  /** Printing legible cues and parsing the file, through format detection or under any hint but the two srv ones. */
  lemma PrintThenRead(cues: seq<Cue>, formatHint: Option<Format>)
    requires forall i :: 0 <= i < |cues| ==> Legible(cues[i])
    requires formatHint != Some(Srv3) && formatHint != Some(Srv1)
    ensures ParsedBody(Printed(cues), formatHint) == Cues(AsRead(ReadableCues(cues)))
  {
    hide CuesOf, Printed, Blocks, AsRead, SplitLines, Trim, Contains, ParsedBody, Legible, Lined;
    forall i | 0 <= i < |cues| ensures Lined(cues[i].text) {
      LegibleLined(cues[i]);
    }
    TrimmedFile(cues);
    HeaderGoesToWebvtt(Blocks(cues), Printed(cues), formatHint);
    FileLines(cues);
    HeaderSkipped(MoreLines(cues));
    BlankThenLines(cues);
    CuesOfLines(cues);
  }

  /** For single-line texts without tags, exactly the cues that end before 100 hours come back, with their times, texts and
      order. */
  lemma PrintThenParse(cues: seq<Cue>, formatHint: Option<Format>)
    requires AllPrintable(cues)
    requires formatHint != Some(Srv3) && formatHint != Some(Srv1)
    ensures ParsedBody(Printed(cues), formatHint) == Cues(AsParsed(ReadableCues(cues)))
  {
    hide Printable, Printed, ParsedBody, AllPrintable, CueText, SplitLines;
    forall i | 0 <= i < |cues| ensures Legible(cues[i]) {
      assert Printable(cues[i].text) by { OneOfAll(cues, i); }
    }
    PrintThenRead(cues, formatHint);
    forall i | 0 <= i < |ReadableCues(cues)|
      ensures CueText(SplitLines(ReadableCues(cues)[i].text)) == ReadableCues(cues)[i].text
    {
      ReadableIsOne(cues, i);
      PrintableLined(ReadableCues(cues)[i].text);
      TextOfCue(ReadableCues(cues)[i].text);
    }
    assert AsRead(ReadableCues(cues)) == AsParsed(ReadableCues(cues));
  }

  lemma OneOfAll(cues: seq<Cue>, i: nat)
    requires AllPrintable(cues) && i < |cues|
    ensures Printable(cues[i].text)
  {}

  lemma {:induction false} ReadableIsOne(cues: seq<Cue>, i: nat)
    requires AllPrintable(cues) && i < |ReadableCues(cues)|
    ensures Printable(ReadableCues(cues)[i].text)
  {
    hide Printable, Readable;
    if !(Readable(cues[0]) && i == 0) {
      ReadableIsOne(cues[1..], if Readable(cues[0]) then i - 1 else i);
    }
  }

  lemma {:induction false} ReadableCount(cues: seq<Cue>)
    ensures |ReadableCues(cues)| <= |cues|
    ensures |ReadableCues(cues)| == |cues| <==> forall i :: 0 <= i < |cues| ==> Readable(cues[i])
    ensures |ReadableCues(cues)| == |cues| ==> ReadableCues(cues) == cues
  {
    if cues != [] {
      ReadableCount(cues[1..]);
      assert cues == [cues[0]] + cues[1..];
    }
  }

  /** The round trip is exact when every cue ends before 100 hours, and only then. */
  lemma RoundTripIff(cues: seq<Cue>, formatHint: Option<Format>)
    requires AllPrintable(cues)
    requires formatHint != Some(Srv3) && formatHint != Some(Srv1)
    ensures ParsedBody(Printed(cues), formatHint) == Cues(AsParsed(cues))
       <==> forall i :: 0 <= i < |cues| ==> Readable(cues[i])
  {
    PrintThenParse(cues, formatHint);
    ReadableCount(cues);
    assert |AsParsed(cues)| == |cues| && |AsParsed(ReadableCues(cues))| == |ReadableCues(cues)|;
  }
}
