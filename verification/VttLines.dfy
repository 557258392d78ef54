/** WebVTT cues with texts of several lines: what comes back when they are printed and parsed. */
module VttLines {
  import opened Text
  import opened Vtt
  import opened VttRoundTrip

  /** One or more lines, each trimmed and not blank, that hold no tag when they stand side by side. */
  ghost predicate GoodRows(rows: seq<string>) {
    && rows != [] && TagFree(Join(rows, " "))
    && forall i :: 0 <= i < |rows| ==> Trimmed(rows[i]) && '\n' !in rows[i]
  }

  lemma {:induction false} SplitJoin(rows: seq<string>)
    requires rows != [] && forall i :: 0 <= i < |rows| ==> Trimmed(rows[i]) && '\n' !in rows[i]
    ensures SplitLines(Join(rows, "\n")) == rows
  {
    hide SplitLines, Trimmed;
    NotCr(rows[0]);
    if |rows| == 1 {
      SplitLine(rows[0], "");
    } else {
      SplitJoin(rows[1..]);
      SplitLine(rows[0], Join(rows[1..], "\n"));
      assert rows == [rows[0]] + rows[1..];
    }
  }

  lemma {:induction false} JoinTrimmed(rows: seq<string>)
    requires rows != [] && forall i :: 0 <= i < |rows| ==> Trimmed(rows[i])
    ensures Trimmed(Join(rows, " "))
  {
    hide IsSpace;
    if |rows| > 1 {
      JoinTrimmed(rows[1..]);
      var s := Join(rows[1..], " ");
      assert Join(rows, " ") == rows[0] + " " + s;
      LastChar(rows[0] + " ", s);
    }
  }

  lemma GoodText(rows: seq<string>)
    requires GoodRows(rows)
    ensures Lined(Join(rows, "\n")) && SplitLines(Join(rows, "\n")) == rows
    ensures CueText(rows) == Join(rows, " ") != ""
  {
    SplitJoin(rows);
    JoinTrimmed(rows);
    NoTagsToStrip(Join(rows, " "));
    TrimIdentity(Join(rows, " "));
  }

  lemma GoodCue(c: Cue, rows: seq<string>)
    requires c.endMs < 360_000_000 && GoodRows(rows) && c.text == Join(rows, "\n")
    ensures Legible(c) && CueText(SplitLines(c.text)) == Join(rows, " ")
  {
    GoodText(rows);
  }

  /** Printing and parsing cues that end before 100 hours gives back, in order, each cue's start and end and its lines, with
      one space between them. */
  lemma LinesRoundTrip(cues: seq<Cue>, rows: seq<seq<string>>, formatHint: Option<Format>)
    requires |rows| == |cues|
    requires forall i :: 0 <= i < |cues| ==>
               cues[i].endMs < 360_000_000 && GoodRows(rows[i]) && cues[i].text == Join(rows[i], "\n")
    requires formatHint != Some(Srv3) && formatHint != Some(Srv1)
    ensures ParsedBody(Printed(cues), formatHint)
         == Cues(seq(|cues|, i requires 0 <= i < |cues| =>
                   ParsedCue(Some(cues[i].startMs), Some(cues[i].endMs), Join(rows[i], " "))))
  {
    hide Printed, ParsedBody, CueText, SplitLines, GoodRows, Legible, Join, AsRead;
    GoodCues(cues, rows);
    PrintThenRead(cues, formatHint);
    ReadableCount(cues);
  }

  lemma GoodCues(cues: seq<Cue>, rows: seq<seq<string>>)
    requires |rows| == |cues|
    requires forall i :: 0 <= i < |cues| ==>
               cues[i].endMs < 360_000_000 && GoodRows(rows[i]) && cues[i].text == Join(rows[i], "\n")
    ensures forall i :: 0 <= i < |cues| ==> Legible(cues[i]) && Readable(cues[i])
    ensures AsRead(cues) == seq(|cues|, i requires 0 <= i < |cues| =>
                              ParsedCue(Some(cues[i].startMs), Some(cues[i].endMs), Join(rows[i], " ")))
  {
    hide CueText, SplitLines, GoodRows, Legible, Join;
    forall i | 0 <= i < |cues|
      ensures Legible(cues[i]) && CueText(SplitLines(cues[i].text)) == Join(rows[i], " ")
    {
      GoodCue(cues[i], rows[i]);
    }
  }

  /** Lines that hold no tag each can hold one side by side, and then lose it: "a <b" and "c> d". */
  lemma TagAcrossLines(startMs: nat, endMs: nat)
    requires endMs < 360_000_000
    ensures TagFree("a <b") && TagFree("c> d")
    ensures ParsedBody(Printed([Cue(startMs, endMs, "a <b\nc> d")]), None)
         == Cues([ParsedCue(Some(startMs), Some(endMs), "a  d")])
  {
    hide ParsedBody, Printed, Legible, CueText, SplitLines;
    var c := Cue(startMs, endMs, "a <b\nc> d");
    AcrossRows();
    AcrossLegible(c);
    PrintThenRead([c], None);
    ReadableCount([c]);
    assert AsRead([c]) == [ParsedCue(Some(startMs), Some(endMs), "a  d")];
  }

  lemma AcrossLegible(c: Cue)
    requires c.endMs < 360_000_000 && c.text == "a <b\nc> d"
    ensures Legible(c)
  {
    hide CueText, SplitLines;
    AcrossRows();
  }

  lemma AcrossRows()
    ensures SplitLines("a <b\nc> d") == ["a <b", "c> d"] && CueText(["a <b", "c> d"]) == "a  d"
  {
    hide SplitLines, StripTags, Trim;
    var rows := ["a <b", "c> d"];
    assert rows[1..] == ["c> d"];
    JoinTwo("a <b", "c> d", "\n");
    JoinTwo("a <b", "c> d", " ");
    assert "a <b" + "\n" + "c> d" == "a <b\nc> d" && "a <b" + " " + "c> d" == "a <b c> d";
    SplitJoin(rows);
    StripsAcross();
  }

  lemma JoinTwo(a: string, b: string, glue: string)
    ensures Join([a, b], glue) == a + glue + b
  {
    assert [a, b][1..] == [b];
  }

  lemma StripsAcross()
    ensures Trim(StripTags("a <b c> d")) == "a  d"
  {
    hide StripTags, Trim;
    var t := "<b c> d";
    StripKeeps('a', " " + t);
    StripKeeps(' ', t);
    StripDrops("b c", " d");
    NoTagsToStrip(" d");
    assert ['a'] + (" " + t) == "a <b c> d" && [' '] + t == " " + t && "<" + "b c" + ">" + " d" == t;
    assert ['a'] + ([' '] + " d") == "a  d";
    SpacedOut();
  }

  lemma StripKeeps(c: char, s: string)
    requires c != '<'
    ensures StripTags([c] + s) == [c] + StripTags(s)
  {
    assert ([c] + s)[1..] == s;
  }

  lemma StripDrops(tag: string, s: string)
    requires tag != "" && '>' !in tag
    ensures StripTags("<" + tag + ">" + s) == StripTags(s)
  {
    var t := "<" + tag + ">" + s;
    var u := t[1..];
    assert u == tag + ">" + s && u[..|tag|] == tag;
    IndexOfFirst(u, '>', |tag|);
    assert t[|tag| + 2..] == s;
  }

  lemma SpacedOut()
    ensures Trim("a  d") == "a  d"
  {
    TrimIdentity("a  d");
  }

  // ----- What else a file may hold: identifiers, notes, settings, short times -----

  /** A line before a timing line, with no arrow and no keyword, is taken as the cue's identifier and makes no difference. */
  lemma IdentifierIgnored(id: string, timing: string, rest: seq<string>)
    requires Trimmed(id) && !Contains(id, "-->")
    requires !StartsWith(id, "WEBVTT") && !StartsWith(id, "NOTE") && !StartsWith(id, "STYLE")
    requires Trimmed(timing) && IsDigit(timing[0]) && Contains(timing, "-->")
    ensures NextCue([id, timing] + rest) == NextCue([timing] + rest)
  {
    hide HasTiming, TakeText, OneCue, Trim, Contains;
    var with, without := [id, timing] + rest, [timing] + rest;
    TrimIdentity(id);
    TrimIdentity(timing);
    DigitIsNoHeader(timing);
    assert with[1] == timing && with[2..] == rest && without[1..] == rest;
  }

  /** Blank lines and lines that begin with one of the three keywords are skipped, one at a time. */
  lemma KeywordSkipped(line: string, rest: seq<string>)
    requires || Trim(line) == "" || StartsWith(Trim(line), "WEBVTT")
             || StartsWith(Trim(line), "NOTE") || StartsWith(Trim(line), "STYLE")
    ensures NextCue([line] + rest) == ([], rest)
  {
    hide HasTiming, TakeText, OneCue, Trim, Contains;
    assert ([line] + rest)[1..] == rest;
  }

  lemma {:induction false} WordBeforeSpace(b: string, x: string)
    requires StampChars(b)
    ensures FirstWord(b + " " + x) == b
  {
    var s := b + " " + x;
    if b != [] {
      WordBeforeSpace(b[1..], x);
      assert s[0] == b[0] && s[1..] == b[1..] + " " + x;
    }
  }

  /** What follows the end time on a timing line is ignored, as long as it holds no `>`. */
  lemma SettingsIgnored(c: Cue, settings: string, rows: seq<string>)
    requires c.endMs < 360_000_000 && Trimmed(settings) && '>' !in settings && CueText(rows) != ""
    ensures HasTiming(TimingLine(c) + " " + settings)
    ensures OneCue(TimingLine(c) + " " + settings, rows)
         == [ParsedCue(Some(c.startMs), Some(c.endMs), CueText(rows))]
  {
    hide CueText, FmtTsVtt, ParseVttTimestamp, Sides, Trim, FirstWord, HasTiming, StampLength;
    var a, b := FmtTsVtt(c.startMs), FmtTsVtt(c.endMs);
    var tail := b + " " + settings;
    PrintedStampChars(c.startMs);
    PrintedStampChars(c.endMs);
    LongerStamp(c.endMs, " " + settings);
    assert b + (" " + settings) == tail;
    StartHasTiming(c.startMs, tail);
    assert TimingLine(c) + " " + settings == a + (" --> " + tail) == a + " --> " + tail;
    LineSides(a, tail);
    SideTrimmed(a);
    TailTrimmed(b, settings);
    WordBeforeSpace(b, settings);
    StampRoundTrip(c.startMs);
    StampRoundTrip(c.endMs);
  }

  lemma TailTrimmed(b: string, settings: string)
    requires StampChars(b) && b != [] && Trimmed(settings)
    ensures Trim(" " + (b + " " + settings)) == b + " " + settings
  {
    var t := b + " " + settings;
    LastChar(b + " ", settings);
    assert t[0] == b[0];
    TrimLeftOver(" ", t);
    TrimIdentity(t);
  }

  lemma LongerStamp(ms: nat, tail: string)
    requires ms < 360_000_000
    ensures StampLength(FmtTsVtt(ms) + tail) > 0
  {
    hide StampLength;
    StampPieces(ms);
    PadWidth(ms / 3_600_000);
    PadWidth((ms / 60_000) % 60);
    PadWidth((ms / 1000) % 60);
    PadWidth(ms % 1000);
    TwelveHere(Pad(2, ms / 3_600_000), Pad(2, (ms / 60_000) % 60), Pad(2, (ms / 1000) % 60), Pad(3, ms % 1000), tail);
  }

  /** A time without hours is read as minutes and seconds. */
  lemma ShortTime(m: nat, s: nat, f: nat)
    requires f < 1000
    ensures ParseVttTimestamp(Pad(2, m) + [':'] + (Pad(2, s) + ['.'] + Pad(3, f))) == Some(m * 60_000 + s * 1000 + f)
  {
    hide Number, Trim, Value, ToMs, DecimalValue, SplitOn, Pad;
    PadValue(2, m);
    PadValue(2, s);
    PadValue(3, f);
    PadWidth(f);
    var mm, last := Pad(2, m), Pad(2, s) + ['.'] + Pad(3, f);
    var ts := mm + [':'] + last;
    ShortChars(mm, Pad(2, s), Pad(3, f));
    StampTrimmed(ts);
    OnlyDigits(mm, ':');
    OnlyDigits(Pad(2, s), ':');
    OnlyDigits(Pad(3, f), ':');
    SplitOnFirst(mm, ':', last);
    SplitOnFirst(last, ':', []);
    NumberOfDigits(mm);
    NumberOfDecimal(Pad(2, s), Pad(3, f));
    Thousandths(Pad(2, s), Pad(3, f));
    Seconds(0, m, s, f);
  }

  lemma ShortChars(mm: string, ss: string, ff: string)
    requires AllDigits(mm) && AllDigits(ss) && AllDigits(ff) && mm != []
    ensures StampChars(mm + [':'] + (ss + ['.'] + ff))
  {}
}
