/** WebVTT: the companion's printer against the extension's parser. */
module Vtt {
  import opened Basics
  import opened Text

  datatype Cue = Cue(startMs: nat, endMs: nat, text: string)

  // ----- The printer -----

  /** `fmt_ts`. */
  function FmtTs(ms: nat): string {
    Pad(2, ms / 3_600_000) + ":" + Pad(2, (ms / 60_000) % 60) + ":" + Pad(2, (ms / 1000) % 60) + "," + Pad(3, ms % 1000)
  }

  function ReplaceChar(s: string, a: char, b: char): string {
    seq(|s|, i requires 0 <= i < |s| => if s[i] == a then b else s[i])
  }

  /** `fmt_ts_vtt`. */
  function FmtTsVtt(ms: nat): string {
    ReplaceChar(FmtTs(ms), ',', '.')
  }

  function TimingLine(c: Cue): string {
    FmtTsVtt(c.startMs) + " --> " + FmtTsVtt(c.endMs)
  }

  function Block(c: Cue): string {
    TimingLine(c) + "\n" + c.text
  }

  ghost function Printed(cues: seq<Cue>): string {
    if cues == [] then "WEBVTT\n\n" else Printed(cues[..|cues| - 1]) + (Block(cues[|cues| - 1]) + "\n\n")
  }

  /** `to_vtt`. */
  method ToVtt(cues: seq<Cue>) returns (out: string)
    ensures out == Printed(cues)
  {
    out := "WEBVTT\n\n";
    for i := 0 to |cues|
      invariant out == Printed(cues[..i])
    {
      assert cues[..i + 1][..i] == cues[..i];
      out := out + (Block(cues[i]) + "\n\n");
    }
    assert cues[..|cues|] == cues;
  }

  // ----- Numbers and time stamps in the parser -----

  function Pow10(n: nat): (r: nat)
    ensures r > 0
  {
    if n == 0 then 1 else 10 * Pow10(n - 1)
  }

  /** The number that the digits before and after the decimal point denote. */
  function DecimalValue(whole: string, frac: string): real
    requires AllDigits(whole) && AllDigits(frac)
  {
    Value(whole) as real + Value(frac) as real / Pow10(|frac|) as real
  }

  /** `Number` on the empty string and on unsigned decimal literals; `None` is NaN. */
  function Number(s: string): Option<real> {
    var t := Trim(s);
    var k := IndexOf(t, '.');
    var whole, frac := t[..k], if k == |t| then "" else t[k + 1..];
    if t == "" then Some(0.0)
    else if AllDigits(whole) && AllDigits(frac) && |whole| + |frac| > 0 then
      Some(DecimalValue(whole, frac))
    else None
  }

  /** `parseVttTimestamp`. */
  function ParseVttTimestamp(ts: string): Option<int> {
    var parts := SplitOn(Trim(ts), ':');
    if |parts| == 3 then ToMs(Number(parts[0]), Number(parts[1]), Number(parts[2]))
    else if |parts| == 2 then ToMs(Some(0.0), Number(parts[0]), Number(parts[1]))
    else ToMs(Some(0.0), Some(0.0), Number(parts[0]))
  }

  function ToMs(h: Option<real>, m: Option<real>, s: Option<real>): Option<int> {
    if h.Some? && m.Some? && s.Some? then Some(Round((h.value * 3600.0 + m.value * 60.0 + s.value) * 1000.0)) else None
  }

  // ----- The timing pattern -----

  /** The length of `(\d{1,2}:)?\d{2}:\d{2}\.\d{3}` at the start of `s`, or 0. The three shapes exclude each other. */
  function StampLength(s: string): (n: nat)
    ensures n <= |s|
  {
    if Shape(s, "dd:dd:dd.ddd") then 12
    else if Shape(s, "d:dd:dd.ddd") then 11
    else if Shape(s, "dd:dd.ddd") then 9
    else 0
  }

  const ARROW := "-->"

  /** Whether the timing pattern matches at the start of `s`. */
  predicate TimingHere(s: string) {
    var n := StampLength(s);
    n > 0 &&
    var rest := TrimLeft(s[n..]);
    StartsWith(rest, ARROW) && StampLength(TrimLeft(rest[3..])) > 0
  }

  /** Whether the timing pattern matches anywhere in `s`. */
  predicate HasTiming(s: string) {
    TimingHere(s) || (s != [] && HasTiming(s[1..]))
  }

  // ----- The parser -----

  datatype ParsedCue = ParsedCue(startMs: Option<int>, endMs: Option<int>, text: string)

  /** `replace(/<[^>]+>/g, "")`. */
  function StripTags(s: string): string
    decreases |s|
  {
    if s == [] then []
    else
      var k := IndexOf(s[1..], '>');
      if s[0] == '<' && 1 <= k < |s| - 1 then StripTags(s[k + 2..]) else [s[0]] + StripTags(s[1..])
  }

  /** `split(/\s+/)[0]` of a trimmed text. */
  function FirstWord(s: string): string {
    if s == [] || IsSpace(s[0]) then [] else [s[0]] + FirstWord(s[1..])
  }

  /** The two sides of `split("-->")` that the parser reads. */
  function Sides(line: string): (string, string) {
    match IndexOfString(line, ARROW)
    case None => (line, "")
    case Some(k) =>
      var rest := line[k + 3..];
      var l := IndexOfString(rest, ARROW);
      (line[..k], if l.None? then rest else rest[..l.value])
  }

  predicate HeaderLine(line: string) {
    line == "" || StartsWith(line, "WEBVTT") || StartsWith(line, "NOTE") || StartsWith(line, "STYLE")
  }

  /** The lines up to the first blank one, trimmed, and what follows it. */
  function TakeText(lines: seq<string>): (r: (seq<string>, seq<string>))
    ensures |r.1| <= |lines|
  {
    if lines == [] then ([], [])
    else if Trim(lines[0]) == "" then ([], lines[1..])
    else
      var (texts, rest) := TakeText(lines[1..]);
      ([Trim(lines[0])] + texts, rest)
  }

  function CueText(texts: seq<string>): string {
    Trim(StripTags(Join(texts, " ")))
  }

  /** One turn of the parser's loop: the cues it adds (at most one) and the lines it leaves. */
  function NextCue(lines: seq<string>): (r: (seq<ParsedCue>, seq<string>))
    requires lines != []
    ensures |r.1| < |lines|
  {
    var line := Trim(lines[0]);
    if HeaderLine(line) then ([], lines[1..])
    else
      var idLine := !Contains(line, ARROW) && |lines| > 1 && Contains(lines[1], ARROW);
      var timing, rest := if idLine then Trim(lines[1]) else line, if idLine then lines[2..] else lines[1..];
      if !HasTiming(timing) then ([], rest)
      else
        var (texts, after) := TakeText(rest);
        (OneCue(timing, texts), after)
  }

  function OneCue(timing: string, texts: seq<string>): seq<ParsedCue> {
    var (a, b) := Sides(timing);
    if CueText(texts) == "" then []
    else [ParsedCue(ParseVttTimestamp(FirstWord(Trim(a))), ParseVttTimestamp(FirstWord(Trim(b))), CueText(texts))]
  }

  /** The cues of the remaining lines. */
  ghost function CuesOf(lines: seq<string>): seq<ParsedCue>
    decreases |lines|
  {
    if lines == [] then [] else NextCue(lines).0 + CuesOf(NextCue(lines).1)
  }

  function BodyLines(body: string): seq<string> {
    SplitLines(Trim(if body != [] && body[0] == '\U{FEFF}' then body[1..] else body))
  }

  /** `parseVttTimedtext`, up to ids and hashes. */
  method ParseVttTimedtext(body: string) returns (cues: seq<ParsedCue>)
    ensures cues == if Trim(body) == "" then [] else CuesOf(BodyLines(body))
  {
    hide Trim, CuesOf, SplitLines;
    cues := [];
    var trimmed := Trim(if body != [] && body[0] == '\U{FEFF}' then body[1..] else body);
    if trimmed == "" {
      BlankBody(body);
      return;
    }
    NonBlankBody(body);
    var lines := SplitLines(trimmed);
    var i := 0;
    while i < |lines|
      invariant 0 <= i <= |lines|
      invariant cues + CuesOf(lines[i..]) == CuesOf(lines)
    {
      var found, next := ReadCue(lines, i);
      CuesOfStep(lines[i..]);
      Assoc(cues, found, CuesOf(lines[next..]));
      cues := cues + found;
      i := next;
    }
    CuesOfStep(lines[i..]);
    assert cues + [] == cues;
  }

  lemma CuesOfStep(lines: seq<string>)
    ensures CuesOf(lines) == if lines == [] then [] else NextCue(lines).0 + CuesOf(NextCue(lines).1)
  {}

  /** One turn of the loop, at line `i`. */
  method ReadCue(lines: seq<string>, i: nat) returns (found: seq<ParsedCue>, next: nat)
    requires i < |lines|
    ensures i < next <= |lines|
    ensures NextCue(lines[i..]) == (found, lines[next..])
  {
    hide HasTiming, TakeText, OneCue, HeaderLine;
    var line := Trim(lines[i]);
    assert lines[i..][1..] == lines[i + 1..];
    if HeaderLine(line) {
      return [], i + 1;
    }
    var at := i;
    var timingLine := line;
    if !Contains(timingLine, ARROW) && i + 1 < |lines| && Contains(lines[i + 1], ARROW) {
      assert lines[i..][2..] == lines[i + 2..];
      at := i + 1;
      timingLine := Trim(lines[at]);
    }
    if !HasTiming(timingLine) {
      return [], at + 1;
    }
    var texts;
    texts, next := TextLines(lines, at + 1);
    found := OneCue(timingLine, texts);
  }

  /** The inner loop: the text lines from line `start`, and the line after the blank one that ends them. */
  method TextLines(lines: seq<string>, start: nat) returns (texts: seq<string>, next: nat)
    requires start <= |lines|
    ensures start <= next <= |lines|
    ensures TakeText(lines[start..]) == (texts, lines[next..])
  {
    hide TakeText, Trim;
    texts, next := [], start;
    ghost var all := TakeText(lines[start..]);
    while next < |lines| && Trim(lines[next]) != ""
      invariant start <= next <= |lines|
      invariant all.0 == texts + TakeText(lines[next..]).0
      invariant all.1 == TakeText(lines[next..]).1
    {
      TakeTextStep(lines, next);
      Assoc(texts, [Trim(lines[next])], TakeText(lines[next + 1..]).0);
      texts := texts + [Trim(lines[next])];
      next := next + 1;
    }
    TakeTextStep(lines, next);
    assert texts + [] == texts;
    if next < |lines| {
      next := next + 1;
    }
  }

  lemma TakeTextStep(lines: seq<string>, i: nat)
    requires i <= |lines|
    ensures i == |lines| ==> lines[i..] == [] && TakeText(lines[i..]) == ([], [])
    ensures i < |lines| && Trim(lines[i]) == "" ==> TakeText(lines[i..]) == ([], lines[i + 1..])
    ensures i < |lines| && Trim(lines[i]) != "" ==>
              TakeText(lines[i..]) == ([Trim(lines[i])] + TakeText(lines[i + 1..]).0, TakeText(lines[i + 1..]).1)
  {
    if i < |lines| {
      assert lines[i..][1..] == lines[i + 1..];
    }
  }

  lemma BlankBody(body: string)
    requires body != [] && body[0] == '\U{FEFF}' ==> Trim(body[1..]) == ""
    requires !(body != [] && body[0] == '\U{FEFF}') ==> Trim(body) == ""
    ensures Trim(body) == ""
  {}

  lemma NonBlankBody(body: string)
    requires body != [] && body[0] == '\U{FEFF}' ==> Trim(body[1..]) != ""
    requires !(body != [] && body[0] == '\U{FEFF}') ==> Trim(body) != ""
    ensures Trim(body) != ""
  {}

  // ----- Format detection -----

  /** What `detectFormat` answers, and what a caller may pass as a hint. */
  datatype Format = Json3 | Srv3 | Srv1 | Webvtt | Unknown

  /** `detectFormat`. */
  function DetectFormat(body: string): Format {
    var t := Trim(body);
    if StartsWith(t, "{") || StartsWith(t, "[") then Json3
    else if Contains(t, "WEBVTT") then Webvtt
    else if Contains(t, "<p ") || Contains(t, "<transcript") || Contains(t, "<?xml") then Srv3
    else Unknown
  }

  /** The cues, or the text that goes to one of the two other parsers. */
  datatype Parsed = Cues(cues: seq<ParsedCue>) | ToJson3(text: string) | ToSrv3(text: string)

  /** `parseTimedtextBody`. */
  method ParseTimedtextBody(body: string, formatHint: Option<Format>) returns (r: Parsed)
    ensures r == ParsedBody(body, formatHint)
  {
    var trimmed := Trim(body);
    if trimmed == "" {
      return Cues([]);
    }
    TrimTwice(body);
    var hint := if formatHint.Some? then formatHint.value else DetectFormat(trimmed);
    match hint {
      case Webvtt =>
        var cues := ParseVttTimedtext(trimmed);
        r := Cues(cues);
      case Srv3 =>
        r := ToSrv3(trimmed);
      case Srv1 =>
        r := ToSrv3(trimmed);
      case _ =>
        if StartsWith(trimmed, "{") {
          return ToJson3(trimmed);
        }
        if Contains(trimmed, "WEBVTT") || Shape(trimmed, "dd:dd") {
          var cues := ParseVttTimedtext(trimmed);
          return Cues(cues);
        }
        r := if Contains(trimmed, "<p ") || Contains(trimmed, "<transcript") then ToSrv3(trimmed) else ToJson3(trimmed);
    }
  }

  /** Whether the hint, or failing that the text's own shape, sends a text to the WebVTT parser. */
  predicate GoesToWebvtt(t: string, hint: Format) {
    hint == Webvtt
    || ((hint == Json3 || hint == Unknown) && !StartsWith(t, "{") && (Contains(t, "WEBVTT") || Shape(t, "dd:dd")))
  }

  predicate GoesToSrv3(t: string, hint: Format) {
    hint == Srv3 || hint == Srv1
    || ((hint == Json3 || hint == Unknown) && !StartsWith(t, "{") && (Contains(t, "<p ") || Contains(t, "<transcript")))
  }

  ghost function ParsedBody(body: string, formatHint: Option<Format>): Parsed {
    var t := Trim(body);
    var hint := formatHint.GetOr(DetectFormat(t));
    if t == "" then Cues([])
    else if GoesToWebvtt(t, hint) then Cues(CuesOf(BodyLines(t)))
    else if GoesToSrv3(t, hint) then ToSrv3(t)
    else ToJson3(t)
  }

  /** Without a hint a text is routed by what it holds. A text that begins with a brace is JSON. Any other one with the
      header's word goes to the WebVTT parser, also when it begins with a bracket; failing that, one with an XML mark to the
      srv parser, where the declaration alone does not count after a bracket; failing that, one that begins like a time to
      the WebVTT parser; and the rest is JSON. */
  lemma RoutedByContent(body: string)
    requires Trim(body) != ""
    ensures var t, r := Trim(body), ParsedBody(body, None);
            var header, paragraph := Contains(t, "WEBVTT"), Contains(t, "<p ") || Contains(t, "<transcript");
            var xml := Contains(t, "<?xml");
            && (r.ToJson3? ==> r.text == t) && (r.ToSrv3? ==> r.text == t) && (r.Cues? ==> r.cues == CuesOf(BodyLines(t)))
            && (r.Cues? <==> t[0] != '{' && (header || (Shape(t, "dd:dd") && !paragraph && !xml)))
            && (r.ToSrv3? <==> t[0] != '{' && !header && (paragraph || (xml && t[0] != '[')))
  {
    hide Contains, CuesOf, BodyLines, Trim;
    TrimTwice(body);
    var t := Trim(body);
    assert StartsWith(t, "{") <==> t[0] == '{' by { assert t[..1] == [t[0]]; }
    assert StartsWith(t, "[") <==> t[0] == '[' by { assert t[..1] == [t[0]]; }
    assert Shape(t, "dd:dd") ==> IsDigit(t[0]) by { assert "dd:dd"[0] == 'd'; }
  }
}
