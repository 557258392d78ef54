/** LRC lyrics: the companion's printer against the lyrics parser. */
module Lrc {
  import opened Basics
  import opened Text
  import opened StableSort
  import Vtt

  type Cue = Vtt.Cue

  // ----- The printer -----

  function LineStamp(startMs: nat): string {
    var cs := startMs / 10;
    "[" + Pad(2, cs / 6000) + ":" + Pad(2, (cs / 100) % 60) + "." + Pad(2, cs % 100) + "]"
  }

  function LrcLine(c: Cue): string {
    LineStamp(c.startMs) + c.text
  }

  ghost function Printed(cues: seq<Cue>): string {
    if cues == [] then "" else LrcLine(cues[0]) + "\n" + Printed(cues[1..])
  }

  /** `to_lrc`. */
  method ToLrc(cues: seq<Cue>) returns (out: string)
    ensures out == Printed(cues)
  {
    hide LrcLine;
    out := "";
    for i := 0 to |cues|
      invariant out + Printed(cues[i..]) == Printed(cues)
    {
      assert cues[i..][1..] == cues[i + 1..];
      Assoc(out, LrcLine(cues[i]) + "\n", Printed(cues[i + 1..]));
      out := out + (LrcLine(cues[i]) + "\n");
    }
  }

  // ----- The parser -----

  /** A match of `\[(\d{1,2}):(\d{2})(?:[.:](\d{1,3}))?]`; `frac` is empty where the group is absent. */
  datatype Stamp = Stamp(mm: string, ss: string, frac: string, length: nat)

  /** The match at the start of `s`. */
  function StampAt(s: string): (r: Option<Stamp>)
    ensures r.Some? ==> 0 < r.value.length <= |s| && s[0] == '['
    ensures r.Some? ==> AllDigits(r.value.mm) && AllDigits(r.value.ss) && AllDigits(r.value.frac) && |r.value.frac| <= 3
  {
    if Shape(s, "[dd:dd") then Fraction(s, s[1..3], s[4..6], 6)
    else if Shape(s, "[d:dd") then Fraction(s, s[1..2], s[3..5], 5)
    else None
  }

  /** The rest of the match, from position `n` on. */
  function Fraction(s: string, mm: string, ss: string, n: nat): (r: Option<Stamp>)
    requires AllDigits(mm) && AllDigits(ss) && 0 < n <= |s|
    ensures r.Some? ==> 0 < r.value.length <= |s|
    ensures r.Some? ==> AllDigits(r.value.mm) && AllDigits(r.value.ss) && AllDigits(r.value.frac) && |r.value.frac| <= 3
  {
    var rest := s[n..];
    if Shape(rest, "]") then Some(Stamp(mm, ss, "", n + 1))
    else if Shape(rest, ".d]") || Shape(rest, ":d]") then Some(Stamp(mm, ss, rest[1..2], n + 3))
    else if Shape(rest, ".dd]") || Shape(rest, ":dd]") then Some(Stamp(mm, ss, rest[1..3], n + 4))
    else if Shape(rest, ".ddd]") || Shape(rest, ":ddd]") then Some(Stamp(mm, ss, rest[1..4], n + 5))
    else None
  }

  /** `parseTimestampMs`. */
  function ParseTimestampMs(st: Stamp): nat
    requires AllDigits(st.mm) && AllDigits(st.ss) && AllDigits(st.frac) && |st.frac| <= 3
  {
    var ms := if |st.frac| == 1 then Value(st.frac) * 100
              else if |st.frac| == 2 then Value(st.frac) * 10
              else Value(st.frac);
    (Value(st.mm) * 60 + Value(st.ss)) * 1000 + ms
  }

  /** The start times of all matches in a line, left to right. */
  function Stamps(s: string): seq<nat>
    decreases |s|
  {
    if s == [] then []
    else
      var st := StampAt(s);
      if st.Some? then [ParseTimestampMs(st.value)] + Stamps(s[st.value.length..]) else Stamps(s[1..])
  }

  /** The line without its matches. */
  function StripStamps(s: string): string
    decreases |s|
  {
    if s == [] then []
    else
      var st := StampAt(s);
      if st.Some? then StripStamps(s[st.value.length..]) else [s[0]] + StripStamps(s[1..])
  }

  datatype ParsedLine = ParsedLine(startMs: nat, text: string)

  /** The entries that one line of the file gives: one for each stamp. */
  function LineEntries(raw: string): seq<ParsedLine> {
    var text := Trim(StripStamps(raw));
    var stamps := Stamps(raw);
    seq(|stamps|, i requires 0 <= i < |stamps| => ParsedLine(stamps[i], text))
  }

  ghost function AllEntries(lines: seq<string>): seq<ParsedLine> {
    if lines == [] then [] else LineEntries(lines[0]) + AllEntries(lines[1..])
  }

  function WithText(lines: seq<ParsedLine>): seq<ParsedLine> {
    if lines == [] then [] else (if lines[0].text != "" then [lines[0]] else []) + WithText(lines[1..])
  }

  function StartKey(): (key: ParsedLine -> real)
    ensures forall x :: key(x) == x.startMs as real
  {
    (l: ParsedLine) => l.startMs as real
  }

  ghost function ParsedLrc(content: string): seq<ParsedLine> {
    WithText(SortBy(AllEntries(SplitLines(content)), StartKey()))
  }

  /** `parseLrc`. */
  method ParseLrc(content: string) returns (r: seq<ParsedLine>)
    ensures r == ParsedLrc(content)
  {
    hide LineEntries, SortBy, WithText, StartKey;
    var raws := SplitLines(content);
    var lines := [];
    for i := 0 to |raws|
      invariant lines + AllEntries(raws[i..]) == AllEntries(raws)
    {
      assert raws[i..][1..] == raws[i + 1..];
      var entries := ParseLine(raws[i]);
      lines := lines + entries;
    }
    assert lines + [] == lines;
    r := WithText(SortBy(lines, StartKey()));
  }

  /** The loop over the stamps of one line. */
  method ParseLine(raw: string) returns (lines: seq<ParsedLine>)
    ensures lines == LineEntries(raw)
  {
    var textPart := Trim(StripStamps(raw));
    var stamps := Stamps(raw);
    lines := [];
    for k := 0 to |stamps|
      invariant lines == LineEntries(raw)[..k]
    {
      lines := lines + [ParsedLine(stamps[k], textPart)];
    }
  }
}
