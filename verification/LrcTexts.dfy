/** Which texts the LRC round trip carries. */
module LrcTexts {
  import opened Text
  import opened StableSort
  import opened Lrc
  import opened LrcRoundTrip
  import VttTexts

  // ----- A stamp's match is local -----

  ghost predicate Agree(s: string, t: string, n: nat) {
    n <= |s| && n <= |t| && s[..n] == t[..n]
  }

  lemma ShapeLocal(s: string, t: string, shape: string)
    requires Shape(s, shape) && Agree(s, t, |shape|)
    ensures Shape(t, shape)
  {
    forall i | 0 <= i < |shape| ensures t[i] == s[i] {
      assert s[..|shape|][i] == s[i] && t[..|shape|][i] == t[i];
    }
  }

  lemma AgreeTail(s: string, t: string, n: nat, k: nat)
    requires Agree(s, t, n) && k <= n
    ensures Agree(s[k..], t[k..], n - k) && Agree(s, t, k)
  {
    assert s[k..][..n - k] == s[..n][k..] && t[k..][..n - k] == t[..n][k..];
    assert s[..k] == s[..n][..k] && t[..k] == t[..n][..k];
  }

  /** The shapes of what follows the seconds in a stamp. */
  const FRACTIONS: seq<string> := ["]", ".d]", ":d]", ".dd]", ":dd]", ".ddd]", ":ddd]"]

  lemma FractionShape(s: string, mm: string, ss: string, n: nat) returns (f: nat)
    requires AllDigits(mm) && AllDigits(ss) && 0 < n <= |s| && Fraction(s, mm, ss, n).Some?
    ensures f < |FRACTIONS| && Shape(s[n..], FRACTIONS[f]) && Fraction(s, mm, ss, n).value.length == n + |FRACTIONS[f]|
  {
    hide Shape;
    var rest := s[n..];
    f := if Shape(rest, "]") then 0
         else if Shape(rest, ".d]") then 1 else if Shape(rest, ":d]") then 2
         else if Shape(rest, ".dd]") then 3 else if Shape(rest, ":dd]") then 4
         else if Shape(rest, ".ddd]") then 5 else 6;
  }

  lemma ShapeFraction(s: string, mm: string, ss: string, n: nat, f: nat)
    requires AllDigits(mm) && AllDigits(ss) && 0 < n <= |s| && f < |FRACTIONS| && Shape(s[n..], FRACTIONS[f])
    ensures Fraction(s, mm, ss, n).Some?
  {
    assert f == 0 || f == 1 || f == 2 || f == 3 || f == 4 || f == 5 || f == 6;
  }

  /** Whether a stamp matches depends on the characters of the match alone, at most eleven. */
  lemma StampLocal(s: string, t: string)
    requires StampAt(s).Some? && Agree(s, t, StampAt(s).value.length)
    ensures StampAt(t).Some? && StampAt(s).value.length <= 11
  {
    hide Fraction;
    var n := StampAt(s).value.length;
    if Shape(s, "[dd:dd") {
      var f := FractionShape(s, s[1..3], s[4..6], 6);
      AgreeTail(s, t, n, 6);
      ShapeLocal(s, t, "[dd:dd");
      ShapeLocal(s[6..], t[6..], FRACTIONS[f]);
      ShapeFraction(t, t[1..3], t[4..6], 6, f);
    } else {
      var f := FractionShape(s, s[1..2], s[3..5], 5);
      AgreeTail(s, t, n, 5);
      ShapeLocal(s, t, "[d:dd");
      ShapeLocal(s[5..], t[5..], FRACTIONS[f]);
      assert t[2] == ':' by { assert "[d:dd"[2] == ':'; }
      assert !Shape(t, "[dd:dd") by { assert "[dd:dd"[2] == 'd'; }
      ShapeFraction(t, t[1..2], t[3..5], 5, f);
    }
  }

  // ----- Finding the first stamp -----

  /** A text without stamps is stamp-free, */
  lemma {:induction false} NoStampsFree(s: string)
    requires Stamps(s) == []
    ensures StampFree(s)
    decreases |s|
  {
    hide StampAt;
    if s == [] {
      NoBracketNoStamp("");
    } else {
      NoStampsFree(s[1..]);
      forall i | 0 <= i <= |s| ensures StampAt(s[i..]).None? {
        if i == 0 {
          assert s[0..] == s;
        } else {
          assert s[1..][i - 1..] == s[i..];
        }
      }
    }
  }

  /** and one with a single stamp is cut into what is before and what is after it. */
  lemma {:induction false} OneStamp(s: string) returns (p: nat, n: nat)
    requires |Stamps(s)| == 1
    ensures p + n <= |s| && n > 0 && StampAt(s[p..]).Some? && StampAt(s[p..]).value.length == n
    ensures forall q :: 0 <= q < p ==> StampAt(s[q..]).None?
    ensures StripStamps(s) == s[..p] + s[p + n..]
    decreases |s|
  {
    hide StampAt;
    var st := StampAt(s);
    assert s[0..] == s;
    if st.Some? {
      p, n := 0, st.value.length;
      NoStampsFree(s[n..]);
      NoStamps(s[n..]);
      assert s[..0] == "";
    } else {
      p, n := OneStamp(s[1..]);
      forall q | 0 <= q < p + 1 ensures StampAt(s[q..]).None? {
        if q > 0 {
          assert s[1..][q - 1..] == s[q..];
        }
      }
      assert s[1..][p..] == s[p + 1..] && s[1..][p + n..] == s[p + 1 + n..];
      assert s[..p + 1] == [s[0]] + s[1..][..p];
      p := p + 1;
    }
  }

  // ----- Lines that are not taken do not come back by accident -----

  /** What stands before a text and has no stamp of its own, apart from a bracket that opens none. */
  lemma {:induction false} StampsAfter(prefix: string, text: string)
    requires '[' !in prefix
    ensures Stamps(prefix + text) == Stamps(text) && StripStamps(prefix + text) == prefix + StripStamps(text)
    decreases |prefix|
  {
    hide StampAt;
    var s := prefix + text;
    if prefix == [] {
      assert s == text;
    } else {
      assert s[0] == prefix[0] && s[1..] == prefix[1..] + text;
      NoBracketNoStamp(s);
      StampsAfter(prefix[1..], text);
    }
  }

  /** A text that is the beginning of `head + (before + after)`, where it is itself `before`, a stamp and `after`, has a
      stamp before that one, if `head` fits. */
  lemma EarlierStamp(text: string, head: string, p: nat, n: nat)
    requires p + n <= |text| && StampAt(text[p..]).Some? && StampAt(text[p..]).value.length == n
    requires 11 <= |head| <= p
    requires text <= head + (text[..p] + text[p + n..])
    ensures StampAt(text[p - |head|..]).Some?
  {
    hide StampAt;
    var q, back := p - |head|, head + (text[..p] + text[p + n..]);
    SelfAgree(text[p..], n);
    StampLocal(text[p..], text[p..]);
    forall i | 0 <= i < n ensures text[q..][i] == text[p..][i] {
      assert text[p + i] == back[p + i] == text[..p][q + i];
    }
    assert text[q..][..n] == text[p..][..n];
    StampLocal(text[p..], text[q..]);
  }

  lemma SelfAgree(s: string, n: nat)
    requires n <= |s|
    ensures Agree(s, s, n)
  {}

  /** No text comes back from a line that begins with a bracket and three digits, at least eleven characters in all. */
  lemma NotGivenBack(mm: string, prefix: string, text: string)
    requires AllDigits(mm) && |mm| >= 3 && |prefix| >= 10 && '[' !in prefix && Agree(prefix, mm, 3)
    requires |Stamps(text)| == 1 && text != ""
    ensures Trim(['['] + prefix + StripStamps(text)) != text
  {
    hide StampAt, Stamps, StripStamps, AllDigits, Agree;
    var head := ['['] + prefix;
    var back := head + StripStamps(text);
    if Trim(back) == text {
      var p, n := OneStamp(text);
      assert TrimLeft(back) == back;
      var j := TrimRightPart(back);
      assert text <= back;
      StampBegins(text[p..]);
      assert text[p] == '[' && back[p] == '[';
      if p >= |head| {
        EarlierStamp(text, head, p, n);
        assert false;
      } else if p > 0 {
        assert false;
      } else {
        assert text[0..] == text;
        DigitsFollow(mm, prefix, text, back);
        assert false;
      }
    }
  }

  lemma StampBegins(s: string)
    requires StampAt(s).Some?
    ensures |s| >= 4 && s[0] == '['
  {}

  lemma DigitsFollow(mm: string, prefix: string, text: string, back: string)
    requires AllDigits(mm) && |mm| >= 3 && Agree(prefix, mm, 3)
    requires text <= back && ['['] + prefix <= back && |text| >= 4 && text[0] == '['
    ensures StampAt(text) == None
  {
    assert prefix[..3][0] == mm[..3][0] && prefix[..3][1] == mm[..3][1] && prefix[..3][2] == mm[..3][2];
    assert text[1] == back[1] == prefix[0] && text[2] == back[2] == prefix[1] && text[3] == back[3] == prefix[2];
    LongStamp(text, mm);
  }

  // ----- One cue -----

  lemma LineBack(mm: string, ss: string, cs: string, text: string)
    requires AllDigits(mm) && AllDigits(ss) && AllDigits(cs) && |mm| >= 2 && |ss| == 2 && |cs| == 2 && text != ""
    requires |Stamps(StampText(mm, ss, cs) + text)| == 1
    requires Trim(StripStamps(StampText(mm, ss, cs) + text)) == text
    ensures |mm| == 2 && StampFree(text)
  {
    hide StampAt, StampFree, Trim;
    var line, prefix := StampText(mm, ss, cs) + text, mm + ":" + ss + "." + cs + "]";
    if |mm| == 2 {
      ShortStamp(mm, ss, cs, text);
      FirstStamp(line, Stamp(mm, ss, cs, 10));
      NoStampsFree(text);
    } else {
      assert line[0] == '[' && line[1] == mm[0] && line[2] == mm[1] && line[3] == mm[2];
      LongStamp(line, mm);
      assert line[1..] == prefix + text;
      BracketFree(mm, ss, cs);
      StampsAfter(prefix, text);
      assert StripStamps(line) == ['['] + (prefix + StripStamps(text)) == ['['] + prefix + StripStamps(text);
      assert prefix[..3] == mm[..3];
      NotGivenBack(mm, prefix, text);
      assert false;
    }
  }

  lemma LineGivesBack(c: Cue)
    requires LineEntries(LrcLine(c)) == [AsLine(c)] && c.text != ""
    ensures Readable(c) && StampFree(c.text)
  {
    hide Stamps, StripStamps, Pad, Trim, StampFree;
    var cs := c.startMs / 10;
    Centiseconds(c.startMs);
    PadWidth(cs / 6000);
    PadWidth(cs / 100 % 60);
    PadWidth(cs % 100);
    PadValue(2, cs / 6000);
    PadValue(2, cs / 100 % 60);
    PadValue(2, cs % 100);
    var line := LrcLine(c);
    assert |LineEntries(line)| == |Stamps(line)| == 1 && LineEntries(line)[0].text == Trim(StripStamps(line));
    LineBack(Pad(2, cs / 6000), Pad(2, cs / 100 % 60), Pad(2, cs % 100), c.text);
  }

  lemma {:induction false} EntryLine(lines: seq<string>, l: ParsedLine) returns (raw: string)
    requires l in AllEntries(lines)
    ensures raw in lines && l in LineEntries(raw)
  {
    hide LineEntries;
    if l in LineEntries(lines[0]) {
      raw := lines[0];
    } else {
      raw := EntryLine(lines[1..], l);
    }
  }

  lemma {:induction false} StripStampsChars(s: string, c: char)
    requires c in StripStamps(s)
    ensures c in s
    decreases |s|
  {
    hide StampAt;
    var st := StampAt(s);
    if st.Some? {
      StripStampsChars(s[st.value.length..], c);
    } else if c != s[0] {
      StripStampsChars(s[1..], c);
    }
  }

  lemma {:induction false} WithTextIn(lines: seq<ParsedLine>, l: ParsedLine)
    requires l in WithText(lines)
    ensures l in lines && l.text != ""
  {
    if !(l == lines[0] && l.text != "") {
      WithTextIn(lines[1..], l);
    }
  }

  /** Every line that the parser gives has one trimmed, non-blank line of text. */
  lemma ParsedText(content: string, l: ParsedLine)
    requires l in ParsedLrc(content)
    ensures Trimmed(l.text) && '\n' !in l.text && l in AllEntries(SplitLines(content))
  {
    hide Trim, Trimmed, SortBy;
    var entries := AllEntries(SplitLines(content));
    WithTextIn(SortBy(entries, StartKey()), l);
    SortCorrect(entries, StartKey());
    assert l in multiset(SortBy(entries, StartKey())) && l in multiset(entries);
    var raw := EntryLine(SplitLines(content), l);
    VttTexts.SplitNoBreaks(content);
    TrimTwice(StripStamps(raw));
    if '\n' in l.text {
      TrimChars(StripStamps(raw), '\n');
      StripStampsChars(raw, '\n');
    }
  }

  lemma OneLineFile(c: Cue)
    requires Trimmed(c.text) && '\n' !in c.text
    ensures AllEntries(SplitLines(Printed([c]))) == LineEntries(LrcLine(c))
  {
    hide LineEntries, LrcLine, SplitLines;
    LineOk(c);
    SplitLine(LrcLine(c), "");
    SplitLine("", "");
    NoLine();
    assert Printed([c]) == LrcLine(c) + "\n" + Printed([c][1..]);
    assert SplitLines(Printed([c])) == [LrcLine(c)] + [""];
    var lines := [LrcLine(c)] + [""];
    assert lines[1..] == [""] && [""][1..] == [];
    assert AllEntries([""]) == LineEntries("") + AllEntries([]);
  }

  lemma OneCueBack(c: Cue)
    requires ParsedLrc(Printed([c])) == [AsLine(c)]
    ensures Readable(c) && Printable(c.text)
  {
    hide Stamps, StripStamps, LrcLine, Readable, Printed, Trim, SplitLines, SortBy, StampFree, WithText, AllEntries, StartKey;
    var l := AsLine(c);
    ParsedText(Printed([c]), l);
    OneLineFile(c);
    var entries := LineEntries(LrcLine(c));
    var sorted := SortBy(entries, StartKey());
    SortCorrect(entries, StartKey());
    forall x | x in sorted ensures x.text != "" {
      assert x in multiset(sorted) && x in multiset(entries);
    }
    AllWithText(sorted);
    assert l in entries && |entries| == |sorted| == 1;
    LineGivesBack(c);
  }

  /** A cue comes back from a file of its own, with its text and its start to 10 ms, if and only if it starts before 100
      minutes and its text is one trimmed, non-blank line without stamps. */
  lemma CueRoundTripIff(c: Cue)
    ensures ParsedLrc(Printed([c])) == [AsLine(c)] <==> Readable(c) && Printable(c.text)
  {
    hide Printable, ParsedLrc, Printed;
    if Readable(c) && Printable(c.text) {
      RoundTripIff([c]);
      assert AsLines([c]) == [AsLine(c)];
    } else if ParsedLrc(Printed([c])) == [AsLine(c)] {
      OneCueBack(c);
    }
  }
}
