/** Which texts the WebVTT round trip carries: exactly those that the parser can give. */
module VttTexts {
  import opened Text
  import opened Vtt
  import opened VttRoundTrip

  // ----- Stripping and trimming -----

  lemma {:induction false} StripChars(s: string, c: char)
    requires c in StripTags(s)
    ensures c in s
    decreases |s|
  {
    var k := IndexOf(s[1..], '>');
    if s[0] == '<' && 1 <= k < |s| - 1 {
      StripChars(s[k + 2..], c);
    } else if c != s[0] {
      StripChars(s[1..], c);
    }
  }

  lemma TagFreeCons(c: char, s: string)
    requires TagFree(s) && (c == '<' ==> '>' !in s || s[0] == '>')
    ensures TagFree([c] + s)
  {
    var t := [c] + s;
    forall i, j | 0 <= i && i + 1 < j < |t| && t[i] == '<' && t[i + 1] != '>' ensures t[j] != '>' {
      assert t[j] == s[j - 1] && t[i + 1] == s[i];
      if i > 0 {
        assert t[i] == s[i - 1];
      }
    }
  }

  /** Stripping leaves no tag: none comes about by joining what was around one. */
  lemma {:induction false} StripTagFree(s: string)
    ensures TagFree(StripTags(s))
    decreases |s|
  {
    hide TagFree;
    if s == [] {
      assert TagFree("") by { TagFreeNone(); }
    } else {
      var k := IndexOf(s[1..], '>');
      if s[0] == '<' && 1 <= k < |s| - 1 {
        StripTagFree(s[k + 2..]);
      } else {
        StripTagFree(s[1..]);
        var r := StripTags(s[1..]);
        if s[0] == '<' && '>' in r {
          StripChars(s[1..], '>');
          assert k < |s| - 1;
          assert k == 0 && s[1..][0] == '>';
          assert r == ['>'] + StripTags(s[1..][1..]);
        }
        TagFreeCons(s[0], r);
      }
    }
  }

  lemma TagFreeNone()
    ensures TagFree("")
  {}

  lemma TagFreePart(s: string, i: nat, j: nat)
    requires TagFree(s) && i <= j <= |s|
    ensures TagFree(s[i..j])
  {
    var t := s[i..j];
    forall p, q | 0 <= p && p + 1 < q < |t| && t[p] == '<' && t[p + 1] != '>' ensures t[q] != '>' {
      assert s[p + i] == t[p] && s[p + i + 1] == t[p + 1] && s[q + i] == t[q];
    }
  }

  // ----- What the parser gives -----

  ghost predicate NoBreaks(lines: seq<string>) {
    forall l :: l in lines ==> '\n' !in l
  }

  lemma {:induction false} SplitNoBreaks(s: string)
    ensures NoBreaks(SplitLines(s))
    decreases |s|
  {
    var k := IndexOf(s, '\n');
    if k < |s| {
      SplitNoBreaks(s[k + 1..]);
    } else {
      assert s[..k] == s;
    }
  }

  lemma {:induction false} JoinNoBreaks(texts: seq<string>)
    requires NoBreaks(texts)
    ensures '\n' !in Join(texts, " ")
  {
    if |texts| > 1 {
      JoinNoBreaks(texts[1..]);
    }
  }

  lemma {:induction false} TextNoBreaks(lines: seq<string>)
    requires NoBreaks(lines)
    ensures NoBreaks(TakeText(lines).0)
  {
    if lines != [] {
      TextNoBreaks(lines[1..]);
      if '\n' in Trim(lines[0]) {
        TrimChars(lines[0], '\n');
      }
    }
  }

  lemma CueTextPrintable(texts: seq<string>)
    requires NoBreaks(texts) && CueText(texts) != ""
    ensures Printable(CueText(texts))
  {
    hide TagFree, Trimmed;
    var s := StripTags(Join(texts, " "));
    JoinNoBreaks(texts);
    StripTagFree(Join(texts, " "));
    if '\n' in s {
      StripChars(Join(texts, " "), '\n');
    }
    var i, j := TrimPart(s);
    TagFreePart(s, i, j);
    TrimTwice(s);
  }

  lemma {:induction false} ParsedPrintable(lines: seq<string>, c: ParsedCue)
    requires NoBreaks(lines) && c in CuesOf(lines)
    ensures Printable(c.text)
    decreases |lines|
  {
    hide Printable, HasTiming, HeaderLine, TakeText, CueText, Contains, Trim, Sides;
    var (found, rest) := NextCue(lines);
    RestNoBreaks(lines);
    if c in found {
      FoundPrintable(lines, c);
    } else {
      ParsedPrintable(rest, c);
    }
  }

  lemma {:induction false} RestOfText(lines: seq<string>)
    requires NoBreaks(lines)
    ensures NoBreaks(TakeText(lines).1)
  {
    if lines != [] {
      RestOfText(lines[1..]);
    }
  }

  lemma RestNoBreaks(lines: seq<string>)
    requires NoBreaks(lines) && lines != []
    ensures NoBreaks(NextCue(lines).1)
  {
    hide HasTiming, HeaderLine, TakeText, OneCue, Contains, Trim;
    RestOfText(lines[1..]);
    if |lines| > 1 {
      RestOfText(lines[2..]);
    }
  }

  lemma FoundPrintable(lines: seq<string>, c: ParsedCue)
    requires NoBreaks(lines) && lines != [] && c in NextCue(lines).0
    ensures Printable(c.text)
  {
    hide HasTiming, HeaderLine, TakeText, CueText, Contains, Trim, Sides, Printable;
    forall texts | NoBreaks(texts) && CueText(texts) != "" ensures Printable(CueText(texts)) {
      CueTextPrintable(texts);
    }
    TextNoBreaks(lines[1..]);
    if |lines| > 1 {
      TextNoBreaks(lines[2..]);
    }
  }

  // ----- The exact round trip -----

  /** For any cues whatever, the round trip is exact if and only if every text is one trimmed, non-blank line without tags
      and every cue ends before 100 hours. */
  lemma RoundTripIffCarried(cues: seq<Cue>, formatHint: Option<Format>)
    requires formatHint != Some(Srv3) && formatHint != Some(Srv1)
    ensures ParsedBody(Printed(cues), formatHint) == Cues(AsParsed(cues))
       <==> forall i :: 0 <= i < |cues| ==> Printable(cues[i].text) && Readable(cues[i])
  {
    hide Printable, Readable, Printed, CuesOf, BodyLines, GoesToWebvtt, Trim;
    if ParsedBody(Printed(cues), formatHint) == Cues(AsParsed(cues)) {
      forall i | 0 <= i < |cues| ensures Printable(cues[i].text) {
        assert AsParsed(cues)[i].text == cues[i].text && AsParsed(cues)[i] in AsParsed(cues);
        var t := Trim(Printed(cues));
        BodyNoBreaks(t);
        ParsedPrintable(BodyLines(t), AsParsed(cues)[i]);
      }
      RoundTripIff(cues, formatHint);
    } else if forall i :: 0 <= i < |cues| ==> Printable(cues[i].text) && Readable(cues[i]) {
      RoundTripIff(cues, formatHint);
    }
  }

  lemma BodyNoBreaks(body: string)
    ensures NoBreaks(BodyLines(body))
  {
    SplitNoBreaks(Trim(if body != [] && body[0] == '\U{FEFF}' then body[1..] else body));
  }
}
