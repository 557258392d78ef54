/** What the LRC parser makes of a line, whatever accepted form its time stamps have. */
module LrcLines {
  import opened Text
  import opened Vtt
  import opened Lrc
  import opened LrcRoundTrip

  /** A time stamp as it may be written: one or two minute digits, two for the seconds, and up to three for a fraction of a
      second after a dot or a colon. */
  datatype Mark = Mark(mm: string, ss: string, sep: char, frac: string)

  predicate MarkOk(k: Mark) {
    && AllDigits(k.mm) && AllDigits(k.ss) && AllDigits(k.frac)
    && 1 <= |k.mm| <= 2 && |k.ss| == 2 && |k.frac| <= 3 && (k.sep == '.' || k.sep == ':')
  }

  function FractionText(k: Mark): string {
    (if k.frac == "" then "" else [k.sep] + k.frac) + "]"
  }

  function MarkText(k: Mark): string {
    "[" + k.mm + ":" + k.ss + FractionText(k)
  }

  lemma FractionMatched(k: Mark, s: string, n: nat, tail: string)
    requires MarkOk(k) && 0 < n <= |s| && s[n..] == FractionText(k) + tail
    ensures Fraction(s, k.mm, k.ss, n) == Some(Stamp(k.mm, k.ss, k.frac, n + |FractionText(k)|))
  {
    var rest := s[n..];
    if |k.frac| == 0 {
      assert rest[0] == ']' && Shape(rest, "]");
    } else {
      assert rest[0] == k.sep && rest[1] == k.frac[0] && rest[|k.frac| + 1] == ']';
      assert !Shape(rest, "]") by { assert "]"[0] == ']'; }
      if |k.frac| == 1 {
        FractionOfOne(k, rest);
      } else {
        assert rest[2] == k.frac[1];
        assert !Shape(rest, ".d]") by { assert ".d]"[2] == ']'; }
        assert !Shape(rest, ":d]") by { assert ":d]"[2] == ']'; }
        if |k.frac| == 2 {
          FractionOfTwo(k, rest);
        } else {
          assert rest[3] == k.frac[2];
          assert !Shape(rest, ".dd]") by { assert ".dd]"[3] == ']'; }
          assert !Shape(rest, ":dd]") by { assert ":dd]"[3] == ']'; }
          FractionOfThree(k, rest);
        }
      }
    }
  }

  lemma FractionOfOne(k: Mark, rest: string)
    requires MarkOk(k) && |k.frac| == 1 && |rest| >= 3
    requires rest[0] == k.sep && rest[1] == k.frac[0] && rest[2] == ']'
    ensures (Shape(rest, ".d]") || Shape(rest, ":d]")) && rest[1..2] == k.frac
  {
    assert k.sep == '.' ==> Shape(rest, ".d]");
    assert k.sep == ':' ==> Shape(rest, ":d]");
  }

  lemma FractionOfTwo(k: Mark, rest: string)
    requires MarkOk(k) && |k.frac| == 2 && |rest| >= 4
    requires rest[0] == k.sep && rest[1] == k.frac[0] && rest[2] == k.frac[1] && rest[3] == ']'
    ensures (Shape(rest, ".dd]") || Shape(rest, ":dd]")) && rest[1..3] == k.frac
  {
    assert k.sep == '.' ==> Shape(rest, ".dd]");
    assert k.sep == ':' ==> Shape(rest, ":dd]");
  }

  lemma FractionOfThree(k: Mark, rest: string)
    requires MarkOk(k) && |k.frac| == 3 && |rest| >= 5
    requires rest[0] == k.sep && rest[1] == k.frac[0] && rest[2] == k.frac[1] && rest[3] == k.frac[2] && rest[4] == ']'
    ensures (Shape(rest, ".ddd]") || Shape(rest, ":ddd]")) && rest[1..4] == k.frac
  {
    assert k.sep == '.' ==> Shape(rest, ".ddd]");
    assert k.sep == ':' ==> Shape(rest, ":ddd]");
  }

  lemma MarkMatched(k: Mark, tail: string)
    requires MarkOk(k)
    ensures StampAt(MarkText(k) + tail) == Some(Stamp(k.mm, k.ss, k.frac, |MarkText(k)|))
  {
    hide FractionText, Fraction;
    var s, f := MarkText(k) + tail, FractionText(k) + tail;
    assert s == "[" + k.mm + ":" + k.ss + f;
    if |k.mm| == 2 {
      assert s[0] == '[' && s[1] == k.mm[0] && s[2] == k.mm[1] && s[3] == ':' && s[4] == k.ss[0] && s[5] == k.ss[1];
      assert Shape(s, "[dd:dd") && s[1..3] == k.mm && s[4..6] == k.ss && s[6..] == f;
      FractionMatched(k, s, 6, tail);
    } else {
      assert s[0] == '[' && s[1] == k.mm[0] && s[2] == ':' && s[3] == k.ss[0] && s[4] == k.ss[1];
      assert !Shape(s, "[dd:dd") by { assert "[dd:dd"[2] == 'd'; }
      assert Shape(s, "[d:dd") && s[1..2] == k.mm && s[3..5] == k.ss && s[5..] == f;
      FractionMatched(k, s, 5, tail);
    }
  }

  /** `ms` milliseconds are what the mark says: its minutes, seconds, and decimal fraction of a second. */
  predicate MarkMeans(k: Mark, ms: nat)
    requires MarkOk(k)
  {
    var whole := (Value(k.mm) * 60 + Value(k.ss)) * 1000;
    ms >= whole && (ms - whole) * Pow10(|k.frac|) == Value(k.frac) * 1000
  }

  lemma MarkTime(k: Mark)
    requires MarkOk(k)
    ensures MarkMeans(k, ParseTimestampMs(Stamp(k.mm, k.ss, k.frac, |MarkText(k)|)))
  {
    assert Pow10(0) == 1 && Pow10(1) == 10 && Pow10(2) == 100 && Pow10(3) == 1000;
    assert k.frac == "" ==> Value(k.frac) == 0;
  }

  function Marks(ks: seq<Mark>): string {
    if ks == [] then "" else MarkText(ks[0]) + Marks(ks[1..])
  }

  lemma NoMarks(text: string)
    ensures Marks([]) + text == text
  {}

  lemma MarksCons(ks: seq<Mark>, text: string)
    requires ks != []
    ensures Marks(ks) + text == MarkText(ks[0]) + (Marks(ks[1..]) + text)
  {}

  lemma {:induction false} MarksRead(ks: seq<Mark>, text: string)
    requires StampFree(text) && forall i :: 0 <= i < |ks| ==> MarkOk(ks[i])
    ensures StripStamps(Marks(ks) + text) == text
    ensures |Stamps(Marks(ks) + text)| == |ks|
    ensures forall i :: 0 <= i < |ks| ==> MarkMeans(ks[i], Stamps(Marks(ks) + text)[i])
  {
    hide StampAt, MarkText, MarkMeans, MarkOk, Stamps, StripStamps, Marks, StampFree;
    if ks == [] {
      NoMarks(text);
      NoStamps(text);
    } else {
      var k, s, tail := ks[0], Marks(ks) + text, Marks(ks[1..]) + text;
      MarksRead(ks[1..], text);
      MarksCons(ks, text);
      MarkMatched(k, tail);
      var st := Stamp(k.mm, k.ss, k.frac, |MarkText(k)|);
      FirstStamp(s, st);
      assert s[st.length..] == tail;
      MarkTime(k);
      forall i | 0 <= i < |ks| ensures MarkMeans(ks[i], Stamps(s)[i]) {
        if i > 0 {
          assert ks[i] == ks[1..][i - 1] && Stamps(s)[i] == Stamps(tail)[i - 1];
        }
      }
    }
  }

  /** A line of any stamps and a text gives one entry for each stamp, in order, at the time that it means, with the text. */
  lemma LineOfMarks(ks: seq<Mark>, text: string)
    requires Trimmed(text) && StampFree(text) && forall i :: 0 <= i < |ks| ==> MarkOk(ks[i])
    ensures |LineEntries(Marks(ks) + text)| == |ks|
    ensures forall i :: 0 <= i < |ks| ==>
              && LineEntries(Marks(ks) + text)[i].text == text
              && MarkMeans(ks[i], LineEntries(Marks(ks) + text)[i].startMs)
  {
    hide Stamps, StripStamps, MarkMeans, MarkOk, Marks;
    MarksRead(ks, text);
    TrimIdentity(text);
  }
}
