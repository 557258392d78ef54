/** What the evaluation metrics compare: the words of a text, and its characters without white space. */
module Normalize {
  import opened Text

  /** Lower-casing as a function of the whole text. It is only taken to commute with `trim`, since it neither makes
      nor drops white space. */
  type Lower = string -> string

  ghost predicate KeepsEnds(lower: Lower) {
    forall s: string :: lower(Trim(s)) == Trim(lower(s))
  }

  function NormalizeWhitespace(lower: Lower, text: string): string {
    Collapse(lower(Trim(text)))
  }

  function TokenizeWords(lower: Lower, text: string): seq<string> {
    var normalized := NormalizeWhitespace(lower, text);
    if normalized == "" then [] else SplitOn(normalized, ' ')
  }

  /** `replace(/ /g, "")` of the normalized text. */
  function Squeezed(lower: Lower, text: string): string {
    WithoutBlanks(NormalizeWhitespace(lower, text))
  }

  function WithoutBlanks(s: string): string {
    if s == [] then [] else (if s[0] == ' ' then [] else [s[0]]) + WithoutBlanks(s[1..])
  }

  // ----- Tokens are words -----

  lemma SplitCons(c: char, s: string)
    requires c != ' '
    ensures SplitOn([c] + s, ' ') == [[c] + SplitOn(s, ' ')[0]] + SplitOn(s, ' ')[1..]
  {
    hide IndexOf, SplitOn;
    var k, t := IndexOf(s, ' '), [c] + s;
    IndexCons(c, s);
    SplitOnStep(s, ' ');
    SplitOnStep(t, ' ');
    if k < |s| {
      assert t[..k + 1] == [c] + s[..k] && t[k + 2..] == s[k + 1..];
      var rest := SplitOn(s[k + 1..], ' ');
      assert ([s[..k]] + rest)[1..] == rest;
    }
  }

  lemma IndexCons(c: char, s: string)
    requires c != ' '
    ensures IndexOf([c] + s, ' ') == IndexOf(s, ' ') + 1
  {
    assert ([c] + s)[1..] == s;
  }

  lemma SplitBlank(s: string)
    ensures SplitOn([' '] + s, ' ') == [""] + SplitOn(s, ' ')
  {
    assert ([' '] + s)[1..] == s;
  }

  lemma TrimLeftEnd(s: string)
    requires s != [] && !IsSpace(s[|s| - 1])
    ensures TrimLeft(s) != [] && TrimLeft(s)[|TrimLeft(s)| - 1] == s[|s| - 1]
  {}

  /** Cutting a collapsed text at its blanks gives its words, after an empty piece when it begins with white space. */
  lemma {:induction false} SplitCollapsed(s: string)
    requires s != [] && !IsSpace(s[|s| - 1])
    ensures SplitOn(Collapse(s), ' ') == (if IsSpace(s[0]) then [""] else []) + Words(s)
    decreases |s|
  {
    hide IsSpace, SplitOn, Collapse, Words;
    var c, t := s[0], s[1..];
    CollapseStep(s);
    if IsSpace(c) {
      TrimLeftEnd(s);
      SplitCollapsed(TrimLeft(s));
      WordsTrimLeft(s);
      SplitBlank(Collapse(TrimLeft(s)));
    } else {
      WordsStep(s);
      Blank();
      SplitCons(c, Collapse(t));
      if t == [] {
        assert [c] + "" == [c] && [[c]] + [""][1..] == [[c]];
      } else {
        assert t[|t| - 1] == s[|s| - 1];
        SplitCollapsed(t);
        var parts := SplitOn(Collapse(t), ' ');
        assert t[0] == s[1] && [c] + "" == [c];
        if IsSpace(t[0]) {
          assert parts[0] == "" && parts[1..] == Words(t);
        } else {
          assert parts == Words(t);
        }
      }
    }
  }

  lemma CollapseStep(s: string)
    requires s != []
    ensures Collapse(s) == if IsSpace(s[0]) then [' '] + Collapse(TrimLeft(s)) else [s[0]] + Collapse(s[1..])
  {}

  lemma WordsStep(s: string)
    requires s != [] && !IsSpace(s[0])
    ensures |s| == 1 ==> Words(s) == [[s[0]]]
    ensures |s| > 1 && IsSpace(s[1]) ==> Words(s) == [[s[0]]] + Words(s[1..])
    ensures |s| > 1 && !IsSpace(s[1]) ==>
              Words(s[1..]) != [] && Words(s) == [[s[0]] + Words(s[1..])[0]] + Words(s[1..])[1..]
  {}

  lemma Blank()
    ensures IsSpace(' ') && Collapse("") == "" && SplitOn("", ' ') == [""]
  {}

  /** The tokens of a text are the words of the lower-cased text, whatever white space stands around and between them. */
  lemma TokensAreWords(lower: Lower, text: string)
    requires KeepsEnds(lower)
    ensures TokenizeWords(lower, text) == Words(lower(text))
  {
    var s := lower(Trim(text));
    TrimTwice(lower(text));
    WordsTrimLeft(lower(text));
    WordsTrimRight(TrimLeft(lower(text)));
    if s != "" {
      WordsCollapse(s);
      SplitCollapsed(s);
    }
  }

  // ----- Squeezed texts -----

  /** The characters that are not white space, in order. */
  ghost function Visible(s: string): string {
    if s == [] then [] else (if IsSpace(s[0]) then [] else [s[0]]) + Visible(s[1..])
  }

  lemma {:induction false} VisibleIff(s: string, c: char)
    ensures c in Visible(s) <==> c in s && !IsSpace(c)
  {
    hide IsSpace;
    if s != [] {
      VisibleIff(s[1..], c);
      assert s == [s[0]] + s[1..];
    }
  }

  lemma {:induction false} VisibleTrimLeft(s: string)
    ensures Visible(TrimLeft(s)) == Visible(s)
  {
    if s != [] && IsSpace(s[0]) {
      VisibleTrimLeft(s[1..]);
    }
  }

  lemma {:induction false} VisibleSnoc(s: string, c: char)
    requires IsSpace(c)
    ensures Visible(s + [c]) == Visible(s)
  {
    if s != [] {
      VisibleSnoc(s[1..], c);
      assert (s + [c])[1..] == s[1..] + [c];
    }
  }

  lemma {:induction false} VisibleTrimRight(s: string)
    ensures Visible(TrimRight(s)) == Visible(s)
    decreases |s|
  {
    if s != [] && IsSpace(s[|s| - 1]) {
      var n := |s| - 1;
      VisibleTrimRight(s[..n]);
      VisibleSnoc(s[..n], s[n]);
      assert s == s[..n] + [s[n]];
    }
  }

  lemma {:induction false} WithoutBlanksCollapse(s: string)
    ensures WithoutBlanks(Collapse(s)) == Visible(s)
    decreases |s|
  {
    if s != [] {
      if IsSpace(s[0]) {
        WithoutBlanksCollapse(TrimLeft(s));
        VisibleTrimLeft(s);
      } else {
        WithoutBlanksCollapse(s[1..]);
      }
    }
  }

  /** What is compared character by character is the lower-cased text without any of its white space. */
  lemma SqueezedIsVisible(lower: Lower, text: string)
    requires KeepsEnds(lower)
    ensures Squeezed(lower, text) == Visible(lower(text))
  {
    WithoutBlanksCollapse(lower(Trim(text)));
    VisibleTrimLeft(lower(text));
    VisibleTrimRight(TrimLeft(lower(text)));
  }
}
