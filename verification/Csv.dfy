/** The study-card CSV export against a strict reader of RFC 4180, section 2, with a line feed as record separator. */
module Csv {
  import opened Basics
  import opened Text

  datatype Card = Card(sourceText: string, translationText: Option<string>, tags: seq<string>, due: nat)

  // ----- The printer -----

  predicate NeedsQuotes(s: string) {
    '"' in s || ',' in s || '\n' in s
  }

  /** `replace(/"/g, '""')`. */
  function DoubleQuotes(s: string): string {
    if s == [] then [] else (if s[0] == '"' then "\"\"" else [s[0]]) + DoubleQuotes(s[1..])
  }

  /** `csvEscape`. */
  function Escape(s: string): string {
    if NeedsQuotes(s) then "\"" + DoubleQuotes(s) + "\"" else s
  }

  /** The four values of a card's row. */
  function Fields(c: Card): (fs: seq<string>)
    ensures |fs| == 4
  {
    [c.sourceText, c.translationText.GetOr(""), Join(c.tags, " "), Dec(c.due)]
  }

  const HEADER := "source,translation,tags,due"
  const HEADER_FIELDS := ["source", "translation", "tags", "due"]

  function Row(c: Card): string {
    Escape(c.sourceText) + "," + Escape(c.translationText.GetOr("")) + "," + Escape(Join(c.tags, " ")) + "," + Dec(c.due)
  }

  /** The rows, each after a line feed. */
  ghost function Rows(cards: seq<Card>): string {
    if cards == [] then "" else "\n" + Row(cards[0]) + Rows(cards[1..])
  }

  /** `cardsToCsv`. */
  method CardsToCsv(cards: seq<Card>) returns (out: string)
    ensures out == HEADER + Rows(cards)
  {
    hide Row;
    out := HEADER;
    for i := 0 to |cards|
      invariant out + Rows(cards[i..]) == HEADER + Rows(cards)
    {
      assert cards[i..][1..] == cards[i + 1..];
      Assoc(out, "\n" + Row(cards[i]), Rows(cards[i + 1..]));
      out := out + ("\n" + Row(cards[i]));
    }
    assert out + "" == out;
  }

  // ----- The reader -----

  /** The rest of a quoted field, after its opening quote, and what follows the closing one. */
  ghost function ReadQuoted(s: string): Option<(string, string)> {
    if s == [] then None
    else if s[0] != '"' then Prepend(s[0], ReadQuoted(s[1..]))
    else if |s| > 1 && s[1] == '"' then Prepend('"', ReadQuoted(s[2..]))
    else Some(("", s[1..]))
  }

  ghost function Prepend(c: char, r: Option<(string, string)>): Option<(string, string)> {
    if r.None? then None else Some(([c] + r.value.0, r.value.1))
  }

  /** An unquoted field holds no quote, comma or line feed. */
  ghost function ReadPlain(s: string): Option<(string, string)> {
    if s == [] || s[0] == ',' || s[0] == '\n' then Some(("", s))
    else if s[0] == '"' then None
    else Prepend(s[0], ReadPlain(s[1..]))
  }

  ghost function ReadField(s: string): Option<(string, string)> {
    if s != [] && s[0] == '"' then ReadQuoted(s[1..]) else ReadPlain(s)
  }

  /** The records of a file; `fields` are those already read of the current record. */
  ghost function ReadRecords(s: string, fields: seq<string>): Option<seq<seq<string>>>
    decreases |s|
  {
    match ReadField(s)
    case None => None
    case Some((field, rest)) =>
      if rest == [] then Some([fields + [field]])
      else if |rest| > |s| then None
      else if rest[0] == ',' then ReadRecords(rest[1..], fields + [field])
      else if rest[0] == '\n' then
        match ReadRecords(rest[1..], [])
        case None => None
        case Some(records) => Some([fields + [field]] + records)
      else None
  }

  // ----- The round trip -----

  ghost predicate AtFieldEnd(rest: string) {
    rest == [] || rest[0] == ',' || rest[0] == '\n'
  }

  lemma {:induction false} ReadDoubled(s: string, rest: string)
    requires rest == [] || rest[0] != '"'
    ensures ReadQuoted(DoubleQuotes(s) + ("\"" + rest)) == Some((s, rest))
  {
    var whole := DoubleQuotes(s) + ("\"" + rest);
    if s == [] {
      assert whole == "\"" + rest;
      assert whole[1..] == rest;
    } else {
      var tail := DoubleQuotes(s[1..]) + ("\"" + rest);
      ReadDoubled(s[1..], rest);
      if s[0] == '"' {
        assert whole[0] == '"' && whole[1] == '"' && whole[2..] == tail;
      } else {
        assert whole[0] == s[0] && whole[1..] == tail;
      }
      assert s == [s[0]] + s[1..];
    }
  }

  lemma {:induction false} ReadUnquoted(s: string, rest: string)
    requires !NeedsQuotes(s) && AtFieldEnd(rest)
    ensures ReadPlain(s + rest) == Some((s, rest))
  {
    if s == [] {
      assert s + rest == rest;
    } else {
      assert s[0] in s && forall c :: c in s[1..] ==> c in s;
      assert (s + rest)[0] == s[0] && (s + rest)[1..] == s[1..] + rest;
      ReadUnquoted(s[1..], rest);
      assert s == [s[0]] + s[1..];
    }
  }

  /** Reading an escaped value gives the value, for every string. */
  lemma FieldRoundTrip(s: string, rest: string)
    requires AtFieldEnd(rest)
    ensures ReadField(Escape(s) + rest) == Some((s, rest))
  {
    hide ReadQuoted, ReadPlain, DoubleQuotes;
    var whole := Escape(s) + rest;
    if NeedsQuotes(s) {
      ReadDoubled(s, rest);
      assert whole[0] == '"' && whole[1..] == DoubleQuotes(s) + ("\"" + rest);
    } else {
      ReadUnquoted(s, rest);
      if s != [] {
        assert whole[0] == s[0] && s[0] in s;
      } else {
        assert whole == rest;
      }
    }
  }

  lemma ReadOneField(s: string, rest: string, fields: seq<string>)
    requires AtFieldEnd(rest)
    ensures rest != [] && rest[0] == ',' ==>
              ReadRecords(Escape(s) + rest, fields) == ReadRecords(rest[1..], fields + [s])
    ensures rest == [] ==> ReadRecords(Escape(s) + rest, fields) == Some([fields + [s]])
    ensures rest != [] && rest[0] == '\n' && ReadRecords(rest[1..], []).Some? ==>
              ReadRecords(Escape(s) + rest, fields) == Some([fields + [s]] + ReadRecords(rest[1..], []).value)
  {
    hide Escape, ReadField;
    FieldRoundTrip(s, rest);
  }

  lemma DigitsAreBare(n: nat)
    ensures Escape(Dec(n)) == Dec(n)
  {
    OnlyDigits(Dec(n), '"');
    OnlyDigits(Dec(n), ',');
    OnlyDigits(Dec(n), '\n');
  }

  /** A row of escaped values, up to the end of its record. */
  lemma ReadRow(a: string, b: string, c: string, d: string, rest: string)
    requires rest == [] || (rest[0] == '\n' && ReadRecords(rest[1..], []).Some?)
    ensures ReadRecords(Escape(a) + "," + Escape(b) + "," + Escape(c) + "," + Escape(d) + rest, [])
         == Some([[a, b, c, d]] + (if rest == [] then [] else ReadRecords(rest[1..], []).value))
  {
    hide Escape, ReadRecords;
    var r3 := "," + (Escape(d) + rest);
    var r2 := "," + (Escape(c) + r3);
    var r1 := "," + (Escape(b) + r2);
    assert Escape(a) + "," + Escape(b) + "," + Escape(c) + "," + Escape(d) + rest == Escape(a) + r1;
    ReadOneField(a, r1, []);
    assert r1[1..] == Escape(b) + r2;
    ReadOneField(b, r2, [a]);
    assert r2[1..] == Escape(c) + r3;
    ReadOneField(c, r3, [a, b]);
    assert r3[1..] == Escape(d) + rest;
    ReadOneField(d, rest, [a, b, c]);
    assert [] + [a] == [a] && [a] + [b] == [a, b] && [a, b] + [c] == [a, b, c] && [a, b, c] + [d] == [a, b, c, d];
    assert [[a, b, c, d]] + [] == [[a, b, c, d]];
  }

  ghost function AllFields(cards: seq<Card>): seq<seq<string>> {
    if cards == [] then [] else [Fields(cards[0])] + AllFields(cards[1..])
  }

  lemma {:induction false} ReadRows(cards: seq<Card>)
    requires cards != []
    ensures ReadRecords(Rows(cards)[1..], []) == Some(AllFields(cards))
  {
    hide Escape, ReadRecords, Row, Join, Dec;
    var c, rest := cards[0], Rows(cards[1..]);
    assert Rows(cards)[1..] == Row(c) + rest;
    RowEscaped(c);
    if |cards| > 1 {
      ReadRows(cards[1..]);
      assert rest[0] == '\n';
    }
    ReadRow(c.sourceText, c.translationText.GetOr(""), Join(c.tags, " "), Dec(c.due), rest);
  }

  lemma Bare(s: string)
    requires forall i :: 0 <= i < |s| ==> s[i] != '"' && s[i] != ',' && s[i] != '\n'
    ensures Escape(s) == s
  {}

  lemma HeaderText()
    ensures HEADER == "source" + "," + "translation" + "," + "tags" + "," + "due"
  {}

  lemma HeaderIsBare()
    ensures HEADER == Escape("source") + "," + Escape("translation") + "," + Escape("tags") + "," + Escape("due")
  {
    hide Escape;
    Bare("source");
    Bare("translation");
    Bare("tags");
    Bare("due");
    HeaderText();
  }

  lemma RowEscaped(c: Card)
    ensures Row(c) == Escape(c.sourceText) + "," + Escape(c.translationText.GetOr("")) + "," + Escape(Join(c.tags, " "))
                      + "," + Escape(Dec(c.due))
  {
    hide Escape;
    DigitsAreBare(c.due);
  }

  lemma ExportRead(cards: seq<Card>)
    ensures ReadRecords(HEADER + Rows(cards), []) == Some([HEADER_FIELDS] + AllFields(cards))
  {
    hide Escape, ReadRecords;
    HeaderIsBare();
    if cards != [] {
      ReadRows(cards);
      assert Rows(cards)[0] == '\n';
    }
    ReadRow("source", "translation", "tags", "due", Rows(cards));
  }

  lemma {:induction false} FieldsAt(cards: seq<Card>, i: nat)
    requires i < |cards|
    ensures |AllFields(cards)| == |cards| && AllFields(cards)[i] == Fields(cards[i])
  {
    if |cards| > 1 {
      FieldsAt(cards[1..], if i == 0 then 0 else i - 1);
    }
  }

  /** The reader gets back the header and, per card, source, translation (empty where there is none), the tags joined by
      spaces, and the due number in decimal digits, for arbitrary texts. */
  lemma ExportRoundTrip(cards: seq<Card>)
    ensures ReadRecords("source,translation,tags,due" + Rows(cards), []).Some?
    ensures var records := ReadRecords("source,translation,tags,due" + Rows(cards), []).value;
            && |records| == |cards| + 1 && records[0] == ["source", "translation", "tags", "due"]
            && forall i :: 0 <= i < |cards| ==>
                 && |records[i + 1]| == 4 && records[i + 1][0] == cards[i].sourceText
                 && records[i + 1][1] == (match cards[i].translationText case Some(s) => s case None => "")
                 && records[i + 1][2] == Join(cards[i].tags, " ")
                 && AllDigits(records[i + 1][3]) && Value(records[i + 1][3]) == cards[i].due
  {
    hide Escape, ReadRecords, Join, Dec, Value;
    ExportRead(cards);
    forall i | 0 <= i < |cards|
      ensures |AllFields(cards)| == |cards| && AllFields(cards)[i] == Fields(cards[i])
      ensures AllDigits(Dec(cards[i].due)) && Value(Dec(cards[i].due)) == cards[i].due
    {
      FieldsAt(cards, i);
      DecValue(cards[i].due);
    }
    assert |AllFields(cards)| == |cards| by {
      if cards == [] {
        assert AllFields(cards) == [];
      } else {
        FieldsAt(cards, 0);
      }
    }
  }

  /** So exports differ wherever some value does, and the due number is read back exactly. */
  lemma {:induction false} ExportInjective(cards: seq<Card>, cards': seq<Card>)
    requires HEADER + Rows(cards) == HEADER + Rows(cards')
    ensures |cards| == |cards'|
    ensures forall i :: 0 <= i < |cards| ==> Fields(cards[i]) == Fields(cards'[i]) && cards[i].due == cards'[i].due
  {
    ExportRead(cards);
    ExportRead(cards');
    assert ([HEADER_FIELDS] + AllFields(cards))[1..] == AllFields(cards);
    assert ([HEADER_FIELDS] + AllFields(cards'))[1..] == AllFields(cards');
    SameFields(cards, cards');
  }

  lemma {:induction false} SameFields(cards: seq<Card>, cards': seq<Card>)
    requires AllFields(cards) == AllFields(cards')
    ensures |cards| == |cards'|
    ensures forall i :: 0 <= i < |cards| ==> Fields(cards[i]) == Fields(cards'[i]) && cards[i].due == cards'[i].due
  {
    if cards != [] && cards' != [] {
      assert AllFields(cards)[1..] == AllFields(cards[1..]) && AllFields(cards')[1..] == AllFields(cards'[1..]);
      SameFields(cards[1..], cards'[1..]);
      assert Fields(cards[0]) == AllFields(cards)[0] == AllFields(cards')[0] == Fields(cards'[0]);
      DecValue(cards[0].due);
      DecValue(cards'[0].due);
      assert Fields(cards[0])[3] == Fields(cards'[0])[3];
    }
  }
}
