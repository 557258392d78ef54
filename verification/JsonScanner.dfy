/** Cutting a balanced `{...}` out of script text, without parsing it. */
module JsonScanner {
  import opened Basics
  import opened Text

  // ----- The scanner -----

  /** What follows the brace that closes depth `depth`, scanning `s` from inside or outside a string. */
  ghost function After(s: string, depth: int, inString: bool, escape: bool): Option<string> {
    if s == [] then None
    else if inString then
      if escape then After(s[1..], depth, true, false)
      else if s[0] == '\\' then After(s[1..], depth, true, true)
      else After(s[1..], depth, s[0] != '"', false)
    else if s[0] == '"' then After(s[1..], depth, true, false)
    else if s[0] == '{' then After(s[1..], depth + 1, false, false)
    else if s[0] == '}' then if depth == 1 then Some(s[1..]) else After(s[1..], depth - 1, false, false)
    else After(s[1..], depth, false, false)
  }

  /** The text from an opening brace up to the brace that closes it. */
  ghost function Balanced(s: string): Option<string> {
    if s == [] || s[0] != '{' then None
    else match After(s, 0, false, false)
      case None => None
      case Some(rest) => if |rest| <= |s| then Some(s[..|s| - |rest|]) else None
  }

  /** `extractJsonObject`. */
  method ExtractJsonObject(source: string, start: nat) returns (r: Option<string>)
    ensures r == if start < |source| then Balanced(source[start..]) else None
  {
    if start >= |source| || source[start] != '{' {
      return None;
    }
    var depth, inString, escape := 0, false, false;
    for i := start to |source|
      invariant depth >= if i == start then 0 else 1
      invariant i == start ==> depth == 0 && !inString
      invariant After(source[start..], 0, false, false) == After(source[i..], depth, inString, escape)
      invariant !inString ==> !escape
    {
      var c := source[i];
      assert source[i..][1..] == source[i + 1..];
      if inString {
        if escape {
          escape := false;
        } else if c == '\\' {
          escape := true;
        } else if c == '"' {
          inString := false;
        }
        continue;
      }
      if c == '"' {
        inString := true;
        continue;
      }
      if c == '{' {
        depth := depth + 1;
      } else if c == '}' {
        depth := depth - 1;
        if depth == 0 {
          assert source[start..][..i + 1 - start] == source[start..i + 1];
          return Some(source[start..i + 1]);
        }
      }
    }
    r := None;
  }

  // ----- Brace-balanced, string-aware texts -----

  datatype QuotedChar = Raw(c: char) | Escaped(c: char)

  datatype Item =
    | Plain(c: char)
    | Quoted(chars: seq<QuotedChar>)
    | Group(items: seq<Item>)

  ghost predicate WellFormed(item: Item) {
    match item
    case Plain(c) => c != '"' && c != '{' && c != '}'
    case Quoted(chars) => forall k :: 0 <= k < |chars| && chars[k].Raw? ==> chars[k].c != '"' && chars[k].c != '\\'
    case Group(items) => forall k :: 0 <= k < |items| ==> WellFormed(items[k])
  }

  ghost function QuotedCharText(c: QuotedChar): string {
    if c.Raw? then [c.c] else ['\\', c.c]
  }

  ghost function QuotedText(chars: seq<QuotedChar>): string {
    if chars == [] then "" else QuotedCharText(chars[0]) + QuotedText(chars[1..])
  }

  ghost function ItemText(item: Item): string
    decreases item, 1
  {
    match item
    case Plain(c) => [c]
    case Quoted(chars) => "\"" + QuotedText(chars) + "\""
    case Group(items) => "{" + ItemsText(items) + "}"
  }

  ghost function ItemsText(items: seq<Item>): string
    decreases items, 0
  {
    if items == [] then "" else ItemText(items[0]) + ItemsText(items[1..])
  }

  /** `text` is a balanced group. */
  ghost predicate IsGroup(text: string) {
    exists g: Item :: g.Group? && WellFormed(g) && ItemText(g) == text
  }

  // ----- The scanner passes over well-formed items -----

  lemma {:induction false} OverQuoted(chars: seq<QuotedChar>, rest: string, depth: int)
    requires WellFormed(Quoted(chars))
    ensures After(QuotedText(chars) + "\"" + rest, depth, true, false) == After(rest, depth, false, false)
  {
    var s := QuotedText(chars) + "\"" + rest;
    if chars == [] {
      assert s[1..] == rest;
    } else {
      OverQuoted(chars[1..], rest, depth);
      var tail := QuotedText(chars[1..]) + "\"" + rest;
      if chars[0].Raw? {
        assert s[1..] == tail;
      } else {
        assert s[1..][1..] == tail;
      }
    }
  }

  lemma {:induction false} OverItem(item: Item, rest: string, depth: int)
    requires WellFormed(item) && depth >= 1
    ensures After(ItemText(item) + rest, depth, false, false) == After(rest, depth, false, false)
    decreases item, 1
  {
    var s := ItemText(item) + rest;
    match item
    case Plain(c) =>
      assert s[1..] == rest;
    case Quoted(chars) =>
      OverQuoted(chars, rest, depth);
      assert s[1..] == QuotedText(chars) + "\"" + rest;
    case Group(items) =>
      OverItems(items, "}" + rest, depth + 1);
      assert s[1..] == ItemsText(items) + ("}" + rest);
      assert ("}" + rest)[1..] == rest;
  }

  lemma {:induction false} OverItems(items: seq<Item>, rest: string, depth: int)
    requires (forall k :: 0 <= k < |items| ==> WellFormed(items[k])) && depth >= 1
    ensures After(ItemsText(items) + rest, depth, false, false) == After(rest, depth, false, false)
    decreases items, 0
  {
    if items == [] {
      assert ItemsText(items) + rest == rest;
    } else {
      OverItem(items[0], ItemsText(items[1..]) + rest, depth);
      OverItems(items[1..], rest, depth);
      assert ItemsText(items) + rest == ItemText(items[0]) + (ItemsText(items[1..]) + rest);
    }
  }

  /** A balanced group is found whole, whatever follows it. */
  lemma GroupFound(text: string, rest: string)
    requires IsGroup(text)
    ensures Balanced(text + rest) == Some(text)
  {
    var g: Item :| g.Group? && WellFormed(g) && ItemText(g) == text;
    var s := text + rest;
    OverItems(g.items, "}" + rest, 1);
    assert s[1..] == ItemsText(g.items) + ("}" + rest);
    assert ("}" + rest)[1..] == rest;
    assert After(s, 0, false, false) == Some(rest);
    assert s[..|s| - |rest|] == text;
  }

  // ----- What the scanner returns is a balanced group -----

  lemma {:induction false} ReadQuoted(s: string, depth: int, rest: string) returns (chars: seq<QuotedChar>, mid: string)
    requires After(s, depth, true, false) == Some(rest)
    ensures WellFormed(Quoted(chars)) && s == QuotedText(chars) + "\"" + mid
    ensures After(mid, depth, false, false) == Some(rest)
    decreases |s|
  {
    if s[0] == '"' {
      chars, mid := [], s[1..];
    } else if s[0] == '\\' {
      chars, mid := ReadQuoted(s[2..], depth, rest);
      assert s[1..][1..] == s[2..] && s == [s[0], s[1]] + s[2..];
      chars := ReadChar(Escaped(s[1]), chars);
    } else {
      chars, mid := ReadQuoted(s[1..], depth, rest);
      assert s == [s[0]] + s[1..];
      chars := ReadChar(Raw(s[0]), chars);
    }
  }

  lemma ReadChar(c: QuotedChar, chars: seq<QuotedChar>) returns (r: seq<QuotedChar>)
    requires WellFormed(Quoted(chars)) && (c.Raw? ==> c.c != '"' && c.c != '\\')
    ensures r == [c] + chars && WellFormed(Quoted(r))
    ensures QuotedText(r) == QuotedCharText(c) + QuotedText(chars)
  {
    r := [c] + chars;
    assert r[1..] == chars;
  }

  lemma {:induction false} ReadItems(s: string, depth: int, rest: string) returns (items: seq<Item>, mid: string)
    requires After(s, depth, false, false) == Some(rest) && depth >= 1
    ensures forall k :: 0 <= k < |items| ==> WellFormed(items[k])
    ensures s == ItemsText(items) + "}" + mid
    ensures if depth == 1 then mid == rest else After(mid, depth - 1, false, false) == Some(rest)
    decreases |s|
  {
    hide WellFormed, ItemText, After, ItemsText, QuotedText;
    AfterStep(s, depth);
    if s[0] == '}' {
      items, mid := [], s[1..];
      NoItemsText();
    } else if s[0] == '"' {
      var chars, tail := ReadQuoted(s[1..], depth, rest);
      items, mid := ReadItems(tail, depth, rest);
      QuotedShape(chars);
      Regroup([s[0]], QuotedText(chars), "\"", ItemsText(items), mid);
      items := ConsItem(Quoted(chars), items);
    } else if s[0] == '{' {
      var inner, tail := ReadItems(s[1..], depth + 1, rest);
      items, mid := ReadItems(tail, depth, rest);
      GroupShape(inner);
      Regroup([s[0]], ItemsText(inner), "}", ItemsText(items), mid);
      items := ConsItem(Group(inner), items);
    } else {
      items, mid := ReadItems(s[1..], depth, rest);
      PlainShape(s[0]);
      assert s == [s[0]] + (ItemsText(items) + "}" + mid) == [s[0]] + ItemsText(items) + "}" + mid;
      items := ConsItem(Plain(s[0]), items);
    }
  }

  /** One step of the scan outside strings. */
  lemma AfterStep(s: string, depth: int)
    ensures s == [] ==> After(s, depth, false, false) == None
    ensures s != [] ==> s == [s[0]] + s[1..]
    ensures s != [] ==>
              After(s, depth, false, false) ==
                if s[0] == '"' then After(s[1..], depth, true, false)
                else if s[0] == '{' then After(s[1..], depth + 1, false, false)
                else if s[0] == '}' then if depth == 1 then Some(s[1..]) else After(s[1..], depth - 1, false, false)
                else After(s[1..], depth, false, false)
  {}

  lemma NoItemsText()
    ensures ItemsText([]) == ""
  {}

  lemma Regroup(open: string, inner: string, close: string, items: string, mid: string)
    ensures open + (inner + close + (items + "}" + mid)) == open + inner + close + items + "}" + mid
  {}

  lemma PlainShape(c: char)
    ensures ItemText(Plain(c)) == [c]
    ensures c != '"' && c != '{' && c != '}' ==> WellFormed(Plain(c))
  {}

  lemma QuotedShape(chars: seq<QuotedChar>)
    ensures ItemText(Quoted(chars)) == ['"'] + QuotedText(chars) + "\""
  {}

  lemma GroupShape(items: seq<Item>)
    ensures ItemText(Group(items)) == ['{'] + ItemsText(items) + "}"
    ensures (forall k :: 0 <= k < |items| ==> WellFormed(items[k])) ==> WellFormed(Group(items))
  {}

  lemma ConsItem(item: Item, items: seq<Item>) returns (r: seq<Item>)
    requires WellFormed(item) && forall k :: 0 <= k < |items| ==> WellFormed(items[k])
    ensures r == [item] + items && forall k :: 0 <= k < |r| ==> WellFormed(r[k])
    ensures ItemsText(r) == ItemText(item) + ItemsText(items)
  {
    r := [item] + items;
    assert r[1..] == items;
  }

  lemma FoundIsGroup(s: string)
    requires s != [] && s[0] == '{' && After(s, 0, false, false).Some?
    ensures Balanced(s).Some? && IsGroup(Balanced(s).value) && StartsWith(s, Balanced(s).value)
  {
    var rest := After(s, 0, false, false).value;
    var items, mid := ReadItems(s[1..], 1, rest);
    var g := Group(items);
    assert s == ItemText(g) + rest;
    assert Balanced(s) == Some(ItemText(g));
  }

  /** The scan returns the one balanced prefix, and nothing exactly when there is none: */
  lemma BalancedIsTheGroupPrefix(s: string, text: string)
    ensures Balanced(s) == Some(text) <==> StartsWith(s, text) && IsGroup(text)
  {
    if StartsWith(s, text) && IsGroup(text) {
      GroupFound(text, s[|text|..]);
      assert s == text + s[|text|..];
    }
    if Balanced(s) == Some(text) {
      FoundIsGroup(s);
    }
  }

  /** so no balanced group is a proper prefix of another. */
  lemma GroupsArePrefixFree(text: string, text': string)
    requires IsGroup(text) && IsGroup(text') && StartsWith(text, text')
    ensures text == text'
  {
    BalancedIsTheGroupPrefix(text, text);
    BalancedIsTheGroupPrefix(text, text');
  }

  // ----- JSON texts (RFC 8259, sections 2 to 7) -----

  datatype JsonChar =
    | Unescaped(c: char)
    | Short(c: char)
    | Unicode(hex: string)

  /** A value with its text; `open` and `close` are the white space just before and after it. Numbers and the three
      names are literals. */
  datatype Json =
    | Literal(text: string)
    | Str(chars: seq<JsonChar>)
    | Arr(blank: string, elems: seq<Slot>)
    | Obj(blank: string, members: seq<Member>)

  datatype Slot = Slot(open: string, value: Json, close: string)
  datatype Member = Member(open: string, key: seq<JsonChar>, close: string, slot: Slot)

  ghost predicate JsonSpace(s: string) {
    forall c :: c in s ==> c == ' ' || c == '\t' || c == '\n' || c == '\r'
  }

  ghost predicate JsonCharOk(c: JsonChar) {
    match c
    case Unescaped(c) => c >= ' ' && c != '"' && c != '\\'
    case Short(c) => c in "\"\\/bfnrt"
    case Unicode(hex) => |hex| == 4 && forall h :: h in hex ==> IsDigit(h) || 'a' <= h <= 'f' || 'A' <= h <= 'F'
  }

  ghost predicate JsonOk(j: Json) {
    match j
    case Literal(text) => text in {"true", "false", "null"} || (text != "" && forall c :: c in text ==> c in "+-.0123456789eE")
    case Str(chars) => forall k :: 0 <= k < |chars| ==> JsonCharOk(chars[k])
    case Arr(blank, elems) => JsonSpace(blank) && forall k :: 0 <= k < |elems| ==> SlotOk(elems[k])
    case Obj(blank, members) => JsonSpace(blank) && forall k :: 0 <= k < |members| ==> MemberOk(members[k])
  }

  ghost predicate SlotOk(s: Slot) {
    JsonSpace(s.open) && JsonOk(s.value) && JsonSpace(s.close)
  }

  ghost predicate MemberOk(m: Member) {
    && JsonSpace(m.open) && JsonSpace(m.close)
    && (forall k :: 0 <= k < |m.key| ==> JsonCharOk(m.key[k]))
    && SlotOk(m.slot)
  }

  ghost function CharText(c: JsonChar): string {
    match c
    case Unescaped(c) => [c]
    case Short(c) => ['\\', c]
    case Unicode(hex) => "\\u" + hex
  }

  ghost function CharsText(chars: seq<JsonChar>): string {
    if chars == [] then "" else CharText(chars[0]) + CharsText(chars[1..])
  }

  ghost function StringText(chars: seq<JsonChar>): string {
    "\"" + CharsText(chars) + "\""
  }

  ghost function JsonText(j: Json): string
    decreases j, 1
  {
    match j
    case Literal(text) => text
    case Str(chars) => StringText(chars)
    case Arr(blank, elems) => "[" + (if elems == [] then blank else ElemsText(elems)) + "]"
    case Obj(blank, members) => "{" + (if members == [] then blank else MembersText(members)) + "}"
  }

  ghost function SlotText(s: Slot): string
    decreases s, 2
  {
    s.open + JsonText(s.value) + s.close
  }

  ghost function MemberText(m: Member): string
    decreases m, 3
  {
    m.open + StringText(m.key) + m.close + ":" + SlotText(m.slot)
  }

  ghost function ElemsText(elems: seq<Slot>): string
    decreases elems, 0
  {
    if elems == [] then ""
    else SlotText(elems[0]) + (if |elems| == 1 then "" else "," + ElemsText(elems[1..]))
  }

  ghost function MembersText(members: seq<Member>): string
    decreases members, 0
  {
    if members == [] then ""
    else MemberText(members[0]) + (if |members| == 1 then "" else "," + MembersText(members[1..]))
  }

  // ----- A JSON value is a sequence of well-formed items -----

  /** `text` reads as well-formed items. */
  ghost predicate AsItems(text: string) {
    exists items: seq<Item> :: (forall k :: 0 <= k < |items| ==> WellFormed(items[k])) && ItemsText(items) == text
  }

  lemma {:induction false} ConcatItems(xs: seq<Item>, ys: seq<Item>)
    ensures ItemsText(xs + ys) == ItemsText(xs) + ItemsText(ys)
  {
    hide ItemText;
    if xs == [] {
      assert xs + ys == ys;
    } else {
      ConcatItems(xs[1..], ys);
      assert (xs + ys)[0] == xs[0] && (xs + ys)[1..] == xs[1..] + ys;
      Assoc(ItemText(xs[0]), ItemsText(xs[1..]), ItemsText(ys));
    }
  }

  lemma AsItemsConcat(a: string, b: string)
    requires AsItems(a) && AsItems(b)
    ensures AsItems(a + b)
  {
    var xs: seq<Item> :| (forall k :: 0 <= k < |xs| ==> WellFormed(xs[k])) && ItemsText(xs) == a;
    var ys: seq<Item> :| (forall k :: 0 <= k < |ys| ==> WellFormed(ys[k])) && ItemsText(ys) == b;
    ConcatItems(xs, ys);
    assert forall k :: 0 <= k < |xs + ys| ==> WellFormed((xs + ys)[k]);
  }

  lemma AsItemsOne(item: Item)
    requires WellFormed(item)
    ensures AsItems(ItemText(item))
  {
    assert ItemsText([item]) == ItemText(item);
  }

  lemma NoItems()
    ensures AsItems("")
  {
    assert ItemsText([]) == "";
  }

  ghost predicate PlainText(s: string) {
    forall k :: 0 <= k < |s| ==> s[k] != '"' && s[k] != '{' && s[k] != '}'
  }

  lemma {:induction false} AsItemsPlain(s: string)
    requires PlainText(s)
    ensures AsItems(s)
  {
    hide AsItems;
    if s == [] {
      NoItems();
    } else {
      AsItemsPlain(s[1..]);
      AsItemsOne(Plain(s[0]));
      AsItemsConcat([s[0]], s[1..]);
      assert s == [s[0]] + s[1..];
    }
  }

  ghost function QuotedChars(c: JsonChar): seq<QuotedChar> {
    match c
    case Unescaped(c) => [Raw(c)]
    case Short(c) => [Escaped(c)]
    case Unicode(hex) => [Escaped('u')] + seq(|hex|, k requires 0 <= k < |hex| => Raw(hex[k]))
  }

  lemma {:induction false} QuotedRaw(s: string)
    ensures QuotedText(seq(|s|, k requires 0 <= k < |s| => Raw(s[k]))) == s
  {
    var raw := seq(|s|, k requires 0 <= k < |s| => Raw(s[k]));
    if s != [] {
      QuotedRaw(s[1..]);
      assert raw[1..] == seq(|s[1..]|, k requires 0 <= k < |s[1..]| => Raw(s[1..][k]));
    }
  }

  lemma {:induction false} QuotedConcat(xs: seq<QuotedChar>, ys: seq<QuotedChar>)
    ensures QuotedText(xs + ys) == QuotedText(xs) + QuotedText(ys)
  {
    hide QuotedCharText;
    if xs == [] {
      assert xs + ys == ys;
    } else {
      QuotedConcat(xs[1..], ys);
      assert (xs + ys)[0] == xs[0] && (xs + ys)[1..] == xs[1..] + ys;
      Assoc(QuotedCharText(xs[0]), QuotedText(xs[1..]), QuotedText(ys));
    }
  }

  lemma EmptyQuoted()
    ensures WellFormed(Quoted([]))
  {}

  lemma WellFormedConcat(xs: seq<QuotedChar>, ys: seq<QuotedChar>)
    requires WellFormed(Quoted(xs)) && WellFormed(Quoted(ys))
    ensures WellFormed(Quoted(xs + ys))
  {}

  lemma {:induction false} StringChars(chars: seq<JsonChar>) returns (q: seq<QuotedChar>)
    requires forall k :: 0 <= k < |chars| ==> JsonCharOk(chars[k])
    ensures WellFormed(Quoted(q)) && QuotedText(q) == CharsText(chars)
  {
    hide QuotedChars, CharText, JsonCharOk, WellFormed;
    if chars == [] {
      assert WellFormed(Quoted([])) by { EmptyQuoted(); }
      q := [];
    } else {
      q := StringChars(chars[1..]);
      var head := QuotedChars(chars[0]);
      CharQuoted(chars[0]);
      QuotedConcat(head, q);
      WellFormedConcat(head, q);
      q := head + q;
    }
  }

  lemma CharQuoted(c: JsonChar)
    requires JsonCharOk(c)
    ensures WellFormed(Quoted(QuotedChars(c)))
    ensures QuotedText(QuotedChars(c)) == CharText(c)
  {
    match c
    case Unescaped(_) =>
    case Short(_) =>
    case Unicode(hex) =>
      QuotedRaw(hex);
      var raw := seq(|hex|, k requires 0 <= k < |hex| => Raw(hex[k]));
      assert QuotedChars(c)[1..] == raw;
      forall k | 0 <= k < |raw| ensures raw[k].c != '"' && raw[k].c != '\\' {
        assert hex[k] in hex;
      }
  }

  lemma StringIsItems(chars: seq<JsonChar>)
    requires forall k :: 0 <= k < |chars| ==> JsonCharOk(chars[k])
    ensures AsItems(StringText(chars))
  {
    var q := StringChars(chars);
    AsItemsOne(Quoted(q));
  }

  lemma {:induction false} JsonIsItems(j: Json)
    requires JsonOk(j)
    ensures AsItems(JsonText(j))
    ensures j.Obj? ==> IsGroup(JsonText(j))
    decreases j, 1
  {
    hide AsItems, IsGroup;
    match j
    case Literal(text) =>
      LiteralIsPlain(text);
    case Str(chars) =>
      StringIsItems(chars);
    case Arr(blank, elems) =>
      SpaceIsItems(blank);
      ElemsAreItems(elems);
      BracketsAreItems(if elems == [] then blank else ElemsText(elems));
    case Obj(blank, members) =>
      SpaceIsItems(blank);
      MembersAreItems(members);
      BracesAreItems(if members == [] then blank else MembersText(members));
  }

  lemma LiteralIsPlain(text: string)
    requires JsonOk(Literal(text))
    ensures AsItems(text)
  {
    if text in {"true", "false", "null"} {
      assert PlainText(text);
    } else {
      forall k | 0 <= k < |text| ensures text[k] != '"' && text[k] != '{' && text[k] != '}' {
        assert text[k] in text && text[k] in "+-.0123456789eE";
      }
    }
    AsItemsPlain(text);
  }

  lemma SpaceIsItems(s: string)
    requires JsonSpace(s)
    ensures AsItems(s)
  {
    forall k | 0 <= k < |s| ensures s[k] != '"' && s[k] != '{' && s[k] != '}' {
      assert s[k] in s;
    }
    AsItemsPlain(s);
  }

  lemma BracketsAreItems(inner: string)
    requires AsItems(inner)
    ensures AsItems("[" + inner + "]")
  {
    AsItemsPlain("[");
    AsItemsPlain("]");
    AsItemsConcat("[", inner);
    AsItemsConcat("[" + inner, "]");
  }

  lemma BracesAreItems(inner: string)
    requires AsItems(inner)
    ensures IsGroup("{" + inner + "}") && AsItems("{" + inner + "}")
  {
    var items: seq<Item> :| (forall k :: 0 <= k < |items| ==> WellFormed(items[k])) && ItemsText(items) == inner;
    assert WellFormed(Group(items)) && ItemText(Group(items)) == "{" + inner + "}";
    AsItemsOne(Group(items));
  }

  lemma {:induction false} SlotIsItems(s: Slot)
    requires SlotOk(s)
    ensures AsItems(SlotText(s))
    decreases s, 2
  {
    hide AsItems;
    SpaceIsItems(s.open);
    SpaceIsItems(s.close);
    JsonIsItems(s.value);
    AsItemsConcat(s.open, JsonText(s.value));
    AsItemsConcat(s.open + JsonText(s.value), s.close);
  }

  lemma {:induction false} ElemsAreItems(elems: seq<Slot>)
    requires forall k :: 0 <= k < |elems| ==> SlotOk(elems[k])
    ensures AsItems(ElemsText(elems))
    decreases elems, 0
  {
    hide AsItems;
    if elems == [] {
      AsItemsPlain("");
    } else {
      SlotIsItems(elems[0]);
      ElemsAreItems(elems[1..]);
      AsItemsPlain(",");
      if |elems| > 1 {
        AsItemsConcat(",", ElemsText(elems[1..]));
        AsItemsConcat(SlotText(elems[0]), "," + ElemsText(elems[1..]));
      } else {
        assert SlotText(elems[0]) + "" == SlotText(elems[0]);
      }
    }
  }

  lemma MemberIsItems(m: Member)
    requires MemberOk(m)
    requires AsItems(SlotText(m.slot))
    ensures AsItems(MemberText(m))
  {
    hide AsItems;
    SpaceIsItems(m.open);
    StringIsItems(m.key);
    SpaceIsItems(m.close);
    AsItemsPlain(":");
    AsItemsConcat(m.open, StringText(m.key));
    AsItemsConcat(m.open + StringText(m.key), m.close);
    AsItemsConcat(m.open + StringText(m.key) + m.close, ":");
    AsItemsConcat(m.open + StringText(m.key) + m.close + ":", SlotText(m.slot));
  }

  lemma {:induction false} MembersAreItems(members: seq<Member>)
    requires forall k :: 0 <= k < |members| ==> MemberOk(members[k])
    ensures AsItems(MembersText(members))
    decreases members, 0
  {
    hide AsItems;
    if members == [] {
      AsItemsPlain("");
    } else {
      SlotIsItems(members[0].slot);
      MemberIsItems(members[0]);
      MembersAreItems(members[1..]);
      AsItemsPlain(",");
      if |members| > 1 {
        AsItemsConcat(",", MembersText(members[1..]));
        AsItemsConcat(MemberText(members[0]), "," + MembersText(members[1..]));
      } else {
        assert MemberText(members[0]) + "" == MemberText(members[0]);
      }
    }
  }

  /** Every JSON object text is cut out exactly, whatever stands before and after it. */
  lemma JsonObjectExtracted(before: string, j: Json, after: string)
    requires j.Obj? && JsonOk(j)
    ensures Balanced((before + JsonText(j) + after)[|before|..]) == Some(JsonText(j))
  {
    JsonIsItems(j);
    GroupFound(JsonText(j), after);
    assert (before + JsonText(j) + after)[|before|..] == JsonText(j) + after;
  }

  // ----- Scripts -----

  const MARKER := "ytInitialPlayerResponse"

  method SkipSpaces(text: string, start: nat) returns (i: nat)
    requires start <= |text|
    ensures start <= i <= |text| && text[i..] == TrimLeft(text[start..])
  {
    i := start;
    while i < |text| && IsSpace(text[i])
      invariant start <= i <= |text|
      invariant TrimLeft(text[i..]) == TrimLeft(text[start..])
    {
      assert text[i..][1..] == text[i + 1..];
      i := i + 1;
    }
  }

  /** `extractPlayerResponseFromScript`, up to the text it hands to `JSON.parse`. */
  method ExtractPlayerResponseFromScript(text: string) returns (r: Option<string>)
    ensures r == ScriptObject(text)
  {
    hide Balanced;
    var idx := IndexOfString(text, MARKER);
    if idx.None? {
      return None;
    }
    var eq := idx.value + IndexOf(text[idx.value..], '=');
    if eq == |text| {
      return None;
    }
    assert text[idx.value..][eq - idx.value + 1..] == text[eq + 1..];
    var i := SkipSpaces(text, eq + 1);
    if i == |text| || text[i] != '{' {
      NotAnObject(text[i..]);
      return None;
    }
    r := ExtractJsonObject(text, i);
  }

  lemma NotAnObject(s: string)
    requires s == [] || s[0] != '{'
    ensures Balanced(s) == None
  {}

  ghost function ScriptObject(text: string): Option<string> {
    match IndexOfString(text, MARKER)
    case None => None
    case Some(k) =>
      var tail := text[k..];
      var eq := IndexOf(tail, '=');
      if eq == |tail| then None else Balanced(TrimLeft(tail[eq + 1..]))
  }

  /** From the first marker, an assignment of a JSON object gives the object's text, whatever follows it. */
  lemma ScriptYieldsObject(text: string, k: nat, gap: string, space: string, j: Json, after: string)
    requires j.Obj? && JsonOk(j)
    requires IndexOfString(text, "ytInitialPlayerResponse") == Some(k)
    requires '=' !in gap && forall c :: c in space ==> IsSpace(c)
    requires text[k..] == "ytInitialPlayerResponse" + gap + "=" + (space + (JsonText(j) + after))
    ensures ScriptObject(text) == Some(JsonText(j))
  {
    var head, value := MARKER + gap, JsonText(j) + after;
    var tail := text[k..];
    MarkerHead(gap, head);
    IndexOfFirst(tail, '=', |head|) by { assert tail[..|head|] == head; }
    assert tail[|head| + 1..] == space + value;
    assert value[0] == '{' by { ObjectBrace(j); }
    TrimLeftOver(space, value);
    JsonIsItems(j);
    GroupFound(JsonText(j), after);
  }

  /** Whatever the script, what is handed on is a balanced group that stands after the first marker and an equals sign. */
  lemma ScriptGivesGroup(text: string) returns (k: nat, i: nat)
    requires ScriptObject(text).Some?
    ensures IsGroup(ScriptObject(text).value) && IndexOfString(text, "ytInitialPlayerResponse") == Some(k)
    ensures k < i <= |text| && '=' in text[k..i] && StartsWith(text[i..], ScriptObject(text).value)
  {
    hide IndexOf, IndexOfString, IsGroup, Balanced, TrimLeft, StartsWith;
    k := IndexOfString(text, MARKER).value;
    var eq := IndexOf(text[k..], '=');
    IndexMeans(text[k..], '=');
    var rest := text[k..][eq + 1..];
    var n := TrimLeftPart(rest);
    BalancedIsTheGroupPrefix(TrimLeft(rest), ScriptObject(text).value);
    i := k + eq + 1 + n;
    AfterEquals(text, k, eq, n);
  }

  lemma AfterEquals(text: string, k: nat, eq: nat, n: nat)
    requires k + eq + 1 + n <= |text| && text[k..][eq] == '='
    ensures text[k..][eq + 1..][n..] == text[k + eq + 1 + n..] && '=' in text[k..k + eq + 1 + n]
  {
    assert text[k..k + eq + 1 + n][eq] == '=';
  }

  lemma ObjectBrace(j: Json)
    requires j.Obj?
    ensures JsonText(j) != "" && JsonText(j)[0] == '{'
  {}

  lemma MarkerHead(gap: string, head: string)
    requires '=' !in gap && head == MARKER + gap
    ensures '=' !in head
  {
    assert '=' !in MARKER;
  }
}
