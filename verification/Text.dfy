/** Characters, decimal numerals, trimming, lines: the string operations the parsers and printers share. */
module Text {

  datatype Option<+T> = None | Some(value: T)
  {
    function GetOr(other: T): T {
      if Some? then value else other
    }
  }

  // ----- Decimal numerals -----

  predicate IsDigit(c: char) {
    '0' <= c <= '9'
  }

  predicate AllDigits(s: string) {
    forall i :: 0 <= i < |s| ==> IsDigit(s[i])
  }

  lemma OnlyDigits(s: string, c: char)
    requires AllDigits(s) && !IsDigit(c)
    ensures c !in s
  {}

  function DigitChar(d: nat): (c: char)
    requires d < 10
    ensures IsDigit(c) && DigitValue(c) == d
  {
    '0' + d as char
  }

  function DigitValue(c: char): nat
    requires IsDigit(c)
  {
    (c - '0') as nat
  }

  /** The shortest decimal numeral of `n`. */
  function Dec(n: nat): (s: string)
    ensures |s| >= 1 && AllDigits(s)
  {
    if n < 10 then [DigitChar(n)] else Dec(n / 10) + [DigitChar(n % 10)]
  }

  /** The number a digit string denotes (0 for the empty string). */
  function Value(s: string): nat
    requires AllDigits(s)
  {
    if s == [] then 0 else 10 * Value(s[..|s| - 1]) + DigitValue(s[|s| - 1])
  }

  lemma ValueSnoc(s: string, c: char)
    requires AllDigits(s) && IsDigit(c)
    ensures Value(s + [c]) == 10 * Value(s) + DigitValue(c)
  {
    assert (s + [c])[..|s|] == s;
  }

  lemma {:induction false} DecValue(n: nat)
    ensures Value(Dec(n)) == n
  {
    if n >= 10 {
      DecValue(n / 10);
      ValueSnoc(Dec(n / 10), DigitChar(n % 10));
    } else {
      ValueSnoc([], DigitChar(n));
    }
  }

  /** Rust's `{n:0w$}`: the numeral, filled with zeros on the left to at least `w` digits. */
  function Pad(w: nat, n: nat): (s: string)
    ensures AllDigits(s) && |s| >= w && |s| >= 1
    decreases w
  {
    if w == 0 then Dec(n)
    else if n < 10 then Zeros(w - 1) + [DigitChar(n)]
    else Pad(w - 1, n / 10) + [DigitChar(n % 10)]
  }

  function Zeros(k: nat): (s: string)
    ensures |s| == k && AllDigits(s)
  {
    if k == 0 then [] else Zeros(k - 1) + ['0']
  }

  lemma {:induction false} ZerosValue(k: nat)
    ensures Value(Zeros(k)) == 0
  {
    if k > 0 {
      ZerosValue(k - 1);
      ValueSnoc(Zeros(k - 1), '0');
    }
  }

  lemma {:induction false} PadValue(w: nat, n: nat)
    ensures Value(Pad(w, n)) == n
  {
    hide Value;
    if w == 0 {
      DecValue(n);
    } else if n < 10 {
      ZerosValue(w - 1);
      ValueSnoc(Zeros(w - 1), DigitChar(n));
    } else {
      PadValue(w - 1, n / 10);
      ValueSnoc(Pad(w - 1, n / 10), DigitChar(n % 10));
    }
  }

  /** Two digits up to 99, and more from 100 on; three digits up to 999. */
  lemma PadWidth(n: nat)
    ensures |Pad(2, n)| == 2 <==> n < 100
    ensures n < 1000 ==> |Pad(3, n)| == 3
  {
    if 10 <= n {
      assert |Pad(2, n)| == |Pad(1, n / 10)| + 1;
      if 100 <= n {
        assert |Pad(1, n / 10)| == |Pad(0, n / 100)| + 1;
        if n < 1000 {
          assert |Pad(3, n)| == |Pad(2, n / 10)| + 1 == |Pad(1, n / 100)| + 2;
        }
      } else {
        assert |Pad(3, n)| == |Pad(2, n / 10)| + 1;
      }
    }
  }

  // ----- White space -----

  /** What JavaScript's `\s` and `trim` take for white space. */
  predicate IsSpace(c: char) {
    || '\t' <= c <= '\r' || c == ' ' || c == '\U{00A0}' || c == '\U{1680}'
    || '\U{2000}' <= c <= '\U{200A}' || c == '\U{2028}' || c == '\U{2029}'
    || c == '\U{202F}' || c == '\U{205F}' || c == '\U{3000}' || c == '\U{FEFF}'
  }

  function TrimLeft(s: string): (r: string)
    ensures |r| <= |s| && (s != [] && IsSpace(s[0]) ==> |r| < |s|) && (r != [] ==> !IsSpace(r[0]))
  {
    if s != [] && IsSpace(s[0]) then TrimLeft(s[1..]) else s
  }

  function TrimRight(s: string): string {
    if s != [] && IsSpace(s[|s| - 1]) then TrimRight(s[..|s| - 1]) else s
  }

  function Trim(s: string): string {
    TrimRight(TrimLeft(s))
  }

  /** `replace(/\s+/g, " ")`: every run of white space becomes one space. */
  function Collapse(s: string): string
    decreases |s|
  {
    if s == [] then []
    else if IsSpace(s[0]) then [' '] + Collapse(TrimLeft(s))
    else [s[0]] + Collapse(s[1..])
  }

  /** Non-empty, with no white space at either end: what `trim` leaves alone. */
  predicate Trimmed(s: string) {
    s != [] && !IsSpace(s[0]) && !IsSpace(s[|s| - 1])
  }

  lemma TrimIdentity(s: string)
    requires s == [] || Trimmed(s)
    ensures Trim(s) == s && TrimLeft(s) == s
  {}

  /** White space after a trimmed text is what `trim` takes off. */
  lemma {:induction false} TrimTail(s: string, tail: string)
    requires Trimmed(s) && (forall c :: c in tail ==> IsSpace(c))
    ensures Trim(s + tail) == s
    decreases |tail|
  {
    var t := s + tail;
    assert TrimLeft(t) == t;
    if tail == [] {
      assert t == s;
    } else {
      assert t[|t| - 1] == tail[|tail| - 1];
      assert t[..|t| - 1] == s + tail[..|tail| - 1];
      TrimTail(s, tail[..|tail| - 1]);
      assert TrimLeft(s + tail[..|tail| - 1]) == s + tail[..|tail| - 1];
    }
  }

  lemma {:induction false} TrimRightEnd(s: string)
    ensures TrimRight(s) == [] || !IsSpace(TrimRight(s)[|TrimRight(s)| - 1])
    ensures TrimRight(s) != [] ==> s != [] && TrimRight(s)[0] == s[0]
    decreases |s|
  {
    if s != [] && IsSpace(s[|s| - 1]) {
      TrimRightEnd(s[..|s| - 1]);
    }
  }

  lemma TrimTwice(s: string)
    ensures Trim(s) == "" || Trimmed(Trim(s))
    ensures Trim(Trim(s)) == Trim(s)
  {
    TrimRightEnd(TrimLeft(s));
    TrimIdentity(Trim(s));
  }

  /** What is trimmed is a part of the text. */
  lemma {:induction false} TrimLeftPart(s: string) returns (i: nat)
    ensures i <= |s| && TrimLeft(s) == s[i..]
  {
    if s != [] && IsSpace(s[0]) {
      i := TrimLeftPart(s[1..]);
      i := i + 1;
    } else {
      i := 0;
    }
  }

  lemma {:induction false} TrimRightPart(s: string) returns (j: nat)
    ensures j <= |s| && TrimRight(s) == s[..j]
    decreases |s|
  {
    if s != [] && IsSpace(s[|s| - 1]) {
      j := TrimRightPart(s[..|s| - 1]);
    } else {
      j := |s|;
    }
  }

  lemma TrimPart(s: string) returns (i: nat, j: nat)
    ensures i <= j <= |s| && Trim(s) == s[i..j]
  {
    i := TrimLeftPart(s);
    j := TrimRightPart(s[i..]);
    j := i + j;
  }

  lemma TrimChars(s: string, c: char)
    requires c in Trim(s)
    ensures c in s
  {
    var i, j := TrimPart(s);
    var p :| 0 <= p < |Trim(s)| && Trim(s)[p] == c;
    assert s[i + p] == c;
  }

  lemma {:induction false} TrimLeftOver(space: string, s: string)
    requires (forall c :: c in space ==> IsSpace(c)) && s != [] && !IsSpace(s[0])
    ensures TrimLeft(space + s) == s
  {
    if space == [] {
      assert space + s == s;
    } else {
      TrimLeftOver(space[1..], s);
      assert (space + s)[1..] == space[1..] + s;
    }
  }

  // ----- Substrings -----

  /** Whether `p` begins at `s[0]`. */
  predicate StartsWith(s: string, p: string) {
    |p| <= |s| && s[..|p|] == p
  }

  /** JavaScript's `includes`. */
  predicate Contains(s: string, p: string) {
    StartsWith(s, p) || (s != [] && Contains(s[1..], p))
  }

  lemma {:induction false} ContainsAt(s: string, p: string, i: nat)
    requires i <= |s| && StartsWith(s[i..], p)
    ensures Contains(s, p)
    decreases i
  {
    if i == 0 {
      assert s[0..] == s;
    } else {
      assert s[1..][i - 1..] == s[i..];
      ContainsAt(s[1..], p, i - 1);
    }
  }

  /** JavaScript's `indexOf(pattern)`. */
  function IndexOfString(s: string, p: string): (k: Option<nat>)
    ensures k.Some? ==> k.value <= |s| && StartsWith(s[k.value..], p)
    ensures k.Some? ==> forall i :: 0 <= i < k.value ==> !StartsWith(s[i..], p)
    ensures k.None? ==> forall i :: 0 <= i <= |s| ==> !StartsWith(s[i..], p)
  {
    if StartsWith(s, p) then assert s[0..] == s; Some(0)
    else if s == [] then None
    else
      var k := IndexOfString(s[1..], p);
      ShiftedStarts(s, p);
      if k.None? then None else Some(k.value + 1)
  }

  lemma ShiftedStarts(s: string, p: string)
    requires s != []
    ensures s[0..] == s
    ensures forall i: nat {:trigger StartsWith(s[i..], p)} :: 1 <= i <= |s| ==>
              s[1..][i - 1..] == s[i..] && StartsWith(s[i..], p) == StartsWith(s[1..][i - 1..], p)
  {
    forall i: nat | 1 <= i <= |s| ensures s[1..][i - 1..] == s[i..] {}
  }

  /** Whether `s` begins with `shape`, where `d` stands for any digit. */
  predicate Shape(s: string, shape: string) {
    |shape| <= |s| && forall i :: 0 <= i < |shape| ==> if shape[i] == 'd' then IsDigit(s[i]) else s[i] == shape[i]
  }

  // ----- Lines -----

  function ChompCr(line: string): string {
    if line != [] && line[|line| - 1] == '\r' then line[..|line| - 1] else line
  }

  function IndexOf(s: string, c: char): (k: nat)
    ensures k <= |s| && c !in s[..k] && (k < |s| ==> s[k] == c)
  {
    if s == [] || s[0] == c then 0 else
      var k := IndexOf(s[1..], c) + 1;
      assert s[..k] == [s[0]] + s[1..][..k - 1];
      k
  }

  /** JavaScript's `split(/\r?\n/)`. */
  function SplitLines(s: string): (ls: seq<string>)
    ensures |ls| >= 1
  {
    var k := IndexOf(s, '\n');
    if k == |s| then [s] else [ChompCr(s[..k])] + SplitLines(s[k + 1..])
  }

  lemma SplitLinesStep(s: string)
    ensures var k := IndexOf(s, '\n');
            SplitLines(s) == if k == |s| then [s] else [ChompCr(s[..k])] + SplitLines(s[k + 1..])
  {
    hide IndexOf, ChompCr;
  }

  /** What the index says, for proofs that hide how it is found. */
  lemma IndexMeans(s: string, c: char)
    ensures IndexOf(s, c) < |s| ==> s[IndexOf(s, c)] == c
    ensures IndexOf(s, c) == |s| ==> c !in s
  {
    assert s[..|s|] == s;
  }

  lemma SplitLine(line: string, rest: string)
    requires '\n' !in line && (line == [] || line[|line| - 1] != '\r')
    ensures SplitLines(line + "\n" + rest) == [line] + SplitLines(rest)
    ensures SplitLines(line) == [line]
  {
    var s := line + "\n" + rest;
    IndexOfFirst(s, '\n', |line|);
    assert s[..|line|] == line && s[|line| + 1..] == rest;
    IndexOfNone(line, '\n');
  }

  lemma {:induction false} IndexOfFirst(s: string, c: char, k: nat)
    requires k < |s| && s[k] == c && c !in s[..k]
    ensures IndexOf(s, c) == k
  {
    if k > 0 {
      assert s[0] in s[..k] && s[1..][..k - 1] == s[1..k];
      IndexOfFirst(s[1..], c, k - 1);
    }
  }

  lemma {:induction false} IndexOfNone(s: string, c: char)
    requires c !in s
    ensures IndexOf(s, c) == |s|
  {
    if s != [] {
      IndexOfNone(s[1..], c);
    }
  }

  /** JavaScript's `split` on one character. */
  function SplitOn(s: string, c: char): (parts: seq<string>)
    ensures |parts| >= 1
  {
    var k := IndexOf(s, c);
    if k == |s| then [s] else [s[..k]] + SplitOn(s[k + 1..], c)
  }

  lemma SplitOnStep(s: string, c: char)
    ensures SplitOn(s, c)
         == if IndexOf(s, c) == |s| then [s] else [s[..IndexOf(s, c)]] + SplitOn(s[IndexOf(s, c) + 1..], c)
  {}

  lemma SplitOnFirst(head: string, c: char, rest: string)
    requires c !in head
    ensures SplitOn(head + [c] + rest, c) == [head] + SplitOn(rest, c)
    ensures SplitOn(head, c) == [head]
  {
    var s := head + [c] + rest;
    IndexOfFirst(s, c, |head|) by { assert s[..|head|] == head; }
    assert s[..|head|] == head && s[|head| + 1..] == rest;
    IndexOfNone(head, c);
  }

  /** JavaScript's `join`. */
  function Join(parts: seq<string>, glue: string): string {
    if parts == [] then "" else if |parts| == 1 then parts[0] else parts[0] + glue + Join(parts[1..], glue)
  }

  // ----- Words -----

  /** The maximal runs of characters that are not white space. */
  ghost function Words(s: string): (ws: seq<string>)
    ensures s != [] && !IsSpace(s[0]) ==> ws != []
  {
    if s == [] then []
    else
      var rest := Words(s[1..]);
      if IsSpace(s[0]) then rest
      else if |s| > 1 && !IsSpace(s[1]) then [[s[0]] + rest[0]] + rest[1..]
      else [[s[0]]] + rest
  }

  lemma {:induction false} WordsAcrossSpace(a: string, c: char, b: string)
    requires IsSpace(c)
    ensures Words(a + [c] + b) == Words(a) + Words(b)
  {
    hide IsSpace;
    var s := a + [c] + b;
    if a == [] {
      assert s[1..] == b;
    } else {
      WordsAcrossSpace(a[1..], c, b);
      assert s[1..] == a[1..] + [c] + b && s[0] == a[0];
      assert |a| > 1 ==> s[1] == a[1];
      assert |a| == 1 ==> s[1] == c && Words(a[1..]) == [];
    }
  }

  lemma {:induction false} WordsTrimLeft(s: string)
    ensures Words(TrimLeft(s)) == Words(s)
  {
    hide IsSpace;
    if s != [] && IsSpace(s[0]) {
      WordsTrimLeft(s[1..]);
    }
  }

  lemma {:induction false} WordsTrimRight(s: string)
    ensures Words(TrimRight(s)) == Words(s)
    decreases |s|
  {
    hide IsSpace;
    if s != [] && IsSpace(s[|s| - 1]) {
      var n := |s| - 1;
      WordsTrimRight(s[..n]);
      WordsAcrossSpace(s[..n], s[n], []);
      assert s == s[..n] + [s[n]] + [];
    }
  }

  lemma {:induction false} WordsCollapse(s: string)
    ensures Words(Collapse(s)) == Words(s)
    ensures s != [] ==> Collapse(s) != [] && (IsSpace(Collapse(s)[0]) <==> IsSpace(s[0]))
    decreases |s|
  {
    if s != [] {
      if IsSpace(s[0]) {
        WordsCollapse(TrimLeft(s));
        WordsTrimLeft(s);
        assert Collapse(s)[1..] == Collapse(TrimLeft(s));
      } else {
        WordsCollapse(s[1..]);
        assert Collapse(s)[1..] == Collapse(s[1..]);
      }
    }
  }

  /** Joining two texts with a space and normalizing the white space keeps the words, in order. */
  lemma WordsOfJoin(a: string, b: string)
    ensures Words(Trim(Collapse(a + " " + b))) == Words(a) + Words(b)
  {
    var s := Collapse(a + " " + b);
    WordsTrimRight(TrimLeft(s));
    WordsTrimLeft(s);
    WordsCollapse(a + " " + b);
    WordsAcrossSpace(a, ' ', b);
  }

  lemma {:induction false} WordsNone(s: string)
    ensures Words(s) == [] <==> forall i :: 0 <= i < |s| ==> IsSpace(s[i])
  {
    hide IsSpace;
    if s != [] {
      WordsNone(s[1..]);
      assert s == [s[0]] + s[1..];
    }
  }

  /** Normalizing the white space of a text keeps its words, and leaves nothing exactly of a blank text. */
  lemma NormalizedText(s: string)
    ensures Words(Trim(Collapse(s))) == Words(s)
    ensures Trim(Collapse(s)) == "" <==> forall i :: 0 <= i < |s| ==> IsSpace(s[i])
  {
    hide IsSpace;
    var t := Collapse(s);
    WordsCollapse(s);
    WordsTrimLeft(t);
    WordsTrimRight(TrimLeft(t));
    TrimTwice(t);
    WordsNone(s);
  }
}
