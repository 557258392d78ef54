/** JavaScript's view of a string: its UTF-16 code units. */
module Utf16 {

  type Unit = u: nat | u < 0x1_0000

  predicate Astral(c: char) {
    c as int >= 0x1_0000
  }

  /** The high and the low surrogate of a character outside the basic plane. */
  function High(c: char): (u: Unit)
    requires Astral(c)
    ensures 0xD800 <= u < 0xDC00
  {
    0xD800 + (c as int - 0x1_0000) / 0x400
  }

  function Low(c: char): (u: Unit)
    requires Astral(c)
    ensures 0xDC00 <= u < 0xE000
  {
    0xDC00 + (c as int - 0x1_0000) % 0x400
  }

  function UnitsOf(c: char): (us: seq<Unit>)
    ensures 1 <= |us| <= 2
  {
    if Astral(c) then [High(c), Low(c)] else [c as int]
  }

  function Encode(s: string): (us: seq<Unit>)
    ensures |us| >= |s|
  {
    if s == [] then [] else UnitsOf(s[0]) + Encode(s[1..])
  }

  /** The same character, or two outside the basic plane with a surrogate in common. */
  predicate ShareUnit(c: char, d: char) {
    c == d || (Astral(c) && Astral(d) && (High(c) == High(d) || Low(c) == Low(d)))
  }

  lemma ShareUnitIff(c: char, d: char)
    ensures ShareUnit(c, d) <==> exists u :: u in UnitsOf(c) && u in UnitsOf(d)
  {
    if ShareUnit(c, d) {
      var us := UnitsOf(c);
      if c == d || High(c) == High(d) {
        assert us[0] in UnitsOf(c) && us[0] in UnitsOf(d);
      } else {
        assert Low(c) == UnitsOf(c)[1] == UnitsOf(d)[1];
        assert Low(c) in UnitsOf(c) && Low(c) in UnitsOf(d);
      }
    }
    if u :| u in UnitsOf(c) && u in UnitsOf(d) {
      assert !Astral(c) && !Astral(d) ==> u == c as int == d as int;
    }
  }

  lemma {:induction false} UnitIn(s: string, u: Unit)
    ensures u in Encode(s) <==> exists c :: c in s && u in UnitsOf(c)
  {
    if s != [] {
      UnitIn(s[1..], u);
      assert s == [s[0]] + s[1..];
    }
  }

  /** A character outside the basic plane is read back from its two surrogates, ten bits each. */
  lemma SurrogatesDecode(c: char)
    requires Astral(c)
    ensures c as int == 0x1_0000 + (High(c) - 0xD800) * 0x400 + (Low(c) - 0xDC00)
  {}
}
