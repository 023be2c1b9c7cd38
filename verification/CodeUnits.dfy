/** Text as JavaScript has it, and the integers that its numbers hold exactly. */
module CodeUnits {
  /** A UTF-16 code unit; a surrogate may stand alone. */
  type CodeUnit = u: int | 0 <= u < 0x1_0000

  type Text = seq<CodeUnit>

  const MAXIMUM_SAFE_INTEGER := 9_007_199_254_740_991

  type SafeInteger = n: int | -MAXIMUM_SAFE_INTEGER <= n <= MAXIMUM_SAFE_INTEGER

  /** A character outside the basic plane takes two units. */
  function CharUnits(c: char): Text {
    var n := c as int;
    if n < 0x1_0000 then [n] else [0xD800 + (n - 0x1_0000) / 0x400, 0xDC00 + (n - 0x1_0000) % 0x400]
  }

  function Units(s: string): Text { if s == "" then [] else CharUnits(s[0]) + Units(s[1..]) }

  lemma {:induction false} UnitsConcat(s: string, t: string)
    ensures Units(s + t) == Units(s) + Units(t)
  {
    if s == "" {
      assert s + t == t;
    } else {
      UnitsConcat(s[1..], t);
      UnitsConcatStep(s, t);
    }
  }

  lemma {:induction false} UnitsFirst(s: string)
    requires s != ""
    ensures Units(s) == CharUnits(s[0]) + Units(s[1..])
  {
  }

  lemma {:induction false} UnitsConcatStep(s: string, t: string)
    requires s != "" && Units(s[1..] + t) == Units(s[1..]) + Units(t)
    ensures Units(s + t) == Units(s) + Units(t)
  {
    hide Units, CharUnits;
    assert (s + t)[0] == s[0] && (s + t)[1..] == s[1..] + t;
    UnitsFirst(s);
    UnitsFirst(s + t);
    assert CharUnits(s[0]) + (Units(s[1..]) + Units(t)) == CharUnits(s[0]) + Units(s[1..]) + Units(t);
  }

  lemma {:induction false} UnitsOfAscii(s: string)
    requires forall k :: 0 <= k < |s| ==> s[k] < '\U{80}'
    ensures |Units(s)| == |s| && forall k :: 0 <= k < |s| ==> Units(s)[k] == s[k] as int
  {
    if s != "" { UnitsOfAscii(s[1..]); }
  }
}
