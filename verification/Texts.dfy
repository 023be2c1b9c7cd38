/** The string operations of JavaScript that the address readers use: join, split, numerals. */
module Texts {
  function Join(parts: seq<string>, separator: string): string {
    if |parts| == 0 then ""
    else if |parts| == 1 then parts[0]
    else parts[0] + separator + Join(parts[1..], separator)
  }

  /** `s.split(c)` for a one-character separator. */
  function Split(s: string, c: char): (parts: seq<string>)
    ensures |parts| > 0
  {
    if s == "" then [""]
    else
      var parts := Split(s[1..], c);
      if s[0] == c then [""] + parts else [[s[0]] + parts[0]] + parts[1..]
  }

  /** `s.split("::")` */
  function SplitGap(s: string): (parts: seq<string>)
    ensures |parts| > 0
  {
    if |s| < 2 then [s]
    else if s[0] == ':' && s[1] == ':' then [""] + SplitGap(s[2..])
    else
      var parts := SplitGap(s[1..]);
      [[s[0]] + parts[0]] + parts[1..]
  }

  lemma {:induction false} DropPrefix(prefix: string, s: string, t: string)
    requires prefix + s == prefix + t
    ensures s == t
  {
    assert (prefix + s)[|prefix|..] == s && (prefix + t)[|prefix|..] == t;
  }

  lemma {:induction false} SplitFree(p: string, c: char)
    requires c !in p
    ensures Split(p, c) == [p]
  {
    if p != "" {
      SplitFree(p[1..], c);
      assert p == [p[0]] + p[1..];
    }
  }

  lemma {:induction false} SplitAt(p: string, c: char, s: string)
    requires c !in p
    ensures Split(p + [c] + s, c) == [p] + Split(s, c)
  {
    var t := p + [c] + s;
    if p == "" {
      assert t[1..] == s;
    } else {
      SplitAt(p[1..], c, s);
      assert t[1..] == p[1..] + [c] + s;
      assert p == [p[0]] + p[1..];
      assert t[0] == p[0];
    }
  }

  lemma {:induction false} SplitJoin(parts: seq<string>, c: char)
    requires parts != [] && forall i :: 0 <= i < |parts| ==> c !in parts[i]
    ensures Split(Join(parts, [c]), c) == parts
  {
    if |parts| == 1 {
      SplitFree(parts[0], c);
    } else {
      SplitJoin(parts[1..], c);
      SplitAt(parts[0], c, Join(parts[1..], [c]));
      assert parts == [parts[0]] + parts[1..];
    }
  }

  /** `x` stands in `s` at `i`, with `c` or nothing on either side and no `c` in it. */
  ghost predicate Segment(s: string, c: char, i: nat, x: string) {
    && i + |x| <= |s| && s[i..i + |x|] == x && c !in x
    && (i == 0 || s[i - 1] == c) && (i + |x| == |s| || s[i + |x|] == c)
  }

  lemma {:induction false} OneSegment(s: string, c: char, i: nat, x: string)
    requires c !in s && Segment(s, c, i, x)
    ensures x == s
  {
    forall m | 0 <= m < |s| ensures s[m] != c { assert s[m] in s; }
    assert s[0..|s|] == s;
  }

  lemma {:induction false} LaterSegment(s: string, c: char, n: nat, i: nat, x: string)
    requires n < |s| && s[n] == c && Segment(s[n + 1..], c, i, x)
    ensures Segment(s, c, n + 1 + i, x)
  {
    var t := s[n + 1..];
    assert t[i..i + |x|] == s[n + 1 + i..n + 1 + i + |x|];
    assert i > 0 ==> t[i - 1] == s[n + 1 + i - 1];
    assert i + |x| < |t| ==> t[i + |x|] == s[n + 1 + i + |x|];
  }

  /** The parts of a text are its segments. */
  lemma {:induction false} SplitSegments(s: string, c: char, x: string)
    ensures x in Split(s, c) <==> exists i: nat :: Segment(s, c, i, x)
    decreases |s|
  {
    if c !in s {
      SplitFree(s, c);
      if x == s { assert Segment(s, c, 0, x); }
      forall i: nat | Segment(s, c, i, x) ensures x == s { OneSegment(s, c, i, x); }
    } else {
      var n := FirstIndex(s, c);
      var p, t := s[..n], s[n + 1..];
      assert s == p + [c] + t;
      SplitAt(p, c, t);
      SplitSegments(t, c, x);
      if x == p { assert Segment(s, c, 0, x); }
      hide Segment, Split;
      forall i: nat | Segment(t, c, i, x) ensures Segment(s, c, n + 1 + i, x) { LaterSegment(s, c, n, i, x); }
      forall i: nat | Segment(s, c, i, x) ensures x in [p] + Split(t, c) { SegmentSide(s, c, n, i, x); }
      assert x in [p] + Split(t, c) <==> x == p || x in Split(t, c);
    }
  }

  lemma {:induction false} FirstIndex(s: string, c: char) returns (n: nat)
    requires c in s
    ensures n < |s| && s[n] == c && c !in s[..n]
  {
    if s[0] == c {
      n := 0;
    } else {
      var m := FirstIndex(s[1..], c);
      n := m + 1;
      assert s[..n] == [s[0]] + s[1..][..m];
    }
  }

  lemma {:induction false} SegmentSide(s: string, c: char, n: nat, i: nat, x: string)
    requires n < |s| && s[n] == c && c !in s[..n] && Segment(s, c, i, x)
    ensures x == s[..n] || (i > n && Segment(s[n + 1..], c, i - n - 1, x))
  {
    if i > n {
      assert s[n + 1..][i - n - 1..i - n - 1 + |x|] == s[i..i + |x|];
    } else {
      forall m | 0 <= m < n ensures s[m] != c { assert s[m] == s[..n][m]; }
      forall m | i <= m < i + |x| ensures s[m] != c { assert s[m] == x[m - i]; }
      SegmentStart(s, c, n, i, x);
    }
  }

  lemma {:induction false} SegmentStart(s: string, c: char, n: nat, i: nat, x: string)
    requires n < |s| && s[n] == c && (forall m :: 0 <= m < n ==> s[m] != c) && i <= n && Segment(s, c, i, x)
    requires forall m :: i <= m < i + |x| ==> s[m] != c
    ensures x == s[..n]
  {
    assert i == 0 && |x| == n;
  }

  /** A stretch without `c` lies in some segment. */
  lemma {:induction false} SegmentAround(s: string, c: char, i: nat, j: nat) returns (start: nat, x: string)
    requires i <= j <= |s| && c !in s[i..j]
    ensures Segment(s, c, start, x) && start <= i && j <= start + |x|
    decreases i + |s| - j
  {
    if i > 0 && s[i - 1] != c {
      assert s[i - 1..j] == [s[i - 1]] + s[i..j];
      start, x := SegmentAround(s, c, i - 1, j);
    } else if j < |s| && s[j] != c {
      assert s[i..j + 1] == s[i..j] + [s[j]];
      start, x := SegmentAround(s, c, i, j + 1);
    } else {
      start, x := i, s[i..j];
    }
  }

  ghost predicate HasGap(s: string) {
    exists i :: 0 <= i < |s| - 1 && s[i] == ':' && s[i + 1] == ':'
  }

  lemma {:induction false} SplitGapFree(s: string)
    requires !HasGap(s)
    ensures SplitGap(s) == [s]
  {
    if |s| >= 2 {
      assert s[0] != ':' || s[0 + 1] != ':';
      assert !HasGap(s[1..]) by {
        forall i | 0 <= i < |s[1..]| - 1 ensures s[1..][i] != ':' || s[1..][i + 1] != ':' {
          assert s[1..][i] == s[i + 1] && s[1..][i + 1] == s[i + 1 + 1];
        }
      }
      SplitGapFree(s[1..]);
      assert s == [s[0]] + s[1..];
    }
  }

  lemma {:induction false} SplitGapAt(a: string, b: string)
    requires !HasGap(a) && (a == "" || a[|a| - 1] != ':') && !HasGap(b)
    ensures SplitGap(a + "::" + b) == [a, b]
  {
    var s := a + "::" + b;
    if a == "" {
      SplitGapFree(b);
      assert s[2..] == b;
    } else {
      assert s[1..] == a[1..] + "::" + b;
      assert s[0] != ':' || s[1] != ':' by { if |a| > 1 { assert a[0] != ':' || a[0 + 1] != ':'; } }
      assert !HasGap(a[1..]) by {
        forall i | 0 <= i < |a[1..]| - 1 ensures a[1..][i] != ':' || a[1..][i + 1] != ':' {
          assert a[1..][i] == a[i + 1] && a[1..][i + 1] == a[i + 1 + 1];
        }
      }
      SplitGapAt(a[1..], b);
      assert a == [a[0]] + a[1..];
    }
  }

  lemma {:induction false} JoinCons(p: string, parts: seq<string>, separator: string)
    requires parts != []
    ensures Join([p] + parts, separator) == p + separator + Join(parts, separator)
  {
    assert ([p] + parts)[1..] == parts;
  }

  lemma {:induction false} JoinSnoc(parts: seq<string>, p: string, separator: string)
    requires parts != []
    ensures Join(parts + [p], separator) == Join(parts, separator) + separator + p
  {
    if |parts| == 1 {
      assert (parts + [p])[1..] == [p];
    } else {
      JoinSnoc(parts[1..], p, separator);
      assert (parts + [p])[1..] == parts[1..] + [p];
    }
  }

  /** Joining non-empty, colon-free parts with single colons leaves no "::" and no colon at either end. */
  lemma {:induction false} JoinHasNoGap(parts: seq<string>)
    requires forall i :: 0 <= i < |parts| ==> parts[i] != "" && ':' !in parts[i]
    ensures var s := Join(parts, ":");
            !HasGap(s) && (parts != [] ==> s != "" && s[0] != ':' && s[|s| - 1] != ':')
  {
    if |parts| == 1 {
      assert parts[0][0] in parts[0] && parts[0][|parts[0]| - 1] in parts[0];
      assert forall i :: 0 <= i < |parts[0]| ==> parts[0][i] in parts[0];
    } else if |parts| > 1 {
      var p, rest := parts[0], Join(parts[1..], ":");
      JoinHasNoGap(parts[1..]);
      var s := Join(parts, ":");
      assert s == p + ":" + rest;
      assert forall i :: 0 <= i < |p| ==> p[i] in p;
      forall i | 0 <= i < |s| - 1 ensures s[i] != ':' || s[i + 1] != ':' {
        if i < |p| {
          assert s[i] == p[i];
        } else if i > |p| {
          var k := i - |p| - 1;
          assert s[i] == rest[k] && s[i + 1] == rest[k + 1];
        }
      }
    }
  }

  // ----- Numerals -----

  function DigitValue(c: char): int {
    if '0' <= c <= '9' then c as int - '0' as int
    else if 'a' <= c <= 'f' then c as int - 'a' as int + 10
    else if 'A' <= c <= 'F' then c as int - 'A' as int + 10
    else 16
  }

  predicate IsHexDigit(c: char) { DigitValue(c) < 16 }

  predicate IsDecimalDigit(c: char) { '0' <= c <= '9' }

  predicate AllHex(s: string) { forall i :: 0 <= i < |s| ==> IsHexDigit(s[i]) }

  predicate AllDecimal(s: string) { forall i :: 0 <= i < |s| ==> IsDecimalDigit(s[i]) }

  function DigitChar(d: int): char
    requires 0 <= d < 16
  {
    "0123456789abcdef"[d]
  }

  /** `n.toString(16)` */
  function ToHex(n: nat): string {
    if n < 16 then [DigitChar(n)] else ToHex(n / 16) + [DigitChar(n % 16)]
  }

  /** `String(n)` */
  function ToDecimal(n: nat): string {
    if n < 10 then [DigitChar(n)] else ToDecimal(n / 10) + [DigitChar(n % 10)]
  }

  /** `Number.parseInt(s, 16)` on hexadecimal digits. */
  function HexValue(s: string): nat
    requires AllHex(s)
  {
    if s == "" then 0 else 16 * HexValue(s[..|s| - 1]) + DigitValue(s[|s| - 1])
  }

  /** `Number(s)` on decimal digits. */
  function DecimalValue(s: string): nat
    requires AllDecimal(s)
  {
    if s == "" then 0 else 10 * DecimalValue(s[..|s| - 1]) + DigitValue(s[|s| - 1])
  }

  lemma {:induction false} DigitCharValue(d: int)
    requires 0 <= d < 16
    ensures DigitValue(DigitChar(d)) == d && IsHexDigit(DigitChar(d))
    ensures d < 10 ==> IsDecimalDigit(DigitChar(d))
    ensures DigitChar(d) == LowerChar(DigitChar(d))
  {
  }

  lemma {:induction false} HexRoundTrip(n: nat)
    ensures ToHex(n) != "" && AllHex(ToHex(n)) && HexValue(ToHex(n)) == n
  {
    DigitCharValue(n % 16);
    if n >= 16 {
      HexRoundTrip(n / 16);
      var s := ToHex(n);
      assert s[..|s| - 1] == ToHex(n / 16);
    }
  }

  lemma {:induction false} DecimalRoundTrip(n: nat)
    ensures ToDecimal(n) != "" && AllDecimal(ToDecimal(n)) && DecimalValue(ToDecimal(n)) == n
  {
    DigitCharValue(n % 10);
    if n >= 10 {
      DecimalRoundTrip(n / 10);
      var s := ToDecimal(n);
      assert s[..|s| - 1] == ToDecimal(n / 10);
    }
  }

  lemma {:induction false} HexLength(n: nat)
    requires n < 0x1_0000
    ensures 1 <= |ToHex(n)| <= 4
  {
    if n >= 16 {
      assert |ToHex(n)| == |ToHex(n / 16)| + 1;
      if n / 16 >= 16 {
        assert |ToHex(n / 16)| == |ToHex(n / 16 / 16)| + 1;
        if n / 16 / 16 >= 16 { assert |ToHex(n / 16 / 16)| == |ToHex(n / 16 / 16 / 16)| + 1; }
      }
    }
  }

  lemma {:induction false} DecimalLength(n: nat)
    requires n < 256
    ensures 1 <= |ToDecimal(n)| <= 3
  {
    if n >= 10 {
      assert |ToDecimal(n)| == |ToDecimal(n / 10)| + 1;
      if n / 10 >= 10 { assert |ToDecimal(n / 10)| == |ToDecimal(n / 10 / 10)| + 1; }
    }
  }

  // ----- Lower case (ASCII) -----

  function LowerChar(c: char): char {
    if 'A' <= c <= 'Z' then (c as int + 32) as char else c
  }

  function Lower(s: string): (r: string)
    ensures |r| == |s| && forall i :: 0 <= i < |s| ==> r[i] == LowerChar(s[i])
  {
    seq(|s|, i requires 0 <= i < |s| => LowerChar(s[i]))
  }

  lemma {:induction false} LowerHexValue(s: string)
    requires AllHex(s)
    ensures AllHex(Lower(s)) && HexValue(Lower(s)) == HexValue(s)
  {
    assert forall i :: 0 <= i < |s| ==> DigitValue(LowerChar(s[i])) == DigitValue(s[i]);
    if s != "" {
      var t := s[..|s| - 1];
      LowerHexValue(t);
      assert Lower(s)[..|s| - 1] == Lower(t);
    }
  }

  lemma {:induction false} LowerConcat(s: string, t: string)
    ensures Lower(s + t) == Lower(s) + Lower(t)
  {
  }
}
