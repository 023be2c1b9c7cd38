/** The rate-limit subject of a client address: canonicalisation, IPv6 expansion, /64 bucketing. */
module ClientIp {
  import opened Options
  import opened Texts
  import opened Ipv6
  import Bits

  // ----- The reader -----

  /** The numbers of `\d{1,3}\.\d{1,3}\.\d{1,3}\.\d{1,3}` matched against all of `s`. */
  function MatchQuad(s: string): (r: Option<seq<nat>>)
    ensures r.Some? ==> |r.value| == 4
  {
    var parts := Split(s, '.');
    if |parts| == 4 && forall i :: 0 <= i < 4 ==> 1 <= |parts[i]| <= 3 && AllDecimal(parts[i]) then
      Some([DecimalValue(parts[0]), DecimalValue(parts[1]), DecimalValue(parts[2]), DecimalValue(parts[3])])
    else None
  }

  /** The leftmost index from `i` on at which the rest of the address is a dotted quad. */
  function FindQuad(address: string, i: nat): (r: Option<nat>)
    requires i <= |address|
    ensures r.Some? ==> i <= r.value <= |address| && MatchQuad(address[r.value..]).Some?
    decreases |address| - i
  {
    if MatchQuad(address[i..]).Some? then Some(i)
    else if i == |address| then None
    else FindQuad(address, i + 1)
  }

  /** `(high << 8) | low` */
  function ShiftOr(high: nat, low: nat): nat { Bits.Or(Bits.ShiftLeft(high, 8), low) }

  function RewriteTail(address: string): string {
    match FindQuad(address, 0)
    case None => address
    case Some(i) =>
      var q := MatchQuad(address[i..]).value;
      address[..i] + ToHex(ShiftOr(q[0], q[1])) + ":" + ToHex(ShiftOr(q[2], q[3]))
  }

  function HexPrefix(s: string): (r: string)
    ensures AllHex(r)
  {
    if s != "" && IsHexDigit(s[0]) then [s[0]] + HexPrefix(s[1..]) else ""
  }

  /** `Number.parseInt(s, 16)`, None for NaN. */
  function ParseInt16(s: string): Option<nat> {
    var digits := HexPrefix(s);
    if digits == "" then None else Some(HexValue(digits))
  }

  function ParseGroups(part: string): seq<Option<nat>> {
    if part == "" then []
    else
      var groups := Split(part, ':');
      seq(|groups|, i requires 0 <= i < |groups| => ParseInt16(groups[i]))
  }

  /** Fills the gap between the parsed groups with zeros and checks that all eight are groups. */
  function FillGap(left: seq<Option<nat>>, right: seq<Option<nat>>, gap: bool): (r: Option<seq<nat>>)
    ensures r.Some? ==> |r.value| == 8
  {
    if |left| + |right| > 8 || (!gap && |left| + |right| != 8) then None
    else
      var groups := left + seq(8 - |left| - |right|, _ => Some(0)) + right;
      if forall i :: 0 <= i < 8 ==> groups[i].Some? && groups[i].value <= 0xFFFF then
        Some(seq(8, i requires 0 <= i < 8 => groups[i].value))
      else None
  }

  function Expand(ip: string): (r: Option<seq<nat>>)
    ensures r.Some? ==> |r.value| == 8
  {
    var parts := SplitGap(RewriteTail(Split(ip, '%')[0]));
    if |parts| == 1 then FillGap(ParseGroups(parts[0]), [], false)
    else FillGap(ParseGroups(parts[0]), ParseGroups(parts[1]), true)
  }

  // ----- Canonicalisation and the subject -----

  predicate IsSpace(c: char) {
    c in "\t\n\r " || c in "\U{0B}\U{0C}\U{A0}\U{1680}\U{2028}\U{2029}\U{202F}\U{205F}\U{3000}\U{FEFF}"
    || '\U{2000}' <= c <= '\U{200A}'
  }

  function TrimStart(s: string): string {
    if s != "" && IsSpace(s[0]) then TrimStart(s[1..]) else s
  }

  function TrimEnd(s: string): string {
    if s != "" && IsSpace(s[|s| - 1]) then TrimEnd(s[..|s| - 1]) else s
  }

  function Unbracket(s: string): string {
    if |s| >= 2 && s[0] == '[' && s[|s| - 1] == ']' then s[1..|s| - 1] else s
  }

  /** `/^::ffff:(\d{1,3}(?:\.\d{1,3}){3})$/i` */
  predicate IsMappedText(s: string) {
    |s| >= 7 && Lower(s[..7]) == "::ffff:" && MatchQuad(s[7..]).Some?
  }

  ghost function Canonical(value: Option<string>): Option<string> {
    if value.None? then None
    else
      var trimmed := Unbracket(TrimEnd(TrimStart(value.value)));
      if trimmed == "" || |trimmed| > 45 then None
      else
        var candidate := if IsMappedText(trimmed) then trimmed[7..] else trimmed;
        if IsIPv4(candidate) then Some(candidate)
        else if IsIPv6(candidate) then Some(Lower(candidate))
        else None
  }

  /** The first four groups and the /64 suffix. */
  function Bucket(groups: seq<nat>): string
    requires |groups| == 8
  {
    Join([ToHex(groups[0]), ToHex(groups[1]), ToHex(groups[2]), ToHex(groups[3])], ":") + "::/64"
  }

  ghost function Subject(ip: string): string {
    var canonical := match Canonical(Some(ip)) case Some(c) => c case None => ip;
    if !IsIPv6(canonical) then canonical
    else
      match Expand(canonical)
      case None => canonical
      case Some(groups) => Bucket(groups)
  }

  // ----- The dotted tail -----

  lemma {:induction false} ShiftOrOctets(high: nat, low: nat)
    requires high < 256 && low < 256
    ensures ShiftOr(high, low) == 256 * high + low
  {
    Bits.Powers();
    Bits.OrIntoShift(high, 8, low);
    Bits.ShiftLeftConstants(high);
  }

  lemma {:induction false} SplitDecimal(s: string)
    requires forall i :: 0 <= i < |Split(s, '.')| ==> AllDecimal(Split(s, '.')[i])
    ensures QuadChars(s)
  {
    if s != "" {
      var parts := Split(s[1..], '.');
      if s[0] == '.' {
        assert Split(s, '.') == [""] + parts;
        forall i | 0 <= i < |parts| ensures AllDecimal(parts[i]) { assert parts[i] == Split(s, '.')[i + 1]; }
      } else {
        assert Split(s, '.') == [[s[0]] + parts[0]] + parts[1..];
        assert Split(s, '.')[0] == [s[0]] + parts[0];
        assert AllDecimal([s[0]] + parts[0]);
        forall i | 0 <= i < |parts| ensures AllDecimal(parts[i]) {
          if i == 0 {
            forall k | 0 <= k < |parts[0]| ensures IsDecimalDigit(parts[0][k]) {
              assert parts[0][k] == ([s[0]] + parts[0])[k + 1];
            }
          } else {
            assert parts[i] == Split(s, '.')[i];
          }
        }
        assert ([s[0]] + parts[0])[0] == s[0];
      }
      SplitDecimal(s[1..]);
    }
  }

  /** A matched quad has only digits and dots, and a dot. */
  lemma {:induction false} MatchQuadChars(s: string)
    requires MatchQuad(s).Some?
    ensures QuadChars(s) && '.' in s
  {
    SplitDecimal(s);
    if '.' !in s { SplitFree(s, '.'); }
  }

  lemma {:induction false} MatchQuadText(a: nat, b: nat, c: nat, d: nat)
    requires ValidPiece(Quad(a, b, c, d))
    ensures MatchQuad(QuadText(a, b, c, d)) == Some([a, b, c, d])
  {
    QuadParts(a, b, c, d);
    DecimalRoundTrip(a);
    DecimalRoundTrip(b);
    DecimalRoundTrip(c);
    DecimalRoundTrip(d);
    DecimalLength(a);
    DecimalLength(b);
    DecimalLength(c);
    DecimalLength(d);
  }

  /** The leftmost match starts right after the last colon. */
  lemma {:induction false} FindQuadAt(lead: string, quad: string, i: nat)
    requires lead != "" && lead[|lead| - 1] == ':' && i <= |lead| && MatchQuad(quad).Some?
    ensures FindQuad(lead + quad, i) == Some(|lead|)
    decreases |lead| - i
  {
    var s := lead + quad;
    if i == |lead| {
      assert s[i..] == quad;
    } else {
      assert s[i..][|lead| - 1 - i] == ':';
      if MatchQuad(s[i..]).Some? { MatchQuadChars(s[i..]); }
      FindQuadAt(lead, quad, i + 1);
    }
  }

  lemma {:induction false} FindQuadNone(s: string, i: nat)
    requires '.' !in s && i <= |s|
    ensures FindQuad(s, i) == None
    decreases |s| - i
  {
    if MatchQuad(s[i..]).Some? { MatchQuadChars(s[i..]); }
    if i < |s| { FindQuadNone(s, i + 1); }
  }

  lemma {:induction false} RewriteFound(s: string, i: nat, q: seq<nat>)
    requires FindQuad(s, 0) == Some(i) && i <= |s| && MatchQuad(s[i..]) == Some(q) && |q| == 4
    ensures RewriteTail(s) == s[..i] + ToHex(ShiftOr(q[0], q[1])) + ":" + ToHex(ShiftOr(q[2], q[3]))
  {
  }

  lemma {:induction false} RewriteAt(lead: string, a: nat, b: nat, c: nat, d: nat)
    requires lead != "" && lead[|lead| - 1] == ':' && ValidPiece(Quad(a, b, c, d))
    ensures RewriteTail(lead + QuadText(a, b, c, d))
            == lead + ToHex(256 * a + b) + ":" + ToHex(256 * c + d)
  {
    var quad := QuadText(a, b, c, d);
    MatchQuadText(a, b, c, d);
    FindQuadAt(lead, quad, 0);
    assert (lead + quad)[|lead|..] == quad && (lead + quad)[..|lead|] == lead;
    RewriteFound(lead + quad, |lead|, [a, b, c, d]);
    ShiftOrOctets(a, b);
    ShiftOrOctets(c, d);
  }

  lemma {:induction false} RewritePiece(lead: string, q: Piece)
    requires lead != "" && lead[|lead| - 1] == ':' && q.Quad? && ValidPiece(q)
    ensures RewriteTail(lead + PieceText(q)) == lead + QuadHexText(q)
  {
    RewriteAt(lead, q.a, q.b, q.c, q.d);
    HexQuadText(lead, PieceText(HighHalf(q)), PieceText(LowHalf(q)));
  }

  /** Rewriting the tail of a text gives the text of the spelling without dots. */
  lemma {:induction false} RewriteText(sp: Spelling)
    requires Valid(sp)
    ensures RewriteTail(Text(sp)) == Text(UndottedSpelling(sp))
  {
    if HasQuad(sp) {
      QuadOfValid(sp);
      LeadText(sp);
      LeadEnd(sp);
      RewritePiece(Lead(sp), QuadOf(sp));
    } else {
      NoQuadNoDot(sp);
      FindQuadNone(Text(sp), 0);
    }
  }

  lemma {:induction false} HexQuadText(lead: string, high: string, low: string)
    ensures lead + high + ":" + low == lead + (high + ":" + low)
  {
  }

  // ----- Reading the groups -----

  function Somes(s: seq<nat>): seq<Option<nat>> { seq(|s|, i requires 0 <= i < |s| => Some(s[i])) }

  lemma {:induction false} HexPrefixAll(s: string)
    requires AllHex(s)
    ensures HexPrefix(s) == s
  {
    if s != "" {
      HexPrefixAll(s[1..]);
      assert s == [s[0]] + s[1..];
    }
  }

  lemma {:induction false} HexGroup(ps: seq<Piece>, i: nat)
    requires ValidPieces(ps) && HexOnly(ps) && i < |ps|
    ensures |Groups(ps)| == |ps| && ParseInt16(PieceText(ps[i])) == Some(Groups(ps)[i])
  {
    WidthBound(ps);
    if i == 0 {
      HexPrefixAll(ps[0].digits);
    } else {
      HexGroup(ps[1..], i - 1);
    }
  }

  lemma {:induction false} ParsePieces(ps: seq<Piece>)
    requires ValidPieces(ps) && HexOnly(ps)
    ensures ParseGroups(PiecesText(ps)) == Somes(Groups(ps))
  {
    SplitPieces(ps);
    WidthBound(ps);
    forall i | 0 <= i < |ps| ensures ParseInt16(PieceTexts(ps)[i]) == Some(Groups(ps)[i]) {
      HexGroup(ps, i);
    }
  }

  lemma {:induction false} HexDigitsBound(s: string)
    requires AllHex(s)
    ensures |s| <= 4 ==> HexValue(s) <= 0xFFFF
    ensures |s| <= 3 ==> HexValue(s) <= 0xFFF
    ensures |s| <= 2 ==> HexValue(s) <= 0xFF
    ensures |s| <= 1 ==> HexValue(s) <= 0xF
  {
    if s != "" { HexDigitsBound(s[..|s| - 1]); }
  }

  lemma {:induction false} GroupsBound(ps: seq<Piece>)
    requires AllValid(ps)
    ensures forall i :: 0 <= i < |Groups(ps)| ==> Groups(ps)[i] <= 0xFFFF
  {
    if ps != [] {
      if ps[0].Hex? { HexDigitsBound(ps[0].digits); }
      GroupsBound(ps[1..]);
    }
  }

  lemma {:induction false} NoPercent(sp: Spelling)
    requires Valid(sp)
    ensures '%' !in Text(sp)
  {
    PiecesNoPercent(sp.left);
    PiecesNoPercent(sp.right);
  }

  lemma {:induction false} PiecesNoPercent(ps: seq<Piece>)
    requires ValidPieces(ps)
    ensures '%' !in PiecesText(ps)
  {
    forall i | 0 <= i < |ps| ensures '%' !in PieceText(ps[i]) {
      if ps[i].Quad? { QuadTextChars(ps[i].a, ps[i].b, ps[i].c, ps[i].d); }
    }
    PiecesTextChars(ps, '%');
  }

  /** What the checks at the end of the reader make of real groups around the gap. */
  lemma {:induction false} FillGapGroups(left: seq<nat>, right: seq<nat>, gap: bool)
    requires |left| + |right| <= 8 && (!gap ==> |left| + |right| == 8)
    requires forall i :: 0 <= i < |left| ==> left[i] <= 0xFFFF
    requires forall i :: 0 <= i < |right| ==> right[i] <= 0xFFFF
    ensures FillGap(Somes(left), Somes(right), gap) == Some(left + Zeros(8 - |left| - |right|) + right)
  {
    var groups := Somes(left) + seq(8 - |left| - |right|, _ => Some(0)) + Somes(right);
    assert forall i :: 0 <= i < 8 ==> groups[i].Some? && groups[i].value <= 0xFFFF;
    assert seq(8, i requires 0 <= i < 8 => groups[i].value) == left + Zeros(8 - |left| - |right|) + right;
  }

  lemma {:induction false} ExpandSplit(ip: string, u: Spelling)
    requires '%' !in ip && RewriteTail(ip) == Text(u)
    requires Valid(u) && HexOnly(u.left) && HexOnly(u.right)
    ensures Expand(ip) == FillGap(Somes(Groups(u.left)), Somes(Groups(u.right)), u.gap)
  {
    SplitFree(ip, '%');
    SplitText(u);
    ParsePieces(u.left);
    ParsePieces(u.right);
    assert Somes([]) == [];
  }

  lemma {:induction false} ExpandUndotted(ip: string, u: Spelling)
    requires '%' !in ip && RewriteTail(ip) == Text(u)
    requires Valid(u) && HexOnly(u.left) && HexOnly(u.right)
    ensures Expand(ip) == Some(Address(u))
  {
    hide RewriteTail, Text;
    ExpandSplit(ip, u);
    GroupsBound(u.left);
    GroupsBound(u.right);
    FillGapGroups(Groups(u.left), Groups(u.right), u.gap);
  }

  /** The reader computes the address of every valid text, so its failure branches are never taken. */
  lemma {:induction false} ExpandText(sp: Spelling)
    requires Valid(sp)
    ensures Expand(Text(sp)) == Some(Address(sp))
  {
    NoPercent(sp);
    RewriteText(sp);
    UndottedMeaning(sp);
    ExpandUndotted(Text(sp), UndottedSpelling(sp));
  }
}
