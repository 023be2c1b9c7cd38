/** The text forms of section 2.2 of RFC 4291, as a grammar with a meaning, and the text rewriting
    steps that both address readers of the API perform on them. */
module Ipv6 {
  import opened Texts

  /** Sixteen bits in hexadecimal, or thirty-two bits as a dotted quad. */
  datatype Piece = Hex(digits: string) | Quad(a: nat, b: nat, c: nat, d: nat)

  /** `left`, or `left::right` when `gap` is set. */
  datatype Spelling = Spelling(left: seq<Piece>, gap: bool, right: seq<Piece>)

  predicate ValidPiece(p: Piece) {
    match p
    case Hex(digits) => 1 <= |digits| <= 4 && AllHex(digits)
    case Quad(a, b, c, d) => a < 256 && b < 256 && c < 256 && d < 256
  }

  predicate AllValid(ps: seq<Piece>) { forall i :: 0 <= i < |ps| ==> ValidPiece(ps[i]) }

  /** Only the last piece may be a dotted quad. */
  predicate ValidPieces(ps: seq<Piece>) {
    forall i :: 0 <= i < |ps| ==> ValidPiece(ps[i]) && (ps[i].Quad? ==> i == |ps| - 1)
  }

  predicate HexOnly(ps: seq<Piece>) { forall i :: 0 <= i < |ps| ==> ps[i].Hex? }

  function Width(ps: seq<Piece>): nat {
    if ps == [] then 0 else (if ps[0].Hex? then 1 else 2) + Width(ps[1..])
  }

  predicate Valid(sp: Spelling) {
    && ValidPieces(sp.left) && ValidPieces(sp.right)
    && if sp.gap then HexOnly(sp.left) && Width(sp.left) + Width(sp.right) <= 7
       else sp.right == [] && Width(sp.left) == 8
  }

  // ----- Text -----

  function QuadText(a: nat, b: nat, c: nat, d: nat): string {
    Join([ToDecimal(a), ToDecimal(b), ToDecimal(c), ToDecimal(d)], ".")
  }

  function PieceText(p: Piece): string {
    match p
    case Hex(digits) => digits
    case Quad(a, b, c, d) => QuadText(a, b, c, d)
  }

  function PieceTexts(ps: seq<Piece>): (r: seq<string>)
    ensures |r| == |ps| && forall i :: 0 <= i < |ps| ==> r[i] == PieceText(ps[i])
  {
    if ps == [] then [] else [PieceText(ps[0])] + PieceTexts(ps[1..])
  }

  function PiecesText(ps: seq<Piece>): string { Join(PieceTexts(ps), ":") }

  function Text(sp: Spelling): string {
    if sp.gap then PiecesText(sp.left) + "::" + PiecesText(sp.right) else PiecesText(sp.left)
  }

  // ----- Meaning -----

  function PieceGroups(p: Piece): seq<nat>
    requires ValidPiece(p)
  {
    match p
    case Hex(digits) => [HexValue(digits)]
    case Quad(a, b, c, d) => [256 * a + b, 256 * c + d]
  }

  function Groups(ps: seq<Piece>): (r: seq<nat>)
    requires AllValid(ps)
    ensures |r| == Width(ps)
  {
    if ps == [] then [] else PieceGroups(ps[0]) + Groups(ps[1..])
  }

  function Zeros(n: nat): seq<nat> { seq(n, _ => 0) }

  /** The eight sixteen-bit groups of the address. */
  function Address(sp: Spelling): (r: seq<nat>)
    requires Valid(sp)
    ensures |r| == 8
  {
    Groups(sp.left) + Zeros(8 - Width(sp.left) - Width(sp.right)) + Groups(sp.right)
  }

  /** What `isIP` calls an IPv4 address: four decimal octets without leading zeros. */
  ghost predicate IsIPv4(s: string) {
    exists a, b, c, d :: ValidPiece(Quad(a, b, c, d)) && s == QuadText(a, b, c, d)
  }

  ghost predicate IsIPv6(s: string) {
    exists sp :: Valid(sp) && s == Text(sp)
  }

  // ----- Characters of a text -----

  lemma {:induction false} QuadParts(a: nat, b: nat, c: nat, d: nat)
    requires ValidPiece(Quad(a, b, c, d))
    ensures Split(QuadText(a, b, c, d), '.') == [ToDecimal(a), ToDecimal(b), ToDecimal(c), ToDecimal(d)]
  {
    DecimalRoundTrip(a);
    DecimalRoundTrip(b);
    DecimalRoundTrip(c);
    DecimalRoundTrip(d);
    SplitJoin([ToDecimal(a), ToDecimal(b), ToDecimal(c), ToDecimal(d)], '.');
  }

  predicate QuadChars(s: string) { forall i :: 0 <= i < |s| ==> IsDecimalDigit(s[i]) || s[i] == '.' }

  lemma {:induction false} QuadTextChars(a: nat, b: nat, c: nat, d: nat)
    requires ValidPiece(Quad(a, b, c, d))
    ensures var s := QuadText(a, b, c, d); 7 <= |s| <= 15 && QuadChars(s) && '.' in s
  {
    DecimalRoundTrip(a);
    DecimalRoundTrip(b);
    DecimalRoundTrip(c);
    DecimalRoundTrip(d);
    DecimalLength(a);
    DecimalLength(b);
    DecimalLength(c);
    DecimalLength(d);
    var A, B, C, D := ToDecimal(a), ToDecimal(b), ToDecimal(c), ToDecimal(d);
    JoinCons(A, [B, C, D], ".");
    JoinCons(B, [C, D], ".");
    JoinCons(C, [D], ".");
    assert [A] + [B, C, D] == [A, B, C, D] && [B] + [C, D] == [B, C, D] && [C] + [D] == [C, D];
    var s := QuadText(a, b, c, d);
    assert s == A + "." + (B + "." + (C + "." + D));
    assert s[|A|] == '.';
  }

  lemma {:induction false} PieceTextChars(p: Piece)
    requires ValidPiece(p)
    ensures PieceText(p) != "" && ':' !in PieceText(p)
    ensures p.Hex? ==> '.' !in PieceText(p)
  {
    if p.Quad? { QuadTextChars(p.a, p.b, p.c, p.d); }
  }

  lemma {:induction false} PieceTextsChars(ps: seq<Piece>)
    requires ValidPieces(ps)
    ensures forall i :: 0 <= i < |ps| ==> PieceTexts(ps)[i] != "" && ':' !in PieceTexts(ps)[i]
  {
    forall i | 0 <= i < |ps| ensures PieceTexts(ps)[i] != "" && ':' !in PieceTexts(ps)[i] {
      PieceTextChars(ps[i]);
    }
  }

  // ----- Rewriting a dotted tail as two hexadecimal groups -----

  function HighHalf(q: Piece): Piece
    requires q.Quad?
  {
    Hex(ToHex(256 * q.a + q.b))
  }

  function LowHalf(q: Piece): Piece
    requires q.Quad?
  {
    Hex(ToHex(256 * q.c + q.d))
  }

  /** The pieces with a dotted quad spelt as two hexadecimal pieces. */
  function Undotted(ps: seq<Piece>): seq<Piece> {
    if ps != [] && ps[|ps| - 1].Quad? then
      ps[..|ps| - 1] + [HighHalf(ps[|ps| - 1]), LowHalf(ps[|ps| - 1])]
    else ps
  }

  function UndottedSpelling(sp: Spelling): Spelling {
    Spelling(Undotted(sp.left), sp.gap, Undotted(sp.right))
  }

  lemma {:induction false} GroupsConcat(ps: seq<Piece>, qs: seq<Piece>)
    requires AllValid(ps) && AllValid(qs)
    ensures AllValid(ps + qs) && Groups(ps + qs) == Groups(ps) + Groups(qs)
  {
    if ps == [] {
      assert ps + qs == qs;
    } else {
      assert (ps + qs)[1..] == ps[1..] + qs;
      GroupsConcat(ps[1..], qs);
    }
  }

  lemma {:induction false} HexPieceValid(n: nat)
    requires n < 0x1_0000
    ensures ValidPiece(Hex(ToHex(n))) && PieceGroups(Hex(ToHex(n))) == [n]
  {
    HexRoundTrip(n);
    HexLength(n);
  }

  lemma {:induction false} QuadGroups(q: Piece)
    requires q.Quad? && ValidPiece(q)
    ensures var halves := [HighHalf(q), LowHalf(q)];
            ValidPieces(halves) && HexOnly(halves) && Groups(halves) == Groups([q])
  {
    HexPieceValid(256 * q.a + q.b);
    HexPieceValid(256 * q.c + q.d);
    assert [HighHalf(q), LowHalf(q)][1..] == [LowHalf(q)];
    assert [LowHalf(q)][1..] == [] && [q][1..] == [];
  }

  lemma {:induction false} UndottedPieces(ps: seq<Piece>)
    requires ValidPieces(ps)
    ensures ValidPieces(Undotted(ps)) && HexOnly(Undotted(ps))
    ensures Groups(Undotted(ps)) == Groups(ps) && Width(Undotted(ps)) == Width(ps)
  {
    if ps != [] && ps[|ps| - 1].Quad? {
      var init, q := ps[..|ps| - 1], ps[|ps| - 1];
      var halves := [HighHalf(q), LowHalf(q)];
      QuadGroups(q);
      assert ps == init + [q];
      assert ValidPieces(init + halves);
      GroupsConcat(init, [q]);
      GroupsConcat(init, halves);
    }
  }

  lemma {:induction false} UndottedMeaning(sp: Spelling)
    requires Valid(sp)
    ensures var u := UndottedSpelling(sp);
            Valid(u) && HexOnly(u.left) && HexOnly(u.right) && Address(u) == Address(sp)
  {
    UndottedPieces(sp.left);
    UndottedPieces(sp.right);
  }

  // ----- Where the dotted tail sits in a text -----

  ghost predicate EndsWithQuad(ps: seq<Piece>) { ps != [] && ps[|ps| - 1].Quad? }

  ghost predicate HasQuad(sp: Spelling) { EndsWithQuad(if sp.gap then sp.right else sp.left) }

  ghost function QuadOf(sp: Spelling): Piece
    requires HasQuad(sp)
  {
    var ps := if sp.gap then sp.right else sp.left;
    ps[|ps| - 1]
  }

  /** The text of leading pieces, with the colon that separates them from the next piece. */
  ghost function LeadOf(init: seq<Piece>): string {
    if init == [] then "" else PiecesText(init) + ":"
  }

  ghost function Lead(sp: Spelling): string
    requires HasQuad(sp)
  {
    if sp.gap then PiecesText(sp.left) + "::" + LeadOf(sp.right[..|sp.right| - 1])
    else LeadOf(sp.left[..|sp.left| - 1])
  }

  lemma {:induction false} PieceTextsConcat(ps: seq<Piece>, qs: seq<Piece>)
    ensures PieceTexts(ps + qs) == PieceTexts(ps) + PieceTexts(qs)
  {
  }

  lemma {:induction false} PiecesTextSnoc(ps: seq<Piece>, p: Piece)
    requires ps != []
    ensures PiecesText(ps + [p]) == PiecesText(ps) + ":" + PieceText(p)
  {
    PieceTextsConcat(ps, [p]);
    assert PieceTexts([p]) == [PieceText(p)];
    JoinSnoc(PieceTexts(ps), PieceText(p), ":");
  }

  lemma {:induction false} LeadSnoc(init: seq<Piece>, p: Piece)
    ensures PiecesText(init + [p]) == LeadOf(init) + PieceText(p)
  {
    if init == [] {
      assert init + [p] == [p] && PieceTexts([p]) == [PieceText(p)];
    } else {
      PiecesTextSnoc(init, p);
    }
  }

  ghost function QuadHexText(q: Piece): string
    requires q.Quad?
  {
    PieceText(HighHalf(q)) + ":" + PieceText(LowHalf(q))
  }

  lemma {:induction false} LeadTwo(init: seq<Piece>, p: Piece, r: Piece)
    ensures PiecesText(init + [p] + [r]) == LeadOf(init) + (PieceText(p) + ":" + PieceText(r))
  {
    LeadSnoc(init, p);
    PiecesTextSnoc(init + [p], r);
    GapAssociates(LeadOf(init), PieceText(p), ":");
    GapAssociates(LeadOf(init), PieceText(p) + ":", PieceText(r));
  }

  lemma {:induction false} GapAssociates(s: string, t: string, u: string)
    ensures s + (t + u) == (s + t) + u
  {
  }

  lemma {:induction false} UndottedSnoc(init: seq<Piece>, q: Piece)
    requires q.Quad?
    ensures Undotted(init + [q]) == init + [HighHalf(q)] + [LowHalf(q)]
  {
    assert (init + [q])[..|init + [q]| - 1] == init;
  }

  lemma {:induction false} LeadPieces(init: seq<Piece>, q: Piece)
    requires q.Quad?
    ensures PiecesText(init + [q]) == LeadOf(init) + PieceText(q)
    ensures PiecesText(Undotted(init + [q])) == LeadOf(init) + QuadHexText(q)
  {
    LeadSnoc(init, q);
    LeadTwo(init, HighHalf(q), LowHalf(q));
    UndottedSnoc(init, q);
  }

  lemma {:induction false} PiecesTextChars(ps: seq<Piece>, x: char)
    requires ValidPieces(ps) && x != ':' && forall i :: 0 <= i < |ps| ==> x !in PieceText(ps[i])
    ensures x !in PiecesText(ps)
  {
    if |ps| > 0 {
      PiecesTextChars(ps[1..], x);
      assert PieceTexts(ps)[1..] == PieceTexts(ps[1..]);
    }
  }

  lemma {:induction false} HexOnlyHasNoDot(ps: seq<Piece>)
    requires ValidPieces(ps) && HexOnly(ps)
    ensures '.' !in PiecesText(ps)
  {
    forall i | 0 <= i < |ps| ensures '.' !in PieceText(ps[i]) { PieceTextChars(ps[i]); }
    PiecesTextChars(ps, '.');
  }

  lemma {:induction false} GappedLead(gapped: string, init: seq<Piece>, q: Piece)
    requires q.Quad?
    ensures gapped + PiecesText(init + [q]) == gapped + LeadOf(init) + PieceText(q)
    ensures gapped + PiecesText(Undotted(init + [q])) == gapped + LeadOf(init) + QuadHexText(q)
  {
    LeadPieces(init, q);
    GapAssociates(gapped, LeadOf(init), PieceText(q));
    GapAssociates(gapped, LeadOf(init), QuadHexText(q));
  }

  lemma {:induction false} InitAndLast(ps: seq<Piece>)
    requires ps != []
    ensures ps[..|ps| - 1] + [ps[|ps| - 1]] == ps
  {
  }

  lemma {:induction false} QuadOfValid(sp: Spelling)
    requires Valid(sp) && HasQuad(sp)
    ensures QuadOf(sp).Quad? && ValidPiece(QuadOf(sp))
  {
  }

  /** A text is its lead followed by its dotted quad, or by the two groups that replace it. */
  lemma {:induction false} LeadText(sp: Spelling)
    requires HasQuad(sp) && (sp.gap ==> HexOnly(sp.left))
    ensures Text(sp) == Lead(sp) + PieceText(QuadOf(sp))
    ensures Text(UndottedSpelling(sp)) == Lead(sp) + QuadHexText(QuadOf(sp))
  {
    if sp.gap {
      InitAndLast(sp.right);
      GappedLead(PiecesText(sp.left) + "::", sp.right[..|sp.right| - 1], QuadOf(sp));
    } else {
      InitAndLast(sp.left);
      LeadPieces(sp.left[..|sp.left| - 1], QuadOf(sp));
    }
  }

  lemma {:induction false} WidthBound(ps: seq<Piece>)
    ensures |ps| <= Width(ps) <= 2 * |ps|
    ensures HexOnly(ps) ==> Width(ps) == |ps|
  {
    if ps != [] { WidthBound(ps[1..]); }
  }

  lemma {:induction false} LeadEnd(sp: Spelling)
    requires Valid(sp) && HasQuad(sp)
    ensures var lead := Lead(sp); lead != "" && lead[|lead| - 1] == ':'
  {
    if !sp.gap { WidthBound(sp.left); }
  }

  lemma {:induction false} NoQuadNoDot(sp: Spelling)
    requires Valid(sp) && !HasQuad(sp)
    ensures '.' !in Text(sp) && UndottedSpelling(sp) == sp
  {
    HexOnlyHasNoDot(sp.left);
    HexOnlyHasNoDot(sp.right);
  }

  // ----- Splitting a text at its gap -----

  /** Splitting at "::" and then at ":" recovers the two lists of pieces. */
  lemma {:induction false} SplitText(sp: Spelling)
    requires Valid(sp)
    ensures SplitGap(Text(sp)) == if sp.gap then [PiecesText(sp.left), PiecesText(sp.right)] else [PiecesText(sp.left)]
  {
    PieceTextsChars(sp.left);
    PieceTextsChars(sp.right);
    JoinHasNoGap(PieceTexts(sp.left));
    JoinHasNoGap(PieceTexts(sp.right));
    if sp.gap {
      SplitGapAt(PiecesText(sp.left), PiecesText(sp.right));
    } else {
      SplitGapFree(PiecesText(sp.left));
    }
  }

  lemma {:induction false} SplitPieces(ps: seq<Piece>)
    requires ValidPieces(ps)
    ensures PiecesText(ps) == "" <==> ps == []
    ensures ps != [] ==> Split(PiecesText(ps), ':') == PieceTexts(ps)
  {
    PieceTextsChars(ps);
    JoinHasNoGap(PieceTexts(ps));
    if ps != [] { SplitJoin(PieceTexts(ps), ':'); }
  }

  // ----- Lower case -----

  function LowerPiece(p: Piece): Piece {
    if p.Hex? then Hex(Lower(p.digits)) else p
  }

  function LowerPieces(ps: seq<Piece>): (r: seq<Piece>)
    ensures |r| == |ps| && forall i :: 0 <= i < |ps| ==> r[i] == LowerPiece(ps[i])
  {
    if ps == [] then [] else [LowerPiece(ps[0])] + LowerPieces(ps[1..])
  }

  function LowerSpelling(sp: Spelling): Spelling {
    Spelling(LowerPieces(sp.left), sp.gap, LowerPieces(sp.right))
  }

  lemma {:induction false} LowerPieceMeaning(p: Piece)
    requires ValidPiece(p)
    ensures ValidPiece(LowerPiece(p)) && PieceGroups(LowerPiece(p)) == PieceGroups(p)
    ensures PieceText(LowerPiece(p)) == Lower(PieceText(p))
  {
    if p.Hex? {
      LowerHexValue(p.digits);
    } else {
      QuadTextChars(p.a, p.b, p.c, p.d);
    }
  }

  lemma {:induction false} LowerPiecesMeaning(ps: seq<Piece>)
    requires ValidPieces(ps)
    ensures ValidPieces(LowerPieces(ps)) && Groups(LowerPieces(ps)) == Groups(ps)
    ensures Width(LowerPieces(ps)) == Width(ps)
    ensures PiecesText(LowerPieces(ps)) == Lower(PiecesText(ps))
  {
    if ps != [] {
      LowerPieceMeaning(ps[0]);
      LowerPiecesMeaning(ps[1..]);
      var lower := LowerPieces(ps);
      assert lower[1..] == LowerPieces(ps[1..]);
      assert ValidPieces(lower) by {
        forall i | 0 <= i < |ps| ensures ValidPiece(lower[i]) && (lower[i].Quad? ==> i == |ps| - 1) {
          LowerPieceMeaning(ps[i]);
        }
      }
      LowerPiecesText(ps);
    }
  }

  lemma {:induction false} LowerJoined(s: string, t: string)
    ensures Lower(s + ":" + t) == Lower(s) + ":" + Lower(t)
  {
    LowerConcat(s + ":", t);
    LowerConcat(s, ":");
    assert Lower(":") == ":";
  }

  lemma {:induction false} PiecesTextCons(ps: seq<Piece>)
    requires |ps| > 1
    ensures PiecesText(ps) == PieceText(ps[0]) + ":" + PiecesText(ps[1..])
  {
    assert PieceTexts(ps)[1..] == PieceTexts(ps[1..]);
  }

  lemma {:induction false} LowerPiecesText(ps: seq<Piece>)
    requires ValidPieces(ps) && ps != []
    requires PiecesText(LowerPieces(ps[1..])) == Lower(PiecesText(ps[1..]))
    ensures PiecesText(LowerPieces(ps)) == Lower(PiecesText(ps))
  {
    LowerPieceMeaning(ps[0]);
    if |ps| > 1 {
      PiecesTextCons(ps);
      PiecesTextCons(LowerPieces(ps));
      LowerJoined(PieceText(ps[0]), PiecesText(ps[1..]));
    }
  }

  lemma {:induction false} LowerGapped(s: string, t: string)
    ensures Lower(s + "::" + t) == Lower(s) + "::" + Lower(t)
  {
    LowerConcat(s + "::", t);
    LowerConcat(s, "::");
    assert Lower("::") == "::";
  }

  lemma {:induction false} LowerText(sp: Spelling)
    requires Valid(sp)
    ensures Text(LowerSpelling(sp)) == Lower(Text(sp))
  {
    LowerPiecesMeaning(sp.left);
    LowerPiecesMeaning(sp.right);
    if sp.gap { LowerGapped(PiecesText(sp.left), PiecesText(sp.right)); }
  }

  lemma {:induction false} LowerValid(sp: Spelling)
    requires Valid(sp)
    ensures Valid(LowerSpelling(sp))
  {
    LowerPiecesMeaning(sp.left);
    LowerPiecesMeaning(sp.right);
  }

  lemma {:induction false} LowerAddress(sp: Spelling)
    requires Valid(sp) && Valid(LowerSpelling(sp))
    ensures Address(LowerSpelling(sp)) == Address(sp)
  {
    LowerPiecesMeaning(sp.left);
    LowerPiecesMeaning(sp.right);
  }

  lemma {:induction false} LowerMeaning(sp: Spelling)
    requires Valid(sp)
    ensures Valid(LowerSpelling(sp)) && Address(LowerSpelling(sp)) == Address(sp)
  {
    LowerValid(sp);
    LowerAddress(sp);
  }

  // ----- An IPv6 text is not an IPv4 text -----

  lemma {:induction false} TextHasColon(sp: Spelling)
    requires Valid(sp)
    ensures ':' in Text(sp)
  {
    if sp.gap {
      assert Text(sp)[|PiecesText(sp.left)|] == ':';
    } else {
      WidthBound(sp.left);
      PiecesTextCons(sp.left);
      assert Text(sp)[|PieceText(sp.left[0])|] == ':';
    }
  }

  lemma {:induction false} IPv4Chars(s: string)
    requires IsIPv4(s)
    ensures QuadChars(s)
  {
    var a, b, c, d :| ValidPiece(Quad(a, b, c, d)) && s == QuadText(a, b, c, d);
    QuadTextChars(a, b, c, d);
  }

  lemma {:induction false} SixIsNotFour(sp: Spelling)
    requires Valid(sp)
    ensures !IsIPv4(Text(sp))
  {
    TextHasColon(sp);
    if IsIPv4(Text(sp)) { IPv4Chars(Text(sp)); assert false; }
  }
}
