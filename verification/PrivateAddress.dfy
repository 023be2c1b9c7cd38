/** The public/private classifier of resolved addresses, and its meaning in address numbers. */
module PrivateAddress {
  import opened Options
  import opened Texts
  import opened Ipv6
  import Bits
  import ClientIp

  // ----- The classifier -----

  predicate PrivateOctets(first: nat, second: nat) {
    || first == 0
    || first == 10
    || first == 127
    || first == 169
    || (first == 100 && 64 <= second <= 127)
    || (first == 192 && second == 168)
    || (first == 192 && second == 0)
    || (first == 172 && 16 <= second <= 31)
    || (first == 198 && (second == 18 || second == 19 || second == 51))
    || (first == 203 && second == 0)
    || first >= 224
  }

  /** `Number(s)` of a decimal octet; None stands for what is not an integer. */
  function OctetNumber(s: string): Option<nat> {
    if AllDecimal(s) then Some(DecimalValue(s)) else None
  }

  /** `s.slice(s.lastIndexOf(":") + 1)` */
  function AfterLastColon(s: string): (r: string)
    ensures |r| <= |s| && s[|s| - |r|..] == r
    ensures ':' !in r
  {
    if ':' !in s then s else AfterLastColon(s[1..])
  }

  function GroupTexts(part: string): seq<string> { if part == "" then [] else Split(part, ':') }

  /** `Number.parseInt(group || "0", 16)` */
  function GroupNumber(group: string): Option<nat> {
    ClientIp.ParseInt16(if group == "" then "0" else group)
  }

  predicate InOctet(s: string) { OctetNumber(s).Some? && OctetNumber(s).value <= 255 }

  /** A lead followed by four octets as two hexadecimal groups; None when an octet is out of range. */
  function RewriteOctets(lead: string, parts: seq<string>): Option<string> {
    if |parts| != 4 || !InOctet(parts[0]) || !InOctet(parts[1]) || !InOctet(parts[2]) || !InOctet(parts[3]) then None
    else
      Some(lead
           + ToHex(ClientIp.ShiftOr(OctetNumber(parts[0]).value, OctetNumber(parts[1]).value)) + ":"
           + ToHex(ClientIp.ShiftOr(OctetNumber(parts[2]).value, OctetNumber(parts[3]).value)))
  }

  /** The lower-case address text with a dotted tail rewritten. */
  function Normalised(address: string): Option<string> {
    var lower := Lower(address);
    var tail := AfterLastColon(lower);
    if '.' !in tail then Some(lower) else RewriteOctets(lower[..|lower| - |tail|], Split(tail, '.'))
  }

  /** Pads the groups with zeros and reads them; None when they are not eight groups. */
  function NumberGroups(left: seq<string>, right: seq<string>): (r: Option<seq<nat>>)
    ensures r.Some? ==> |r.value| == 8 && forall i :: 0 <= i < 8 ==> r.value[i] <= 0xFFFF
  {
    if |left| + |right| > 8 then None
    else
      var texts := left + seq(8 - |left| - |right|, _ => "0") + right;
      if forall i :: 0 <= i < 8 ==> GroupNumber(texts[i]).Some? && GroupNumber(texts[i]).value <= 0xFFFF then
        Some(seq(8, i requires 0 <= i < 8 => GroupNumber(texts[i]).value))
      else None
  }

  /** The eight groups, or None where the classifier gives up and answers private. */
  function ReadGroups(address: string): (r: Option<seq<nat>>)
    ensures r.Some? ==> |r.value| == 8 && forall i :: 0 <= i < 8 ==> r.value[i] <= 0xFFFF
  {
    match Normalised(address)
    case None => None
    case Some(text) =>
      var parts := SplitGap(text);
      NumberGroups(GroupTexts(parts[0]), if |parts| == 1 then [] else GroupTexts(parts[1]))
  }

  function EmbeddedIPv4(g: seq<nat>): string
    requires |g| == 8
  {
    QuadText(Bits.ShiftRight(g[6], 8), Bits.And(g[6], 255), Bits.ShiftRight(g[7], 8), Bits.And(g[7], 255))
  }

  lemma {:induction false} EmbeddedOctets(g: seq<nat>)
    requires |g| == 8 && g[6] <= 0xFFFF && g[7] <= 0xFFFF
    ensures EmbeddedIPv4(g) == QuadText(g[6] / 256, g[6] % 256, g[7] / 256, g[7] % 256)
    ensures ValidPiece(Quad(g[6] / 256, g[6] % 256, g[7] / 256, g[7] % 256))
    ensures IsIPv4(EmbeddedIPv4(g))
  {
    Bits.ShiftRightEight(g[6]);
    Bits.ShiftRightEight(g[7]);
    Bits.AndOctet(g[6], 255);
    Bits.AndOctet(g[7], 255);
  }

  ghost predicate PrivateIPv4Text(address: string) {
    var octets := Split(address, '.');
    && |octets| >= 2 && OctetNumber(octets[0]).Some? && OctetNumber(octets[1]).Some?
    && PrivateOctets(OctetNumber(octets[0]).value, OctetNumber(octets[1]).value)
  }

  predicate IsLoopback(g: seq<nat>)
    requires |g| == 8
  {
    (forall i :: 0 <= i < 7 ==> g[i] == 0) && g[7] == 1
  }

  predicate IsReserved(g: seq<nat>)
    requires |g| == 8
  {
    || (forall i :: 0 <= i < 8 ==> g[i] == 0)
    || Bits.And(g[0], 0xFE00) == 0xFC00
    || Bits.And(g[0], 0xFFC0) == 0xFE80
    || Bits.And(g[0], 0xFF00) == 0xFF00
  }

  predicate IsMapped(g: seq<nat>)
    requires |g| == 8
  {
    (forall i :: 0 <= i < 5 ==> g[i] == 0) && g[5] == 0xFFFF
  }

  /** `privateAddress`. Its one self-call is on an IPv4 text, whose branch makes no call. */
  ghost predicate Private(address: string)
    decreases if IsIPv4(address) then 0 else 1
  {
    if IsIPv4(address) then PrivateIPv4Text(address)
    else
      match ReadGroups(address)
      case None => true
      case Some(g) =>
        if IsLoopback(g) then true
        else if IsReserved(g) then true
        else if IsMapped(g) then
          EmbeddedOctets(g);
          Private(EmbeddedIPv4(g))
        else false
  }

  // ----- Address numbers -----

  const TWO_16: nat := 0x1_0000
  const TWO_24: nat := 0x100_0000
  const TWO_32: nat := 0x1_0000_0000
  const TWO_112: nat := 0x1_0000_0000_0000_0000_0000_0000_0000

  /** The number of the seven groups after the first. */
  function LowNumber(g: seq<nat>): nat
    requires |g| == 8
  {
    g[1] * 0x1_0000_0000_0000_0000_0000_0000 + g[2] * 0x1_0000_0000_0000_0000_0000 + g[3] * 0x1_0000_0000_0000_0000
    + g[4] * 0x1_0000_0000_0000 + g[5] * TWO_32 + g[6] * TWO_16 + g[7]
  }

  /** The 128-bit number of an address. */
  function Number(g: seq<nat>): nat
    requires |g| == 8
  {
    g[0] * TWO_112 + LowNumber(g)
  }

  /** `n` is in the block of `size` numbers from `base` on. */
  predicate InBlock(n: nat, base: nat, size: nat) { base <= n < base + size }

  /** The IPv4 blocks that count as private: 0/8, 10/8, 127/8, 169/8, 100.64/10, 192.168/16, 192.0/16,
      172.16/12, 198.18/15, 198.51/16, 203.0/16 and everything from 224.0.0.0 up. */
  predicate PrivateIPv4Number(n: nat) {
    || InBlock(n, 0, TWO_24)
    || InBlock(n, 10 * TWO_24, TWO_24)
    || InBlock(n, 127 * TWO_24, TWO_24)
    || InBlock(n, 169 * TWO_24, TWO_24)
    || InBlock(n, 100 * TWO_24 + 64 * TWO_16, 64 * TWO_16)
    || InBlock(n, 192 * TWO_24 + 168 * TWO_16, TWO_16)
    || InBlock(n, 192 * TWO_24, TWO_16)
    || InBlock(n, 172 * TWO_24 + 16 * TWO_16, 16 * TWO_16)
    || InBlock(n, 198 * TWO_24 + 18 * TWO_16, 2 * TWO_16)
    || InBlock(n, 198 * TWO_24 + 51 * TWO_16, TWO_16)
    || InBlock(n, 203 * TWO_24, TWO_16)
    || n >= 224 * TWO_24
  }

  /** ::, ::1, fc00::/7, fe80::/10, ff00::/8, and ::ffff:0:0/96 over a private IPv4 number. */
  predicate PrivateIPv6Number(n: nat) {
    || n == 0
    || n == 1
    || InBlock(n, 0xFC00 * TWO_112, 0x200 * TWO_112)
    || InBlock(n, 0xFE80 * TWO_112, 0x40 * TWO_112)
    || InBlock(n, 0xFF00 * TWO_112, 0x100 * TWO_112)
    || (InBlock(n, 0xFFFF * TWO_32, TWO_32) && PrivateIPv4Number(n - 0xFFFF * TWO_32))
  }

  // ----- Reading a text -----

  lemma {:induction false} AfterColonNone(s: string)
    requires ':' !in s
    ensures AfterLastColon(s) == s
  {
  }

  lemma {:induction false} AfterColon(lead: string, tail: string)
    requires lead != "" && lead[|lead| - 1] == ':' && ':' !in tail
    ensures AfterLastColon(lead + tail) == tail
  {
    var s := lead + tail;
    assert s[|lead| - 1] == ':';
    if |lead| == 1 {
      assert s[1..] == tail;
      AfterColonNone(tail);
    } else {
      assert s[1..] == lead[1..] + tail;
      AfterColon(lead[1..], tail);
    }
  }

  lemma {:induction false} OctetRead(a: nat)
    requires a < 256
    ensures InOctet(ToDecimal(a)) && OctetNumber(ToDecimal(a)).value == a
  {
    DecimalRoundTrip(a);
  }

  lemma {:induction false} RewriteParts(lead: string, a: nat, b: nat, c: nat, d: nat)
    requires ValidPiece(Quad(a, b, c, d))
    ensures RewriteOctets(lead, [ToDecimal(a), ToDecimal(b), ToDecimal(c), ToDecimal(d)])
            == Some(lead + ToHex(256 * a + b) + ":" + ToHex(256 * c + d))
  {
    hide ToDecimal, ToHex;
    OctetRead(a);
    OctetRead(b);
    OctetRead(c);
    OctetRead(d);
    ClientIp.ShiftOrOctets(a, b);
    ClientIp.ShiftOrOctets(c, d);
  }

  lemma {:induction false} NormalisedTail(address: string, lead: string, quad: string)
    requires lead != "" && lead[|lead| - 1] == ':' && ':' !in quad && '.' in quad
    requires Lower(address) == lead + quad
    ensures Normalised(address) == RewriteOctets(lead, Split(quad, '.'))
  {
    AfterColon(lead, quad);
    assert (lead + quad)[..|lead + quad| - |quad|] == lead;
  }

  lemma {:induction false} RewritePiece(lead: string, q: Piece)
    requires q.Quad? && ValidPiece(q)
    ensures RewriteOctets(lead, Split(PieceText(q), '.')) == Some(lead + QuadHexText(q))
  {
    hide RewriteOctets, ToDecimal, ToHex, Split;
    QuadParts(q.a, q.b, q.c, q.d);
    RewriteParts(lead, q.a, q.b, q.c, q.d);
    ClientIp.HexQuadText(lead, PieceText(HighHalf(q)), PieceText(LowHalf(q)));
  }

  lemma {:induction false} NormalisedQuad(address: string, low: Spelling)
    requires Valid(low) && HasQuad(low) && Lower(address) == Text(low)
    ensures Normalised(address) == Some(Text(UndottedSpelling(low)))
  {
    QuadOfValid(low);
    LeadText(low);
    LeadEnd(low);
    RewritePiece(Lead(low), QuadOf(low));
    QuadTextChars(QuadOf(low).a, QuadOf(low).b, QuadOf(low).c, QuadOf(low).d);
    NormalisedTail(address, Lead(low), PieceText(QuadOf(low)));
  }

  lemma {:induction false} NormalisedText(sp: Spelling)
    requires Valid(sp)
    ensures Normalised(Text(sp)) == Some(Text(UndottedSpelling(LowerSpelling(sp))))
  {
    var low := LowerSpelling(sp);
    LowerMeaning(sp);
    LowerText(sp);
    if HasQuad(low) {
      NormalisedQuad(Text(sp), low);
    } else {
      NoQuadNoDot(low);
    }
  }

  lemma {:induction false} TextsOfPieces(ps: seq<Piece>)
    requires ValidPieces(ps)
    ensures GroupTexts(PiecesText(ps)) == PieceTexts(ps)
  {
    SplitPieces(ps);
  }

  lemma {:induction false} NumbersOfPieces(ps: seq<Piece>)
    requires ValidPieces(ps) && HexOnly(ps)
    ensures |Groups(ps)| == |ps|
    ensures forall i :: 0 <= i < |ps| ==>
              GroupNumber(PieceTexts(ps)[i]) == Some(Groups(ps)[i]) && Groups(ps)[i] <= 0xFFFF
  {
    WidthBound(ps);
    ClientIp.GroupsBound(ps);
    PieceTextsChars(ps);
    forall i | 0 <= i < |ps| ensures GroupNumber(PieceTexts(ps)[i]) == Some(Groups(ps)[i]) {
      ClientIp.HexGroup(ps, i);
    }
  }

  lemma {:induction false} ZeroNumber()
    ensures GroupNumber("0") == Some(0)
  {
    ClientIp.HexPrefixAll("0");
    assert HexValue("0") == 0 by { assert "0"[..0] == ""; }
  }

  /** `texts` are the texts of `numbers`. */
  ghost predicate TextsOf(texts: seq<string>, numbers: seq<nat>) {
    && |texts| == |numbers|
    && forall i :: 0 <= i < |texts| ==> GroupNumber(texts[i]) == Some(numbers[i]) && numbers[i] <= 0xFFFF
  }

  lemma {:induction false} NumberTexts(left: seq<string>, l: seq<nat>, right: seq<string>, r: seq<nat>)
    requires TextsOf(left, l) && TextsOf(right, r) && |l| + |r| <= 8
    ensures NumberGroups(left, right) == Some(l + Zeros(8 - |l| - |r|) + r)
  {
    ZeroNumber();
    var texts := left + seq(8 - |left| - |right|, _ => "0") + right;
    var groups := l + Zeros(8 - |l| - |r|) + r;
    assert forall i :: 0 <= i < 8 ==> GroupNumber(texts[i]) == Some(groups[i]) && groups[i] <= 0xFFFF;
    assert seq(8, i requires 0 <= i < 8 => GroupNumber(texts[i]).value) == groups;
  }

  lemma {:induction false} ReadGap(address: string, text: string, left: string, right: string)
    requires Normalised(address) == Some(text) && SplitGap(text) == [left, right]
    ensures ReadGroups(address) == NumberGroups(GroupTexts(left), GroupTexts(right))
  {
  }

  lemma {:induction false} ReadNoGap(address: string, text: string)
    requires Normalised(address) == Some(text) && SplitGap(text) == [text]
    ensures ReadGroups(address) == NumberGroups(GroupTexts(text), [])
  {
  }

  /** `texts` are the pieces of a part of the text, and `numbers` their groups. */
  lemma {:induction false} PartTexts(ps: seq<Piece>)
    requires ValidPieces(ps) && HexOnly(ps)
    ensures |Groups(ps)| == |ps| && TextsOf(GroupTexts(PiecesText(ps)), Groups(ps))
  {
    TextsOfPieces(ps);
    NumbersOfPieces(ps);
  }

  lemma {:induction false} ReadGapped(address: string, u: Spelling)
    requires Valid(u) && u.gap && HexOnly(u.left) && HexOnly(u.right) && Normalised(address) == Some(Text(u))
    ensures ReadGroups(address) == Some(Address(u))
  {
    hide ReadGroups, PiecesText, GroupTexts;
    var left, right := PiecesText(u.left), PiecesText(u.right);
    SplitText(u);
    ReadGap(address, Text(u), left, right);
    PartTexts(u.left);
    PartTexts(u.right);
    NumberTexts(GroupTexts(left), Groups(u.left), GroupTexts(right), Groups(u.right));
  }

  lemma {:induction false} ReadUngapped(address: string, ps: seq<Piece>)
    requires ValidPieces(ps) && HexOnly(ps) && Width(ps) == 8 && Normalised(address) == Some(PiecesText(ps))
    requires SplitGap(PiecesText(ps)) == [PiecesText(ps)]
    ensures ReadGroups(address) == Some(Groups(ps))
  {
    ReadNoGap(address, PiecesText(ps));
    PartTexts(ps);
    NumberTexts(GroupTexts(PiecesText(ps)), Groups(ps), [], []);
    assert Groups(ps) + Zeros(0) + [] == Groups(ps);
  }

  lemma {:induction false} ReadNormalised(address: string, u: Spelling)
    requires Valid(u) && HexOnly(u.left) && HexOnly(u.right) && Normalised(address) == Some(Text(u))
    ensures ReadGroups(address) == Some(Address(u))
  {
    if u.gap {
      ReadGapped(address, u);
    } else {
      SplitText(u);
      ReadUngapped(address, u.left);
      assert Address(u) == Groups(u.left);
    }
  }

  /** The classifier reads the address of every valid text. */
  lemma {:induction false} ReadText(sp: Spelling)
    requires Valid(sp)
    ensures ReadGroups(Text(sp)) == Some(Address(sp))
  {
    NormalisedText(sp);
    LowerMeaning(sp);
    UndottedMeaning(LowerSpelling(sp));
    ReadNormalised(Text(sp), UndottedSpelling(LowerSpelling(sp)));
  }

  /** The classifier and the rate limiter read every valid text as the same address. */
  lemma {:induction false} ReadersAgree(sp: Spelling)
    requires Valid(sp)
    ensures ReadGroups(Text(sp)) == ClientIp.Expand(Text(sp))
  {
    ReadText(sp);
    ClientIp.ExpandText(sp);
  }

  // ----- What the tests on the groups mean -----

  lemma {:induction false} OctetsMeaning(n: nat)
    requires n < TWO_32
    ensures PrivateOctets(n / TWO_24, n / TWO_16 % 256) <==> PrivateIPv4Number(n)
  {
    var first, second, low := n / TWO_24, n / TWO_16 % 256, n % TWO_16;
    assert n == first * TWO_24 + second * TWO_16 + low;
  }

  lemma {:induction false} MaskFc00(x: nat)
    requires x <= 0xFFFF
    ensures Bits.And(x, 0xFE00) == 0xFC00 <==> 0xFC00 <= x < 0xFE00
  {
    Bits.MaskFe00(x, 0xFE00);
  }

  lemma {:induction false} MaskFe80(x: nat)
    requires x <= 0xFFFF
    ensures Bits.And(x, 0xFFC0) == 0xFE80 <==> 0xFE80 <= x < 0xFEC0
  {
    Bits.MaskFfc0(x, 0xFFC0);
  }

  lemma {:induction false} MaskFf00(x: nat)
    requires x <= 0xFFFF
    ensures Bits.And(x, 0xFF00) == 0xFF00 <==> 0xFF00 <= x
  {
    Bits.MaskFf00(x, 0xFF00);
  }

  predicate AreGroups(g: seq<nat>) { |g| == 8 && forall i :: 0 <= i < 8 ==> g[i] <= 0xFFFF }

  lemma {:induction false} LowNumberBound(g: seq<nat>)
    requires AreGroups(g)
    ensures LowNumber(g) < TWO_112
  {
    assert g[1] <= 0xFFFF && g[2] <= 0xFFFF && g[3] <= 0xFFFF && g[4] <= 0xFFFF;
    assert g[5] <= 0xFFFF && g[6] <= 0xFFFF && g[7] <= 0xFFFF;
  }

  /** A range of first groups is a block of numbers. */
  lemma {:induction false} FirstGroup(g: seq<nat>, base: nat, count: nat)
    requires AreGroups(g)
    ensures base <= g[0] < base + count <==> InBlock(Number(g), base * TWO_112, count * TWO_112)
  {
    LowNumberBound(g);
  }

  lemma {:induction false} SmallNumber(g: seq<nat>, n: nat)
    requires AreGroups(g) && n <= 1
    ensures Number(g) == n <==> (forall i :: 0 <= i < 7 ==> g[i] == 0) && g[7] == n
  {
    if Number(g) == n {
      assert g[0] == 0 && g[1] == 0 && g[2] == 0 && g[3] == 0 && g[4] == 0 && g[5] == 0 && g[6] == 0;
    }
  }

  /** The IPv4-mapped prefix is the block ::ffff:0:0/96. */
  lemma {:induction false} MappedNumber(g: seq<nat>)
    requires AreGroups(g)
    ensures IsMapped(g) <==> InBlock(Number(g), 0xFFFF * TWO_32, TWO_32)
    ensures InBlock(Number(g), 0xFFFF * TWO_32, TWO_32) ==> Number(g) - 0xFFFF * TWO_32 == g[6] * TWO_16 + g[7]
  {
    assert g[5] <= 0xFFFF && g[6] <= 0xFFFF && g[7] <= 0xFFFF;
    if InBlock(Number(g), 0xFFFF * TWO_32, TWO_32) {
      assert g[0] == 0 && g[1] == 0 && g[2] == 0 && g[3] == 0 && g[4] == 0;
    }
  }

  lemma {:induction false} FirstOctets(a: nat, b: nat, c: nat, d: nat)
    requires a < 256 && b < 256 && c < 256 && d < 256
    ensures var n := a * TWO_24 + b * TWO_16 + c * 256 + d;
            n < TWO_32 && n / TWO_24 == a && n / TWO_16 % 256 == b
  {
    var n := a * TWO_24 + b * TWO_16 + c * 256 + d;
    assert n / TWO_16 == a * 256 + b;
  }

  lemma {:induction false} PrivateQuad(a: nat, b: nat, c: nat, d: nat)
    requires ValidPiece(Quad(a, b, c, d))
    ensures IsIPv4(QuadText(a, b, c, d)) && (Private(QuadText(a, b, c, d)) <==> PrivateOctets(a, b))
  {
    QuadParts(a, b, c, d);
    OctetRead(a);
    OctetRead(b);
  }

  /** On IPv4 texts the classifier is the list of private blocks. */
  lemma {:induction false} PrivateIPv4(a: nat, b: nat, c: nat, d: nat)
    requires ValidPiece(Quad(a, b, c, d))
    ensures Private(QuadText(a, b, c, d)) <==> PrivateIPv4Number(a * TWO_24 + b * TWO_16 + c * 256 + d)
  {
    PrivateQuad(a, b, c, d);
    FirstOctets(a, b, c, d);
    OctetsMeaning(a * TWO_24 + b * TWO_16 + c * 256 + d);
  }

  lemma {:induction false} PrivateMapped(g: seq<nat>)
    requires AreGroups(g)
    ensures Private(EmbeddedIPv4(g)) <==> PrivateIPv4Number(g[6] * TWO_16 + g[7])
  {
    EmbeddedOctets(g);
    PrivateIPv4(g[6] / 256, g[6] % 256, g[7] / 256, g[7] % 256);
    assert g[6] / 256 * TWO_24 + g[6] % 256 * TWO_16 == g[6] * TWO_16;
  }

  lemma {:induction false} ReservedMeaning(g: seq<nat>)
    requires AreGroups(g)
    ensures var n := Number(g);
            && (IsLoopback(g) <==> n == 1)
            && (IsReserved(g) <==>
                n == 0
                || InBlock(n, 0xFC00 * TWO_112, 0x200 * TWO_112)
                || InBlock(n, 0xFE80 * TWO_112, 0x40 * TWO_112)
                || InBlock(n, 0xFF00 * TWO_112, 0x100 * TWO_112))
  {
    MaskFc00(g[0]);
    MaskFe80(g[0]);
    MaskFf00(g[0]);
    FirstGroup(g, 0xFC00, 0x200);
    FirstGroup(g, 0xFE80, 0x40);
    FirstGroup(g, 0xFF00, 0x100);
    SmallNumber(g, 0);
    SmallNumber(g, 1);
  }

  lemma {:induction false} PrivateUnfolded(address: string, g: seq<nat>)
    requires !IsIPv4(address) && ReadGroups(address) == Some(g)
    ensures Private(address) <==> IsLoopback(g) || IsReserved(g) || (IsMapped(g) && Private(EmbeddedIPv4(g)))
  {
    EmbeddedOctets(g);
  }

  lemma {:induction false} GroupsMeaning(g: seq<nat>, embedded: bool)
    requires AreGroups(g) && (embedded <==> PrivateIPv4Number(g[6] * TWO_16 + g[7]))
    ensures IsLoopback(g) || IsReserved(g) || (IsMapped(g) && embedded) <==> PrivateIPv6Number(Number(g))
  {
    ReservedMeaning(g);
    MappedNumber(g);
  }

  lemma {:induction false} PrivateGroups(address: string, g: seq<nat>)
    requires !IsIPv4(address) && ReadGroups(address) == Some(g)
    ensures Private(address) <==> PrivateIPv6Number(Number(g))
  {
    PrivateUnfolded(address, g);
    PrivateMapped(g);
    GroupsMeaning(g, Private(EmbeddedIPv4(g)));
  }

  /** On every valid IPv6 text the classifier answers from the address number alone. */
  lemma {:induction false} PrivateIPv6(sp: Spelling)
    requires Valid(sp)
    ensures Private(Text(sp)) <==> PrivateIPv6Number(Number(Address(sp)))
  {
    ReadText(sp);
    SixIsNotFour(sp);
    PrivateGroups(Text(sp), Address(sp));
  }
}
