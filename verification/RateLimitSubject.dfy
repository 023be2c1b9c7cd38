/** When two client address texts share one rate-limit subject. */
module RateLimitSubject {
  import opened Options
  import opened Texts
  import opened Ipv6
  import opened ClientIp

  // ----- Buckets -----

  lemma {:induction false} HexInjective(m: nat, n: nat)
    requires ToHex(m) == ToHex(n)
    ensures m == n
  {
    HexRoundTrip(m);
    HexRoundTrip(n);
  }

  function BucketParts(g: seq<nat>): (r: seq<string>)
    requires |g| == 8
    ensures |r| == 4
  {
    [ToHex(g[0]), ToHex(g[1]), ToHex(g[2]), ToHex(g[3])]
  }

  lemma {:induction false} SplitBucket(g: seq<nat>)
    requires |g| == 8
    ensures Split(Join(BucketParts(g), ":"), ':') == BucketParts(g)
  {
    HexRoundTrip(g[0]);
    HexRoundTrip(g[1]);
    HexRoundTrip(g[2]);
    HexRoundTrip(g[3]);
    SplitJoin(BucketParts(g), ':');
  }

  lemma {:induction false} DropSuffix(s: string, t: string, suffix: string)
    requires s + suffix == t + suffix
    ensures s == t
  {
    assert |s| == |t|;
    assert (s + suffix)[..|s|] == s && (t + suffix)[..|t|] == t;
  }

  /** A bucket stands for exactly the upper 64 bits. */
  lemma {:induction false} BucketExact(g: seq<nat>, h: seq<nat>)
    requires |g| == 8 && |h| == 8
    ensures Bucket(g) == Bucket(h) <==> g[..4] == h[..4]
  {
    if Bucket(g) == Bucket(h) {
      DropSuffix(Join(BucketParts(g), ":"), Join(BucketParts(h), ":"), "::/64");
      SplitBucket(g);
      SplitBucket(h);
      forall i | 0 <= i < 4 ensures g[i] == h[i] {
        assert BucketParts(g)[i] == BucketParts(h)[i];
        HexInjective(g[i], h[i]);
      }
    }
    if g[..4] == h[..4] {
      assert forall i :: 0 <= i < 4 ==> g[i] == g[..4][i] && h[i] == h[..4][i];
    }
  }

  lemma {:induction false} BucketHasSlash(g: seq<nat>)
    requires |g| == 8
    ensures '/' in Bucket(g)
  {
    var s := Join(BucketParts(g), ":");
    assert Bucket(g) == s + "::/64";
    assert Bucket(g)[|s| + 2] == '/';
  }

  // ----- Texts that canonicalise to family 6 -----

  /** `ip` canonicalises to an IPv6 text of this address. */
  ghost predicate CanonicalisesTo(ip: string, sp: Spelling) {
    Valid(sp) && Canonical(Some(ip)) == Some(Lower(Text(sp)))
  }

  lemma {:induction false} SubjectOfSix(ip: string, sp: Spelling)
    requires CanonicalisesTo(ip, sp)
    ensures Subject(ip) == Bucket(Address(sp))
  {
    LowerMeaning(sp);
    LowerText(sp);
    ExpandText(LowerSpelling(sp));
  }

  /** Inputs that canonicalise to family 6, whatever their spelling, case, brackets or spacing, share
      a subject exactly when their addresses share the upper 64 bits. */
  lemma {:induction false} SameSubject(ip1: string, sp1: Spelling, ip2: string, sp2: Spelling)
    requires CanonicalisesTo(ip1, sp1) && CanonicalisesTo(ip2, sp2)
    ensures Subject(ip1) == Subject(ip2) <==> Address(sp1)[..4] == Address(sp2)[..4]
  {
    SubjectOfSix(ip1, sp1);
    SubjectOfSix(ip2, sp2);
    BucketExact(Address(sp1), Address(sp2));
  }

  // ----- Every valid text is canonicalised -----

  predicate AddressChar(c: char) { IsHexDigit(c) || c == ':' || c == '.' }

  lemma {:induction false} PiecesChars(ps: seq<Piece>)
    requires AllValid(ps)
    ensures forall i :: 0 <= i < |PiecesText(ps)| ==> AddressChar(PiecesText(ps)[i])
  {
    if ps != [] {
      PiecesChars(ps[1..]);
      PieceChars(ps[0]);
      if |ps| > 1 { PiecesTextCons(ps); }
    }
  }

  lemma {:induction false} PieceChars(p: Piece)
    requires ValidPiece(p)
    ensures forall i :: 0 <= i < |PieceText(p)| ==> AddressChar(PieceText(p)[i])
  {
    if p.Quad? { QuadTextChars(p.a, p.b, p.c, p.d); }
  }

  lemma {:induction false} TextChars(sp: Spelling)
    requires Valid(sp)
    ensures forall i :: 0 <= i < |Text(sp)| ==> AddressChar(Text(sp)[i])
  {
    PiecesChars(sp.left);
    PiecesChars(sp.right);
  }

  lemma {:induction false} PiecesLength(ps: seq<Piece>)
    requires ValidPieces(ps) && ps != []
    ensures 1 <= |PiecesText(ps)| < 5 * Width(ps) + (if EndsWithQuad(ps) then 6 else 0)
  {
    PieceTextChars(ps[0]);
    if ps[0].Quad? { QuadTextChars(ps[0].a, ps[0].b, ps[0].c, ps[0].d); }
    if |ps| > 1 {
      PiecesTextCons(ps);
      PiecesLength(ps[1..]);
    } else {
      assert ps[1..] == [];
    }
  }

  /** No valid text is turned away by the 45-character limit. */
  lemma {:induction false} TextLength(sp: Spelling)
    requires Valid(sp)
    ensures 2 <= |Text(sp)| <= 45
  {
    if sp.left != [] { PiecesLength(sp.left); }
    if sp.right != [] { PiecesLength(sp.right); }
    if !sp.gap {
      WidthBound(sp.left);
      PiecesTextCons(sp.left);
      PiecesLength(sp.left[1..]);
    }
  }

  lemma {:induction false} NothingToTrim(s: string)
    requires s != "" && AddressChar(s[0]) && AddressChar(s[|s| - 1])
    ensures Unbracket(TrimEnd(TrimStart(s))) == s
  {
    assert forall c :: AddressChar(c) ==> !IsSpace(c) && c != '[';
    assert TrimStart(s) == s;
    assert TrimEnd(s) == s;
  }

  /** The dotted IPv4-mapped form that canonicalisation strips. */
  predicate MappedForm(sp: Spelling) {
    && sp.gap && sp.left == [] && |sp.right| == 2
    && sp.right[0].Hex? && Lower(sp.right[0].digits) == "ffff" && sp.right[1].Quad?
  }

  lemma {:induction false} MappedFormText(sp: Spelling)
    requires Valid(sp) && MappedForm(sp)
    ensures IsMappedText(Text(sp)) && Text(sp)[7..] == PieceText(sp.right[1])
  {
    var hex, q := sp.right[0], sp.right[1];
    PiecesTextCons(sp.right);
    assert sp.right[1..] == [q] && PieceTexts([q]) == [PieceText(q)];
    var head := "::" + hex.digits + ":";
    assert Text(sp) == head + PieceText(q);
    assert Text(sp)[..7] == head && Text(sp)[7..] == PieceText(q);
    LowerGapped("", hex.digits + ":");
    LowerConcat(hex.digits, ":");
    assert head == "" + "::" + (hex.digits + ":");
    assert Lower(":") == ":" && Lower("") == "";
    assert Lower(head) == "::ffff:";
    MatchQuadText(q.a, q.b, q.c, q.d);
  }

  lemma {:induction false} MappedTextParts(s: string)
    requires IsMappedText(s)
    ensures |s| >= 7 && s[0] == ':' && s[1] == ':' && s[2..] == s[2..6] + [':'] + s[7..]
    ensures Lower(s[2..6]) == "ffff" && ':' !in s[2..6]
  {
    hide MatchQuad;
    var low, digits := Lower(s[..7]), s[2..6];
    assert low[0] == ':' && low[1] == ':' && low[6] == ':';
    assert low[2] == 'f' && low[3] == 'f' && low[4] == 'f' && low[5] == 'f';
    assert Lower(digits) == "ffff";
    assert forall i :: 0 <= i < 4 ==> LowerChar(digits[i]) == 'f';
    assert s[6] == ':';
  }

  /** A text matches the mapped pattern only if it is spelt in the mapped form. */
  lemma {:induction false} MappedTextForm(sp: Spelling)
    requires Valid(sp) && IsMappedText(Text(sp))
    ensures MappedForm(sp)
  {
    var s := Text(sp);
    MappedTextParts(s);
    StartsWithGap(sp);
    MatchQuadChars(s[7..]);
    var digits, tail := s[2..6], s[7..];
    assert PiecesText(sp.right) == s[2..] by { assert PiecesText(sp.left) == ""; }
    SplitAt(digits, ':', tail);
    SplitFree(tail, ':');
    SplitPieces(sp.right);
    assert PieceTexts(sp.right) == [digits, tail];
    assert PieceText(sp.right[0]) == digits && PieceText(sp.right[1]) == tail;
    PieceTextChars(sp.right[1]);
  }

  lemma {:induction false} StartsWithGap(sp: Spelling)
    requires Valid(sp) && Text(sp) != "" && Text(sp)[0] == ':'
    ensures sp.gap && sp.left == []
  {
    PieceTextsChars(sp.left);
    JoinHasNoGap(PieceTexts(sp.left));
  }

  /** What canonicalisation makes of every valid text. */
  lemma {:induction false} CanonicalOfText(sp: Spelling)
    requires Valid(sp)
    ensures Canonical(Some(Text(sp))) ==
            Some(if MappedForm(sp) then PieceText(sp.right[1]) else Lower(Text(sp)))
  {
    var s := Text(sp);
    TextLength(sp);
    TextChars(sp);
    NothingToTrim(s);
    if MappedForm(sp) {
      MappedFormText(sp);
      var q := sp.right[1];
      assert IsIPv4(PieceText(q)) by { assert ValidPiece(Quad(q.a, q.b, q.c, q.d)); }
    } else {
      if IsMappedText(s) { MappedTextForm(sp); assert false; }
      SixIsNotFour(sp);
      assert IsIPv6(s);
    }
  }

  // ----- IPv4 texts -----

  lemma {:induction false} FourIsNotSix(s: string)
    requires IsIPv4(s)
    ensures !IsIPv6(s)
  {
    if IsIPv6(s) {
      var sp :| Valid(sp) && s == Text(sp);
      SixIsNotFour(sp);
    }
  }

  lemma {:induction false} NotMapped(s: string)
    requires QuadChars(s)
    ensures !IsMappedText(s)
  {
    if IsMappedText(s) { MappedTextParts(s); }
  }

  /** An IPv4 text stands for itself, and is its own subject. */
  lemma {:induction false} QuadSubject(s: string)
    requires IsIPv4(s)
    ensures Canonical(Some(s)) == Some(s) && Subject(s) == s
  {
    var a, b, c, d :| ValidPiece(Quad(a, b, c, d)) && s == QuadText(a, b, c, d);
    QuadTextChars(a, b, c, d);
    NothingToTrim(s);
    NotMapped(s);
    FourIsNotSix(s);
  }

  /** Two IPv4 texts share a subject exactly when they are the same four octets. */
  lemma {:induction false} QuadSubjectExact(p: Piece, q: Piece)
    requires p.Quad? && q.Quad? && ValidPiece(p) && ValidPiece(q)
    ensures Subject(PieceText(p)) == Subject(PieceText(q)) <==> p == q
  {
    QuadIsFour(p);
    QuadIsFour(q);
    QuadSubject(PieceText(p));
    QuadSubject(PieceText(q));
    if PieceText(p) == PieceText(q) { QuadTextInjective(p, q); }
  }

  lemma {:induction false} QuadIsFour(q: Piece)
    requires q.Quad? && ValidPiece(q)
    ensures IsIPv4(PieceText(q))
  {
    assert ValidPiece(Quad(q.a, q.b, q.c, q.d));
  }

  /** An IPv4 text and an IPv6 text share a subject exactly when the latter is the former in the dotted
      mapped form. */
  lemma {:induction false} QuadMeetsMapped(q: Piece, sp: Spelling)
    requires q.Quad? && ValidPiece(q) && Valid(sp)
    ensures Subject(PieceText(q)) == Subject(Text(sp)) <==> MappedForm(sp) && sp.right[1] == q
  {
    hide Subject, Bucket, Text;
    QuadIsFour(q);
    QuadSubject(PieceText(q));
    CanonicalOfText(sp);
    if MappedForm(sp) {
      MappedSubject(sp);
      if PieceText(q) == PieceText(sp.right[1]) { QuadTextInjective(q, sp.right[1]); }
    } else {
      SubjectOfSix(Text(sp), sp);
      BucketHasSlash(Address(sp));
      QuadTextChars(q.a, q.b, q.c, q.d);
    }
  }

  lemma {:induction false} MappedSubject(sp: Spelling)
    requires Valid(sp) && MappedForm(sp)
    ensures Subject(Text(sp)) == PieceText(sp.right[1])
  {
    CanonicalOfText(sp);
    QuadIsFour(sp.right[1]);
    FourIsNotSix(PieceText(sp.right[1]));
  }

  // ----- Surroundings of an address -----

  ghost predicate IsAddress(s: string) { IsIPv4(s) || IsIPv6(s) }

  predicate AllSpace(s: string) { forall i :: 0 <= i < |s| ==> IsSpace(s[i]) }

  /** `core`, in brackets or not, with white space around it. */
  ghost predicate Surrounds(s: string, before: string, core: string, bracketed: bool, after: string) {
    && AllSpace(before) && AllSpace(after)
    && s == before + (if bracketed then "[" + core + "]" else core) + after
  }

  lemma {:induction false} TrimStartExact(before: string, s: string)
    requires AllSpace(before) && (s == "" || !IsSpace(s[0]))
    ensures TrimStart(before + s) == s
  {
    if before == "" {
      assert before + s == s;
    } else {
      assert (before + s)[1..] == before[1..] + s;
      TrimStartExact(before[1..], s);
    }
  }

  lemma {:induction false} TrimEndExact(s: string, after: string)
    requires AllSpace(after) && (s == "" || !IsSpace(s[|s| - 1]))
    ensures TrimEnd(s + after) == s
  {
    if after == "" {
      assert s + after == s;
    } else {
      var n := |after| - 1;
      assert (s + after)[..|s + after| - 1] == s + after[..n];
      TrimEndExact(s, after[..n]);
    }
  }

  lemma {:induction false} TrimStartParts(s: string) returns (before: string)
    ensures AllSpace(before) && s == before + TrimStart(s)
  {
    if s != "" && IsSpace(s[0]) {
      before := TrimStartParts(s[1..]);
      before := [s[0]] + before;
    } else {
      before := "";
    }
  }

  lemma {:induction false} TrimEndParts(s: string) returns (after: string)
    ensures AllSpace(after) && s == TrimEnd(s) + after
  {
    if s != "" && IsSpace(s[|s| - 1]) {
      var rest := TrimEndParts(s[..|s| - 1]);
      after := rest + [s[|s| - 1]];
      assert s == s[..|s| - 1] + [s[|s| - 1]];
    } else {
      after := "";
    }
  }

  lemma {:induction false} AddressEnds(core: string)
    requires IsAddress(core)
    ensures 2 <= |core| <= 45 && AddressChar(core[0]) && AddressChar(core[|core| - 1])
  {
    if IsIPv4(core) {
      var a, b, c, d :| ValidPiece(Quad(a, b, c, d)) && core == QuadText(a, b, c, d);
      QuadTextChars(a, b, c, d);
    } else {
      var sp :| Valid(sp) && core == Text(sp);
      TextLength(sp);
      TextChars(sp);
    }
  }

  predicate BareEnds(s: string) { s != "" && !IsSpace(s[0]) && !IsSpace(s[|s| - 1]) }

  lemma {:induction false} TrimAround(before: string, inner: string, after: string)
    requires AllSpace(before) && AllSpace(after) && BareEnds(inner)
    ensures TrimEnd(TrimStart(before + inner + after)) == inner
  {
    hide TrimStart, TrimEnd, AllSpace, IsSpace;
    assert before + inner + after == before + (inner + after);
    assert (inner + after)[0] == inner[0];
    TrimStartExact(before, inner + after);
    TrimEndExact(inner, after);
  }

  /** The core of an address text with or without brackets. */
  lemma {:induction false} BracketsOff(core: string, bracketed: bool)
    requires IsAddress(core)
    ensures var inner := if bracketed then "[" + core + "]" else core;
            BareEnds(inner) && Unbracket(inner) == core
  {
    hide IsAddress;
    AddressEnds(core);
    SpaceFree(core[0]);
    SpaceFree(core[|core| - 1]);
    BracketsNoSpace();
    hide IsSpace, AddressChar;
    if bracketed { assert ("[" + core + "]")[1..|core| + 1] == core; }
  }

  lemma {:induction false} BracketsNoSpace()
    ensures !IsSpace('[') && !IsSpace(']')
  {
  }

  lemma {:induction false} Trimmed(s: string, before: string, core: string, bracketed: bool, after: string)
    requires IsAddress(core) && Surrounds(s, before, core, bracketed, after)
    ensures Unbracket(TrimEnd(TrimStart(s))) == core
  {
    hide IsAddress, TrimStart, TrimEnd, Unbracket, BareEnds;
    BracketsOff(core, bracketed);
    TrimAround(before, if bracketed then "[" + core + "]" else core, after);
  }

  /** White space around an address and brackets inside it make no difference. */
  lemma {:induction false} SurroundingsDropped(s: string, before: string, core: string, bracketed: bool, after: string)
    requires IsAddress(core) && Surrounds(s, before, core, bracketed, after)
    ensures Canonical(Some(s)) == Canonical(Some(core)) && Canonical(Some(core)).Some?
    ensures Subject(s) == Subject(core)
  {
    hide IsAddress, TrimStart, TrimEnd, Unbracket, IsMappedText, Surrounds;
    Trimmed(s, before, core, bracketed, after);
    AddressIsBare(core);
    AddressIsCanonical(core);
  }

  lemma {:induction false} AddressIsBare(core: string)
    requires IsAddress(core)
    ensures Unbracket(TrimEnd(TrimStart(core))) == core
  {
    AddressEnds(core);
    NothingToTrim(core);
  }

  lemma {:induction false} SpaceFree(c: char)
    requires AddressChar(c)
    ensures !IsSpace(c) && c != '['
  {
  }

  lemma {:induction false} AddressIsCanonical(core: string)
    requires IsAddress(core)
    ensures Canonical(Some(core)).Some?
  {
    if IsIPv4(core) {
      QuadSubject(core);
    } else {
      var sp :| Valid(sp) && core == Text(sp);
      CanonicalOfText(sp);
    }
  }

  /** The mapped pattern before an IPv4 text makes an IPv6 text. */
  lemma {:induction false} MappedIsSix(s: string)
    requires IsMappedText(s) && IsIPv4(s[7..])
    ensures IsIPv6(s)
  {
    hide MatchQuad;
    MappedTextParts(s);
    var a, b, c, d :| ValidPiece(Quad(a, b, c, d)) && s[7..] == QuadText(a, b, c, d);
    var hex, q := Hex(s[2..6]), Quad(a, b, c, d);
    LowerHexDigits(s[2..6]);
    var sp := Spelling([], true, [hex, q]);
    PiecesTextCons(sp.right);
    assert sp.right[1..] == [q] && PieceTexts([q]) == [PieceText(q)];
    assert Width([q]) == 2 by { assert [q][1..] == []; }
    assert Width([hex, q]) == 3;
    assert PieceTexts(sp.left) == [];
    assert s == "::" + (s[2..6] + ":" + s[7..]);
    assert Text(sp) == s && Valid(sp);
  }

  lemma {:induction false} LowerHexDigits(s: string)
    requires Lower(s) == "ffff"
    ensures |s| == 4 && AllHex(s)
  {
    forall i | 0 <= i < |s| ensures IsHexDigit(s[i]) { assert LowerChar(s[i]) == Lower(s)[i] == 'f'; }
  }

  /** Canonicalisation accepts exactly the address texts, with white space around them and brackets, and
      drops those surroundings. */
  lemma {:induction false} CanonicalExact(s: string)
    ensures Canonical(Some(s)).Some? <==>
            exists before, core, bracketed, after :: IsAddress(core) && Surrounds(s, before, core, bracketed, after)
  {
    if Canonical(Some(s)).Some? {
      var before, core, bracketed, after := CanonicalCore(s);
    }
    forall before, core, bracketed, after | IsAddress(core) && Surrounds(s, before, core, bracketed, after)
      ensures Canonical(Some(s)).Some?
    {
      SurroundingsDropped(s, before, core, bracketed, after);
    }
  }

  lemma {:induction false} CanonicalCore(s: string)
      returns (before: string, core: string, bracketed: bool, after: string)
    requires Canonical(Some(s)).Some?
    ensures IsAddress(core) && Surrounds(s, before, core, bracketed, after)
  {
    hide IsMappedText, IsIPv4, IsIPv6, TrimStart, TrimEnd, IsSpace;
    before := TrimStartParts(s);
    after := TrimEndParts(TrimStart(s));
    var inner := TrimEnd(TrimStart(s));
    core := Unbracket(inner);
    bracketed := |inner| >= 2 && inner[0] == '[' && inner[|inner| - 1] == ']';
    if bracketed { assert inner == "[" + core + "]"; }
    if IsMappedText(core) {
      MappedTailIsFour(core);
      if IsIPv4(core[7..]) { MappedIsSix(core); }
    }
  }

  lemma {:induction false} MappedTailIsFour(s: string)
    requires IsMappedText(s)
    ensures |s| >= 7 && !IsIPv6(s[7..])
  {
    MatchQuadChars(s[7..]);
    if IsIPv6(s[7..]) {
      var sp :| Valid(sp) && s[7..] == Text(sp);
      TextHasColon(sp);
    }
  }

  /** What is no address, with or without surroundings, is limited under its own text. */
  lemma {:induction false} OtherSubject(s: string)
    requires forall before, core, bracketed, after :: Surrounds(s, before, core, bracketed, after) ==> !IsAddress(core)
    ensures Canonical(Some(s)) == None && Subject(s) == s
  {
    CanonicalExact(s);
    if IsIPv6(s) { AddressIsCanonical(s); }
  }

  lemma {:induction false} QuadTextInjective(p: Piece, q: Piece)
    requires p.Quad? && q.Quad? && ValidPiece(p) && ValidPiece(q) && PieceText(p) == PieceText(q)
    ensures p == q
  {
    MatchQuadText(p.a, p.b, p.c, p.d);
    MatchQuadText(q.a, q.b, q.c, q.d);
    assert [p.a, p.b, p.c, p.d] == [q.a, q.b, q.c, q.d];
  }

  /** The subject of every valid IPv6 text, exactly: the dotted IPv4-mapped form is limited by its
      IPv4 address, every other spelling by the upper 64 bits, and the two kinds never meet. */
  lemma {:induction false} SubjectExact(sp1: Spelling, sp2: Spelling)
    requires Valid(sp1) && Valid(sp2)
    ensures Subject(Text(sp1)) == Subject(Text(sp2)) <==>
            MappedForm(sp1) == MappedForm(sp2)
            && if MappedForm(sp1) then sp1.right[1] == sp2.right[1]
               else Address(sp1)[..4] == Address(sp2)[..4]
  {
    hide Subject, Text, Bucket;
    CanonicalOfText(sp1);
    CanonicalOfText(sp2);
    if MappedForm(sp1) { MappedSubject(sp1); } else { SubjectOfSix(Text(sp1), sp1); }
    if MappedForm(sp2) { MappedSubject(sp2); } else { SubjectOfSix(Text(sp2), sp2); }
    if MappedForm(sp1) && MappedForm(sp2) {
      if Subject(Text(sp1)) == Subject(Text(sp2)) { QuadTextInjective(sp1.right[1], sp2.right[1]); }
    } else if MappedForm(sp1) != MappedForm(sp2) {
      var (four, six) := if MappedForm(sp1) then (sp1, sp2) else (sp2, sp1);
      QuadTextChars(four.right[1].a, four.right[1].b, four.right[1].c, four.right[1].d);
      BucketHasSlash(Address(six));
    } else {
      BucketExact(Address(sp1), Address(sp2));
    }
  }

  /** The last two groups of a mapped address are its dotted tail, so mapped spellings of one address
      have one tail. */
  lemma {:induction false} MappedTail(sp1: Spelling, sp2: Spelling)
    requires Valid(sp1) && Valid(sp2) && MappedForm(sp1) && MappedForm(sp2) && Address(sp1) == Address(sp2)
    ensures sp1.right[1] == sp2.right[1]
  {
    LastGroups(sp1);
    LastGroups(sp2);
  }

  lemma {:induction false} LastGroups(sp: Spelling)
    requires Valid(sp) && MappedForm(sp)
    ensures var q := sp.right[1];
            |Address(sp)| == 8 && Address(sp)[6] == 256 * q.a + q.b && Address(sp)[7] == 256 * q.c + q.d
  {
    var q := sp.right[1];
    assert sp.right == [sp.right[0]] + [q];
    GroupsConcat([sp.right[0]], [q]);
  }

  /** One address, one subject, unless it is spelled once in the dotted mapped form and once not. */
  lemma {:induction false} OneAddress(sp1: Spelling, sp2: Spelling)
    requires Valid(sp1) && Valid(sp2) && Address(sp1) == Address(sp2)
    ensures Subject(Text(sp1)) == Subject(Text(sp2)) <==> MappedForm(sp1) == MappedForm(sp2)
  {
    hide Subject, Text;
    SubjectExact(sp1, sp2);
    if MappedForm(sp1) && MappedForm(sp2) { MappedTail(sp1, sp2); }
  }

  /** One address, two subjects: the canonicaliser strips the dotted mapped form only, so spelling a
      mapped address in hexadecimal always moves it to another bucket. */
  lemma {:induction false} MappedSpellingsDiffer(sp: Spelling)
    requires Valid(sp) && MappedForm(sp)
    ensures var hex := UndottedSpelling(sp);
            Valid(hex) && Address(hex) == Address(sp) && Subject(Text(hex)) != Subject(Text(sp))
  {
    UndottedMeaning(sp);
    SubjectExact(sp, UndottedSpelling(sp));
  }

  const MAPPED_EXAMPLE := Spelling([], true, [Hex("ffff"), Quad(1, 2, 3, 4)])

  /** "::ffff:1.2.3.4" is such a spelling. */
  lemma {:induction false} MappedExample()
    ensures Valid(MAPPED_EXAMPLE) && MappedForm(MAPPED_EXAMPLE)
  {
    var q := Quad(1, 2, 3, 4);
    assert Lower("ffff") == "ffff";
    assert ValidPiece(Hex("ffff")) && ValidPiece(q);
    assert Width([q]) == 2 by { assert [q][1..] == []; }
    assert Width([Hex("ffff"), q]) == 3 by { assert [Hex("ffff"), q][1..] == [q]; }
  }
}
