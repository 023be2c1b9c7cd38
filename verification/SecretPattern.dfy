/** The pattern for secret-like content, and what it finds in JSON text: exactly what it finds in one of
    the keys and strings of the value, as they are escaped. */
module SecretPattern {
  import opened CodeUnits
  import opened Json

  const SLASH: CodeUnit := 0x2F
  const AT: CodeUnit := 0x40
  const HYPHEN: CodeUnit := 0x2D

  // ----- The pattern -----

  const KEYWORDS: set<string> := {"secret", "token", "password", "cookie", "authorization", "bearer"}

  const STORE_SCHEMES: set<string> := {"postgres://", "postgresql://", "redis://", "rediss://"}

  const WEB_SCHEMES: set<string> := {"http://", "https://"}

  /** Case folding onto ASCII letters, which the long s and the Kelvin sign take part in. */
  function Fold(u: CodeUnit): CodeUnit {
    if 0x41 <= u <= 0x5A then u + 0x20 else if u == 0x17F then 0x73 else if u == 0x212A then 0x6B else u
  }

  predicate IsWordUnit(u: CodeUnit) { 0x61 <= Fold(u) <= 0x7A || 0x30 <= u <= 0x39 || u == 0x5F }

  /** `\s` */
  predicate IsSpace(u: CodeUnit) {
    || 0x09 <= u <= 0x0D || u == 0x20 || u == 0xA0 || u == 0x1680 || 0x2000 <= u <= 0x200A
    || u == 0x2028 || u == 0x2029 || u == 0x202F || u == 0x205F || u == 0x3000 || u == 0xFEFF
  }

  /** `[^\s"']` */
  predicate IsHostUnit(u: CodeUnit) { !IsSpace(u) && u != QUOTE && u != 0x27 }

  predicate Spells(t: Text, word: string) {
    |t| == |word| && forall k :: 0 <= k < |t| ==> Fold(t[k]) == word[k] as int
  }

  predicate IsKeyword(t: Text) { exists word :: word in KEYWORDS && Spells(t, word) }

  predicate IsStoreUrl(t: Text) { exists scheme :: scheme in STORE_SCHEMES && Spells(t, scheme) }

  /** A scheme, at least one unit of user information, and an at sign. */
  predicate IsWebUrl(t: Text) {
    exists scheme :: scheme in WEB_SCHEMES && StartsWeb(t, scheme)
  }

  predicate StartsWeb(t: Text, scheme: string) {
    && |scheme| + 2 <= |t| && Spells(t[..|scheme|], scheme) && t[|t| - 1] == AT
    && forall k :: |scheme| <= k < |t| - 1 ==> IsHostUnit(t[k])
  }

  /** The units from `i` to `j` are part of a longer word. */
  predicate InsideWord(t: Text, i: nat, j: nat)
    requires i <= j <= |t|
  {
    (i > 0 && IsWordUnit(t[i - 1])) || (j < |t| && IsWordUnit(t[j]))
  }

  predicate MatchesAt(t: Text, i: nat, j: nat)
    requires i <= j <= |t|
  {
    (IsKeyword(t[i..j]) && !InsideWord(t, i, j)) || IsStoreUrl(t[i..j]) || IsWebUrl(t[i..j])
  }

  predicate SecretLike(t: Text) {
    exists i, j :: 0 <= i <= j <= |t| && MatchesAt(t, i, j)
  }

  // ----- What cannot be part of a match -----

  lemma {:induction false} KeywordUnits(t: Text)
    requires IsKeyword(t)
    ensures t != [] && forall k :: 0 <= k < |t| ==> IsWordUnit(t[k])
  {
    var word :| word in KEYWORDS && Spells(t, word);
    forall k | 0 <= k < |t| ensures IsWordUnit(t[k]) { assert 'a' <= word[k] <= 'z'; }
  }

  lemma {:induction false} SchemeUnits(t: Text, scheme: string)
    requires scheme in STORE_SCHEMES + WEB_SCHEMES && Spells(t, scheme)
    ensures SLASH in t && QUOTE !in t
  {
    assert scheme[|scheme| - 1] == '/';
    assert t[|t| - 1] == SLASH;
    forall k | 0 <= k < |t| ensures t[k] != QUOTE { assert scheme[k] != '"'; }
  }

  lemma {:induction false} UrlUnits(t: Text)
    requires IsStoreUrl(t) || IsWebUrl(t)
    ensures SLASH in t && QUOTE !in t
  {
    if IsStoreUrl(t) {
      var scheme :| scheme in STORE_SCHEMES && Spells(t, scheme);
      SchemeUnits(t, scheme);
    } else {
      var scheme :| scheme in WEB_SCHEMES && StartsWeb(t, scheme);
      SchemeUnits(t[..|scheme|], scheme);
      forall k | 0 <= k < |t| ensures t[k] != QUOTE {
        if k < |scheme| { assert t[..|scheme|][k] != QUOTE; }
      }
    }
  }

  /** A unit that no match can hold: one that is in no word, and is a quotation mark or in a text without
      slashes. */
  predicate Separates(u: CodeUnit, t: Text) { !IsWordUnit(u) && (u == QUOTE || SLASH !in t) }

  lemma {:induction false} NotInMatch(t: Text, i: nat, j: nat, k: nat)
    requires i <= j <= |t| && MatchesAt(t, i, j) && k < |t| && Separates(t[k], t)
    ensures j <= k || k < i
    ensures i < j
  {
    hide IsKeyword, IsStoreUrl, IsWebUrl, IsWordUnit;
    if IsKeyword(t[i..j]) { KeywordUnits(t[i..j]); } else { UrlUnits(t[i..j]); }
    forall m | i <= m < j ensures t[m] in t[i..j] { assert t[i..j][m - i] == t[m]; }
  }

  // ----- Parts of a text -----

  lemma {:induction false} MatchInFirst(a: Text, u: CodeUnit, b: Text, i: nat, j: nat)
    requires !IsWordUnit(u) && i <= j <= |a|
    ensures MatchesAt(a + [u] + b, i, j) <==> MatchesAt(a, i, j)
  {
    hide IsKeyword, IsStoreUrl, IsWebUrl, IsWordUnit;
    assert (a + [u] + b)[i..j] == a[i..j];
  }

  lemma {:induction false} MatchInSecond(a: Text, u: CodeUnit, b: Text, i: nat, j: nat)
    requires !IsWordUnit(u) && i <= j <= |b|
    ensures MatchesAt(a + [u] + b, |a| + 1 + i, |a| + 1 + j) <==> MatchesAt(b, i, j)
  {
    hide IsKeyword, IsStoreUrl, IsWebUrl, IsWordUnit;
    var t, n := a + [u] + b, |a| + 1;
    assert t[n + i..n + j] == b[i..j];
    assert i > 0 ==> t[n + i - 1] == b[i - 1];
    assert j < |b| ==> t[n + j] == b[j];
  }

  /** A text is secret-like exactly when one of its parts is. */
  lemma {:induction false} SecretInParts(a: Text, u: CodeUnit, b: Text)
    requires Separates(u, a + [u] + b)
    ensures SecretLike(a + [u] + b) <==> SecretLike(a) || SecretLike(b)
  {
    hide MatchesAt, IsWordUnit;
    var t, n := a + [u] + b, |a| + 1;
    if SecretLike(t) {
      var i, j :| 0 <= i <= j <= |t| && MatchesAt(t, i, j);
      NotInMatch(t, i, j, |a|);
      if j <= |a| { MatchInFirst(a, u, b, i, j); } else { MatchInSecond(a, u, b, i - n, j - n); }
    }
    if SecretLike(a) {
      var i, j :| 0 <= i <= j <= |a| && MatchesAt(a, i, j);
      MatchInFirst(a, u, b, i, j);
    }
    if SecretLike(b) {
      var i, j :| 0 <= i <= j <= |b| && MatchesAt(b, i, j);
      MatchInSecond(a, u, b, i, j);
      assert MatchesAt(t, n + i, n + j);
    }
  }

  // ----- JSON text as units between strings, and strings -----

  /** A unit that JSON text has outside strings: of a number, of null, true and false, punctuation,
      or the line break at its end. */
  predicate IsOuter(u: CodeUnit) {
    IsNumberUnit(u) || u in NULL_TEXT + TRUE_TEXT + FALSE_TEXT || u in {0x5B, 0x5D, 0x7B, 0x7D, COMMA, COLON, 0x0A}
  }

  predicate AllOuter(t: Text) { forall k :: 0 <= k < |t| ==> IsOuter(t[k]) }

  datatype Token = Plain(t: Text) | Quoted(s: Text)

  function TokenText(token: Token): Text { if token.Plain? then token.t else Quote(token.s) }

  function TextOf(tokens: seq<Token>): Text {
    if tokens == [] then [] else TokenText(tokens[0]) + TextOf(tokens[1..])
  }

  predicate TokenBetrays(token: Token) { token.Quoted? && SecretLike(Escape(token.s)) }

  predicate TokensBetray(tokens: seq<Token>) { exists i :: 0 <= i < |tokens| && TokenBetrays(tokens[i]) }

  predicate GoodTokens(tokens: seq<Token>) {
    forall i :: 0 <= i < |tokens| && tokens[i].Plain? ==> AllOuter(tokens[i].t)
  }

  /** A letter of every keyword is not found outside strings. */
  lemma {:induction false} KeywordLetter(t: Text) returns (k: nat)
    requires IsKeyword(t)
    ensures k < |t| && !IsOuter(t[k])
  {
    var word :| word in KEYWORDS && Spells(t, word);
    k := if word == "secret" then 2 else if word == "token" then 1 else if word == "authorization" then 4 else 0;
    assert word[k] in "chkopb";
    assert Fold(t[k]) == word[k] as int;
    OuterFolds(t[k]);
  }

  lemma {:induction false} OuterFolds(u: CodeUnit)
    ensures Fold(u) in {0x62, 0x63, 0x68, 0x6B, 0x6F, 0x70} ==> !IsOuter(u)
  {
  }

  lemma {:induction false} MatchHasOther(t: Text, i: nat, j: nat) returns (k: nat)
    requires i <= j <= |t| && MatchesAt(t, i, j)
    ensures k < |t| && !IsOuter(t[k])
  {
    hide IsKeyword, IsStoreUrl, IsWebUrl, InsideWord;
    if IsKeyword(t[i..j]) {
      k := KeywordLetter(t[i..j]);
    } else {
      UrlUnits(t[i..j]);
      k :| 0 <= k < j - i && t[i..j][k] == SLASH;
    }
    k := i + k;
  }

  lemma {:induction false} OuterIsHarmless(t: Text)
    requires AllOuter(t)
    ensures !SecretLike(t)
  {
    hide MatchesAt, IsOuter;
    if SecretLike(t) {
      var i, j :| 0 <= i <= j <= |t| && MatchesAt(t, i, j);
      var k := MatchHasOther(t, i, j);
    }
  }

  lemma {:induction false} OuterConcat(t: Text, u: Text)
    requires AllOuter(t) && AllOuter(u)
    ensures AllOuter(t + u)
  {
    hide IsOuter;
  }

  lemma {:induction false} GoodFirst(tokens: seq<Token>)
    requires GoodTokens(tokens) && tokens != []
    ensures tokens[0].Plain? ==> AllOuter(tokens[0].t)
    ensures GoodTokens(tokens[1..])
  {
    hide AllOuter;
  }

  lemma {:induction false} Associates(a: Text, b: Text, c: Text)
    ensures a + (b + c) == a + b + c
  {
  }

  lemma {:induction false} TokensSecret(before: Text, tokens: seq<Token>)
    requires AllOuter(before) && GoodTokens(tokens)
    ensures SecretLike(before + TextOf(tokens)) <==> TokensBetray(tokens)
    decreases |tokens|, 0
  {
    OuterIsHarmless(before);
    if tokens == [] {
      assert before + TextOf(tokens) == before;
    } else {
      hide *;
      GoodFirst(tokens);
      BetrayFirst(tokens);
      TextFirst(tokens);
      Associates(before, TokenText(tokens[0]), TextOf(tokens[1..]));
      if tokens[0].Plain? {
        OuterConcat(before, tokens[0].t);
        TokensSecret(before + tokens[0].t, tokens[1..]);
        PlainToken(tokens[0]);
      } else {
        TextSecret(tokens[1..]);
        QuotedPart(before, tokens[0].s, TextOf(tokens[1..]));
        QuotedToken(tokens[0]);
      }
    }
  }

  lemma {:induction false} PlainToken(token: Token)
    requires token.Plain?
    ensures TokenText(token) == token.t && !TokenBetrays(token)
  {
  }

  lemma {:induction false} QuotedToken(token: Token)
    requires token.Quoted?
    ensures TokenText(token) == Quote(token.s) && (TokenBetrays(token) <==> SecretLike(Escape(token.s)))
  {
  }

  lemma {:induction false} TextSecret(tokens: seq<Token>)
    requires GoodTokens(tokens)
    ensures SecretLike(TextOf(tokens)) <==> TokensBetray(tokens)
    decreases |tokens|, 1
  {
    TokensSecret([], tokens);
    assert [] + TextOf(tokens) == TextOf(tokens);
  }

  lemma {:induction false} QuotedPart(before: Text, s: Text, rest: Text)
    ensures SecretLike(before + Quote(s) + rest) <==>
            SecretLike(before) || SecretLike(Escape(s)) || SecretLike(rest)
  {
    hide SecretLike, Escape;
    SecretInParts(Escape(s), QUOTE, rest);
    SecretInParts(before, QUOTE, Escape(s) + [QUOTE] + rest);
    assert before + [QUOTE] + (Escape(s) + [QUOTE] + rest) == before + Quote(s) + rest;
  }

  lemma {:induction false} BetrayFirst(tokens: seq<Token>)
    requires tokens != []
    ensures TokensBetray(tokens) <==> TokenBetrays(tokens[0]) || TokensBetray(tokens[1..])
  {
    hide TokenBetrays;
    if TokensBetray(tokens) {
      var i :| 0 <= i < |tokens| && TokenBetrays(tokens[i]);
      if i > 0 { assert tokens[1..][i - 1] == tokens[i]; }
    }
    if TokensBetray(tokens[1..]) {
      var i :| 0 <= i < |tokens| - 1 && TokenBetrays(tokens[1..][i]);
      assert tokens[i + 1] == tokens[1..][i];
    }
  }

  lemma {:induction false} BetrayConcat(a: seq<Token>, b: seq<Token>)
    ensures TokensBetray(a + b) <==> TokensBetray(a) || TokensBetray(b)
  {
    hide TokenBetrays;
    if TokensBetray(a) {
      var i :| 0 <= i < |a| && TokenBetrays(a[i]);
      assert (a + b)[i] == a[i];
    }
    if TokensBetray(b) {
      var i :| 0 <= i < |b| && TokenBetrays(b[i]);
      assert (a + b)[|a| + i] == b[i];
    }
  }

  lemma {:induction false} TextConcat(a: seq<Token>, b: seq<Token>)
    ensures TextOf(a + b) == TextOf(a) + TextOf(b)
  {
    if a == [] {
      assert a + b == b;
    } else {
      TextConcat(a[1..], b);
      TextConcatStep(a, b);
    }
  }

  lemma {:induction false} TextConcatStep(a: seq<Token>, b: seq<Token>)
    requires a != [] && TextOf(a[1..] + b) == TextOf(a[1..]) + TextOf(b)
    ensures TextOf(a + b) == TextOf(a) + TextOf(b)
  {
    hide TextOf, TokenText;
    assert (a + b)[0] == a[0] && (a + b)[1..] == a[1..] + b;
    TextFirst(a);
    TextFirst(a + b);
    assert TokenText(a[0]) + (TextOf(a[1..]) + TextOf(b)) == TokenText(a[0]) + TextOf(a[1..]) + TextOf(b);
  }

  lemma {:induction false} TextFirst(tokens: seq<Token>)
    requires tokens != []
    ensures TextOf(tokens) == TokenText(tokens[0]) + TextOf(tokens[1..])
  {
  }

  // ----- What the pattern finds in a JSON value -----

  /** A key or string somewhere in the value is secret-like, as it is escaped. */
  predicate Betrays(v: Json) {
    match v
    case String(s) => SecretLike(Escape(s))
    case Array(items) => exists i :: 0 <= i < |items| && Betrays(items[i])
    case Object(entries) =>
      exists i :: 0 <= i < |entries| && (SecretLike(Escape(entries[i].key)) || Betrays(entries[i].value))
    case _ => false
  }

  /** The tokens make up the text, and betray a secret exactly if told so. */
  ghost predicate Tokenises(tokens: seq<Token>, t: Text, betrays: bool) {
    GoodTokens(tokens) && TextOf(tokens) == t && (TokensBetray(tokens) <==> betrays)
  }

  lemma {:induction false} TokenisesPlain(t: Text)
    requires AllOuter(t)
    ensures Tokenises([Plain(t)], t, false)
  {
    assert TextOf([Plain(t)]) == t + TextOf([]);
  }

  lemma {:induction false} TokenisesQuoted(s: Text)
    ensures Tokenises([Quoted(s)], Quote(s), SecretLike(Escape(s)))
  {
    hide SecretLike, Escape;
    assert TextOf([Quoted(s)]) == Quote(s) + TextOf([]);
    assert TokenBetrays([Quoted(s)][0]) == SecretLike(Escape(s));
  }

  lemma {:induction false} TokenisesBoth(a: seq<Token>, t: Text, x: bool, b: seq<Token>, u: Text, y: bool)
    requires Tokenises(a, t, x) && Tokenises(b, u, y)
    ensures Tokenises(a + b, t + u, x || y)
  {
    hide TokensBetray, TextOf;
    TextConcat(a, b);
    BetrayConcat(a, b);
  }

  /** Text in brackets or braces. */
  lemma {:induction false} TokenisesWithin(open: CodeUnit, tokens: seq<Token>, t: Text, x: bool, close: CodeUnit)
    requires Tokenises(tokens, t, x) && IsOuter(open) && IsOuter(close)
    ensures Tokenises([Plain([open])] + tokens + [Plain([close])], [open] + t + [close], x)
  {
    hide Tokenises, IsOuter;
    TokenisesPlain([open]);
    TokenisesPlain([close]);
    TokenisesBoth([Plain([open])], [open], false, tokens, t, x);
    TokenisesBoth([Plain([open])] + tokens, [open] + t, x, [Plain([close])], [close], false);
  }

  lemma {:induction false} NumberIsOuter(n: nat)
    ensures AllOuter(Digits(n))
  {
    if n >= 10 { NumberIsOuter(n / 10); }
  }

  /** What `Join` puts before the other parts. */
  function Comma(parts: seq<Text>): Text { if parts == [] then [] else [COMMA] }

  lemma {:induction false} JoinFirst(first: Text, rest: seq<Text>)
    ensures Join([first] + rest) == first + Comma(rest) + Join(rest)
  {
    assert ([first] + rest)[1..] == rest;
  }

  lemma {:induction false} ScalarIsOuter(v: Json)
    requires v.Null? || v.Bool? || v.Number? || v.OtherNumber?
    ensures AllOuter(Stringify(v))
  {
    match v
    case Number(n) => NumberIsOuter(if n < 0 then -n else n);
    case _ =>
  }

  predicate ItemsBetray(items: seq<Json>) { exists i :: 0 <= i < |items| && Betrays(items[i]) }

  predicate EntryBetrays(e: Entry<Json>) { SecretLike(Escape(e.key)) || Betrays(e.value) }

  predicate MembersBetray(entries: seq<Entry<Json>>) { exists i :: 0 <= i < |entries| && EntryBetrays(entries[i]) }

  lemma {:induction false} ItemsBetrayFirst(items: seq<Json>)
    requires items != []
    ensures ItemsBetray(items) <==> Betrays(items[0]) || ItemsBetray(items[1..])
  {
    hide Betrays;
    forall i | 0 < i < |items| ensures items[1..][i - 1] == items[i] {}
  }

  lemma {:induction false} MembersBetrayFirst(entries: seq<Entry<Json>>)
    requires entries != []
    ensures MembersBetray(entries) <==> EntryBetrays(entries[0]) || MembersBetray(entries[1..])
  {
    hide EntryBetrays;
    forall i | 0 < i < |entries| ensures entries[1..][i - 1] == entries[i] {}
  }

  lemma {:induction false} Composite(v: Json)
    ensures v.Array? ==> (Betrays(v) <==> ItemsBetray(v.items))
    ensures v.Object? ==> (Betrays(v) <==> MembersBetray(v.entries))
  {
    hide SecretLike, Escape;
    if v.Object? {
      forall i | 0 <= i < |v.entries|
        ensures EntryBetrays(v.entries[i]) <==>
                SecretLike(Escape(v.entries[i].key)) || Betrays(v.entries[i].value)
      {
      }
    }
  }

  /** A part of a list, and what follows it. */
  lemma {:induction false} TokenisesJoin(a: seq<Token>, first: Text, x: bool, b: seq<Token>, rest: seq<Text>, y: bool)
      returns (tokens: seq<Token>)
    requires Tokenises(a, first, x) && Tokenises(b, Join(rest), y)
    ensures Tokenises(tokens, Join([first] + rest), x || y)
  {
    hide Tokenises, IsNumberUnit;
    JoinFirst(first, rest);
    TokenisesPlain(Comma(rest));
    TokenisesBoth(a, first, x, [Plain(Comma(rest))], Comma(rest), false);
    TokenisesBoth(a + [Plain(Comma(rest))], first + Comma(rest), x, b, Join(rest), y);
    tokens := a + [Plain(Comma(rest))] + b;
  }

  lemma {:induction false} TokenisesEmpty()
    ensures Tokenises([], Join([]), false)
  {
  }

  lemma {:induction false} TokeniseItems(items: seq<Json>) returns (tokens: seq<Token>)
    ensures Tokenises(tokens, Join(StringifyItems(items)), ItemsBetray(items))
    decreases items, 0
  {
    hide Tokenises, SecretLike, Escape, IsOuter, Betrays, Join;
    if items == [] {
      tokens := [];
      TokenisesEmpty();
    } else {
      var a := Tokenise(items[0]);
      var b := TokeniseItems(items[1..]);
      ItemsBetrayFirst(items);
      tokens := TokenisesJoin(a, Stringify(items[0]), Betrays(items[0]), b, StringifyItems(items[1..]),
                              ItemsBetray(items[1..]));
    }
  }

  lemma {:induction false} TokenisesMember(key: Text, a: seq<Token>, value: Text, x: bool)
      returns (tokens: seq<Token>)
    requires Tokenises(a, value, x)
    ensures Tokenises(tokens, Member(key, value), SecretLike(Escape(key)) || x)
  {
    hide Tokenises, SecretLike, Escape, IsNumberUnit;
    TokenisesQuoted(key);
    TokenisesPlain([COLON]);
    TokenisesBoth([Quoted(key)], Quote(key), SecretLike(Escape(key)), [Plain([COLON])], [COLON], false);
    TokenisesBoth([Quoted(key)] + [Plain([COLON])], Quote(key) + [COLON], SecretLike(Escape(key)), a, value, x);
    tokens := [Quoted(key)] + [Plain([COLON])] + a;
  }

  lemma {:induction false} TokeniseMembers(entries: seq<Entry<Json>>) returns (tokens: seq<Token>)
    ensures Tokenises(tokens, Join(StringifyMembers(entries)), MembersBetray(entries))
    decreases entries, 0
  {
    hide Tokenises, SecretLike, Escape, IsOuter, Betrays, Join, Member;
    if entries == [] {
      tokens := [];
      TokenisesEmpty();
    } else {
      var key, value := entries[0].key, entries[0].value;
      var a := Tokenise(value);
      a := TokenisesMember(key, a, Stringify(value), Betrays(value));
      var b := TokeniseMembers(entries[1..]);
      MembersBetrayFirst(entries);
      tokens := TokenisesJoin(a, Member(key, Stringify(value)), EntryBetrays(entries[0]), b,
                              StringifyMembers(entries[1..]), MembersBetray(entries[1..]));
    }
  }

  lemma {:induction false} Tokenise(v: Json) returns (tokens: seq<Token>)
    ensures Tokenises(tokens, Stringify(v), Betrays(v))
    decreases v, 1
  {
    hide Tokenises, SecretLike, Escape, IsNumberUnit, Betrays, AllOuter;
    Composite(v);
    match v
    case String(s) =>
      tokens := [Quoted(s)];
      TokenisesQuoted(s);
      StringBetrays(s);
    case Array(items) =>
      tokens := TokeniseItems(items);
      TokenisesWithin(0x5B, tokens, Join(StringifyItems(items)), Betrays(v), 0x5D);
      tokens := [Plain([0x5B])] + tokens + [Plain([0x5D])];
    case Object(entries) =>
      tokens := TokeniseMembers(entries);
      TokenisesWithin(0x7B, tokens, Join(StringifyMembers(entries)), Betrays(v), 0x7D);
      tokens := [Plain([0x7B])] + tokens + [Plain([0x7D])];
    case _ =>
      ScalarIsOuter(v);
      ScalarIsHarmless(v);
      tokens := [Plain(Stringify(v))];
      TokenisesPlain(Stringify(v));
  }

  lemma {:induction false} StringBetrays(s: Text)
    ensures Betrays(String(s)) <==> SecretLike(Escape(s))
  {
  }

  lemma {:induction false} ScalarIsHarmless(v: Json)
    requires v.Null? || v.Bool? || v.Number? || v.OtherNumber?
    ensures !Betrays(v)
  {
  }

  /** For every JSON value: its text, with or without a line break, is secret-like exactly when some key or
      string in it is, as it is escaped. */
  lemma {:induction false} JsonSecretExact(v: Json)
    ensures SecretLike(Stringify(v)) <==> Betrays(v)
    ensures SecretLike(Stringify(v) + [0x0A]) <==> Betrays(v)
  {
    hide SecretLike, Escape, Betrays, IsNumberUnit;
    var tokens := Tokenise(v);
    TextSecret(tokens);
    TokenisesPlain([0x0A]);
    TokenisesBoth(tokens, Stringify(v), Betrays(v), [Plain([0x0A])], [0x0A], false);
    TextSecret(tokens + [Plain([0x0A])]);
  }

  // ----- Escaping -----

  /** A unit that is written as it is. */
  predicate IsUnescaped(u: CodeUnit) { EscapeUnit(u) == [u] }

  lemma {:induction false} EscapeUnescaped(s: Text)
    requires forall k :: 0 <= k < |s| ==> IsUnescaped(s[k])
    ensures Escape(s) == s
  {
    if s != [] {
      assert IsUnescaped(s[0]);
      EscapeUnescaped(s[1..]);
    }
  }

  // ----- Texts written into JSON -----

  /** The string as JSON text holds it is secret-like. */
  predicate Betrayed(s: string) { SecretLike(Escape(Units(s))) }

  predicate IsWordChar(c: char) { 'a' <= c <= 'z' || 'A' <= c <= 'Z' || '0' <= c <= '9' || c == '_' }

  predicate IsWordText(s: string) { forall k :: 0 <= k < |s| ==> IsWordChar(s[k]) }

  predicate IsHyphenated(s: string) { forall k :: 0 <= k < |s| ==> IsWordChar(s[k]) || s[k] == '-' }

  /** Of another length than the keyword, or with other first two letters. */
  predicate Unlike(s: string, word: string) {
    || |s| != |word| || |s| < 2 || !IsWordText(s)
    || Fold(s[0] as int) != word[0] as int || Fold(s[1] as int) != word[1] as int
  }

  lemma {:induction false} NoSlashNoUrl(t: Text)
    requires SLASH !in t
    ensures !IsStoreUrl(t) && !IsWebUrl(t)
  {
    if IsStoreUrl(t) || IsWebUrl(t) { UrlUnits(t); }
  }

  lemma {:induction false} WholeWord(t: Text)
    requires forall k :: 0 <= k < |t| ==> IsWordUnit(t[k])
    ensures SecretLike(t) ==> IsKeyword(t)
  {
    hide IsKeyword, IsStoreUrl, IsWebUrl;
    if SecretLike(t) {
      var i, j :| 0 <= i <= j <= |t| && MatchesAt(t, i, j);
      NoSlashNoUrl(t[i..j]);
      assert t[0..|t|] == t;
    }
  }

  lemma {:induction false} HyphenatedText(s: string)
    requires IsHyphenated(s)
    ensures Escape(Units(s)) == Units(s) && SLASH !in Units(s)
    ensures |Units(s)| == |s| && forall k :: 0 <= k < |s| ==> Units(s)[k] == s[k] as int
  {
    UnitsOfAscii(s);
    forall k | 0 <= k < |s| ensures IsUnescaped(Units(s)[k]) && Units(s)[k] != SLASH {
      assert IsWordChar(s[k]) || s[k] == '-';
    }
    EscapeUnescaped(Units(s));
  }

  /** A string without units that JSON escapes is betrayed exactly when it is itself secret-like. */
  lemma {:induction false} BetrayedUnescaped(s: string)
    requires forall k :: 0 <= k < |Units(s)| ==> IsUnescaped(Units(s)[k])
    ensures Betrayed(s) <==> SecretLike(Units(s))
  {
    hide SecretLike;
    EscapeUnescaped(Units(s));
  }

  /** An escape can complete a keyword: after a TAB, which is written as a backslash and a t. */
  lemma {:induction false} EscapeBetrays()
    ensures !SecretLike(Units("\token")) && Betrayed("\token")
  {
    hide SecretLike, MatchesAt;
    var t := Units("\token");
    UnitsOfAscii("\token");
    TooShort(t);
    EscapeUnescaped(t[1..]);
    TokenAfterBackslash(Escape(t));
  }

  lemma {:induction false} TokenAfterBackslash(t: Text)
    requires |t| == 6 && t[0] == BACKSLASH && Spells(t[1..6], "token")
    ensures SecretLike(t)
  {
    hide Spells;
    assert IsKeyword(t[1..6]);
    assert MatchesAt(t, 1, 6);
  }

  /** Nothing but the one keyword of five letters is as short as that. */
  lemma {:induction false} TooShort(t: Text)
    requires |t| == 5 && Fold(t[0]) != 't' as int
    ensures !SecretLike(t)
  {
    forall i, j | 0 <= i <= j <= |t| ensures !MatchesAt(t, i, j) {
      NoShorterKeyword(t[i..j]);
      if j - i == 5 { assert t[i..j] == t; }
    }
  }

  lemma {:induction false} NoShorterKeyword(t: Text)
    requires |t| <= 5
    ensures IsKeyword(t) ==> |t| == 5 && Fold(t[0]) == 't' as int
    ensures !IsStoreUrl(t) && !IsWebUrl(t)
  {
  }

  lemma {:induction false} WordHarmless(s: string)
    requires IsWordText(s) && forall word :: word in KEYWORDS ==> Unlike(s, word)
    ensures !Betrayed(s)
  {
    hide SecretLike, Escape, IsKeyword;
    HyphenatedText(s);
    var t := Units(s);
    forall k | 0 <= k < |t| ensures IsWordUnit(t[k]) { assert IsWordChar(s[k]); }
    WholeWord(t);
    NotKeyword(s);
  }

  lemma {:induction false} NotKeyword(s: string)
    requires IsWordText(s) && forall word :: word in KEYWORDS ==> Unlike(s, word)
    ensures !IsKeyword(Units(s))
  {
    HyphenatedText(s);
    forall word | word in KEYWORDS ensures !Spells(Units(s), word) { UnlikeSpells(s, word); }
  }

  lemma {:induction false} UnlikeSpells(s: string, word: string)
    requires IsWordText(s) && word in KEYWORDS && Unlike(s, word)
    ensures !Spells(Units(s), word)
  {
    HyphenatedText(s);
  }

  lemma {:induction false} HyphenHarmless(a: string, b: string)
    requires IsHyphenated(a) && IsHyphenated(b)
    ensures IsHyphenated(a + "-" + b)
    ensures Betrayed(a + "-" + b) <==> Betrayed(a) || Betrayed(b)
  {
    hide SecretLike, Escape;
    HyphenatedText(a);
    HyphenatedText(b);
    HyphenatedText(a + "-" + b);
    UnitsConcat(a + "-", b);
    UnitsConcat(a, "-");
    assert Units("-") == [HYPHEN];
    SecretInParts(Units(a), HYPHEN, Units(b));
  }
}
