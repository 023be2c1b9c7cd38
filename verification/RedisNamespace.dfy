/** The Redis keys a harness run owns: glob patterns against plain prefixes, and the disjointness of
    the namespaces of different runs. */
module RedisNamespace {
  import opened Options
  import opened Texts

  // ----- Redis glob matching -----

  /** Reads a character class after its opening bracket: whether `c` is in it, and the pattern after it. */
  function ReadClass(p: string, c: char): (r: (bool, string))
    ensures |r.1| <= |p|
  {
    if p == "" then (false, "")
    else if p[0] == ']' then (false, p[1..])
    else if p[0] == '\\' && |p| >= 2 then
      var (found, rest) := ReadClass(p[2..], c);
      (found || p[1] == c, rest)
    else if |p| >= 3 && p[1] == '-' then
      var (found, rest) := ReadClass(p[3..], c);
      (found || p[0] <= c <= p[2] || p[2] <= c <= p[0], rest)
    else
      var (found, rest) := ReadClass(p[1..], c);
      (found || p[0] == c, rest)
  }

  predicate Glob(p: string, s: string)
    decreases |p| + |s|
  {
    if p == "" then s == ""
    else if p[0] == '*' then Glob(p[1..], s) || (s != "" && Glob(p, s[1..]))
    else if s == "" then false
    else if p[0] == '?' then Glob(p[1..], s[1..])
    else if p[0] == '[' then
      var negated := |p| > 1 && p[1] == '^';
      var (found, rest) := ReadClass(if negated then p[2..] else p[1..], s[0]);
      found != negated && Glob(rest, s[1..])
    else if p[0] == '\\' && |p| >= 2 then p[1] == s[0] && Glob(p[2..], s[1..])
    else p[0] == s[0] && Glob(p[1..], s[1..])
  }

  predicate IsPlain(c: char) { c != '*' && c != '?' && c != '[' && c != '\\' }

  ghost predicate AllPlain(s: string) { forall i :: 0 <= i < |s| ==> IsPlain(s[i]) }

  lemma {:induction false} StarMatchesAll(s: string)
    ensures Glob("*", s)
  {
    assert "*"[1..] == "";
    if s != "" { StarMatchesAll(s[1..]); }
  }

  /** A plain text followed by a star matches exactly the keys that start with the text. */
  lemma {:induction false} GlobIsPrefix(text: string, key: string)
    requires AllPlain(text)
    ensures Glob(text + "*", key) <==> text <= key
  {
    if text == "" {
      assert text + "*" == "*";
      StarMatchesAll(key);
    } else if key != "" {
      assert (text + "*")[1..] == text[1..] + "*";
      assert AllPlain(text[1..]);
      GlobIsPrefix(text[1..], key[1..]);
      PrefixTail(text, key);
    }
  }

  lemma {:induction false} PrefixTail(text: string, key: string)
    requires text != "" && key != ""
    ensures text <= key <==> text[0] == key[0] && text[1..] <= key[1..]
  {
    if text[0] == key[0] && text[1..] <= key[1..] {
      assert text == [text[0]] + text[1..];
      assert forall i :: 0 <= i < |text| ==> text[i] == key[i] by {
        forall i | 0 <= i < |text| ensures text[i] == key[i] {
          if i > 0 { assert text[1..][i - 1] == key[1..][i - 1]; }
        }
      }
    }
    if text <= key {
      assert forall i :: 0 <= i < |text[1..]| ==> text[1..][i] == key[1..][i];
    }
  }

  // ----- Ownership of a C5 run -----

  const QUEUE := "matchday-foundation"
  const PREFIX_HEAD := "matchday-c5-"
  const NAMESPACE_HEAD := "matchday:test:gate-c-c5:"

  predicate IsIdChar(c: char) { 'a' <= c <= 'z' || '0' <= c <= '9' || c == '-' }

  predicate IsId(s: string) { forall i :: 0 <= i < |s| ==> IsIdChar(s[i]) }

  /** `/^matchday-c5-[a-z0-9-]{3,56}$/` */
  predicate IsQueuePrefix(s: string) {
    PREFIX_HEAD <= s && 3 <= |s| - |PREFIX_HEAD| <= 56 && IsId(s[|PREFIX_HEAD|..])
  }

  /** `/^matchday:test:gate-c-c5:[a-z0-9-]{3,64}:$/` */
  predicate IsNamespace(s: string) {
    && NAMESPACE_HEAD <= s && 3 <= |s| - |NAMESPACE_HEAD| - 1 <= 64 && s[|s| - 1] == ':'
    && IsId(s[|NAMESPACE_HEAD|..|s| - 1])
  }

  datatype Ownership = Ownership(queuePrefix: string, rateLimitNamespace: string)

  function CreateOwnership(queuePrefix: string, queueName: string, rateLimitNamespace: string): Option<Ownership> {
    if !IsQueuePrefix(queuePrefix) || queueName != QUEUE || !IsNamespace(rateLimitNamespace) then None
    else Some(Ownership(queuePrefix, rateLimitNamespace))
  }

  ghost predicate Accepted(o: Ownership) { CreateOwnership(o.queuePrefix, QUEUE, o.rateLimitNamespace) == Some(o) }

  /** Lower-case letters, digits and hyphens, so many of them. */
  predicate IsName(s: string, least: nat, most: nat) {
    least <= |s| <= most && forall i :: 0 <= i < |s| ==> 'a' <= s[i] <= 'z' || '0' <= s[i] <= '9' || s[i] == '-'
  }

  ghost predicate IsCanonical(queuePrefix: string, queueName: string, rateLimitNamespace: string) {
    && queueName == "matchday-foundation"
    && (exists name :: IsName(name, 3, 56) && queuePrefix == "matchday-c5-" + name)
    && (exists name :: IsName(name, 3, 64) && rateLimitNamespace == "matchday:test:gate-c-c5:" + name + ":")
  }

  /** An ownership is made of exactly the canonical names, and of no others. */
  lemma {:induction false} CreatedExactly(queuePrefix: string, queueName: string, rateLimitNamespace: string)
    ensures CreateOwnership(queuePrefix, queueName, rateLimitNamespace)
            == if IsCanonical(queuePrefix, queueName, rateLimitNamespace) then
                 Some(Ownership(queuePrefix, rateLimitNamespace))
               else None
  {
    QueuePrefixShape(queuePrefix);
    NamespaceNames(rateLimitNamespace);
  }

  lemma {:induction false} QueuePrefixShape(s: string)
    ensures IsQueuePrefix(s) <==> exists name :: IsName(name, 3, 56) && s == "matchday-c5-" + name
  {
    if IsQueuePrefix(s) {
      var name := s[12..];
      assert s == "matchday-c5-" + name && IsName(name, 3, 56);
    }
    forall name | IsName(name, 3, 56) && s == "matchday-c5-" + name ensures IsQueuePrefix(s) {
      assert s[12..] == name;
    }
  }

  lemma {:induction false} NamespaceNames(s: string)
    ensures IsNamespace(s) <==> exists name :: IsName(name, 3, 64) && s == "matchday:test:gate-c-c5:" + name + ":"
  {
    if IsNamespace(s) {
      var name := s[24..|s| - 1];
      assert s == "matchday:test:gate-c-c5:" + name + ":" && IsName(name, 3, 64);
    }
    forall name | IsName(name, 3, 64) && s == "matchday:test:gate-c-c5:" + name + ":" ensures IsNamespace(s) {
      assert s[24..|s| - 1] == name;
    }
  }

  /** The four owned key prefixes, without the star that ends each pattern. */
  function Prefixes(o: Ownership): (r: seq<string>)
    ensures |r| == 4
  {
    [o.queuePrefix + ":" + QUEUE + ":",
     o.queuePrefix + ":" + QUEUE + ".dead-letter:",
     "matchday:job-cancellation:" + o.queuePrefix + ":" + QUEUE + ":",
     o.rateLimitNamespace]
  }

  /** Each prefix as the glob of everything that starts with it. */
  function Starred(prefixes: seq<string>): (r: seq<string>)
    ensures |r| == |prefixes| && forall i :: 0 <= i < |r| ==> r[i] == prefixes[i] + "*"
  {
    seq(|prefixes|, i requires 0 <= i < |prefixes| => prefixes[i] + "*")
  }

  function Patterns(o: Ownership): seq<string> { Starred(Prefixes(o)) }

  /** The near-prefix key that cleanup must leave alone until the end. */
  function GuardKey(o: Ownership): string { o.queuePrefix + ":" + QUEUE + "-foreign:ttl-sentinel" }

  ghost predicate Owned(prefixes: seq<string>, key: string) {
    exists i :: 0 <= i < |prefixes| && prefixes[i] <= key
  }

  ghost predicate MatchesSome(patterns: seq<string>, key: string) {
    exists i :: 0 <= i < |patterns| && Glob(patterns[i], key)
  }

  // ----- Patterns are prefixes -----

  lemma {:induction false} PlainConcat(s: string, t: string)
    requires AllPlain(s) && AllPlain(t)
    ensures AllPlain(s + t)
  {
  }

  lemma {:induction false} HeadAndId(s: string, head: string)
    requires head <= s && AllPlain(head) && IsId(s[|head|..])
    ensures AllPlain(s)
  {
    forall i | 0 <= i < |s| ensures IsPlain(s[i]) {
      if i < |head| { assert s[i] == head[i]; } else { assert s[i] == s[|head|..][i - |head|]; }
    }
  }

  lemma {:induction false} QueuePrefixParts(p: string)
    requires IsQueuePrefix(p)
    ensures AllPlain(p) && ':' !in p && |p| >= 15
  {
    HeadAndId(p, PREFIX_HEAD);
    forall i | 0 <= i < |p| ensures p[i] != ':' {
      if i < |PREFIX_HEAD| {
        assert p[i] == PREFIX_HEAD[i];
      } else {
        assert p[i] == p[|PREFIX_HEAD|..][i - |PREFIX_HEAD|];
      }
    }
  }

  lemma {:induction false} NamespaceParts(n: string)
    requires IsNamespace(n)
    ensures AllPlain(n)
  {
    var n0 := n[..|n| - 1];
    assert n0[|NAMESPACE_HEAD|..] == n[|NAMESPACE_HEAD|..|n| - 1];
    assert NAMESPACE_HEAD <= n0;
    HeadAndId(n0, NAMESPACE_HEAD);
    assert n == n0 + ":";
    PlainConcat(n0, ":");
  }

  lemma {:induction false} AcceptedParts(o: Ownership)
    requires Accepted(o)
    ensures AllPlain(o.queuePrefix) && AllPlain(o.rateLimitNamespace)
    ensures ':' !in o.queuePrefix && |o.queuePrefix| >= 15
  {
    hide IsQueuePrefix, IsNamespace;
    QueuePrefixParts(o.queuePrefix);
    NamespaceParts(o.rateLimitNamespace);
  }

  lemma {:induction false} PrefixesPlain(o: Ownership)
    requires Accepted(o)
    ensures forall i :: 0 <= i < 4 ==> AllPlain(Prefixes(o)[i])
  {
    AcceptedParts(o);
    var p := o.queuePrefix;
    var stem := p + ":" + QUEUE;
    PlainConcat(p, ":");
    PlainConcat(p + ":", QUEUE);
    PlainConcat(stem, ":");
    PlainConcat(stem, ".dead-letter:");
    var head := "matchday:job-cancellation:";
    PlainConcat(head, p);
    PlainConcat(head + p, ":");
    PlainConcat(head + p + ":", QUEUE);
    PlainConcat(head + p + ":" + QUEUE, ":");
  }

  lemma {:induction false} StarredArePrefixes(prefixes: seq<string>, key: string)
    requires forall i :: 0 <= i < |prefixes| ==> AllPlain(prefixes[i])
    ensures MatchesSome(Starred(prefixes), key) <==> Owned(prefixes, key)
  {
    var patterns := Starred(prefixes);
    forall i | 0 <= i < |prefixes| ensures Glob(patterns[i], key) <==> prefixes[i] <= key {
      GlobIsPrefix(prefixes[i], key);
    }
    if MatchesSome(patterns, key) {
      var i :| 0 <= i < |patterns| && Glob(patterns[i], key);
      assert prefixes[i] <= key;
    }
    if Owned(prefixes, key) {
      var i :| 0 <= i < |prefixes| && prefixes[i] <= key;
      assert Glob(patterns[i], key);
    }
  }

  /** Matching the scan patterns with Redis globs is prefix ownership. */
  lemma {:induction false} PatternsArePrefixes(o: Ownership, key: string)
    requires Accepted(o)
    ensures MatchesSome(Patterns(o), key) <==> Owned(Prefixes(o), key)
  {
    PrefixesPlain(o);
    StarredArePrefixes(Prefixes(o), key);
  }

  /** The keys a run owns: of its queue, of that queue's dead letters, of cancellations of the queue's
      jobs, and of its rate-limit namespace. */
  lemma {:induction false} OwnedExactly(o: Ownership, key: string)
    ensures Owned(Prefixes(o), key) <==>
            || o.queuePrefix + ":matchday-foundation:" <= key
            || o.queuePrefix + ":matchday-foundation.dead-letter:" <= key
            || "matchday:job-cancellation:" + o.queuePrefix + ":matchday-foundation:" <= key
            || o.rateLimitNamespace <= key
  {
    var prefixes := Prefixes(o);
    assert prefixes[0] == o.queuePrefix + ":matchday-foundation:";
    assert prefixes[1] == o.queuePrefix + ":matchday-foundation.dead-letter:";
    assert prefixes[2] == "matchday:job-cancellation:" + o.queuePrefix + ":matchday-foundation:";
    assert prefixes[3] == o.rateLimitNamespace;
  }

  // ----- Fields of a key -----

  /** A key that starts with `field:` has that first field. */
  lemma {:induction false} FirstField(field: string, rest: string, key: string)
    requires ':' !in field && field + ":" + rest <= key
    ensures var fields := Split(key, ':');
            |fields| >= 2 && fields[0] == field
            && rest <= key[|field| + 1..] && fields[1..] == Split(key[|field| + 1..], ':')
  {
    var tail := key[|field| + 1..];
    assert key == field + [':'] + tail by {
      assert (field + ":" + rest)[..|field| + 1] == field + ":";
      assert key[..|field| + 1] == (field + ":" + rest)[..|field| + 1];
    }
    SplitAt(field, ':', tail);
    assert rest <= tail by {
      forall i | 0 <= i < |rest| ensures rest[i] == tail[i] {
        assert (field + ":" + rest)[|field| + 1 + i] == key[|field| + 1 + i];
      }
    }
  }

  /** What the fields of an owned key say about the ownership, by the kind of prefix. */
  ghost predicate FieldsOf(o: Ownership, fields: seq<string>, i: nat) {
    match i
    case 0 => |fields| >= 1 && fields[0] == o.queuePrefix
    case 1 => |fields| >= 1 && fields[0] == o.queuePrefix
    case 2 => |fields| >= 3 && fields[0] == "matchday" && fields[1] == "job-cancellation" && fields[2] == o.queuePrefix
    case _ =>
      && |fields| >= 4 && fields[0] == "matchday" && fields[1] == "test"
      && o.rateLimitNamespace == NAMESPACE_HEAD + fields[3] + ":"
  }

  lemma {:induction false} QueueKeyFields(o: Ownership, key: string, suffix: string)
    requires Accepted(o) && o.queuePrefix + ":" + suffix <= key
    ensures Split(key, ':')[0] == o.queuePrefix
  {
    AcceptedParts(o);
    FirstField(o.queuePrefix, suffix, key);
  }

  /** The first two fields of a key, and the rest after them. */
  lemma {:induction false} TwoFields(a: string, b: string, rest: string, key: string) returns (tail: string)
    requires ':' !in a && ':' !in b && a + ":" + (b + ":" + rest) <= key
    ensures var fields := Split(key, ':');
            |fields| >= 3 && fields[0] == a && fields[1] == b && rest <= tail && fields[2..] == Split(tail, ':')
  {
    FirstField(a, b + ":" + rest, key);
    FirstField(b, rest, key[|a| + 1..]);
    tail := key[|a| + 1..][|b| + 1..];
    var fields := Split(key, ':');
    assert fields[1..][1..] == fields[2..] && fields[1..][0] == fields[1];
  }

  lemma {:induction false} ThreeFields(a: string, b: string, c: string, rest: string, key: string)
    requires ':' !in a && ':' !in b && ':' !in c && a + ":" + (b + ":" + (c + ":" + rest)) <= key
    ensures var fields := Split(key, ':'); |fields| >= 3 && fields[0] == a && fields[1] == b && fields[2] == c
  {
    hide Split;
    var tail := TwoFields(a, b, c + ":" + rest, key);
    FirstField(c, rest, tail);
    var fields := Split(key, ':');
    assert fields[2] == fields[2..][0];
  }

  lemma {:induction false} CancellationShape(p: string)
    ensures "matchday:job-cancellation:" + p + ":" + QUEUE + ":"
            == "matchday" + ":" + ("job-cancellation" + ":" + (p + ":" + (QUEUE + ":")))
  {
    assert "matchday:job-cancellation:" == "matchday" + ":" + "job-cancellation" + ":";
  }

  lemma {:induction false} CancellationKeyFields(o: Ownership, key: string)
    requires Accepted(o) && Prefixes(o)[2] <= key
    ensures FieldsOf(o, Split(key, ':'), 2)
  {
    hide Accepted, Split;
    AcceptedParts(o);
    CancellationShape(o.queuePrefix);
    ThreeFields("matchday", "job-cancellation", o.queuePrefix, QUEUE + ":", key);
  }

  lemma {:induction false} NamespaceKeyFields(o: Ownership, key: string)
    requires Accepted(o) && Prefixes(o)[3] <= key
    ensures FieldsOf(o, Split(key, ':'), 3)
  {
    var n := o.rateLimitNamespace;
    var id := n[|NAMESPACE_HEAD|..|n| - 1];
    assert ':' !in id;
    NamespaceShape(n, id);
    var tail := TwoFields("matchday", "test", "gate-c-c5" + ":" + (id + ":" + ""), key);
    var end := TwoFields("gate-c-c5", id, "", tail);
    var fields := Split(key, ':');
    assert fields[3] == fields[2..][1];
  }

  lemma {:induction false} NamespaceShape(n: string, id: string)
    requires IsNamespace(n) && id == n[|NAMESPACE_HEAD|..|n| - 1]
    ensures n == NAMESPACE_HEAD + id + ":"
    ensures n == "matchday" + ":" + ("test" + ":" + ("gate-c-c5" + ":" + (id + ":" + "")))
  {
    assert NAMESPACE_HEAD == "matchday" + ":" + "test" + ":" + "gate-c-c5" + ":";
  }

  lemma {:induction false} OwnedKeyFields(o: Ownership, key: string, i: nat)
    requires Accepted(o) && i < 4 && Prefixes(o)[i] <= key
    ensures FieldsOf(o, Split(key, ':'), i)
  {
    if i == 0 {
      assert Prefixes(o)[0] == o.queuePrefix + ":" + (QUEUE + ":");
      QueueKeyFields(o, key, QUEUE + ":");
    } else if i == 1 {
      assert Prefixes(o)[1] == o.queuePrefix + ":" + (QUEUE + ".dead-letter:");
      QueueKeyFields(o, key, QUEUE + ".dead-letter:");
    } else if i == 2 {
      CancellationKeyFields(o, key);
    } else {
      NamespaceKeyFields(o, key);
    }
  }

  /** A key owned by two ownerships makes them agree in their prefix or in their namespace. */
  lemma {:induction false} SharedKeyAgrees(o1: Ownership, o2: Ownership, key: string)
    requires Accepted(o1) && Accepted(o2) && Owned(Prefixes(o1), key) && Owned(Prefixes(o2), key)
    ensures o1.queuePrefix == o2.queuePrefix || o1.rateLimitNamespace == o2.rateLimitNamespace
  {
    var i :| 0 <= i < 4 && Prefixes(o1)[i] <= key;
    var j :| 0 <= j < 4 && Prefixes(o2)[j] <= key;
    OwnedKeyFields(o1, key, i);
    OwnedKeyFields(o2, key, j);
    FieldsAgree(o1, o2, Split(key, ':'), i, j);
  }

  lemma {:induction false} FieldsAgree(o1: Ownership, o2: Ownership, fields: seq<string>, i: nat, j: nat)
    requires Accepted(o1) && Accepted(o2) && i < 4 && j < 4 && FieldsOf(o1, fields, i) && FieldsOf(o2, fields, j)
    ensures o1.queuePrefix == o2.queuePrefix || o1.rateLimitNamespace == o2.rateLimitNamespace
  {
    AcceptedParts(o1);
    AcceptedParts(o2);
    assert |"matchday"| == 8 && |"job-cancellation"| == 16 && |"test"| == 4;
  }

  /** The ownership of a run, from its run identifier. */
  function RunOwnership(runId: string): Ownership { Ownership(PREFIX_HEAD + runId, NAMESPACE_HEAD + runId + ":") }

  /** Every identifier of 3 to 56 lower-case letters, digits and hyphens, a UUID among them, is accepted. */
  lemma {:induction false} RunIsAccepted(run: string)
    requires IsId(run) && 3 <= |run| <= 56
    ensures Accepted(RunOwnership(run))
  {
    var p, n := PREFIX_HEAD + run, NAMESPACE_HEAD + run + ":";
    assert p[|PREFIX_HEAD|..] == run;
    assert n[|NAMESPACE_HEAD|..|n| - 1] == run;
  }

  lemma {:induction false} RunsDiffer(run1: string, run2: string)
    requires run1 != run2
    ensures RunOwnership(run1).queuePrefix != RunOwnership(run2).queuePrefix
    ensures RunOwnership(run1).rateLimitNamespace != RunOwnership(run2).rateLimitNamespace
  {
    assert (PREFIX_HEAD + run1)[|PREFIX_HEAD|..] == run1 && (PREFIX_HEAD + run2)[|PREFIX_HEAD|..] == run2;
    var n1, n2 := NAMESPACE_HEAD + run1 + ":", NAMESPACE_HEAD + run2 + ":";
    assert n1[|NAMESPACE_HEAD|..|n1| - 1] == run1 && n2[|NAMESPACE_HEAD|..|n2| - 1] == run2;
  }

  /** Runs with different identifiers own no key in common. */
  lemma {:induction false} RunsAreDisjoint(run1: string, run2: string, key: string)
    requires Accepted(RunOwnership(run1)) && Accepted(RunOwnership(run2)) && run1 != run2
    ensures !(Owned(Prefixes(RunOwnership(run1)), key) && Owned(Prefixes(RunOwnership(run2)), key))
  {
    RunsDiffer(run1, run2);
    if Owned(Prefixes(RunOwnership(run1)), key) && Owned(Prefixes(RunOwnership(run2)), key) {
      SharedKeyAgrees(RunOwnership(run1), RunOwnership(run2), key);
      assert false;
    }
  }

  // ----- The guard key -----

  lemma {:induction false} DifferAt(stem: string, x: string, y: string)
    requires x != "" && y != "" && x[0] != y[0]
    ensures !(stem + x <= stem + y)
  {
    assert (stem + x)[|stem|] == x[0] && (stem + y)[|stem|] == y[0];
  }

  /** No accepted ownership owns the guard key, neither its own nor that of another ownership. */
  lemma {:induction false} GuardNeverOwned(o: Ownership, other: Ownership)
    requires Accepted(o) && Accepted(other)
    ensures !Owned(Prefixes(other), GuardKey(o))
  {
    var guard := "-foreign:ttl-sentinel";
    AcceptedParts(o);
    AcceptedParts(other);
    assert GuardKey(o) == o.queuePrefix + ":" + (QUEUE + guard);
    QueueKeyFields(o, GuardKey(o), QUEUE + guard);
    assert |"matchday"| == 8;
    forall i | 0 <= i < 4 ensures !(Prefixes(other)[i] <= GuardKey(o)) {
      if Prefixes(other)[i] <= GuardKey(o) {
        OwnedKeyFields(other, GuardKey(o), i);
        if i < 2 { GuardStem(o, i); }
        assert false;
      }
    }
  }

  lemma {:induction false} GuardStem(o: Ownership, i: nat)
    requires i < 2
    ensures !(Prefixes(o)[i] <= GuardKey(o))
  {
    var stem := o.queuePrefix + ":" + QUEUE;
    DifferAt(stem, ":", "-foreign:ttl-sentinel");
    DifferAt(stem, ".dead-letter:", "-foreign:ttl-sentinel");
  }

  lemma {:induction false} GuardIsNotOwned(o: Ownership)
    requires Accepted(o)
    ensures !Owned(Prefixes(o), GuardKey(o))
  {
    GuardNeverOwned(o, o);
  }
}
