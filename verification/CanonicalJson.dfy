/** The key-sorted serialisation under every evidence hash, and the self-hashed receipts built on it. */
module CanonicalJson {
  import opened CodeUnits
  import opened Json

  // ----- Sorting object entries by key -----

  /** `a <= b` in the code-unit order of Array.prototype.sort. */
  predicate AtMost(a: Text, b: Text) {
    if a == [] then true
    else if b == [] then false
    else a[0] < b[0] || (a[0] == b[0] && AtMost(a[1..], b[1..]))
  }

  function Insert<V>(e: Entry<V>, sorted: seq<Entry<V>>): seq<Entry<V>> {
    if sorted == [] then [e]
    else if AtMost(e.key, sorted[0].key) then [e] + sorted
    else [sorted[0]] + Insert(e, sorted[1..])
  }

  function SortByKey<V>(entries: seq<Entry<V>>): seq<Entry<V>> {
    if entries == [] then [] else Insert(entries[0], SortByKey(entries[1..]))
  }

  ghost predicate StrictlySorted<V>(s: seq<Entry<V>>) {
    forall i, j :: 0 <= i < j < |s| ==> AtMost(s[i].key, s[j].key) && s[i].key != s[j].key
  }

  // ----- canonicalJson -----

  function CanonicalJson(v: Json): Text
    decreases v, 1
  {
    match v
    case Array(items) => [0x5B] + Join(CanonicalItems(items)) + [0x5D]
    case Object(entries) => [0x7B] + Join(MemberTexts(SortByKey(CanonicalMembers(entries)))) + [0x7D]
    case _ => Stringify(v)
  }

  function CanonicalItems(items: seq<Json>): seq<Text>
    decreases items, 0
  {
    if items == [] then [] else [CanonicalJson(items[0])] + CanonicalItems(items[1..])
  }

  /** Each key with the canonical text of its value, still in insertion order. */
  function CanonicalMembers(entries: seq<Entry<Json>>): seq<Entry<Text>>
    decreases entries, 0
  {
    if entries == [] then []
    else [Entry(entries[0].key, CanonicalJson(entries[0].value))] + CanonicalMembers(entries[1..])
  }

  function MemberTexts(members: seq<Entry<Text>>): seq<Text> {
    if members == [] then [] else [Member(members[0].key, members[0].value)] + MemberTexts(members[1..])
  }

  // ----- What the text stands for -----

  /** Equal as JSON values: arrays item by item, objects by their keys and the value at each key. */
  ghost predicate SameValue(v: Json, w: Json)
    decreases v
  {
    match v
    case Array(items) =>
      w.Array? && |items| == |w.items| && forall i :: 0 <= i < |items| ==> SameValue(items[i], w.items[i])
    case Object(entries) =>
      && w.Object?
      && KeySet(entries) == KeySet(w.entries)
      && forall i, j :: 0 <= i < |entries| && 0 <= j < |w.entries| && entries[i].key == w.entries[j].key ==>
           SameValue(entries[i].value, w.entries[j].value)
    case _ => v == w
  }

  ghost function KeySet<V>(entries: seq<Entry<V>>): set<Text> {
    set i | 0 <= i < |entries| :: entries[i].key
  }

  /** `a` ends inside `b`, or has the smaller unit where the two first differ. */
  ghost predicate Before(a: Text, b: Text) { exists n :: DiffersAt(a, b, n) }

  ghost predicate DiffersAt(a: Text, b: Text, n: nat) {
    n <= |a| && n < |b| && a[..n] == b[..n] && (n == |a| || a[n] < b[n])
  }

  ghost predicate Ascending<V>(entries: seq<Entry<V>>) {
    forall i, j :: 0 <= i < j < |entries| ==> Before(entries[i].key, entries[j].key)
  }

  /** The keys of every object, at any depth, are in ascending order. */
  ghost predicate KeysAscend(v: Json) {
    match v
    case Array(items) => forall i :: 0 <= i < |items| ==> KeysAscend(items[i])
    case Object(entries) => Ascending(entries) && forall i :: 0 <= i < |entries| ==> KeysAscend(entries[i].value)
    case _ => true
  }

  /** The same value with the keys of every object in sorted order. */
  function SortKeys(v: Json): Json
    decreases v, 1
  {
    match v
    case Array(items) => Array(SortItems(items))
    case Object(entries) => Object(SortByKey(SortMembers(entries)))
    case _ => v
  }

  function SortItems(items: seq<Json>): (r: seq<Json>)
    ensures |r| == |items| && forall i :: 0 <= i < |items| ==> r[i] == SortKeys(items[i])
    decreases items, 0
  {
    if items == [] then [] else [SortKeys(items[0])] + SortItems(items[1..])
  }

  function SortMembers(entries: seq<Entry<Json>>): (r: seq<Entry<Json>>)
    ensures |r| == |entries|
    ensures forall i :: 0 <= i < |entries| ==> r[i] == Entry(entries[i].key, SortKeys(entries[i].value))
    decreases entries, 0
  {
    if entries == [] then [] else [Entry(entries[0].key, SortKeys(entries[0].value))] + SortMembers(entries[1..])
  }

  // ----- The order and the sort -----

  lemma {:induction false} AtMostTotal(a: Text, b: Text)
    ensures AtMost(a, b) || AtMost(b, a)
    ensures AtMost(a, b) && AtMost(b, a) ==> a == b
  {
    if a != [] && b != [] && a[0] == b[0] {
      AtMostTotal(a[1..], b[1..]);
      assert a == [a[0]] + a[1..] && b == [b[0]] + b[1..];
    }
  }

  lemma {:induction false} AtMostTransitive(a: Text, b: Text, c: Text)
    requires AtMost(a, b) && AtMost(b, c)
    ensures AtMost(a, c)
  {
    if a != [] && a[0] == b[0] == c[0] { AtMostTransitive(a[1..], b[1..], c[1..]); }
  }

  lemma {:induction false} InsertElement<V>(e: Entry<V>, s: seq<Entry<V>>, x: Entry<V>)
    ensures x in Insert(e, s) <==> x == e || x in s
  {
    if s != [] && !AtMost(e.key, s[0].key) {
      InsertElement(e, s[1..], x);
      assert s == [s[0]] + s[1..];
    }
  }

  lemma {:induction false} InsertStrict<V>(e: Entry<V>, s: seq<Entry<V>>)
    requires StrictlySorted(s) && forall i :: 0 <= i < |s| ==> s[i].key != e.key
    ensures StrictlySorted(Insert(e, s))
  {
    if s == [] {
    } else if AtMost(e.key, s[0].key) {
      forall i | 0 <= i < |s| ensures AtMost(e.key, s[i].key) {
        if i > 0 { AtMostTransitive(e.key, s[0].key, s[i].key); }
      }
    } else {
      AtMostTotal(e.key, s[0].key);
      InsertStrict(e, s[1..]);
      var t := Insert(e, s[1..]);
      forall i | 0 <= i < |t| ensures AtMost(s[0].key, t[i].key) && s[0].key != t[i].key {
        InsertElement(e, s[1..], t[i]);
        if t[i] != e { var k :| 0 <= k < |s[1..]| && s[1..][k] == t[i]; assert s[k + 1] == t[i]; }
      }
    }
  }

  lemma {:induction false} SortElement<V>(entries: seq<Entry<V>>, x: Entry<V>)
    ensures x in SortByKey(entries) <==> x in entries
  {
    if entries != [] {
      SortElement(entries[1..], x);
      InsertElement(entries[0], SortByKey(entries[1..]), x);
      assert entries == [entries[0]] + entries[1..];
    }
  }

  lemma {:induction false} SortStrict<V>(entries: seq<Entry<V>>)
    requires DistinctKeys(entries)
    ensures StrictlySorted(SortByKey(entries))
  {
    if entries != [] {
      SortStrict(entries[1..]);
      var rest := SortByKey(entries[1..]);
      forall i | 0 <= i < |rest| ensures rest[i].key != entries[0].key {
        SortElement(entries[1..], rest[i]);
        var k :| 0 <= k < |entries[1..]| && entries[1..][k] == rest[i];
        assert entries[k + 1] == rest[i];
      }
      InsertStrict(entries[0], rest);
    }
  }

  lemma {:induction false} SomeElement(s: seq<Entry<Json>>)
    requires s != []
    ensures exists x :: x in s
  {
    assert s[0] in s;
  }

  /** A strictly sorted list is determined by its elements. */
  lemma {:induction false} SortedUnique(s: seq<Entry<Json>>, t: seq<Entry<Json>>)
    requires StrictlySorted(s) && StrictlySorted(t)
    requires forall x :: x in s <==> x in t
    ensures s == t
  {
    if s == [] {
      if t != [] { SomeElement(t); assert false; }
    } else if t == [] {
      SomeElement(s);
      assert false;
    } else {
      assert s[0] in t && t[0] in s;
      AtMostTotal(s[0].key, t[0].key);
      assert s[0] == t[0];
      forall x ensures x in s[1..] <==> x in t[1..] {
        if x in s[1..] { assert x != s[0] && x in s && x in t; }
        if x in t[1..] { assert x != t[0] && x in t && x in s; }
      }
      SortedUnique(s[1..], t[1..]);
      assert s == [s[0]] + s[1..] && t == [t[0]] + t[1..];
    }
  }

  // ----- The canonical text is the plain text of the key-sorted value -----

  function Stringified(entries: seq<Entry<Json>>): seq<Entry<Text>> {
    if entries == [] then [] else [Entry(entries[0].key, Stringify(entries[0].value))] + Stringified(entries[1..])
  }

  lemma {:induction false} StringifiedInsert(e: Entry<Json>, s: seq<Entry<Json>>)
    ensures Stringified(Insert(e, s)) == Insert(Entry(e.key, Stringify(e.value)), Stringified(s))
  {
    var f := Entry(e.key, Stringify(e.value));
    if s == [] {
    } else if AtMost(e.key, s[0].key) {
      assert ([e] + s)[1..] == s;
    } else {
      StringifiedInsert(e, s[1..]);
      assert ([s[0]] + Insert(e, s[1..]))[1..] == Insert(e, s[1..]);
      assert Stringified(s)[1..] == Stringified(s[1..]);
    }
  }

  lemma {:induction false} StringifiedSort(s: seq<Entry<Json>>)
    ensures Stringified(SortByKey(s)) == SortByKey(Stringified(s))
  {
    if s != [] {
      StringifiedSort(s[1..]);
      StringifiedInsert(s[0], SortByKey(s[1..]));
      assert Stringified(s)[1..] == Stringified(s[1..]);
    }
  }

  lemma {:induction false} StringifiedTexts(s: seq<Entry<Json>>)
    ensures MemberTexts(Stringified(s)) == StringifyMembers(s)
  {
    if s != [] {
      StringifiedTexts(s[1..]);
      assert Stringified(s)[1..] == Stringified(s[1..]);
    }
  }

  lemma {:induction false} CanonicalIsSorted(v: Json)
    ensures CanonicalJson(v) == Stringify(SortKeys(v))
    decreases v, 1
  {
    match v
    case Array(items) => CanonicalItemsSorted(items);
    case Object(entries) =>
      CanonicalMembersSorted(entries);
      StringifiedSort(SortMembers(entries));
      StringifiedTexts(SortByKey(SortMembers(entries)));
    case _ =>
  }

  lemma {:induction false} CanonicalItemsSorted(items: seq<Json>)
    ensures CanonicalItems(items) == StringifyItems(SortItems(items))
    decreases items, 0
  {
    if items != [] {
      CanonicalIsSorted(items[0]);
      CanonicalItemsSorted(items[1..]);
      assert SortItems(items)[1..] == SortItems(items[1..]);
    }
  }

  lemma {:induction false} CanonicalMembersSorted(entries: seq<Entry<Json>>)
    ensures CanonicalMembers(entries) == Stringified(SortMembers(entries))
    decreases entries, 0
  {
    if entries != [] {
      CanonicalIsSorted(entries[0].value);
      CanonicalMembersSorted(entries[1..]);
      assert SortMembers(entries)[1..] == SortMembers(entries[1..]);
    }
  }

  // ----- Key order is the only thing the text forgets -----

  lemma {:induction false} SortKeysSame(v: Json, w: Json)
    requires WellFormed(v) && WellFormed(w)
    ensures SameValue(v, w) <==> SortKeys(v) == SortKeys(w)
    decreases v
  {
    match v {
      case Array(items) =>
        if w.Array? && |items| == |w.items| {
          forall i | 0 <= i < |items|
            ensures SameValue(items[i], w.items[i]) <==> SortItems(items)[i] == SortItems(w.items)[i]
          {
            SortKeysSame(items[i], w.items[i]);
          }
          if SameValue(v, w) { assert SortItems(items) == SortItems(w.items); }
        }
      case Object(entries) =>
        if w.Object? {
          forall i, j | 0 <= i < |entries| && 0 <= j < |w.entries|
            ensures SameValue(entries[i].value, w.entries[j].value)
               <==> SortKeys(entries[i].value) == SortKeys(w.entries[j].value)
          {
            SortKeysSame(entries[i].value, w.entries[j].value);
          }
          if SameValue(v, w) {
            SameMembersSorted(entries, w.entries);
          }
          if SortKeys(v) == SortKeys(w) {
            SortedMembersSame(entries, w.entries);
          }
        }
      case _ =>
    }
  }

  ghost predicate Matching(s: seq<Entry<Json>>, t: seq<Entry<Json>>) {
    && KeySet(s) == KeySet(t)
    && forall i, j :: 0 <= i < |s| && 0 <= j < |t| && s[i].key == t[j].key ==> s[i].value == t[j].value
  }

  lemma {:induction false} MatchingElements(s: seq<Entry<Json>>, t: seq<Entry<Json>>)
    requires Matching(s, t)
    ensures forall x :: x in s ==> x in t
  {
    forall x | x in s ensures x in t {
      var i :| 0 <= i < |s| && s[i] == x;
      assert s[i].key in KeySet(t);
      var j :| 0 <= j < |t| && t[j].key == s[i].key;
      assert t[j] == x;
    }
  }

  lemma {:induction false} MatchingSorted(s: seq<Entry<Json>>, t: seq<Entry<Json>>)
    requires DistinctKeys(s) && DistinctKeys(t) && Matching(s, t)
    ensures SortByKey(s) == SortByKey(t)
  {
    MatchingElements(s, t);
    MatchingElements(t, s);
    forall x ensures x in SortByKey(s) <==> x in SortByKey(t) {
      SortElement(s, x);
      SortElement(t, x);
    }
    SortStrict(s);
    SortStrict(t);
    SortedUnique(SortByKey(s), SortByKey(t));
  }

  lemma {:induction false} SortMembersKeys(entries: seq<Entry<Json>>)
    ensures KeySet(SortMembers(entries)) == KeySet(entries)
    ensures DistinctKeys(entries) ==> DistinctKeys(SortMembers(entries))
  {
    var s := SortMembers(entries);
    forall k ensures k in KeySet(s) <==> k in KeySet(entries) {
      if k in KeySet(s) {
        var i :| 0 <= i < |s| && s[i].key == k;
        assert entries[i].key == k;
      }
      if k in KeySet(entries) {
        var i :| 0 <= i < |entries| && entries[i].key == k;
        assert s[i].key == k;
      }
    }
  }

  lemma {:induction false} SameMembersSorted(s: seq<Entry<Json>>, t: seq<Entry<Json>>)
    requires DistinctKeys(s) && DistinctKeys(t) && KeySet(s) == KeySet(t)
    requires forall i, j :: 0 <= i < |s| && 0 <= j < |t| && s[i].key == t[j].key ==>
                              SortKeys(s[i].value) == SortKeys(t[j].value)
    ensures SortByKey(SortMembers(s)) == SortByKey(SortMembers(t))
  {
    SortMembersKeys(s);
    SortMembersKeys(t);
    MatchingSorted(SortMembers(s), SortMembers(t));
  }

  lemma {:induction false} SortedMembersSame(s: seq<Entry<Json>>, t: seq<Entry<Json>>)
    requires DistinctKeys(s) && DistinctKeys(t)
    requires SortByKey(SortMembers(s)) == SortByKey(SortMembers(t))
    ensures KeySet(s) == KeySet(t)
    ensures forall i, j :: 0 <= i < |s| && 0 <= j < |t| && s[i].key == t[j].key ==>
                             SortKeys(s[i].value) == SortKeys(t[j].value)
  {
    hide SortByKey, SortMembers, SortKeys;
    var s', t' := SortMembers(s), SortMembers(t);
    forall x ensures x in s' <==> x in t' {
      SortElement(s', x);
      SortElement(t', x);
    }
    SortMembersKeys(s);
    SortMembersKeys(t);
    forall k ensures k in KeySet(s') <==> k in KeySet(t') {
      if k in KeySet(s') { var i :| 0 <= i < |s'| && s'[i].key == k; assert s'[i] in t'; }
      if k in KeySet(t') { var i :| 0 <= i < |t'| && t'[i].key == k; assert t'[i] in s'; }
    }
    forall i, j | 0 <= i < |s| && 0 <= j < |t| && s[i].key == t[j].key
      ensures SortKeys(s[i].value) == SortKeys(t[j].value)
    {
      assert s'[i] in t' && t'[j].key == s'[i].key;
      assert s'[i] == t'[j];
    }
  }

  /** canonicalJson is a complete invariant of a JSON value: equal texts exactly for values that
      differ in nothing but the order of object keys, at any depth. */
  lemma {:induction false} CanonicalJsonExact(v: Json, w: Json)
    requires WellFormed(v) && WellFormed(w)
    ensures CanonicalJson(v) == CanonicalJson(w) <==> SameValue(v, w)
  {
    CanonicalIsSorted(v);
    CanonicalIsSorted(w);
    StringifyInjective(SortKeys(v), SortKeys(w));
    SortKeysSame(v, w);
  }

  // ----- In which order the keys are written -----

  lemma {:induction false} DiffersAtRest(a: Text, b: Text, n: nat)
    requires a != [] && b != [] && a[0] == b[0]
    ensures DiffersAt(a, b, n + 1) <==> DiffersAt(a[1..], b[1..], n)
    ensures !DiffersAt(a, b, 0)
  {
    if n <= |a[1..]| && n < |b[1..]| {
      assert a[..n + 1] == [a[0]] + a[1..][..n] && b[..n + 1] == [b[0]] + b[1..][..n];
      if a[..n + 1] == b[..n + 1] { assert a[..n + 1][1..] == b[..n + 1][1..]; }
    }
  }

  /** The comparison of two different texts is that of their first differing units. */
  lemma {:induction false} AtMostExact(a: Text, b: Text)
    ensures AtMost(a, b) <==> a == b || Before(a, b)
  {
    if a == [] {
      if b != [] { assert DiffersAt(a, b, 0); }
    } else if b != [] {
      if a[0] == b[0] {
        AtMostExact(a[1..], b[1..]);
        assert a == [a[0]] + a[1..] && b == [b[0]] + b[1..];
        if Before(a[1..], b[1..]) {
          var n: nat :| DiffersAt(a[1..], b[1..], n);
          DiffersAtRest(a, b, n);
        }
        if Before(a, b) {
          var n: nat :| DiffersAt(a, b, n);
          DiffersAtRest(a, b, if n > 0 then n - 1 else 0);
        }
      } else {
        FirstUnits(a, b);
      }
    }
  }

  lemma {:induction false} FirstUnits(a: Text, b: Text)
    requires a != [] && b != [] && a[0] != b[0]
    ensures Before(a, b) <==> a[0] < b[0]
  {
    if a[0] < b[0] { assert DiffersAt(a, b, 0); }
    forall n: nat | n > 0 ensures !DiffersAt(a, b, n) { NotLater(a, b, n); }
  }

  lemma {:induction false} NotLater(a: Text, b: Text, n: nat)
    requires a != [] && b != [] && a[0] != b[0] && n > 0
    ensures !DiffersAt(a, b, n)
  {
    if n <= |a| && n <= |b| { assert a[..n][0] == a[0] && b[..n][0] == b[0]; }
  }

  /** Sorting puts entries with different keys into ascending order, and neither adds nor drops one. */
  lemma {:induction false} SortAscends<V>(entries: seq<Entry<V>>)
    requires DistinctKeys(entries)
    ensures Ascending(SortByKey(entries))
    ensures forall x :: x in SortByKey(entries) <==> x in entries
  {
    var sorted := SortByKey(entries);
    SortStrict(entries);
    forall i, j | 0 <= i < j < |sorted| ensures Before(sorted[i].key, sorted[j].key) {
      AtMostExact(sorted[i].key, sorted[j].key);
    }
    forall x ensures x in sorted <==> x in entries { SortElement(entries, x); }
  }

  /** The value whose plain text is the canonical text has ascending keys in every object, at any depth. */
  lemma {:induction false} SortKeysAscend(v: Json)
    requires WellFormed(v)
    ensures KeysAscend(SortKeys(v))
    decreases v
  {
    hide Ascending;
    match v
    case Array(items) =>
      forall i | 0 <= i < |items| ensures KeysAscend(SortItems(items)[i]) { SortKeysAscend(items[i]); }
    case Object(entries) =>
      forall i | 0 <= i < |entries| ensures KeysAscend(SortKeys(entries[i].value)) {
        SortKeysAscend(entries[i].value);
      }
      var members := SortMembers(entries);
      var sorted := SortByKey(members);
      SortMembersKeys(entries);
      SortAscends(members);
      forall i | 0 <= i < |sorted| ensures KeysAscend(sorted[i].value) {
        SortElement(members, sorted[i]);
        var k :| 0 <= k < |members| && members[k] == sorted[i];
      }
    case _ =>
  }

  lemma {:induction false} SortKeysKeeps(v: Json)
    requires WellFormed(v)
    ensures SameValue(v, SortKeys(v)) && WellFormed(SortKeys(v))
    decreases v
  {
    match v
    case Array(items) =>
      forall i | 0 <= i < |items| ensures SameValue(items[i], SortItems(items)[i]) && WellFormed(SortItems(items)[i]) {
        SortKeysKeeps(items[i]);
      }
    case Object(entries) => SortMembersKeep(entries);
    case _ =>
  }

  lemma {:induction false} SortMembersKeep(entries: seq<Entry<Json>>)
    requires WellFormed(Object(entries))
    ensures SameValue(Object(entries), SortKeys(Object(entries))) && WellFormed(SortKeys(Object(entries)))
    decreases entries, 0
  {
    hide SortByKey, SortMembers, StrictlySorted, Insert;
    var members := SortMembers(entries);
    var sorted := SortByKey(members);
    SortMembersKeys(entries);
    SortStrict(members);
    StrictIsDistinct(sorted);
    forall x ensures x in sorted <==> x in members { SortElement(members, x); }
    SameElementsKeys(sorted, members);
    forall i | 0 <= i < |entries|
      ensures SameValue(entries[i].value, members[i].value) && WellFormed(members[i].value)
    {
      SortKeysKeeps(entries[i].value);
    }
    forall j | 0 <= j < |sorted| ensures WellFormed(sorted[j].value) {
      assert sorted[j] in members;
    }
    forall i, j | 0 <= i < |entries| && 0 <= j < |sorted| && entries[i].key == sorted[j].key
      ensures SameValue(entries[i].value, sorted[j].value)
    {
      assert sorted[j] in members;
      var k :| 0 <= k < |members| && members[k] == sorted[j];
      assert entries[k].key == entries[i].key;
    }
  }

  lemma {:induction false} StrictIsDistinct<V>(s: seq<Entry<V>>)
    requires StrictlySorted(s)
    ensures DistinctKeys(s)
  {
  }

  lemma {:induction false} SameElementsKeys(s: seq<Entry<Json>>, t: seq<Entry<Json>>)
    requires forall x :: x in s <==> x in t
    ensures KeySet(s) == KeySet(t)
  {
    forall k ensures k in KeySet(s) <==> k in KeySet(t) {
      if k in KeySet(s) { var i :| 0 <= i < |s| && s[i].key == k; assert s[i] in t; }
      if k in KeySet(t) { var i :| 0 <= i < |t| && t[i].key == k; assert t[i] in s; }
    }
  }

  /** The canonical text of a value is the plain text of the one value that is equal to it and has the
      keys of every object in ascending order. */
  lemma {:induction false} CanonicalAscends(v: Json, w: Json)
    requires WellFormed(v) && WellFormed(w) && KeysAscend(w)
    ensures CanonicalJson(v) == Stringify(w) <==> SameValue(v, w)
  {
    CanonicalIsSorted(v);
    AscendingIsSorted(w);
    StringifyInjective(SortKeys(v), w);
    SortKeysSame(v, w);
  }

  /** Sorting leaves a value alone whose keys already ascend. */
  lemma {:induction false} AscendingIsSorted(w: Json)
    requires WellFormed(w) && KeysAscend(w)
    ensures SortKeys(w) == w
    decreases w, 1
  {
    match w
    case Array(items) =>
      forall i | 0 <= i < |items| ensures SortItems(items)[i] == items[i] { AscendingIsSorted(items[i]); }
    case Object(entries) =>
      forall i | 0 <= i < |entries| ensures SortMembers(entries)[i] == entries[i] {
        AscendingIsSorted(entries[i].value);
      }
      assert SortMembers(entries) == entries;
      SortSorted(entries);
    case _ =>
  }

  lemma {:induction false} SortSorted<V>(entries: seq<Entry<V>>)
    requires Ascending(entries)
    ensures SortByKey(entries) == entries
  {
    if |entries| > 1 {
      SortSorted(entries[1..]);
      assert Before(entries[0].key, entries[1].key);
      AtMostExact(entries[0].key, entries[1].key);
    }
    if entries != [] { assert entries == [entries[0]] + entries[1..]; }
  }

  // ----- Self-hashed receipts -----

  /** "receipt_sha256" */
  const RECEIPT_KEY: Text :=
    [0x72, 0x65, 0x63, 0x65, 0x69, 0x70, 0x74, 0x5F, 0x73, 0x68, 0x61, 0x32, 0x35, 0x36]

  function Sealed(unsigned: seq<Entry<Json>>, sha256: Text -> Text): seq<Entry<Json>> {
    unsigned + [Entry(RECEIPT_KEY, String(sha256(CanonicalJson(Object(unsigned)))))]
  }

  function WithoutReceipt(document: seq<Entry<Json>>): seq<Entry<Json>> {
    if document == [] then []
    else if document[0].key == RECEIPT_KEY then WithoutReceipt(document[1..])
    else [document[0]] + WithoutReceipt(document[1..])
  }

  /** The text that the receipt of a document is the hash of. */
  function SignedText(document: seq<Entry<Json>>): Text { CanonicalJson(Object(WithoutReceipt(document))) }

  /** Recomputing the hash of a document without its receipt gives the hash it stores. */
  ghost predicate SelfVerifies(document: seq<Entry<Json>>, sha256: Text -> Text) {
    Entry(RECEIPT_KEY, String(sha256(SignedText(document)))) in document
  }

  lemma {:induction false} WithoutReceiptElements(document: seq<Entry<Json>>)
    ensures forall x :: x in WithoutReceipt(document) <==> x in document && x.key != RECEIPT_KEY
  {
    if document != [] { WithoutReceiptElements(document[1..]); }
  }

  lemma {:induction false} WithoutReceiptDistinct(document: seq<Entry<Json>>)
    requires DistinctKeys(document)
    ensures DistinctKeys(WithoutReceipt(document))
  {
    if document != [] {
      var rest := WithoutReceipt(document[1..]);
      WithoutReceiptDistinct(document[1..]);
      WithoutReceiptElements(document[1..]);
      forall i | 0 <= i < |rest| ensures rest[i].key != document[0].key {
        assert rest[i] in document[1..];
      }
    }
  }

  lemma {:induction false} WithoutReceiptWellFormed(document: seq<Entry<Json>>)
    requires WellFormed(Object(document))
    ensures WellFormed(Object(WithoutReceipt(document)))
  {
    WithoutReceiptDistinct(document);
    WithoutReceiptElements(document);
    var rest := WithoutReceipt(document);
    forall i | 0 <= i < |rest| ensures WellFormed(rest[i].value) {
      assert rest[i] in document;
    }
  }

  /** Dropping the receipt from a document drops it from every reordering of the document. */
  lemma {:induction false} WithoutReceiptSame(d: seq<Entry<Json>>, e: seq<Entry<Json>>)
    requires SameValue(Object(d), Object(e))
    ensures SameValue(Object(WithoutReceipt(d)), Object(WithoutReceipt(e)))
  {
    var d', e' := WithoutReceipt(d), WithoutReceipt(e);
    WithoutReceiptElements(d);
    WithoutReceiptElements(e);
    WithoutReceiptKeys(d);
    WithoutReceiptKeys(e);
    forall i, j | 0 <= i < |d'| && 0 <= j < |e'| && d'[i].key == e'[j].key
      ensures SameValue(d'[i].value, e'[j].value)
    {
      var i' :| 0 <= i' < |d| && d[i'] == d'[i];
      var j' :| 0 <= j' < |e| && e[j'] == e'[j];
    }
  }

  lemma {:induction false} WithoutReceiptKeys(d: seq<Entry<Json>>)
    ensures KeySet(WithoutReceipt(d)) == KeySet(d) - {RECEIPT_KEY}
  {
    var d' := WithoutReceipt(d);
    WithoutReceiptElements(d);
    forall k ensures k in KeySet(d') <==> k in KeySet(d) && k != RECEIPT_KEY {
      if k in KeySet(d') { var i :| 0 <= i < |d'| && d'[i].key == k; assert d'[i] in d; }
      if k in KeySet(d) && k != RECEIPT_KEY { var i :| 0 <= i < |d| && d[i].key == k; assert d[i] in d'; }
    }
  }

  lemma {:induction false} WithoutReceiptSealed(unsigned: seq<Entry<Json>>, last: Entry<Json>)
    requires last.key == RECEIPT_KEY && RECEIPT_KEY !in KeySet(unsigned)
    ensures WithoutReceipt(unsigned + [last]) == unsigned
  {
    if unsigned == [] {
      assert (unsigned + [last])[1..] == [];
    } else {
      assert (unsigned + [last])[1..] == unsigned[1..] + [last];
      assert unsigned[0].key in KeySet(unsigned);
      assert forall k :: k in KeySet(unsigned[1..]) ==> k in KeySet(unsigned) by {
        forall k | k in KeySet(unsigned[1..]) ensures k in KeySet(unsigned) {
          var i :| 0 <= i < |unsigned[1..]| && unsigned[1..][i].key == k;
          assert unsigned[i + 1].key == k;
        }
      }
      WithoutReceiptSealed(unsigned[1..], last);
    }
  }

  /** A sealed receipt verifies itself however its keys, at any depth, were reordered on the way. */
  lemma {:induction false} SealedVerifies(unsigned: seq<Entry<Json>>, document: seq<Entry<Json>>, sha256: Text -> Text)
    requires WellFormed(Object(unsigned)) && RECEIPT_KEY !in KeySet(unsigned)
    requires WellFormed(Object(document)) && SameValue(Object(document), Object(Sealed(unsigned, sha256)))
    ensures SelfVerifies(document, sha256)
  {
    var hash := String(sha256(CanonicalJson(Object(unsigned))));
    var seal := Entry(RECEIPT_KEY, hash);
    var written := unsigned + [seal];
    WithoutReceiptSealed(unsigned, seal);
    WithoutReceiptSame(document, written);
    WithoutReceiptWellFormed(document);
    CanonicalJsonExact(Object(WithoutReceipt(document)), Object(unsigned));
    assert written[|unsigned|].key == RECEIPT_KEY;
    assert RECEIPT_KEY in KeySet(document);
    var i :| 0 <= i < |document| && document[i].key == RECEIPT_KEY;
    assert SameValue(document[i].value, written[|unsigned|].value);
    SameAtom(document[i].value, hash);
    assert document[i] == seal;
  }

  lemma {:induction false} SameAtom(v: Json, w: Json)
    requires SameValue(v, w) && w.String?
    ensures v == w
  {
  }

  /** A receipt binds the whole document: two documents that verify themselves under one hash have the
      same content, unless the hash collides on just their two signed texts. */
  lemma {:induction false} ReceiptBinds(d: seq<Entry<Json>>, e: seq<Entry<Json>>, sha256: Text -> Text, hash: Text)
    requires WellFormed(Object(d)) && WellFormed(Object(e))
    requires sha256(SignedText(d)) == sha256(SignedText(e)) ==> SignedText(d) == SignedText(e)
    requires SelfVerifies(d, sha256) && SelfVerifies(e, sha256)
    requires Entry(RECEIPT_KEY, String(hash)) in d && Entry(RECEIPT_KEY, String(hash)) in e
    ensures SameValue(Object(d), Object(e))
  {
    WithoutReceiptWellFormed(d);
    WithoutReceiptWellFormed(e);
    OneReceipt(d, String(sha256(SignedText(d))), String(hash));
    OneReceipt(e, String(sha256(SignedText(e))), String(hash));
    CanonicalJsonExact(Object(WithoutReceipt(d)), Object(WithoutReceipt(e)));
    WithoutReceiptKeys(d);
    WithoutReceiptKeys(e);
    ReceiptPresent(d, String(hash));
    ReceiptPresent(e, String(hash));
    assert KeySet(d) == KeySet(WithoutReceipt(d)) + {RECEIPT_KEY};
    assert KeySet(e) == KeySet(WithoutReceipt(e)) + {RECEIPT_KEY};
    forall i, j | 0 <= i < |d| && 0 <= j < |e| && d[i].key == e[j].key
      ensures SameValue(d[i].value, e[j].value)
    {
      if d[i].key == RECEIPT_KEY {
        OneReceipt(d, d[i].value, String(hash));
        OneReceipt(e, e[j].value, String(hash));
      } else {
        WithoutReceiptElements(d);
        WithoutReceiptElements(e);
        var d', e' := WithoutReceipt(d), WithoutReceipt(e);
        assert d[i] in d' && e[j] in e';
        var i' :| 0 <= i' < |d'| && d'[i'] == d[i];
        var j' :| 0 <= j' < |e'| && e'[j'] == e[j];
      }
    }
  }

  lemma {:induction false} OneReceipt(d: seq<Entry<Json>>, v: Json, w: Json)
    requires DistinctKeys(d) && Entry(RECEIPT_KEY, v) in d && Entry(RECEIPT_KEY, w) in d
    ensures v == w
  {
    var i :| 0 <= i < |d| && d[i] == Entry(RECEIPT_KEY, v);
    var j :| 0 <= j < |d| && d[j] == Entry(RECEIPT_KEY, w);
    assert i == j;
  }

  lemma {:induction false} ReceiptPresent(d: seq<Entry<Json>>, v: Json)
    requires Entry(RECEIPT_KEY, v) in d
    ensures RECEIPT_KEY in KeySet(d)
  {
    var i :| 0 <= i < |d| && d[i] == Entry(RECEIPT_KEY, v);
    assert d[i].key == RECEIPT_KEY;
  }
}
