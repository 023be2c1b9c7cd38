/** The audit of a published schedule: no court, team or official in two matches at once. */
module OverlapAudit {
  import opened Options
  import Texts

  datatype Row = Row(matchId: string, court: string, start: int, end: int,
                     home: Option<string>, away: Option<string>, officials: seq<string>)

  datatype Slot = Slot(start: int, end: int, matchId: string)

  datatype AuditResult =
    | NoSchedule
    | Clash(resource: string, first: string, second: string)
    | Passed(matches: nat)

  // ----- Resource keys -----

  /** `new Set(ids)` in insertion order. */
  function Unique(ids: seq<string>): seq<string> {
    if ids == [] then []
    else
      var init, last := Unique(ids[..|ids| - 1]), ids[|ids| - 1];
      if last in init then init else init + [last]
  }

  function Present(id: Option<string>): seq<string> { if id.Some? then [id.value] else [] }

  function Prefixed(prefix: string, ids: seq<string>): (r: seq<string>)
    ensures |r| == |ids| && forall i :: 0 <= i < |ids| ==> r[i] == prefix + ids[i]
  {
    seq(|ids|, i requires 0 <= i < |ids| => prefix + ids[i])
  }

  function KeyList(court: string, teams: seq<string>, officials: seq<string>): seq<string> {
    ["court " + court] + Prefixed("team ", teams) + Prefixed("official ", officials)
  }

  function Keys(row: Row): seq<string> {
    KeyList(row.court, Unique(Present(row.home) + Present(row.away)), Unique(row.officials))
  }

  function SlotOf(row: Row): Slot { Slot(row.start, row.end, row.matchId) }

  /** The slot of a row and the keys of the resources it uses. */
  datatype Booking = Booking(slot: Slot, keys: seq<string>)

  function Bookings(rows: seq<Row>): (r: seq<Booking>)
    ensures |r| == |rows| && forall i :: 0 <= i < |rows| ==> r[i] == Booking(SlotOf(rows[i]), Keys(rows[i]))
  {
    seq(|rows|, i requires 0 <= i < |rows| => Booking(SlotOf(rows[i]), Keys(rows[i])))
  }

  /** The slots of the bookings that use a resource, in order. */
  function SlotsFor(bookings: seq<Booking>, key: string): seq<Slot> {
    if bookings == [] then []
    else (if key in bookings[0].keys then [bookings[0].slot] else []) + SlotsFor(bookings[1..], key)
  }

  // ----- Sorting by start -----

  function Insert(x: Slot, s: seq<Slot>): seq<Slot> {
    if s == [] then [x] else if x.start <= s[0].start then [x] + s else [s[0]] + Insert(x, s[1..])
  }

  /** `list.sort((a, b) => a.start - b.start)` */
  function SortByStart(s: seq<Slot>): seq<Slot> {
    if s == [] then [] else Insert(s[0], SortByStart(s[1..]))
  }

  ghost predicate Sorted(s: seq<Slot>) { forall i, j :: 0 <= i < j < |s| ==> s[i].start <= s[j].start }

  ghost predicate NeighboursClear(s: seq<Slot>) {
    forall i, j :: 0 <= i < |s| && 0 <= j < |s| && j == i + 1 ==> s[i].end <= s[j].start
  }

  lemma {:induction false} InsertElement(x: Slot, s: seq<Slot>, y: Slot)
    ensures y in Insert(x, s) <==> y == x || y in s
  {
    if s != [] && x.start > s[0].start {
      InsertElement(x, s[1..], y);
      assert s == [s[0]] + s[1..];
    }
  }

  lemma {:induction false} InsertSorted(x: Slot, s: seq<Slot>)
    requires Sorted(s)
    ensures Sorted(Insert(x, s))
  {
    if s != [] && x.start > s[0].start {
      InsertSorted(x, s[1..]);
      var t := Insert(x, s[1..]);
      forall i | 0 <= i < |t| ensures s[0].start <= t[i].start {
        InsertElement(x, s[1..], t[i]);
        if t[i] != x { var k :| 0 <= k < |s[1..]| && s[1..][k] == t[i]; assert s[k + 1] == t[i]; }
      }
    }
  }

  lemma {:induction false} SortSorted(s: seq<Slot>)
    ensures Sorted(SortByStart(s))
  {
    if s != [] {
      SortSorted(s[1..]);
      InsertSorted(s[0], SortByStart(s[1..]));
    }
  }

  lemma {:induction false} SortElement(s: seq<Slot>, y: Slot)
    ensures y in SortByStart(s) <==> y in s
  {
    if s != [] {
      SortElement(s[1..], y);
      InsertElement(s[0], SortByStart(s[1..]), y);
      assert s == [s[0]] + s[1..];
    }
  }

  // ----- Pairwise relations survive sorting -----

  ghost predicate Symmetric(r: (Slot, Slot) -> bool) { forall x, y :: r(x, y) <==> r(y, x) }

  ghost predicate ToAll(r: (Slot, Slot) -> bool, x: Slot, s: seq<Slot>) { forall y :: y in s ==> r(x, y) }

  ghost predicate Pairwise(r: (Slot, Slot) -> bool, s: seq<Slot>) {
    s == [] || (ToAll(r, s[0], s[1..]) && Pairwise(r, s[1..]))
  }

  lemma {:induction false} InsertPairwise(r: (Slot, Slot) -> bool, x: Slot, s: seq<Slot>)
    requires Symmetric(r)
    ensures Pairwise(r, Insert(x, s)) <==> ToAll(r, x, s) && Pairwise(r, s)
  {
    if s == [] {
    } else if x.start <= s[0].start {
      assert ([x] + s)[1..] == s;
    } else {
      var t := Insert(x, s[1..]);
      InsertPairwise(r, x, s[1..]);
      assert ([s[0]] + t)[1..] == t;
      assert ToAll(r, s[0], t) <==> r(s[0], x) && ToAll(r, s[0], s[1..]) by {
        forall y ensures y in t <==> y == x || y in s[1..] { InsertElement(x, s[1..], y); }
      }
      assert ToAll(r, x, s) <==> r(x, s[0]) && ToAll(r, x, s[1..]) by { assert s == [s[0]] + s[1..]; }
    }
  }

  lemma {:induction false} SortPairwise(r: (Slot, Slot) -> bool, s: seq<Slot>)
    requires Symmetric(r)
    ensures Pairwise(r, SortByStart(s)) <==> Pairwise(r, s)
  {
    if s != [] {
      SortPairwise(r, s[1..]);
      InsertPairwise(r, s[0], SortByStart(s[1..]));
      forall y ensures y in SortByStart(s[1..]) <==> y in s[1..] { SortElement(s[1..], y); }
    }
  }

  // ----- Neighbours suffice -----

  predicate DisjointSlots(x: Slot, y: Slot) { x.end <= y.start || y.end <= x.start }

  ghost predicate Proper(s: seq<Slot>) { forall i :: 0 <= i < |s| ==> s[i].start < s[i].end }

  lemma {:induction false} ClearChain(s: seq<Slot>, i: nat, j: nat)
    requires NeighboursClear(s) && Proper(s) && i < j < |s|
    ensures s[i].end <= s[j].start
    decreases j
  {
    assert s[j - 1].end <= s[j].start;
    if i < j - 1 { ClearChain(s, i, j - 1); }
  }

  lemma {:induction false} PairwiseAt(r: (Slot, Slot) -> bool, s: seq<Slot>, i: nat, j: nat)
    requires Pairwise(r, s) && i < j < |s|
    ensures r(s[i], s[j])
  {
    if i == 0 {
      assert s[j] == s[1..][j - 1];
    } else {
      PairwiseAt(r, s[1..], i - 1, j - 1);
    }
  }

  /** In a list sorted by start the neighbour test finds every overlap. */
  lemma {:induction false} NeighboursSuffice(s: seq<Slot>)
    requires Sorted(s) && Proper(s)
    ensures NeighboursClear(s) <==> Pairwise(DisjointSlots, s)
  {
    if NeighboursClear(s) { ClearIsPairwise(s); }
    if Pairwise(DisjointSlots, s) {
      forall i, j | 0 <= i < |s| && 0 <= j < |s| && j == i + 1 ensures s[i].end <= s[j].start {
        PairwiseAt(DisjointSlots, s, i, j);
        assert s[i].start <= s[j].start;
      }
    }
  }

  lemma {:induction false} ClearIsPairwise(s: seq<Slot>)
    requires NeighboursClear(s) && Proper(s)
    ensures Pairwise(DisjointSlots, s)
  {
    if s != [] {
      var t := s[1..];
      forall y | y in t ensures DisjointSlots(s[0], y) {
        var k :| 0 <= k < |t| && t[k] == y;
        ClearChain(s, 0, k + 1);
      }
      assert NeighboursClear(t) by {
        forall i, j | 0 <= i < |t| && 0 <= j < |t| && j == i + 1 ensures t[i].end <= t[j].start {
          assert s[i + 1].end <= s[j + 1].start;
        }
      }
      ClearIsPairwise(t);
    }
  }

  // ----- From slots back to bookings -----

  ghost predicate ProperBookings(bs: seq<Booking>) { forall i :: 0 <= i < |bs| ==> bs[i].slot.start < bs[i].slot.end }

  ghost predicate ClearFor(bs: seq<Booking>, key: string) {
    forall i, j :: 0 <= i < j < |bs| && key in bs[i].keys && key in bs[j].keys ==> DisjointSlots(bs[i].slot, bs[j].slot)
  }

  lemma {:induction false} SlotElement(bs: seq<Booking>, key: string, y: Slot)
    ensures y in SlotsFor(bs, key) <==> exists i :: 0 <= i < |bs| && key in bs[i].keys && bs[i].slot == y
  {
    if bs != [] {
      var rest := bs[1..];
      SlotElement(rest, key, y);
      if exists i :: 0 <= i < |bs| && key in bs[i].keys && bs[i].slot == y {
        var i :| 0 <= i < |bs| && key in bs[i].keys && bs[i].slot == y;
        if i > 0 { assert rest[i - 1] == bs[i]; }
      }
      if exists i :: 0 <= i < |rest| && key in rest[i].keys && rest[i].slot == y {
        var i :| 0 <= i < |rest| && key in rest[i].keys && rest[i].slot == y;
        assert bs[i + 1] == rest[i];
      }
    }
  }

  lemma {:induction false} SlotsProper(bs: seq<Booking>, key: string)
    requires ProperBookings(bs)
    ensures Proper(SlotsFor(bs, key))
  {
    if bs != [] { SlotsProper(bs[1..], key); }
  }

  lemma {:induction false} ToAllBookings(x: Slot, rest: seq<Booking>, key: string)
    ensures ToAll(DisjointSlots, x, SlotsFor(rest, key)) <==>
            forall j :: 0 <= j < |rest| && key in rest[j].keys ==> DisjointSlots(x, rest[j].slot)
  {
    forall y
      ensures y in SlotsFor(rest, key) <==> exists i :: 0 <= i < |rest| && key in rest[i].keys && rest[i].slot == y
    {
      SlotElement(rest, key, y);
    }
    if ToAll(DisjointSlots, x, SlotsFor(rest, key)) {
      forall j | 0 <= j < |rest| && key in rest[j].keys ensures DisjointSlots(x, rest[j].slot) {
        assert rest[j].slot in SlotsFor(rest, key);
      }
    }
  }

  lemma {:induction false} SlotsPairwise(bs: seq<Booking>, key: string)
    ensures Pairwise(DisjointSlots, SlotsFor(bs, key)) <==> ClearFor(bs, key)
  {
    if bs != [] {
      SlotsPairwise(bs[1..], key);
      ClearForCons(bs, key);
      ToAllBookings(bs[0].slot, bs[1..], key);
      var s := SlotsFor(bs[1..], key);
      assert ([bs[0].slot] + s)[1..] == s && [] + s == s;
    }
  }

  lemma {:induction false} ClearForCons(bs: seq<Booking>, key: string)
    requires bs != []
    ensures ClearFor(bs, key) <==>
            ClearFor(bs[1..], key)
            && (key in bs[0].keys ==>
                forall j :: 0 <= j < |bs[1..]| && key in bs[1..][j].keys ==> DisjointSlots(bs[0].slot, bs[1..][j].slot))
  {
    var rest := bs[1..];
    if ClearFor(bs, key) {
      forall i, j | 0 <= i < j < |rest| && key in rest[i].keys && key in rest[j].keys
        ensures DisjointSlots(rest[i].slot, rest[j].slot)
      {
        assert rest[i] == bs[i + 1] && rest[j] == bs[j + 1];
      }
      forall j | key in bs[0].keys && 0 <= j < |rest| && key in rest[j].keys
        ensures DisjointSlots(bs[0].slot, rest[j].slot)
      {
        assert rest[j] == bs[j + 1];
      }
    }
    if ClearFor(rest, key)
       && (key in bs[0].keys ==>
             forall j :: 0 <= j < |rest| && key in rest[j].keys ==> DisjointSlots(bs[0].slot, rest[j].slot))
    {
      forall i, j | 0 <= i < j < |bs| && key in bs[i].keys && key in bs[j].keys
        ensures DisjointSlots(bs[i].slot, bs[j].slot)
      {
        assert bs[j] == rest[j - 1];
        if i > 0 { assert bs[i] == rest[i - 1]; }
      }
    }
  }

  // ----- What it means to share a key -----

  ghost predicate PlaysIn(row: Row, team: string) { row.home == Some(team) || row.away == Some(team) }

  ghost predicate Share(a: Row, b: Row) {
    || a.court == b.court
    || (exists team :: PlaysIn(a, team) && PlaysIn(b, team))
    || (exists official :: official in a.officials && official in b.officials)
  }

  lemma {:induction false} UniqueElement(ids: seq<string>, x: string)
    ensures x in Unique(ids) <==> x in ids
  {
    if ids != [] {
      UniqueElement(ids[..|ids| - 1], x);
      assert ids == ids[..|ids| - 1] + [ids[|ids| - 1]];
    }
  }

  lemma {:induction false} PrefixedElement(prefix: string, ids: seq<string>, key: string)
    ensures key in Prefixed(prefix, ids) <==> exists x :: x in ids && key == prefix + x
  {
    if key in Prefixed(prefix, ids) {
      var i :| 0 <= i < |ids| && Prefixed(prefix, ids)[i] == key;
      assert ids[i] in ids;
    }
    if exists x :: x in ids && key == prefix + x {
      var x :| x in ids && key == prefix + x;
      var i :| 0 <= i < |ids| && ids[i] == x;
      assert Prefixed(prefix, ids)[i] == key;
    }
  }

  lemma {:induction false} KeyMeaning(row: Row, key: string)
    ensures key in Keys(row) <==>
            || key == "court " + row.court
            || (exists team :: PlaysIn(row, team) && key == "team " + team)
            || (exists official :: official in row.officials && key == "official " + official)
  {
    var teams := Present(row.home) + Present(row.away);
    PrefixedElement("team ", Unique(teams), key);
    PrefixedElement("official ", Unique(row.officials), key);
    forall x ensures x in Unique(teams) <==> PlaysIn(row, x) { UniqueElement(teams, x); }
    forall x ensures x in Unique(row.officials) <==> x in row.officials { UniqueElement(row.officials, x); }
  }

  lemma {:induction false} Kind(prefix: string, x: string, key: string)
    requires prefix != "" && key == prefix + x
    ensures key != "" && key[0] == prefix[0]
  {
  }

  /** The first letter of a key tells its kind. */
  lemma {:induction false} KeyKind(row: Row, key: string)
    requires key in Keys(row)
    ensures key != ""
    ensures key[0] != 't' && key[0] != 'o' ==> key == "court " + row.court
    ensures key[0] == 't' ==> exists team :: PlaysIn(row, team) && key == "team " + team
    ensures key[0] == 'o' ==> exists official :: official in row.officials && key == "official " + official
  {
    KeyMeaning(row, key);
    if key == "court " + row.court {
      Kind("court ", row.court, key);
    } else if exists team :: PlaysIn(row, team) && key == "team " + team {
      var team :| PlaysIn(row, team) && key == "team " + team;
      Kind("team ", team, key);
    } else {
      var official :| official in row.officials && key == "official " + official;
      Kind("official ", official, key);
    }
  }

  /** The kind prefixes keep the three kinds of resource apart: rows have a key in common exactly
      when they share a court, a team or an official. */
  lemma {:induction false} SharedKey(a: Row, b: Row)
    ensures (exists key :: key in Keys(a) && key in Keys(b)) <==> Share(a, b)
  {
    if exists key :: key in Keys(a) && key in Keys(b) {
      var key :| key in Keys(a) && key in Keys(b);
      SharedKeyShares(a, b, key);
    }
    if Share(a, b) { SharersHaveKey(a, b); }
  }

  lemma {:induction false} SharersHaveKey(a: Row, b: Row)
    requires Share(a, b)
    ensures exists key :: key in Keys(a) && key in Keys(b)
  {
    var key: string;
    if a.court == b.court {
      key := "court " + a.court;
    } else if exists team :: PlaysIn(a, team) && PlaysIn(b, team) {
      var team :| PlaysIn(a, team) && PlaysIn(b, team);
      key := "team " + team;
    } else {
      var official :| official in a.officials && official in b.officials;
      key := "official " + official;
    }
    KeyMeaning(a, key);
    KeyMeaning(b, key);
    assert key in Keys(a) && key in Keys(b);
  }

  lemma {:induction false} SharedKeyShares(a: Row, b: Row, key: string)
    requires key in Keys(a) && key in Keys(b)
    ensures Share(a, b)
  {
    KeyKind(a, key);
    KeyKind(b, key);
    if key[0] == 't' {
      var team :| PlaysIn(a, team) && key == "team " + team;
      var other :| PlaysIn(b, other) && key == "team " + other;
      Texts.DropPrefix("team ", team, other);
    } else if key[0] == 'o' {
      var official :| official in a.officials && key == "official " + official;
      var other :| other in b.officials && key == "official " + other;
      Texts.DropPrefix("official ", official, other);
    } else {
      Texts.DropPrefix("court ", a.court, b.court);
    }
  }

  // ----- Grouping -----

  ghost predicate AllDistinct(u: seq<string>) { forall i, j :: 0 <= i < j < |u| ==> u[i] != u[j] }

  lemma {:induction false} DistinctSnoc(init: seq<string>, last: string)
    requires AllDistinct(init) && last !in init
    ensures AllDistinct(init + [last])
  {
    var u := init + [last];
    forall i, j | 0 <= i < j < |u| ensures u[i] != u[j] {
      assert u[i] in init;
      if j < |init| { assert u[i] == init[i] && u[j] == init[j]; } else { assert u[j] == last; }
    }
  }

  lemma {:induction false} UniqueDistinct(ids: seq<string>)
    ensures AllDistinct(Unique(ids))
  {
    if ids != [] {
      var init, last := Unique(ids[..|ids| - 1]), ids[|ids| - 1];
      UniqueDistinct(ids[..|ids| - 1]);
      if last !in init { DistinctSnoc(init, last); }
    }
  }

  lemma {:induction false} KeyAt(court: string, teams: seq<string>, officials: seq<string>, i: nat)
    requires i < |KeyList(court, teams, officials)|
    ensures var key := KeyList(court, teams, officials)[i];
            && key != ""
            && (i == 0 ==> key[0] == 'c')
            && (1 <= i <= |teams| ==> key[0] == 't' && key == "team " + teams[i - 1])
            && (i > |teams| ==>
                  && i - 1 - |teams| < |officials| && key[0] == 'o'
                  && key == "official " + officials[i - 1 - |teams|])
  {
    var key := KeyList(court, teams, officials)[i];
    if i == 0 {
      Kind("court ", court, key);
    } else if i <= |teams| {
      Kind("team ", teams[i - 1], key);
    } else {
      Kind("official ", officials[i - 1 - |teams|], key);
    }
  }

  lemma {:induction false} KeyListDistinct(court: string, teams: seq<string>, officials: seq<string>)
    requires AllDistinct(teams) && AllDistinct(officials)
    ensures AllDistinct(KeyList(court, teams, officials))
  {
    var keys := KeyList(court, teams, officials);
    forall i, j | 0 <= i < j < |keys| && keys[i] == keys[j] ensures false {
      KeyAt(court, teams, officials, i);
      KeyAt(court, teams, officials, j);
      if 1 <= i && j <= |teams| {
        Texts.DropPrefix("team ", teams[i - 1], teams[j - 1]);
      } else if i > |teams| {
        Texts.DropPrefix("official ", officials[i - 1 - |teams|], officials[j - 1 - |teams|]);
      }
    }
  }

  /** A row uses each of its keys once. */
  lemma {:induction false} KeysDistinct(row: Row)
    ensures AllDistinct(Keys(row))
  {
    UniqueDistinct(Present(row.home) + Present(row.away));
    UniqueDistinct(row.officials);
    KeyListDistinct(row.court, Unique(Present(row.home) + Present(row.away)), Unique(row.officials));
  }

  lemma {:induction false} SlotsForSnoc(bs: seq<Booking>, b: Booking, key: string)
    ensures SlotsFor(bs + [b], key) == SlotsFor(bs, key) + (if key in b.keys then [b.slot] else [])
  {
    if bs == [] {
      assert (bs + [b])[1..] == [];
    } else {
      assert (bs + [b])[1..] == bs[1..] + [b];
      SlotsForSnoc(bs[1..], b, key);
      SlotsAssociate(if key in bs[0].keys then [bs[0].slot] else [], SlotsFor(bs[1..], key),
                     if key in b.keys then [b.slot] else []);
    }
  }

  lemma {:induction false} SlotsAssociate(s: seq<Slot>, t: seq<Slot>, u: seq<Slot>)
    ensures s + (t + u) == (s + t) + u
  {
  }

  /** `resources` holds the slots of `bs`, and of `b` under the first `n` of its keys; `order` is the
      insertion order of the keys. */
  ghost predicate Grouped(resources: map<string, seq<Slot>>, order: seq<string>, bs: seq<Booking>, b: Booking, n: nat)
    requires n <= |b.keys|
  {
    && (forall key :: key in resources <==> key in order)
    && (forall key :: key in resources ==>
          resources[key] == SlotsFor(bs, key) + (if key in b.keys[..n] then [b.slot] else []))
    && (forall key :: key !in resources ==> SlotsFor(bs, key) == [] && key !in b.keys[..n])
  }

  ghost predicate GroupedAll(resources: map<string, seq<Slot>>, order: seq<string>, bs: seq<Booking>) {
    && (forall key :: key in resources <==> key in order)
    && (forall key :: key in resources ==> resources[key] == SlotsFor(bs, key))
    && (forall key :: key !in resources ==> SlotsFor(bs, key) == [])
  }

  function Listed(resources: map<string, seq<Slot>>, key: string): seq<Slot> {
    if key in resources then resources[key] else []
  }

  lemma {:induction false} GroupedNext(resources: map<string, seq<Slot>>, order: seq<string>, bs: seq<Booking>,
        b: Booking, n: nat)
    requires n < |b.keys| && Grouped(resources, order, bs, b, n) && b.keys[n] !in b.keys[..n]
    ensures var key := b.keys[n];
            Grouped(resources[key := Listed(resources, key) + [b.slot]],
                    if key in resources then order else order + [key], bs, b, n + 1)
  {
    var key := b.keys[n];
    var updated := resources[key := Listed(resources, key) + [b.slot]];
    assert b.keys[..n + 1] == b.keys[..n] + [key];
    forall k | k in updated
      ensures updated[k] == SlotsFor(bs, k) + (if k in b.keys[..n + 1] then [b.slot] else [])
    {
      if k == key { assert Listed(resources, key) == SlotsFor(bs, key); }
    }
  }

  lemma {:induction false} GroupedDone(resources: map<string, seq<Slot>>, order: seq<string>, bs: seq<Booking>,
        b: Booking)
    requires Grouped(resources, order, bs, b, |b.keys|)
    ensures GroupedAll(resources, order, bs + [b])
  {
    assert b.keys[..|b.keys|] == b.keys;
    forall key ensures SlotsFor(bs + [b], key) == SlotsFor(bs, key) + (if key in b.keys then [b.slot] else []) {
      SlotsForSnoc(bs, b, key);
    }
  }

  method AddBooking(resources: map<string, seq<Slot>>, order: seq<string>, ghost bs: seq<Booking>, b: Booking)
      returns (resources': map<string, seq<Slot>>, order': seq<string>)
    requires GroupedAll(resources, order, bs)
    requires forall i, j :: 0 <= i < j < |b.keys| ==> b.keys[i] != b.keys[j]
    ensures GroupedAll(resources', order', bs + [b])
  {
    resources', order' := resources, order;
    for j := 0 to |b.keys|
      invariant Grouped(resources', order', bs, b, j)
    {
      GroupedNext(resources', order', bs, b, j);
      var key := b.keys[j];
      order' := if key in resources' then order' else order' + [key];
      resources' := resources'[key := Listed(resources', key) + [b.slot]];
    }
    GroupedDone(resources', order', bs, b);
  }

  ghost predicate KeysOnce(bs: seq<Booking>) {
    forall k, i, j :: 0 <= k < |bs| && 0 <= i < j < |bs[k].keys| ==> bs[k].keys[i] != bs[k].keys[j]
  }

  method GroupByResource(bs: seq<Booking>) returns (resources: map<string, seq<Slot>>, order: seq<string>)
    requires KeysOnce(bs)
    ensures GroupedAll(resources, order, bs)
  {
    resources, order := map[], [];
    for i := 0 to |bs|
      invariant GroupedAll(resources, order, bs[..i])
    {
      resources, order := AddBooking(resources, order, bs[..i], bs[i]);
      assert bs[..i + 1] == bs[..i] + [bs[i]];
    }
    assert bs[..|bs|] == bs;
  }

  lemma {:induction false} RowKeysOnce(rows: seq<Row>)
    ensures KeysOnce(Bookings(rows))
  {
    var bs := Bookings(rows);
    forall k | 0 <= k < |bs| ensures forall i, j :: 0 <= i < j < |bs[k].keys| ==> bs[k].keys[i] != bs[k].keys[j] {
      KeysDistinct(rows[k]);
    }
  }

  // ----- The audit -----

  /** The first neighbours of a sorted list that overlap. */
  method FirstOverlap(s: seq<Slot>) returns (at: Option<nat>)
    ensures at.None? <==> NeighboursClear(s)
    ensures at.Some? ==> 1 <= at.value < |s| && s[at.value].start < s[at.value - 1].end
  {
    var i := 1;
    while i < |s|
      invariant 1 <= i
      invariant forall k, l :: 0 <= k < i && 0 <= l < i && l < |s| && l == k + 1 ==> s[k].end <= s[l].start
    {
      if s[i].start < s[i - 1].end { return Some(i); }
      i := i + 1;
    }
    return None;
  }

  /** Matches `a` and `b` use the resource at overlapping times. */
  ghost predicate Overlapping(bs: seq<Booking>, resource: string, a: string, b: string) {
    exists i, j ::
      && 0 <= i < |bs| && 0 <= j < |bs| && bs[i].slot.matchId == a && bs[j].slot.matchId == b
      && resource in bs[i].keys && resource in bs[j].keys
      && bs[i].slot.start <= bs[j].slot.start < bs[i].slot.end
  }

  lemma {:induction false} OverlapInBookings(bs: seq<Booking>, resource: string, at: nat)
    requires var s := SortByStart(SlotsFor(bs, resource)); 1 <= at < |s| && s[at].start < s[at - 1].end
    ensures var s := SortByStart(SlotsFor(bs, resource));
            Overlapping(bs, resource, s[at - 1].matchId, s[at].matchId)
  {
    var s := SortByStart(SlotsFor(bs, resource));
    SortSorted(SlotsFor(bs, resource));
    SortElement(SlotsFor(bs, resource), s[at - 1]);
    SortElement(SlotsFor(bs, resource), s[at]);
    SlotElement(bs, resource, s[at - 1]);
    SlotElement(bs, resource, s[at]);
  }

  ghost predicate AllClear(bs: seq<Booking>) {
    forall key :: NeighboursClear(SortByStart(SlotsFor(bs, key)))
  }

  lemma {:induction false} ListedClear(bs: seq<Booking>, resources: map<string, seq<Slot>>, order: seq<string>)
    requires GroupedAll(resources, order, bs)
    requires forall i :: 0 <= i < |order| ==> NeighboursClear(SortByStart(SlotsFor(bs, order[i])))
    ensures AllClear(bs)
  {
    forall key ensures NeighboursClear(SortByStart(SlotsFor(bs, key))) {
      if key in order {
        var i :| 0 <= i < |order| && order[i] == key;
      } else {
        assert SlotsFor(bs, key) == [];
      }
    }
  }

  /** Audits one resource; None when its bookings are clear. */
  method AuditResource(ghost bs: seq<Booking>, resource: string, list: seq<Slot>) returns (clash: Option<AuditResult>)
    requires list == SlotsFor(bs, resource)
    ensures clash.None? <==> NeighboursClear(SortByStart(SlotsFor(bs, resource)))
    ensures clash.Some? ==> clash.value.Clash? && clash.value.resource == resource
                            && Overlapping(bs, resource, clash.value.first, clash.value.second)
  {
    var sorted := SortByStart(list);
    var at := FirstOverlap(sorted);
    if at.None? { return None; }
    OverlapInBookings(bs, resource, at.value);
    return Some(Clash(resource, sorted[at.value - 1].matchId, sorted[at.value].matchId));
  }

  method AuditBookings(bs: seq<Booking>) returns (r: AuditResult)
    requires KeysOnce(bs)
    ensures !r.NoSchedule? && (r.Passed? <==> AllClear(bs))
    ensures r.Passed? ==> r.matches == |bs|
    ensures r.Clash? ==> Overlapping(bs, r.resource, r.first, r.second)
  {
    var resources, order := GroupByResource(bs);
    for k := 0 to |order|
      invariant forall i :: 0 <= i < k ==> NeighboursClear(SortByStart(SlotsFor(bs, order[i])))
    {
      assert order[k] in resources;
      var clash := AuditResource(bs, order[k], resources[order[k]]);
      if clash.Some? { return clash.value; }
    }
    ListedClear(bs, resources, order);
    return Passed(|bs|);
  }

  method Audit(rows: seq<Row>) returns (r: AuditResult)
    ensures r.NoSchedule? <==> rows == []
    ensures rows != [] ==> (r.Passed? <==> AllClear(Bookings(rows)))
    ensures r.Passed? ==> r.matches == |rows|
    ensures r.Clash? ==> Overlapping(Bookings(rows), r.resource, r.first, r.second)
  {
    if |rows| == 0 { return NoSchedule; }
    RowKeysOnce(rows);
    r := AuditBookings(Bookings(rows));
  }

  // ----- Against the plain definition -----

  predicate DisjointRows(a: Row, b: Row) { a.end <= b.start || b.end <= a.start }

  /** No two rows that share a court, a team or an official overlap in time. */
  ghost predicate NoOverlaps(rows: seq<Row>) {
    forall i, j :: 0 <= i < j < |rows| && Share(rows[i], rows[j]) ==> DisjointRows(rows[i], rows[j])
  }

  lemma {:induction false} KeyClear(bs: seq<Booking>, key: string)
    requires ProperBookings(bs)
    ensures NeighboursClear(SortByStart(SlotsFor(bs, key))) <==> ClearFor(bs, key)
  {
    var s := SlotsFor(bs, key);
    SlotsProper(bs, key);
    SortSorted(s);
    forall i | 0 <= i < |SortByStart(s)| ensures SortByStart(s)[i].start < SortByStart(s)[i].end {
      SortElement(s, SortByStart(s)[i]);
    }
    NeighboursSuffice(SortByStart(s));
    SortPairwise(DisjointSlots, s);
    SlotsPairwise(bs, key);
  }

  lemma {:induction false} ClearMeansNoOverlaps(rows: seq<Row>)
    ensures (forall key :: ClearFor(Bookings(rows), key)) <==> NoOverlaps(rows)
  {
    var bs := Bookings(rows);
    if forall key :: ClearFor(bs, key) {
      forall i, j | 0 <= i < j < |rows| && Share(rows[i], rows[j]) ensures DisjointRows(rows[i], rows[j]) {
        SharersHaveKey(rows[i], rows[j]);
        var key :| key in Keys(rows[i]) && key in Keys(rows[j]);
        assert ClearFor(bs, key);
        assert key in bs[i].keys && key in bs[j].keys;
      }
    }
    if NoOverlaps(rows) {
      forall key ensures ClearFor(bs, key) {
        forall i, j | 0 <= i < j < |bs| && key in bs[i].keys && key in bs[j].keys
          ensures DisjointSlots(bs[i].slot, bs[j].slot)
        {
          SharedKeyShares(rows[i], rows[j], key);
        }
      }
    }
  }

  /** For rows that start before they end the audit passes exactly when there are no overlaps. */
  lemma {:induction false} AuditExact(rows: seq<Row>)
    requires forall i :: 0 <= i < |rows| ==> rows[i].start < rows[i].end
    ensures AllClear(Bookings(rows)) <==> NoOverlaps(rows)
  {
    var bs := Bookings(rows);
    forall key ensures NeighboursClear(SortByStart(SlotsFor(bs, key))) <==> ClearFor(bs, key) {
      KeyClear(bs, key);
    }
    ClearMeansNoOverlaps(rows);
  }

  // ----- A match never clashes with itself -----

  predicate DifferentMatches(x: Slot, y: Slot) { x.matchId != y.matchId }

  lemma {:induction false} SlotsDifferent(bs: seq<Booking>, key: string)
    requires forall i, j :: 0 <= i < j < |bs| ==> bs[i].slot.matchId != bs[j].slot.matchId
    ensures Pairwise(DifferentMatches, SlotsFor(bs, key))
  {
    if bs != [] {
      var s := SlotsFor(bs[1..], key);
      SlotsDifferent(bs[1..], key);
      forall y | y in s ensures DifferentMatches(bs[0].slot, y) {
        SlotElement(bs[1..], key, y);
        var i :| 0 <= i < |bs[1..]| && bs[1..][i].slot == y;
        assert bs[i + 1] == bs[1..][i];
      }
      assert ([bs[0].slot] + s)[1..] == s && [] + s == s;
    }
  }

  /** With distinct matches any neighbours of a sorted list are different matches. */
  lemma {:induction false} NoSelfClash(bs: seq<Booking>, key: string, at: nat)
    requires forall i, j :: 0 <= i < j < |bs| ==> bs[i].slot.matchId != bs[j].slot.matchId
    requires 1 <= at < |SortByStart(SlotsFor(bs, key))|
    ensures var s := SortByStart(SlotsFor(bs, key)); s[at - 1].matchId != s[at].matchId
  {
    var s := SlotsFor(bs, key);
    SlotsDifferent(bs, key);
    SortPairwise(DifferentMatches, s);
    PairwiseAt(DifferentMatches, SortByStart(s), at - 1, at);
  }
}
