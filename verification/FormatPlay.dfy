/** Playing a published format to completion: the bounded pass loop and the terminal matches. */
module FormatPlay {
  import opened Cycles
  import opened Lists

  datatype Source =
    | EntrySeed(seed: nat)
    | StageRank(stageId: string, rank: nat)
    | ManualQualifier(qualifierId: string, fromStage: string)
    | Winner(winnerOf: string)
    | Loser(loserOf: string)

  datatype Match = Match(id: string, stageId: string, home: Source, away: Source)

  /** The matches in the order of their ordinals. */
  datatype Graph = Graph(matches: seq<Match>)

  ghost predicate DistinctIds(g: Graph) {
    forall i, j :: 0 <= i < j < |g.matches| ==> g.matches[i].id != g.matches[j].id
  }

  function Ids(g: Graph): set<string> { set m | m in g.matches :: m.id }

  /** The matches a slot waits for: the match it takes its winner or loser from, or every match of
      the stage it takes a finisher from. */
  function Needs(g: Graph, source: Source): set<string> {
    match source
    case EntrySeed(_) => {}
    case StageRank(stageId, _) => set m | m in g.matches && m.stageId == stageId :: m.id
    case ManualQualifier(_, fromStage) => set m | m in g.matches && m.stageId == fromStage :: m.id
    case Winner(id) => {id}
    case Loser(id) => {id}
  }

  function MatchNeeds(g: Graph, m: Match): set<string> { Needs(g, m.home) + Needs(g, m.away) }

  /** A match needs another to have been played first. */
  ghost predicate DependsOn(g: Graph, x: string, y: string) {
    exists m :: m in g.matches && m.id == x && y in MatchNeeds(g, m)
  }

  ghost function Dependency(g: Graph): (string, string) -> bool { (x, y) => DependsOn(g, x, y) }

  /** Every match referred to exists, and no match waits for itself through others. */
  ghost predicate Playable(g: Graph) {
    && (forall m :: m in g.matches ==> MatchNeeds(g, m) <= Ids(g))
    && Acyclic(Dependency(g))
  }

  /** The entry of a slot comes out of match `x`: as its winner or loser, or as a finisher of its stage. */
  ghost predicate ComesFrom(g: Graph, source: Source, x: string) {
    || source == Winner(x) || source == Loser(x)
    || (exists m, rank :: m in g.matches && m.id == x && source == StageRank(m.stageId, rank))
    || (exists m, name :: m in g.matches && m.id == x && source == ManualQualifier(name, m.stageId))
  }

  ghost predicate WaitsFor(g: Graph, m: Match, x: string) { ComesFrom(g, m.home, x) || ComesFrom(g, m.away, x) }

  lemma {:induction false} NeedsExactly(g: Graph, m: Match, x: string)
    ensures x in MatchNeeds(g, m) <==> WaitsFor(g, m, x)
  {
    SlotNeeds(g, m.home, x);
    SlotNeeds(g, m.away, x);
  }

  lemma {:induction false} SlotNeeds(g: Graph, source: Source, x: string)
    ensures x in Needs(g, source) <==> ComesFrom(g, source, x)
  {
    match source
    case StageRank(stageId, rank) =>
      if x in Needs(g, source) {
        var m :| m in g.matches && m.stageId == stageId && m.id == x;
        assert source == StageRank(m.stageId, rank);
      }
    case ManualQualifier(name, fromStage) =>
      if x in Needs(g, source) {
        var m :| m in g.matches && m.stageId == fromStage && m.id == x;
        assert source == ManualQualifier(name, m.stageId);
      }
    case _ =>
  }

  // ----- The pass loop -----

  ghost predicate Ready(g: Graph, m: Match, played: set<string>) {
    m.id !in played && MatchNeeds(g, m) <= played
  }

  /** The unplayed matches of `ms` with both entries resolved once `played` has been played. */
  function ToPlay(g: Graph, ms: seq<Match>, played: set<string>): seq<Match> {
    if ms == [] then []
    else
      var rest := ToPlay(g, ms[1..], played);
      if ms[0].id !in played && MatchNeeds(g, ms[0]) <= played then [ms[0]] + rest else rest
  }

  lemma {:induction false} ToPlayElement(g: Graph, ms: seq<Match>, played: set<string>, m: Match)
    ensures m in ToPlay(g, ms, played) <==> m in ms && Ready(g, m, played)
  {
    if ms != [] {
      ToPlayElement(g, ms[1..], played, m);
      assert ms == [ms[0]] + ms[1..];
    }
  }

  lemma {:induction false} ToPlayDistinct(g: Graph, ms: seq<Match>, played: set<string>)
    requires forall i, j :: 0 <= i < j < |ms| ==> ms[i].id != ms[j].id
    ensures var r := ToPlay(g, ms, played); forall i, j :: 0 <= i < j < |r| ==> r[i].id != r[j].id
  {
    if ms != [] {
      ToPlayDistinct(g, ms[1..], played);
      var rest := ToPlay(g, ms[1..], played);
      forall i | 0 <= i < |rest| ensures rest[i].id != ms[0].id {
        ToPlayElement(g, ms[1..], played, rest[i]);
        var k :| 0 <= k < |ms[1..]| && ms[1..][k] == rest[i];
        assert ms[k + 1] == rest[i];
      }
    }
  }

  ghost function Played(order: seq<string>): set<string> { set x | x in order }

  /** `order` is a history of play: each match once, and only after the matches it needs. */
  ghost predicate History(g: Graph, order: seq<string>) {
    && NoRepeats(order)
    && Within(order, Ids(g))
    && forall k, m :: 0 <= k < |order| && m in g.matches && m.id == order[k] ==> MatchNeeds(g, m) <= Played(order[..k])
  }

  lemma {:induction false} HistorySnoc(g: Graph, order: seq<string>, m: Match)
    requires DistinctIds(g) && History(g, order) && m in g.matches && m.id !in order
    requires MatchNeeds(g, m) <= Played(order)
    ensures History(g, order + [m.id])
  {
    var longer := order + [m.id];
    forall k, x | 0 <= k < |longer| && x in g.matches && x.id == longer[k]
      ensures MatchNeeds(g, x) <= Played(longer[..k])
    {
      if k < |order| {
        assert longer[..k] == order[..k] && x.id == order[k];
      } else {
        assert longer[..k] == order;
        OneMatch(g, x, m);
      }
    }
  }

  lemma {:induction false} OneMatch(g: Graph, x: Match, y: Match)
    requires DistinctIds(g) && x in g.matches && y in g.matches && x.id == y.id
    ensures x == y
  {
    var i :| 0 <= i < |g.matches| && g.matches[i] == x;
    var j :| 0 <= j < |g.matches| && g.matches[j] == y;
    assert i == j;
  }

  lemma {:induction false} IdCount(ms: seq<Match>)
    requires forall i, j :: 0 <= i < j < |ms| ==> ms[i].id != ms[j].id
    ensures |(set m | m in ms :: m.id)| == |ms|
  {
    if ms != [] {
      var n := |ms| - 1;
      IdCount(ms[..n]);
      var rest := set m | m in ms[..n] :: m.id;
      assert ms[n].id !in rest;
      assert (set m | m in ms :: m.id) == rest + {ms[n].id} by {
        assert ms == ms[..n] + [ms[n]];
      }
    }
  }

  lemma {:induction false} HistoryLength(g: Graph, order: seq<string>)
    requires DistinctIds(g) && History(g, order)
    ensures |order| <= |g.matches|
    ensures |order| == |g.matches| ==> Played(order) == Ids(g)
  {
    IdCount(g.matches);
    DistinctFits(order, Ids(g));
    PlayedCount(order);
    if |order| == |g.matches| && Played(order) != Ids(g) {
      var x :| x in Ids(g) && x !in order;
      DistinctFits(order, Ids(g) - {x});
      assert false;
    }
  }

  lemma {:induction false} PlayedCount(order: seq<string>)
    requires NoRepeats(order)
    ensures |Played(order)| == |order|
  {
    if order != [] {
      var n := |order| - 1;
      PlayedCount(order[..n]);
      assert Played(order) == Played(order[..n]) + {order[n]} by { assert order == order[..n] + [order[n]]; }
    }
  }

  /** Nothing left to play: every unplayed match still waits for something. */
  ghost predicate Settled(g: Graph, order: seq<string>) {
    forall m :: m in g.matches && m.id !in order ==> !(MatchNeeds(g, m) <= Played(order))
  }

  /** A settled history has played every match exactly when the format is playable. */
  lemma {:induction false} SettledIsComplete(g: Graph, order: seq<string>)
    requires DistinctIds(g) && History(g, order) && Settled(g, order)
    ensures Played(order) == Ids(g) <==> Playable(g)
  {
    if Played(order) == Ids(g) { CompletedIsPlayable(g, order); }
    if Playable(g) && Played(order) != Ids(g) {
      var stuck := Ids(g) - Played(order);
      forall x | x in stuck ensures HasSuccessor(Dependency(g), stuck, x) {
        var m :| m in g.matches && m.id == x;
        assert m.id !in order;
        var y :| y in MatchNeeds(g, m) && y !in Played(order);
        assert DependsOn(g, x, y);
        assert y in stuck && Dependency(g)(x, y);
      }
      assert stuck != {} by { var x :| x in Ids(g) && x !in Played(order); assert x in stuck; }
      EndlessMeansCycle(Dependency(g), stuck);
      assert false;
    }
  }

  lemma {:induction false} CompletedIsPlayable(g: Graph, order: seq<string>)
    requires DistinctIds(g) && History(g, order) && Played(order) == Ids(g)
    ensures Playable(g)
  {
    forall m | m in g.matches ensures MatchNeeds(g, m) <= Ids(g) {
      assert m.id in Ids(g);
      var k :| 0 <= k < |order| && order[k] == m.id;
      assert MatchNeeds(g, m) <= Played(order[..k]);
    }
    forall x, y | Dependency(g)(x, y)
      ensures exists i, j :: 0 <= j < i < |order| && order[i] == x && order[j] == y
    {
      var m :| m in g.matches && m.id == x && y in MatchNeeds(g, m);
      assert x in Ids(g);
      var i :| 0 <= i < |order| && order[i] == x;
      assert y in Played(order[..i]);
      var j :| 0 <= j < |order[..i]| && order[..i][j] == y;
      assert order[j] == y;
    }
    RankedAcyclic(Dependency(g), order);
  }

  lemma {:induction false} NothingToPlay(g: Graph, order: seq<string>)
    requires ToPlay(g, g.matches, Played(order)) == []
    ensures Settled(g, order)
  {
    forall m | m in g.matches && m.id !in order ensures !(MatchNeeds(g, m) <= Played(order)) {
      ToPlayElement(g, g.matches, Played(order), m);
    }
  }

  /** One pass: plays the ready matches one after the other. */
  method PlayAll(g: Graph, toPlay: seq<Match>, before: seq<string>) returns (order: seq<string>)
    requires DistinctIds(g) && History(g, before) && toPlay == ToPlay(g, g.matches, Played(before))
    ensures History(g, order) && |order| == |before| + |toPlay|
  {
    order := before;
    ToPlayDistinct(g, g.matches, Played(before));
    forall k | 0 <= k < |toPlay|
      ensures toPlay[k] in g.matches && toPlay[k].id !in before && MatchNeeds(g, toPlay[k]) <= Played(before)
    {
      ToPlayElement(g, g.matches, Played(before), toPlay[k]);
    }
    for i := 0 to |toPlay|
      invariant History(g, order) && |order| == |before| + i
      invariant Played(before) <= Played(order)
      invariant forall k :: i <= k < |toPlay| ==> toPlay[k].id !in order
    {
      HistorySnoc(g, order, toPlay[i]);
      order := order + [toPlay[i].id];
    }
  }

  /** The pass loop. `order` lists the matches as they are played; `settled` says that the loop was
      left through its empty pass and not because the passes ran out. */
  method PlayToCompletion(g: Graph) returns (order: seq<string>, settled: bool)
    requires DistinctIds(g)
    ensures settled
    ensures History(g, order) && Settled(g, order)
    ensures Played(order) == Ids(g) <==> Playable(g)
    ensures forall k, m, x ::
              0 <= k < |order| && m in g.matches && m.id == order[k] && WaitsFor(g, m, x) ==> x in order[..k]
    ensures forall m :: m in g.matches && m.id !in order ==> exists x :: x !in order && WaitsFor(g, m, x)
  {
    order, settled := [], false;
    var pass := 0;
    while pass <= |g.matches|
      invariant 0 <= pass <= |g.matches| + 1
      invariant History(g, order) && !settled && pass <= |order|
    {
      var toPlay := ToPlay(g, g.matches, set x | x in order);
      if |toPlay| == 0 {
        NothingToPlay(g, order);
        settled := true;
        break;
      }
      order := PlayAll(g, toPlay, order);
      pass := pass + 1;
    }
    HistoryLength(g, order);
    SettledIsComplete(g, order);
    PlayedInOrder(g, order);
  }

  /** In a settled history every match comes after the matches that its entries come from, and a match
      that was not played waits for one that was not played either. */
  lemma {:induction false} PlayedInOrder(g: Graph, order: seq<string>)
    requires History(g, order) && Settled(g, order)
    ensures forall k, m, x ::
              0 <= k < |order| && m in g.matches && m.id == order[k] && WaitsFor(g, m, x) ==> x in order[..k]
    ensures forall m :: m in g.matches && m.id !in order ==> exists x :: x !in order && WaitsFor(g, m, x)
  {
    hide WaitsFor, MatchNeeds;
    forall k, m, x | 0 <= k < |order| && m in g.matches && m.id == order[k] && WaitsFor(g, m, x)
      ensures x in order[..k]
    {
      NeedsExactly(g, m, x);
      assert x in Played(order[..k]);
    }
    forall m | m in g.matches && m.id !in order
      ensures exists x :: x !in order && WaitsFor(g, m, x)
    {
      var x :| x in MatchNeeds(g, m) && x !in Played(order);
      NeedsExactly(g, m, x);
    }
  }

  // ----- Terminal matches -----

  ghost predicate Consumes(source: Source, id: string) {
    source == Winner(id) || source == Loser(id)
  }

  ghost predicate Consumed(g: Graph, id: string) {
    exists m :: m in g.matches && (Consumes(m.home, id) || Consumes(m.away, id))
  }

  function ConsumedBy(source: Source): set<string> {
    match source
    case Winner(id) => {id}
    case Loser(id) => {id}
    case _ => {}
  }

  method TerminalMatches(g: Graph) returns (terminal: set<string>)
    ensures forall x :: x in terminal <==> x in Ids(g) && !Consumed(g, x)
    ensures g.matches != [] && Acyclic(Dependency(g)) ==> terminal != {}
  {
    var consumed: set<string> := {};
    for i := 0 to |g.matches|
      invariant forall x :: x in consumed <==>
                            exists m :: m in g.matches[..i] && (Consumes(m.home, x) || Consumes(m.away, x))
    {
      assert g.matches[..i + 1] == g.matches[..i] + [g.matches[i]];
      consumed := consumed + ConsumedBy(g.matches[i].home) + ConsumedBy(g.matches[i].away);
    }
    assert g.matches[..|g.matches|] == g.matches;
    terminal := set m | m in g.matches && m.id !in consumed :: m.id;
    if g.matches != [] && Acyclic(Dependency(g)) {
      TerminalExists(g);
    }
  }

  /** In a non-empty acyclic format some match has neither its winner nor its loser consumed. */
  lemma {:induction false} TerminalExists(g: Graph)
    requires g.matches != [] && Acyclic(Dependency(g))
    ensures exists x :: x in Ids(g) && !Consumed(g, x)
  {
    if forall x :: x in Ids(g) ==> Consumed(g, x) {
      var r: (string, string) -> bool := (x, y) => DependsOn(g, y, x);
      forall x | x in Ids(g) ensures HasSuccessor(r, Ids(g), x) {
        var m :| m in g.matches && (Consumes(m.home, x) || Consumes(m.away, x));
        assert x in MatchNeeds(g, m);
        assert m.id in Ids(g) && r(x, m.id);
      }
      assert g.matches[0].id in Ids(g);
      EndlessMeansCycle(r, Ids(g));
      ConverseAcyclic(Dependency(g), r);
      assert false;
    }
  }
}
