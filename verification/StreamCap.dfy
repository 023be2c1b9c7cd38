/** The cap on concurrent public version streams: a counter for each client subject, taken when a
    stream opens and given back once, by whichever of two notifications comes first. */
module StreamCap {
  /** A stream that was let in. `released` is the flag its release closure keeps. */
  datatype Stream = Stream(subject: string, released: bool)

  /** The counters, and every stream let in so far in order. */
  datatype Cap = Cap(open: map<string, int>, streams: seq<Stream>)

  /** `Ended` is a `close` or a `finish` notification of a stream; a stream can have both. */
  datatype Event = Request(subject: string) | Ended(stream: nat)

  function Opened(c: Cap, subject: string): int { if subject in c.open then c.open[subject] else 0 }

  function Admit(c: Cap, maximum: nat, subject: string): Cap {
    if Opened(c, subject) >= maximum then c
    else Cap(c.open[subject := Opened(c, subject) + 1], c.streams + [Stream(subject, false)])
  }

  function Release(c: Cap, stream: nat): Cap {
    if stream >= |c.streams| || c.streams[stream].released then c
    else
      var subject := c.streams[stream].subject;
      var remaining := (if subject in c.open then c.open[subject] else 1) - 1;
      Cap(if remaining > 0 then c.open[subject := remaining] else c.open - {subject},
          c.streams[stream := Stream(subject, true)])
  }

  function Step(c: Cap, maximum: nat, e: Event): Cap {
    match e
    case Request(subject) => Admit(c, maximum, subject)
    case Ended(stream) => Release(c, stream)
  }

  function Run(maximum: nat, events: seq<Event>): Cap {
    if events == [] then Cap(map[], []) else Step(Run(maximum, events[..|events| - 1]), maximum, events[|events| - 1])
  }

  /** The streams of a subject that have not ended. */
  function Live(streams: seq<Stream>, subject: string): nat {
    if streams == [] then 0
    else
      var last := streams[|streams| - 1];
      Live(streams[..|streams| - 1], subject) + (if last.subject == subject && !last.released then 1 else 0)
  }

  ghost predicate SubjectOk(c: Cap, maximum: nat, subject: string) {
    && Live(c.streams, subject) <= maximum
    && (subject in c.open <==> Live(c.streams, subject) > 0)
    && (subject in c.open ==> c.open[subject] == Live(c.streams, subject))
  }

  /** Every counter is the number of live streams of its subject, within the maximum, and there is no
      counter for a subject without one. */
  ghost predicate Ok(c: Cap, maximum: nat) { forall subject :: SubjectOk(c, maximum, subject) }

  lemma {:induction false} LiveUpdate(streams: seq<Stream>, i: nat, subject: string)
    requires i < |streams| && !streams[i].released
    ensures Live(streams[i := Stream(streams[i].subject, true)], subject)
            == Live(streams, subject) - (if streams[i].subject == subject then 1 else 0)
  {
    var n := |streams| - 1;
    var ended := streams[i := Stream(streams[i].subject, true)];
    if i == n {
      assert ended[..n] == streams[..n];
    } else {
      LiveUpdate(streams[..n], i, subject);
      assert ended[..n] == streams[..n][i := Stream(streams[i].subject, true)];
    }
  }

  lemma {:induction false} LiveSnoc(streams: seq<Stream>, s: Stream, subject: string)
    ensures Live(streams + [s], subject)
              == Live(streams, subject) + (if s.subject == subject && !s.released then 1 else 0)
  {
    assert (streams + [s])[..|streams|] == streams;
  }

  lemma {:induction false} StepKeeps(c: Cap, maximum: nat, e: Event)
    requires Ok(c, maximum)
    ensures Ok(Step(c, maximum, e), maximum)
  {
    forall subject ensures SubjectOk(Step(c, maximum, e), maximum, subject) {
      assert SubjectOk(c, maximum, subject);
      match e
      case Request(asking) =>
        LiveSnoc(c.streams, Stream(asking, false), subject);
      case Ended(stream) =>
        if stream < |c.streams| && !c.streams[stream].released {
          assert SubjectOk(c, maximum, c.streams[stream].subject);
          LiveUpdate(c.streams, stream, subject);
        }
    }
  }

  /** In every run, with streams ending in any order and notified any number of times. */
  lemma {:induction false} RunKeeps(maximum: nat, events: seq<Event>)
    ensures Ok(Run(maximum, events), maximum)
  {
    if events != [] {
      RunKeeps(maximum, events[..|events| - 1]);
      StepKeeps(Run(maximum, events[..|events| - 1]), maximum, events[|events| - 1]);
    }
  }

  /** A request is let in exactly when its own subject has fewer live streams than the maximum,
      whatever other subjects do. */
  lemma {:induction false} AdmittedExact(maximum: nat, events: seq<Event>, subject: string)
    ensures var before, after := Run(maximum, events), Run(maximum, events + [Request(subject)]);
            after.streams == before.streams
                             + if Live(before.streams, subject) < maximum then [Stream(subject, false)] else []
  {
    assert (events + [Request(subject)])[..|events|] == events;
    RunKeeps(maximum, events);
    assert SubjectOk(Run(maximum, events), maximum, subject);
  }

  /** The second notification of a stream changes nothing, whatever happened in between. */
  lemma {:induction false} ReleasedOnce(c: Cap, maximum: nat, stream: nat, between: seq<Event>)
    requires stream < |c.streams| && c.streams[stream].released
    ensures var later := Continue(c, maximum, between);
            stream < |later.streams| && later.streams[stream] == c.streams[stream] && Release(later, stream) == later
  {
    if between != [] { ReleasedOnce(c, maximum, stream, between[..|between| - 1]); }
  }

  function Continue(c: Cap, maximum: nat, events: seq<Event>): Cap {
    if events == [] then c else Step(Continue(c, maximum, events[..|events| - 1]), maximum, events[|events| - 1])
  }

  lemma {:induction false} NoneLive(streams: seq<Stream>, subject: string)
    requires forall i :: 0 <= i < |streams| ==> streams[i].released
    ensures Live(streams, subject) == 0
  {
    if streams != [] { NoneLive(streams[..|streams| - 1], subject); }
  }

  /** When every stream has ended no counter is left behind. */
  lemma {:induction false} NothingLeaks(maximum: nat, events: seq<Event>)
    requires forall i :: 0 <= i < |Run(maximum, events).streams| ==> Run(maximum, events).streams[i].released
    ensures Run(maximum, events).open == map[]
  {
    var c := Run(maximum, events);
    RunKeeps(maximum, events);
    forall subject ensures subject !in c.open {
      assert SubjectOk(c, maximum, subject);
      NoneLive(c.streams, subject);
    }
  }

  /** The hook as the server keeps it. */
  class StreamHook {
    const maximum: nat
    var open: map<string, int>
    var streams: seq<Stream>

    ghost function Value(): Cap reads this { Cap(open, streams) }

    ghost predicate Valid() reads this { Ok(Value(), maximum) }

    constructor (maximum: nat)
      ensures Valid() && this.maximum == maximum && Value() == Run(maximum, [])
    {
      this.maximum := maximum;
      open := map[];
      streams := [];
    }

    method OnRequest(subject: string) returns (admitted: bool)
      requires Valid()
      modifies this
      ensures Valid() && Value() == Admit(old(Value()), maximum, subject)
      ensures admitted <==> old(Live(streams, subject)) < maximum
      ensures forall other :: Live(streams, other)
                == old(Live(streams, other)) + (if admitted && other == subject then 1 else 0)
    {
      StepKeeps(Value(), maximum, Request(subject));
      assert SubjectOk(Value(), maximum, subject);
      var current := if subject in open then open[subject] else 0;
      if current >= maximum { return false; }
      forall other
        ensures Live(streams + [Stream(subject, false)], other)
                == Live(streams, other) + (if other == subject then 1 else 0)
      {
        LiveSnoc(streams, Stream(subject, false), other);
      }
      open := open[subject := current + 1];
      streams := streams + [Stream(subject, false)];
      return true;
    }

    /** Ends one stream: the live count of its subject drops by one if it had not ended before. */
    method OnEnded(stream: nat)
      requires Valid() && stream < |streams|
      modifies this
      ensures Valid() && Value() == Release(old(Value()), stream)
      ensures streams == old(streams)[stream := Stream(old(streams)[stream].subject, true)]
      ensures forall other :: Live(streams, other)
                == old(Live(streams, other))
                   - (if old(streams)[stream] == Stream(other, false) then 1 else 0)
      ensures old(streams)[stream].released ==> open == old(open)
    {
      StepKeeps(Value(), maximum, Ended(stream));
      if streams[stream].released {
        assert streams == streams[stream := Stream(streams[stream].subject, true)];
        return;
      }
      var subject := streams[stream].subject;
      forall other
        ensures Live(streams[stream := Stream(subject, true)], other)
                == Live(streams, other) - (if other == subject then 1 else 0)
      {
        LiveUpdate(streams, stream, other);
      }
      streams := streams[stream := Stream(subject, true)];
      var remaining := (if subject in open then open[subject] else 1) - 1;
      if remaining > 0 { open := open[subject := remaining]; } else { open := open - {subject}; }
    }
  }
}
