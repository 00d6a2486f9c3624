/** The seen-message cache of the gossip protocol, which forgets after ten minutes (gossip.go). */
module Gossip {
  import opened Prelude

  datatype Message = Message(id: string, ttl: int, timestamp: int)

  /** When each remembered message was accepted. */
  type Seen = map<string, int>

  const STALE_AFTER: int := MINUTE
  const FORGET_AFTER: int := 10 * MINUTE

  /** A message may be dated at most this far ahead of the clock that first accepts it. */
  const MAX_LEAD: int := FORGET_AFTER - STALE_AFTER

  function Process(seen: Seen, m: Message, now: int): (Seen, bool) {
    if m.id in seen then (seen, false)
    else if m.ttl <= 0 then (seen, false)
    else if now - m.timestamp > STALE_AFTER then (seen, false)
    else (seen[m.id := now], true)
  }

  function Forget(seen: Seen, now: int): Seen {
    map id | id in seen && !(seen[id] < now - FORGET_AFTER) :: seen[id]
  }

  class GossipProtocol {
    var seenMessages: Seen

    constructor ()
      ensures seenMessages == map[]
    {
      seenMessages := map[];
    }

    method ShouldProcess(m: Message, now: int) returns (process: bool)
      modifies this
      ensures (seenMessages, process) == Process(old(seenMessages), m, now)
    {
      if m.id in seenMessages {
        return false;
      }
      if m.ttl <= 0 {
        return false;
      }
      if now - m.timestamp > STALE_AFTER {
        return false;
      }
      seenMessages := seenMessages[m.id := now];
      return true;
    }

    method CleanupOldMessages(now: int)
      modifies this
      ensures seenMessages == Forget(old(seenMessages), now)
    {
      var cutoff := now - FORGET_AFTER;
      var todo := seenMessages.Keys;
      while todo != {}
        invariant todo <= seenMessages.Keys <= old(seenMessages).Keys
        invariant forall id :: id in seenMessages ==> seenMessages[id] == old(seenMessages)[id]
        invariant forall id :: id in old(seenMessages).Keys - todo ==>
                    (id in seenMessages <==> !(old(seenMessages)[id] < cutoff))
        decreases todo
      {
        var id :| id in todo;
        todo := todo - {id};
        if seenMessages[id] < cutoff {
          seenMessages := seenMessages - {id};
        }
      }
    }
  }

  // ---- Runs, against a set that never forgets ----

  datatype Event = Arrival(message: Message, time: int) | CleanupEvent(time: int)

  function Answer(seen: Seen, e: Event): bool {
    e.Arrival? && Process(seen, e.message, e.time).1
  }

  function Step(seen: Seen, e: Event): Seen {
    match e
    case Arrival(m, now) => Process(seen, m, now).0
    case CleanupEvent(now) => Forget(seen, now)
  }

  /** The reference: the same checks over a set of IDs that only grows. */
  function IdealAnswer(ever: set<string>, e: Event): bool {
    e.Arrival? && e.message.id !in ever && e.message.ttl > 0 && e.time - e.message.timestamp <= STALE_AFTER
  }

  function IdealStep(ever: set<string>, e: Event): set<string> {
    if IdealAnswer(ever, e) then ever + {e.message.id} else ever
  }

  function Answers(seen: Seen, es: seq<Event>): seq<bool>
    decreases |es|
  {
    if es == [] then [] else [Answer(seen, es[0])] + Answers(Step(seen, es[0]), es[1..])
  }

  function IdealAnswers(ever: set<string>, es: seq<Event>): seq<bool>
    decreases |es|
  {
    if es == [] then [] else [IdealAnswer(ever, es[0])] + IdealAnswers(IdealStep(ever, es[0]), es[1..])
  }

  predicate Ordered(es: seq<Event>, now: int) {
    es != [] ==> now <= es[0].time && Ordered(es[1..], es[0].time)
  }

  /** Copies of a message carry its timestamp. */
  ghost predicate StampedBy(es: seq<Event>, stamps: map<string, int>) {
    forall e :: e in es && e.Arrival? ==>
      e.message.id in stamps && e.message.timestamp == stamps[e.message.id]
  }

  /** Whatever has been forgotten is too old to be accepted again. */
  ghost predicate Agree(seen: Seen, ever: set<string>, stamps: map<string, int>, now: int) {
    && seen.Keys <= ever
    && (forall id :: id in seen ==> seen[id] <= now && id in stamps && stamps[id] <= seen[id] + MAX_LEAD)
    && forall id :: id in ever && id !in seen ==> id in stamps && now - stamps[id] > STALE_AFTER
  }

  lemma StepAgrees(seen: Seen, ever: set<string>, stamps: map<string, int>, e: Event, now: int)
    requires Agree(seen, ever, stamps, now) && now <= e.time
    requires StampedBy([e], stamps)
    requires e.Arrival? && Answer(seen, e) ==> e.message.timestamp <= e.time + MAX_LEAD
    ensures Answer(seen, e) == IdealAnswer(ever, e)
    ensures Agree(Step(seen, e), IdealStep(ever, e), stamps, e.time)
  {
    assert e in [e];
  }

  /** Only acceptances need to respect the lead. */
  ghost predicate AcceptedInTime(seen: Seen, es: seq<Event>)
    decreases |es|
  {
    es != [] ==>
      && (Answer(seen, es[0]) ==> es[0].message.timestamp <= es[0].time + MAX_LEAD)
      && AcceptedInTime(Step(seen, es[0]), es[1..])
  }

  /** At most once: a cache that forgets answers every message exactly as one that never forgets, over every run
      of arrivals and cleanups in which accepted messages are dated at most nine minutes ahead. */
  lemma {:induction false} ForgettingIsInvisible(seen: Seen, ever: set<string>, stamps: map<string, int>,
                                                 es: seq<Event>, now: int)
    requires Agree(seen, ever, stamps, now) && Ordered(es, now)
    requires StampedBy(es, stamps) && AcceptedInTime(seen, es)
    ensures Answers(seen, es) == IdealAnswers(ever, es)
    decreases |es|
  {
    if es != [] {
      assert es[0] in es;
      StepAgrees(seen, ever, stamps, es[0], now);
      ForgettingIsInvisible(Step(seen, es[0]), IdealStep(ever, es[0]), stamps, es[1..], es[0].time);
    }
  }

  /** The runs that follow the acceptance of m: copies of m with its timestamp, and cleanups. */
  ghost predicate CopiesOf(m: Message, es: seq<Event>) {
    forall e :: e in es && e.Arrival? ==> e.message.id == m.id && e.message.timestamp == m.timestamp
  }

  lemma {:induction false} SeenIsRefused(ever: set<string>, m: Message, es: seq<Event>)
    requires m.id in ever && CopiesOf(m, es)
    ensures true !in IdealAnswers(ever, es)
    decreases |es|
  {
    if es != [] {
      assert es[0] in es;
      assert IdealStep(ever, es[0]) == ever;
      SeenIsRefused(ever, m, es[1..]);
    }
  }

  /** A message in the cache whose copies come later: none of them is accepted unless it was dated too early. */
  lemma {:induction false} CopiesAcceptedInTime(seen: Seen, ever: set<string>, m: Message, es: seq<Event>, now: int)
    requires Agree(seen, ever, map[m.id := m.timestamp], now) && m.id in ever
    requires Ordered(es, now) && CopiesOf(m, es)
    ensures AcceptedInTime(seen, es)
    decreases |es|
  {
    if es != [] {
      assert es[0] in es;
      assert !Answer(seen, es[0]);
      StepAgrees(seen, ever, map[m.id := m.timestamp], es[0], now);
      assert IdealStep(ever, es[0]) == ever;
      CopiesAcceptedInTime(Step(seen, es[0]), ever, m, es[1..], es[0].time);
    }
  }

  /** Exactly nine minutes: an accepted message can be accepted again in some run of its copies and cleanups
      if and only if it was dated more than nine minutes ahead. */
  lemma AcceptedTwiceIff(m: Message, first: int)
    requires m.ttl > 0 && first - m.timestamp <= STALE_AFTER
    ensures (exists es :: Ordered(es, first) && CopiesOf(m, es) && true in Answers(map[m.id := first], es))
            <==> m.timestamp > first + MAX_LEAD
  {
    if m.timestamp > first + MAX_LEAD {
      var later := first + FORGET_AFTER + 1;
      var es := [CleanupEvent(later), Arrival(m, later)];
      assert es[1..] == [Arrival(m, later)] && es[1..][1..] == [];
      assert Forget(map[m.id := first], later) == map[];
      assert Answers(map[m.id := first], es) == [false] + Answers(map[], es[1..]);
      assert Answers(map[], es[1..]) == [true] + Answers(map[m.id := later], []);
      assert Answers(map[m.id := first], es)[1] == true;
      assert Ordered(es, first) && CopiesOf(m, es) && true in Answers(map[m.id := first], es);
    } else {
      var stamps := map[m.id := m.timestamp];
      forall es | Ordered(es, first) && CopiesOf(m, es) ensures true !in Answers(map[m.id := first], es) {
        assert Agree(map[m.id := first], {m.id}, stamps, first);
        CopiesAcceptedInTime(map[m.id := first], {m.id}, m, es, first);
        ForgettingIsInvisible(map[m.id := first], {m.id}, stamps, es, first);
        SeenIsRefused({m.id}, m, es);
      }
    }
  }

  // ---- The limits in nanoseconds ----

  /** A message not in the cache is processed exactly with a positive TTL and at most a minute after its timestamp,
      and then it is in the cache; one in the cache never is, and leaves it as it is. */
  lemma ProcessedIff(seen: Seen, m: Message, now: int)
    ensures Process(seen, m, now).1
            <==> m.id !in seen && m.ttl > 0 && now - m.timestamp <= 60_000_000_000
    ensures Process(seen, m, now).0 == if Process(seen, m, now).1 then seen[m.id := now] else seen
  {
  }

  /** A cleanup forgets exactly what was accepted more than ten minutes ago. */
  lemma ForgottenIff(seen: Seen, id: string, now: int)
    requires id in seen
    ensures id in Forget(seen, now) <==> now - seen[id] <= 600_000_000_000
    ensures id in Forget(seen, now) ==> Forget(seen, now)[id] == seen[id]
  {
  }

  /** So a message accepted at some moment can be accepted again exactly when it was dated over nine minutes ahead. */
  lemma NineMinutesAhead(m: Message, first: int)
    requires m.ttl > 0 && first - m.timestamp <= 60_000_000_000
    ensures (exists es :: Ordered(es, first) && CopiesOf(m, es) && true in Answers(map[m.id := first], es))
            <==> m.timestamp - first > 540_000_000_000
  {
    AcceptedTwiceIff(m, first);
  }
}
