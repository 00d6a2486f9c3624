/** What holds over whole runs of the vote manager, restarts included. */
module VotingRuns {
  import opened Prelude
  import opened Sequences
  import opened VoteStore
  import opened ByteCodec
  import opened Signatures
  import opened Blocks
  import opened Voting

  datatype Event =
    | StartEvent(blockHash: Bytes, totalValidators: nat, now: int)
    | CastEvent(blockHash: Bytes, validatorID: string, signature: Bytes, now: int,
                chain: Option<Electorate>, written: bool)
    | CleanupEvent(maxAge: int, now: int)
    | RestartEvent(order: seq<string>)

  ghost predicate Enabled(st: State, e: Event) {
    e.RestartEvent? ==> Enumerates(e.order, st.db.Keys)
  }

  ghost function Step(crypto: Crypto, st: State, e: Event): State
    requires Enabled(st, e)
  {
    match e
    case StartEvent(h, n, now) => StartSession(st, h, n, now).0
    case CastEvent(h, v, signature, now, chain, written) => Cast(crypto, st, h, v, signature, now, chain, written).0
    case CleanupEvent(maxAge, now) => CleanUp(st, maxAge, now)
    case RestartEvent(order) => Restart(crypto, st, order)
  }

  ghost predicate ValidRun(crypto: Crypto, st: State, es: seq<Event>)
    decreases |es|
  {
    es == [] || (Enabled(st, es[0]) && ValidRun(crypto, Step(crypto, st, es[0]), es[1..]))
  }

  ghost function Run(crypto: Crypto, st: State, es: seq<Event>): State
    requires ValidRun(crypto, st, es)
    decreases |es|
  {
    if es == [] then st else Run(crypto, Step(crypto, st, es[0]), es[1..])
  }

  ghost predicate Accepts(crypto: Crypto, st: State, e: Event) {
    e.CastEvent?
    && Cast(crypto, st, e.blockHash, e.validatorID, e.signature, e.now, e.chain, e.written).1.None?
  }

  /** The (block, validator) pairs whose votes were accepted, in order. */
  ghost function Accepted(crypto: Crypto, st: State, es: seq<Event>): seq<(Bytes, string)>
    requires ValidRun(crypto, st, es)
    decreases |es|
  {
    if es == [] then []
    else
      (if Accepts(crypto, st, es[0]) then [(es[0].blockHash, es[0].validatorID)] else [])
      + Accepted(crypto, Step(crypto, st, es[0]), es[1..])
  }

  ghost predicate AllWritten(es: seq<Event>) {
    forall e :: e in es && e.CastEvent? ==> e.written
  }

  // ---- Sessions: finalized exactly at the quorum ----

  ghost predicate SessionOk(h: Bytes, s: Session) {
    && s.blockHash == h
    && s.requiredVotes == Quorum(s.totalValidators)
    && |s.votes| <= s.requiredVotes
    && (s.finalized <==> |s.votes| == s.requiredVotes)
    && (forall v :: v in s.votes ==> s.votes[v].validatorID == v && s.votes[v].blockHash == h)
  }

  ghost predicate SessionsOk(st: State) {
    forall h :: h in st.sessions ==> SessionOk(h, st.sessions[h])
  }

  lemma CountedSessionOk(h: Bytes, s: Session, vote: Vote, now: int)
    requires SessionOk(h, s) && !s.finalized
    requires vote.validatorID !in s.votes && vote.blockHash == h
    ensures SessionOk(h, CountVote(s, vote, now))
  {
    var votes := s.votes[vote.validatorID := vote];
    assert votes.Keys == s.votes.Keys + {vote.validatorID};
    assert |votes| == |votes.Keys| == |s.votes| + 1;
  }

  lemma StepKeepsSessionsOk(crypto: Crypto, st: State, e: Event)
    requires SessionsOk(st) && Enabled(st, e)
    ensures SessionsOk(Step(crypto, st, e))
  {
    if Accepts(crypto, st, e) {
      var vote := MakeVote(crypto, e.blockHash, e.validatorID, e.signature, e.now);
      CountedSessionOk(e.blockHash, st.sessions[e.blockHash], vote, e.now);
    }
  }

  /** In every reachable state a session is finalized iff it holds exactly its required votes, never more. */
  lemma {:induction false} FinalizedIffQuorum(crypto: Crypto, st: State, es: seq<Event>)
    requires SessionsOk(st) && ValidRun(crypto, st, es)
    ensures SessionsOk(Run(crypto, st, es))
    decreases |es|
  {
    if es != [] {
      StepKeepsSessionsOk(crypto, st, es[0]);
      FinalizedIffQuorum(crypto, Step(crypto, st, es[0]), es[1..]);
    }
  }

  // ---- At most once ----

  /** The pair is both marked in memory and recorded on disk. */
  ghost predicate Remembered(crypto: Crypto, st: State, h: Bytes, v: string) {
    var id := crypto.ids(h, v);
    id in st.processed && id in st.db && st.db[id].Record?
  }

  lemma StepKeepsCanonical(crypto: Crypto, st: State, e: Event)
    requires Canonical(st.db, crypto.ids) && Enabled(st, e)
    ensures Canonical(Step(crypto, st, e).db, crypto.ids)
  {
    if e.RestartEvent? {
      LoadIsCanonical(st.db, e.order, {}, crypto.ids);
    }
  }

  lemma StepKeepsRemembered(crypto: Crypto, st: State, e: Event, h: Bytes, v: string)
    requires Canonical(st.db, crypto.ids) && Enabled(st, e) && Remembered(crypto, st, h, v)
    ensures Remembered(crypto, Step(crypto, st, e), h, v)
  {
    if e.RestartEvent? {
      OrderInside(e.order, st.db.Keys);
      LoadOfCanonical(st.db, e.order, {}, crypto.ids);
      LoadMarksAll(st.db, e.order, {}, crypto.ids);
      assert crypto.ids(h, v) in e.order;
    }
  }

  lemma {:induction false} RememberedIsRefused(crypto: Crypto, st: State, es: seq<Event>, h: Bytes, v: string)
    requires Canonical(st.db, crypto.ids) && ValidRun(crypto, st, es) && Remembered(crypto, st, h, v)
    ensures (h, v) !in Accepted(crypto, st, es)
    decreases |es|
  {
    if es != [] {
      StepKeepsCanonical(crypto, st, es[0]);
      StepKeepsRemembered(crypto, st, es[0], h, v);
      RememberedIsRefused(crypto, Step(crypto, st, es[0]), es[1..], h, v);
    }
  }

  /** No pair is accepted twice, across any number of cleanups and restarts, if accepted votes reach the disk. */
  lemma {:induction false} AcceptedAtMostOnce(crypto: Crypto, st: State, es: seq<Event>)
    requires Canonical(st.db, crypto.ids) && ValidRun(crypto, st, es) && AllWritten(es)
    ensures NoDuplicates(Accepted(crypto, st, es))
    decreases |es|
  {
    if es != [] {
      var next := Step(crypto, st, es[0]);
      StepKeepsCanonical(crypto, st, es[0]);
      assert AllWritten(es[1..]);
      AcceptedAtMostOnce(crypto, next, es[1..]);
      if Accepts(crypto, st, es[0]) {
        var h, v := es[0].blockHash, es[0].validatorID;
        assert es[0] in es && Remembered(crypto, next, h, v);
        RememberedIsRefused(crypto, next, es[1..], h, v);
      }
    }
  }

  /** The same for a process started on any disk, legacy records included; the pairs that the migrating load keeps
      are never accepted again. */
  lemma AcceptedAtMostOnceFromDisk(crypto: Crypto, disk: Database, order: seq<string>, es: seq<Event>)
    requires WellKeyed(disk) && Enumerates(order, disk.Keys) && AllWritten(es)
    requires ValidRun(crypto, Restart(crypto, State(map[], {}, disk), order), es)
    ensures var st := Restart(crypto, State(map[], {}, disk), order);
            && NoDuplicates(Accepted(crypto, st, es))
            && (forall h, v :: HasPair(st.db, h, v) ==> (h, v) !in Accepted(crypto, st, es))
  {
    var st := Restart(crypto, State(map[], {}, disk), order);
    LoadIsCanonical(disk, order, {}, crypto.ids);
    AcceptedAtMostOnce(crypto, st, es);
    OrderInside(order, disk.Keys);
    LoadMarksAll(disk, order, {}, crypto.ids);
    forall h, v | HasPair(st.db, h, v) ensures (h, v) !in Accepted(crypto, st, es) {
      LoadAddsNoPair(disk, order, {}, crypto.ids, h, v);
      var k :| k in disk && disk[k].Record? && disk[k].vote.blockHash == h && disk[k].vote.validatorID == v;
      assert k in order;
      RememberedIsRefused(crypto, st, es, h, v);
    }
  }

  // ---- Votes whose write failed ----

  /** Every vote on disk is marked processed. */
  ghost predicate Indexed(st: State) {
    forall k :: k in st.db && st.db[k].Record? ==> k in st.processed
  }

  /** What a process knows right after it started, and ever after. */
  lemma {:induction false} AlwaysIndexed(crypto: Crypto, st: State, es: seq<Event>)
    requires Canonical(st.db, crypto.ids) && Indexed(st) && ValidRun(crypto, st, es)
    ensures Canonical(Run(crypto, st, es).db, crypto.ids) && Indexed(Run(crypto, st, es))
    decreases |es|
  {
    if es != [] {
      StepKeepsCanonical(crypto, st, es[0]);
      if es[0].RestartEvent? {
        RestartIsIndexed(crypto, st, es[0].order);
      }
      AlwaysIndexed(crypto, Step(crypto, st, es[0]), es[1..]);
    }
  }

  lemma RestartIsIndexed(crypto: Crypto, st: State, order: seq<string>)
    requires Canonical(st.db, crypto.ids) && Enumerates(order, st.db.Keys)
    ensures Indexed(Restart(crypto, st, order)) && Restart(crypto, st, order).db == st.db
  {
    OrderInside(order, st.db.Keys);
    LoadOfCanonical(st.db, order, {}, crypto.ids);
    LoadMarksAll(st.db, order, {}, crypto.ids);
  }

  ghost predicate AcceptedAgain(crypto: Crypto, st: State, later: seq<Event>, h: Bytes, v: string) {
    ValidRun(crypto, st, later) && (h, v) in Accepted(crypto, st, later)
  }

  /** Restart, open the session again, cast the vote again. */
  function Replayed(e: Event, order: seq<string>): seq<Event>
    requires e.CastEvent?
  {
    [RestartEvent(order), StartEvent(e.blockHash, 1, e.now), e]
  }

  /** An accepted vote can be accepted again in some later run exactly when its write failed. */
  lemma AcceptedAgainIff(crypto: Crypto, st: State, e: Event)
    requires Canonical(st.db, crypto.ids) && Indexed(st) && Accepts(crypto, st, e)
    ensures (exists later :: AcceptedAgain(crypto, Step(crypto, st, e), later, e.blockHash, e.validatorID))
            <==> !e.written
  {
    var next := Step(crypto, st, e);
    StepKeepsCanonical(crypto, st, e);
    if e.written {
      forall later ensures !AcceptedAgain(crypto, next, later, e.blockHash, e.validatorID) {
        if ValidRun(crypto, next, later) {
          RememberedIsRefused(crypto, next, later, e.blockHash, e.validatorID);
        }
      }
    } else {
      var order := SomeOrder(next.db.Keys);
      ForgottenIsAccepted(crypto, next, e, order);
    }
  }

  /** After a restart nothing recalls a vote that is not on disk. */
  lemma ForgottenIsAccepted(crypto: Crypto, st: State, e: Event, order: seq<string>)
    requires Canonical(st.db, crypto.ids) && Enumerates(order, st.db.Keys) && e.CastEvent?
    requires var id := crypto.ids(e.blockHash, e.validatorID); !(id in st.db && st.db[id].Record?)
    requires CheckVoter(crypto, e.chain, MakeVote(crypto, e.blockHash, e.validatorID, e.signature, e.now)).None?
    ensures AcceptedAgain(crypto, st, Replayed(e, order), e.blockHash, e.validatorID)
  {
    var es := Replayed(e, order);
    var st1 := Step(crypto, st, es[0]);
    var id := crypto.ids(e.blockHash, e.validatorID);
    OrderInside(order, st.db.Keys);
    if id in st1.processed {
      LoadOfCanonicalMarks(st.db, order, {}, crypto.ids, id);
      assert false;
    }
    var st2 := Step(crypto, st1, es[1]);
    assert Accepts(crypto, st2, e);
    assert es[1..] == [es[1], e] && es[1..][1..] == [e] && [e][1..] == [];
    assert ValidRun(crypto, st2, [e]) && Accepted(crypto, st2, [e]) == [(e.blockHash, e.validatorID)];
    assert ValidRun(crypto, st1, es[1..]) && Accepted(crypto, st1, es[1..]) == Accepted(crypto, st2, [e]);
    assert Accepted(crypto, st, es) == Accepted(crypto, st1, es[1..]);
  }

  // ---- Votes a disk recorded before the load ----

  /** No later run of the process started on the disk accepts a pair recorded there. */
  ghost predicate RecordedIsFinal(crypto: Crypto, disk: Database, order: seq<string>)
    requires Enumerates(order, disk.Keys)
  {
    forall es, h, v :: HasPair(disk, h, v)
      ==> !AcceptedAgain(crypto, Restart(crypto, State(map[], {}, disk), order), es, h, v)
  }

  /** Whoever was recorded can never vote again exactly when the load deletes no record too late. */
  lemma RecordedIsFinalIff(crypto: Crypto, disk: Database, order: seq<string>)
    requires WellKeyed(disk) && Enumerates(order, disk.Keys)
    ensures RecordedIsFinal(crypto, disk, order) <==> NoLateDeletion(disk, order, crypto.ids)
  {
    var st := Restart(crypto, State(map[], {}, disk), order);
    OrderInside(order, disk.Keys);
    LoadIsCanonical(disk, order, {}, crypto.ids);
    if NoLateDeletion(disk, order, crypto.ids) {
      forall es, h, v | HasPair(disk, h, v) ensures !AcceptedAgain(crypto, st, es, h, v) {
        RecordedIsRemembered(crypto, disk, order, h, v);
        if ValidRun(crypto, st, es) {
          RememberedIsRefused(crypto, st, es, h, v);
        }
      }
    } else {
      var lost := LateDeletionEmptiesKey(disk, order, {}, crypto.ids);
      var e := CastEvent(lost.blockHash, lost.validatorID, [], 0, None, true);
      LostIsAccepted(crypto, st, e);
      assert !RecordedIsFinal(crypto, disk, order);
    }
  }

  lemma RecordedIsRemembered(crypto: Crypto, disk: Database, order: seq<string>, h: Bytes, v: string)
    requires WellKeyed(disk) && Enumerates(order, disk.Keys)
    requires NoLateDeletion(disk, order, crypto.ids) && HasPair(disk, h, v)
    ensures Remembered(crypto, Restart(crypto, State(map[], {}, disk), order), h, v)
  {
    OrderInside(order, disk.Keys);
    var k :| k in disk && disk[k].Record? && disk[k].vote.blockHash == h && disk[k].vote.validatorID == v;
    assert k in order;
    var j :| 0 <= j < |order| && order[j] == k;
    VoteSurvives(disk, order, {}, crypto.ids, j, crypto.ids(h, v));
    LoadMarksAll(disk, order, {}, crypto.ids);
  }

  /** A pair that is not on disk under its ID is accepted again by any cast that passes the voter checks. */
  lemma LostIsAccepted(crypto: Crypto, st: State, e: Event)
    requires Canonical(st.db, crypto.ids) && e.CastEvent?
    requires crypto.ids(e.blockHash, e.validatorID) !in st.db
    requires CheckVoter(crypto, e.chain, MakeVote(crypto, e.blockHash, e.validatorID, e.signature, e.now)).None?
    ensures exists es :: AcceptedAgain(crypto, st, es, e.blockHash, e.validatorID)
  {
    var again := SomeOrder(st.db.Keys);
    ForgottenIsAccepted(crypto, st, e, again);
  }

  // ---- Who voted ----

  /** Every cast vote was checked against a chain state whose active validators lie in the set. */
  ghost predicate CheckedAgainst(active: set<string>, es: seq<Event>) {
    forall e :: e in es && e.CastEvent? ==> e.chain.Some? && Elements(e.chain.value.active) <= active
  }

  ghost predicate VotersWithin(active: set<string>, st: State) {
    forall h :: h in st.sessions ==> st.sessions[h].votes.Keys <= active
  }

  lemma StepKeepsVotersWithin(crypto: Crypto, st: State, e: Event, active: set<string>)
    requires Enabled(st, e) && VotersWithin(active, st) && CheckedAgainst(active, [e])
    ensures VotersWithin(active, Step(crypto, st, e))
  {
    if Accepts(crypto, st, e) {
      assert e in [e];
      assert e.validatorID in Elements(e.chain.value.active);
    }
  }

  lemma {:induction false} OnlyActiveVoters(crypto: Crypto, st: State, es: seq<Event>, active: set<string>)
    requires ValidRun(crypto, st, es) && VotersWithin(active, st) && CheckedAgainst(active, es)
    ensures VotersWithin(active, Run(crypto, st, es))
    decreases |es|
  {
    if es != [] {
      assert es[0] in es;
      StepKeepsVotersWithin(crypto, st, es[0], active);
      OnlyActiveVoters(crypto, Step(crypto, st, es[0]), es[1..], active);
    }
  }

  // ---- What makes a vote count ----

  /** The validator is active, recorded and not suspended, and the curve accepts the signature's two halves on the
      block hash under the recorded key: both coordinates of a 64-byte key, or the first of any other. */
  ghost predicate Justified(crypto: Crypto, chain: Electorate, blockHash: Bytes, validatorID: string,
                            signature: Bytes) {
    && validatorID in chain.active && validatorID in chain.validators && !chain.validators[validatorID].suspended
    && |signature| >= 32
    && var key, half := chain.validators[validatorID].publicKey, |signature| / 2;
       var x := FromBytes(if |key| == 64 then key[..32] else key);
       var y := if |key| == 64 then FromBytes(key[32..]) else crypto.curve.legacyY(x);
       key != []
       && crypto.curve.verify(PublicKey(x, y), blockHash, FromBytes(signature[..half]), FromBytes(signature[half..]))
  }

  /** A vote is accepted exactly when its session is open, not finalized and not past its deadline, the validator has
      not voted in it, the pair is not yet processed, and the vote is justified. */
  lemma VoteIsAcceptedIff(crypto: Crypto, st: State, h: Bytes, v: string, signature: Bytes, now: int,
                          chain: Electorate, written: bool)
    ensures Cast(crypto, st, h, v, signature, now, Some(chain), written).1.None?
            <==> && h in st.sessions && !st.sessions[h].finalized && now <= st.sessions[h].deadline
                 && v !in st.sessions[h].votes && crypto.ids(h, v) !in st.processed
                 && Justified(crypto, chain, h, v, signature)
  {
  }

  /** With a 64-byte key: the case of every validator that registers today. */
  lemma SignatureDecides(crypto: Crypto, st: State, h: Bytes, v: string, signature: Bytes, now: int,
                         chain: Electorate, written: bool)
    requires h in st.sessions && !st.sessions[h].finalized && now <= st.sessions[h].deadline
    requires v !in st.sessions[h].votes && crypto.ids(h, v) !in st.processed
    requires v in chain.active && v in chain.validators && !chain.validators[v].suspended
    requires |chain.validators[v].publicKey| == 64
    ensures var key, half := chain.validators[v].publicKey, |signature| / 2;
            Cast(crypto, st, h, v, signature, now, Some(chain), written).1.None?
            <==> |signature| >= 32
                 && crypto.curve.verify(PublicKey(FromBytes(key[..32]), FromBytes(key[32..])), h,
                                        FromBytes(signature[..half]), FromBytes(signature[half..]))
  {
    VoteIsAcceptedIff(crypto, st, h, v, signature, now, chain, written);
  }

  /** An event of the run cast the vote, in time and justified by the chain state it was checked against. */
  ghost predicate CastBy(crypto: Crypto, e: Event, h: Bytes, session: Session, v: string, vote: Vote) {
    && e.CastEvent? && e.blockHash == h && e.validatorID == v
    && vote == Vote(h, v, e.signature, e.now, crypto.ids(h, v))
    && e.now <= session.startTime + 15_000_000_000
    && e.chain.Some? && Justified(crypto, e.chain.value, h, v, e.signature)
  }

  /** Every vote of every session was cast so by one of the events. */
  ghost predicate VotesAreJustified(crypto: Crypto, st: State, es: seq<Event>) {
    forall h, v :: h in st.sessions && v in st.sessions[h].votes ==>
      exists e :: e in es && CastBy(crypto, e, h, st.sessions[h], v, st.sessions[h].votes[v])
  }

  /** Every session closes fifteen seconds after its start. */
  ghost predicate ClosesInTime(st: State) {
    forall h :: h in st.sessions ==> st.sessions[h].deadline == st.sessions[h].startTime + 15_000_000_000
  }

  ghost predicate AllChecked(es: seq<Event>) {
    forall e :: e in es && e.CastEvent? ==> e.chain.Some?
  }

  lemma MoreEventsJustify(crypto: Crypto, st: State, es: seq<Event>, more: seq<Event>)
    requires VotesAreJustified(crypto, st, es) && forall e :: e in es ==> e in more
    ensures VotesAreJustified(crypto, st, more)
  {
  }

  lemma StepJustifies(crypto: Crypto, st: State, past: seq<Event>, e: Event)
    requires Enabled(st, e) && VotesAreJustified(crypto, st, past) && ClosesInTime(st) && AllChecked([e])
    ensures VotesAreJustified(crypto, Step(crypto, st, e), past + [e]) && ClosesInTime(Step(crypto, st, e))
  {
    MoreEventsJustify(crypto, st, past, past + [e]);
    if Accepts(crypto, st, e) {
      assert e in [e];
      CastJustifies(crypto, st, past + [e], e);
    }
  }

  lemma CastJustifies(crypto: Crypto, st: State, es: seq<Event>, e: Event)
    requires VotesAreJustified(crypto, st, es) && ClosesInTime(st)
    requires Accepts(crypto, st, e) && e.chain.Some? && e in es
    ensures VotesAreJustified(crypto, Step(crypto, st, e), es)
  {
    var next := Step(crypto, st, e);
    NewVoteIsCast(crypto, st, e);
    forall h, v | h in next.sessions && v in next.sessions[h].votes && !(h == e.blockHash && v == e.validatorID)
      ensures exists x :: x in es && CastBy(crypto, x, h, next.sessions[h], v, next.sessions[h].votes[v])
    {
      OldVoteStays(crypto, st, e, h, v);
      var x :| x in es && CastBy(crypto, x, h, st.sessions[h], v, st.sessions[h].votes[v]);
      assert CastBy(crypto, x, h, next.sessions[h], v, next.sessions[h].votes[v]);
    }
  }

  lemma NewVoteIsCast(crypto: Crypto, st: State, e: Event)
    requires ClosesInTime(st) && Accepts(crypto, st, e) && e.chain.Some?
    ensures var next := Step(crypto, st, e);
            && e.blockHash in next.sessions && e.validatorID in next.sessions[e.blockHash].votes
            && var session := next.sessions[e.blockHash];
               CastBy(crypto, e, e.blockHash, session, e.validatorID, session.votes[e.validatorID])
  {
    VoteIsAcceptedIff(crypto, st, e.blockHash, e.validatorID, e.signature, e.now, e.chain.value, e.written);
  }

  lemma OldVoteStays(crypto: Crypto, st: State, e: Event, h: Bytes, v: string)
    requires Accepts(crypto, st, e)
    requires var next := Step(crypto, st, e);
             h in next.sessions && v in next.sessions[h].votes && !(h == e.blockHash && v == e.validatorID)
    ensures var next := Step(crypto, st, e);
            && h in st.sessions && v in st.sessions[h].votes
            && next.sessions[h].votes[v] == st.sessions[h].votes[v]
            && next.sessions[h].startTime == st.sessions[h].startTime
  {
  }

  /** Over every run whose casts are checked against a chain state, every vote that a session holds was cast within
      its fifteen seconds by a validator that was active, recorded and not suspended, with a signature that the curve
      accepts under its recorded key. */
  lemma {:induction false} HeldVotesAreJustified(crypto: Crypto, st: State, es: seq<Event>, past: seq<Event>)
    requires ValidRun(crypto, st, es) && AllChecked(es)
    requires VotesAreJustified(crypto, st, past) && ClosesInTime(st)
    ensures VotesAreJustified(crypto, Run(crypto, st, es), past + es) && ClosesInTime(Run(crypto, st, es))
    decreases |es|
  {
    if es == [] {
      assert past + es == past;
    } else {
      assert es[0] in es;
      StepJustifies(crypto, st, past, es[0]);
      HeldVotesAreJustified(crypto, Step(crypto, st, es[0]), es[1..], past + [es[0]]);
      assert past + [es[0]] + es[1..] == past + es;
    }
  }

  /** Starting a session twice keeps the first one, votes included. */
  lemma SecondStartChangesNothing(crypto: Crypto, st: State, h: Bytes, n: nat, m: nat, now: int, later: int)
    ensures var once := Step(crypto, st, StartEvent(h, n, now));
            Step(crypto, once, StartEvent(h, m, later)) == once && h in once.sessions
    ensures h in st.sessions ==> Step(crypto, st, StartEvent(h, n, now)) == st
    ensures h !in st.sessions ==>
              var session := Step(crypto, st, StartEvent(h, n, now)).sessions[h];
              session.votes == map[] && !session.finalized && session.startTime == now
  {
  }

  /** A cleanup ends exactly the sessions that are older than the age, and touches no other and no record. */
  lemma CleanupEndsOldSessions(crypto: Crypto, st: State, maxAge: int, now: int, h: Bytes)
    requires h in st.sessions
    ensures var next := Step(crypto, st, CleanupEvent(maxAge, now));
            && (st.sessions[h].startTime < now - maxAge ==> h !in next.sessions)
            && (st.sessions[h].startTime >= now - maxAge ==> h in next.sessions && next.sessions[h] == st.sessions[h])
            && next.processed == st.processed && next.db == st.db
  {
  }

  /** What an accepted vote leaves: it is held by its session as it was cast, marked processed, and on disk under its
      ID exactly if the write succeeds; and the vote that completes the quorum dates the finality. */
  lemma AcceptedVoteIsKept(crypto: Crypto, st: State, e: Event)
    requires Accepts(crypto, st, e)
    ensures var next := Step(crypto, st, e);
            var id := crypto.ids(e.blockHash, e.validatorID);
            var vote := Vote(e.blockHash, e.validatorID, e.signature, e.now, id);
            var before, after := st.sessions[e.blockHash], next.sessions[e.blockHash];
            && after.votes == before.votes[e.validatorID := vote]
            && id in next.processed
            && (e.written ==> next.db == st.db[id := Record(vote)]) && (!e.written ==> next.db == st.db)
            && (after.finalized <==> |after.votes| >= before.requiredVotes)
            && (after.finalized ==> after.finalityAt == e.now)
  {
  }
}
