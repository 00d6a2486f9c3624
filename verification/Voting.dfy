/** Voting sessions and the vote manager (voting.go), as a state machine and as the class that runs it. */
module Voting {
  import opened Prelude
  import opened Sequences
  import opened Signatures
  import opened VoteStore
  import opened Blocks

  /** What CastVote reads of the chain state: the active set and the validator records. */
  datatype Electorate = Electorate(active: seq<string>, validators: map<string, ValidatorInfo>)

  datatype Session = Session(blockHash: Bytes, votes: map<string, Vote>, totalValidators: nat, requiredVotes: nat,
                             startTime: int, deadline: int, finalized: bool, finalityAt: int)

  datatype CastError = NoSession | AlreadyFinalized | DeadlineExceeded | AlreadyVoted | ReplayDetected
                     | NotActive | UnknownValidator | Suspended | BadKey | BadSignature

  datatype StartError = SessionExists

  datatype Crypto = Crypto(ids: VoteIDs, curve: Curve)

  const VOTING_PHASE: int := 15 * SECOND

  /** int(float64(n) * 0.85), raised to 1 when it is 0: the largest number of votes that is not more than 85% of n,
      and never more than the validators there are. */
  function Quorum(n: nat): (q: nat)
    ensures 1 <= q && (n >= 1 ==> q <= n)
    ensures n >= 2 ==> 100 * q <= 85 * n < 100 * (q + 1)
  {
    var q := 17 * n / 20;
    if q == 0 then 1 else q
  }

  function NewSession(blockHash: Bytes, totalValidators: nat, now: int): Session {
    Session(blockHash, map[], totalValidators, Quorum(totalValidators), now, now + VOTING_PHASE, false, 0)
  }

  /** The checks CastVote makes against the chain state, when it has one. */
  function CheckVoter(crypto: Crypto, chain: Option<Electorate>, vote: Vote): Option<CastError> {
    if chain.None? then None
    else if vote.validatorID !in chain.value.active then Some(NotActive)
    else if vote.validatorID !in chain.value.validators then Some(UnknownValidator)
    else
      var info := chain.value.validators[vote.validatorID];
      if info.suspended then Some(Suspended)
      else
        match DecodePublicKey(info.publicKey, crypto.curve)
        case Err(_) => Some(BadKey)
        case Ok(key) =>
          if VerifyVote(vote.blockHash, vote.signature, key, crypto.curve) then None else Some(BadSignature)
  }

  datatype State = State(sessions: map<Bytes, Session>, processed: set<string>, db: Database)

  function StartSession(st: State, blockHash: Bytes, totalValidators: nat, now: int): (State, Option<StartError>) {
    if blockHash in st.sessions then (st, Some(SessionExists))
    else (st.(sessions := st.sessions[blockHash := NewSession(blockHash, totalValidators, now)]), None)
  }

  /** Why CastVote refuses, in the order it checks; None when the vote counts. */
  function Refusal(crypto: Crypto, st: State, vote: Vote, now: int, chain: Option<Electorate>): Option<CastError> {
    if vote.blockHash !in st.sessions then Some(NoSession)
    else
      var session := st.sessions[vote.blockHash];
      if session.finalized then Some(AlreadyFinalized)
      else if now > session.deadline then Some(DeadlineExceeded)
      else if vote.validatorID in session.votes then Some(AlreadyVoted)
      else if vote.voteID in st.processed then Some(ReplayDetected)
      else CheckVoter(crypto, chain, vote)
  }

  function CountVote(session: Session, vote: Vote, now: int): Session {
    var counted := session.(votes := session.votes[vote.validatorID := vote]);
    if |counted.votes| >= counted.requiredVotes && !counted.finalized
    then counted.(finalized := true, finalityAt := now)
    else counted
  }

  function MakeVote(crypto: Crypto, blockHash: Bytes, validatorID: string, signature: Bytes, now: int): Vote {
    Vote(blockHash, validatorID, signature, now, crypto.ids(blockHash, validatorID))
  }

  /** CastVote; written tells whether LevelDB took the vote (a failed write is only logged). */
  function Cast(crypto: Crypto, st: State, blockHash: Bytes, validatorID: string, signature: Bytes, now: int,
                chain: Option<Electorate>, written: bool): (State, Option<CastError>) {
    var vote := MakeVote(crypto, blockHash, validatorID, signature, now);
    var refusal := Refusal(crypto, st, vote, now, chain);
    if refusal.Some? then (st, refusal)
    else
      (State(st.sessions[blockHash := CountVote(st.sessions[blockHash], vote, now)],
             st.processed + {vote.voteID},
             if written then st.db[vote.voteID := Record(vote)] else st.db), None)
  }

  function CleanUp(st: State, maxAge: int, now: int): State {
    st.(sessions := map h | h in st.sessions && now - st.sessions[h].startTime <= maxAge :: st.sessions[h])
  }

  /** A new process on the same disk: empty sessions, and the index loaded in the given key order. */
  ghost function Restart(crypto: Crypto, st: State, order: seq<string>): State
    requires Enumerates(order, st.db.Keys)
  {
    OrderInside(order, st.db.Keys);
    var index := Load(st.db, order, {}, crypto.ids);
    State(map[], index.processed, index.db)
  }

  lemma OrderInside(order: seq<string>, keys: set<string>)
    requires Enumerates(order, keys)
    ensures forall k :: k in order <==> k in keys
  {
    forall k ensures k in order <==> k in keys {
      assert k in order <==> k in Elements(order);
    }
  }

  class VotingManager {
    var sessions: map<Bytes, Session>
    var processed: set<string>
    var db: Database
    const crypto: Crypto

    ghost function View(): State
      reads this
    {
      State(sessions, processed, db)
    }

    constructor (disk: Database, order: seq<string>, outcomes: seq<Outcome>, crypto: Crypto)
      requires Enumerates(order, disk.Keys) && |outcomes| == |order|
      ensures this.crypto == crypto && sessions == map[]
      ensures (forall k :: k in order ==> k in disk)
              && Index(db, processed) == LoadWith(disk, order, {}, crypto.ids, outcomes)
      ensures (forall o :: o in outcomes ==> o == Outcome(true, true)) ==>
                View() == Restart(crypto, State(map[], {}, disk), order)
    {
      this.sessions, this.processed, this.db := map[], {}, disk;
      this.crypto := crypto;
      new;
      LoadProcessedVotes(order, outcomes);
      FailedWritesSpareIndex(disk, order, {}, crypto.ids, outcomes);
    }

    method StartVotingSession(blockHash: Bytes, totalValidators: nat, now: int)
      returns (result: Result<Session, StartError>)
      modifies this
      ensures StartSession(old(View()), blockHash, totalValidators, now)
              == (View(), if result.Ok? then None else Some(result.error))
      ensures result.Ok? ==> blockHash in sessions && sessions[blockHash] == result.value
    {
      if blockHash in sessions {
        return Err(SessionExists);
      }
      var requiredVotes := 17 * totalValidators / 20;
      if requiredVotes == 0 {
        requiredVotes := 1;
      }
      var session := Session(blockHash, map[], totalValidators, requiredVotes, now, now + VOTING_PHASE, false, 0);
      sessions := sessions[blockHash := session];
      return Ok(session);
    }

    method CastVote(blockHash: Bytes, validatorID: string, signature: Bytes, now: int,
                    chain: Option<Electorate>, written: bool) returns (refusal: Option<CastError>)
      modifies this
      ensures (View(), refusal) == Cast(crypto, old(View()), blockHash, validatorID, signature, now, chain, written)
    {
      if blockHash !in sessions {
        return Some(NoSession);
      }
      var session := sessions[blockHash];
      if session.finalized {
        return Some(AlreadyFinalized);
      }
      if now > session.deadline {
        return Some(DeadlineExceeded);
      }
      if validatorID in session.votes {
        return Some(AlreadyVoted);
      }
      var voteID := crypto.ids(blockHash, validatorID);
      if voteID in processed {
        return Some(ReplayDetected);
      }
      var vote := Vote(blockHash, validatorID, signature, now, voteID);
      if chain.Some? {
        var isActive := false;
        for i := 0 to |chain.value.active|
          invariant isActive <==> validatorID in chain.value.active[..i]
        {
          if chain.value.active[i] == validatorID {
            isActive := true;
            assert validatorID in chain.value.active;
            break;
          }
        }
        assert chain.value.active[..|chain.value.active|] == chain.value.active;
        if !isActive {
          return Some(NotActive);
        }
        if validatorID !in chain.value.validators {
          return Some(UnknownValidator);
        }
        var info := chain.value.validators[validatorID];
        if info.suspended {
          return Some(Suspended);
        }
        var decoded := DecodePublicKey(info.publicKey, crypto.curve);
        if decoded.Err? {
          return Some(BadKey);
        }
        if !VerifyVote(blockHash, signature, decoded.value, crypto.curve) {
          return Some(BadSignature);
        }
      }
      session := session.(votes := session.votes[validatorID := vote]);
      if written {
        db := db[voteID := Record(vote)];
      }
      processed := processed + {voteID};
      if |session.votes| >= session.requiredVotes && !session.finalized {
        session := session.(finalized := true, finalityAt := now);
      }
      sessions := sessions[blockHash := session];
      return None;
    }

    method CheckFinality(blockHash: Bytes) returns (result: Result<(bool, nat), CastError>)
      ensures result == if blockHash in sessions
                        then Ok((sessions[blockHash].finalized, |sessions[blockHash].votes|))
                        else Err(NoSession)
    {
      if blockHash !in sessions {
        return Err(NoSession);
      }
      return Ok((sessions[blockHash].finalized, |sessions[blockHash].votes|));
    }

    method CleanupOldSessions(maxAge: int, now: int)
      modifies this
      ensures View() == CleanUp(old(View()), maxAge, now)
    {
      var todo := sessions.Keys;
      while todo != {}
        invariant todo <= sessions.Keys <= old(sessions).Keys
        invariant processed == old(processed) && db == old(db)
        invariant forall h :: h in sessions ==> sessions[h] == old(sessions)[h]
        invariant forall h :: h in old(sessions) && h !in todo ==>
                    (h in sessions <==> now - old(sessions)[h].startTime <= maxAge)
        decreases |todo|
      {
        var hash :| hash in todo;
        todo := todo - {hash};
        if now - sessions[hash].startTime > maxAge {
          sessions := sessions - {hash};
        }
      }
    }

    method LoadProcessedVotes(order: seq<string>, outcomes: seq<Outcome>)
      requires Enumerates(order, db.Keys) && |outcomes| == |order|
      modifies `processed, `db
      ensures (forall k :: k in order ==> k in old(db))
              && Index(db, processed) == LoadWith(old(db), order, old(processed), crypto.ids, outcomes)
    {
      OrderInside(order, db.Keys);
      var snapshot := db;
      for i := 0 to |order|
        invariant Index(db, processed) == LoadWith(snapshot, order[..i], old(processed), crypto.ids, outcomes[..i])
      {
        ghost var before := Index(db, processed);
        assert order[..i + 1][..i] == order[..i] && outcomes[..i + 1][..i] == outcomes[..i];
        var entry := snapshot[order[i]];
        if entry.Record? {
          var vote := entry.vote;
          var correctID := crypto.ids(vote.blockHash, vote.validatorID);
          processed := processed + {vote.voteID};
          processed := processed + {correctID};
          if vote.voteID != correctID {
            if outcomes[i].deleted {
              db := db - {vote.voteID};
            }
            vote := vote.(voteID := correctID);
            if outcomes[i].stored {
              db := db[correctID := Record(vote)];
            }
          }
        }
        assert Index(db, processed) == LoadOneWith(entry, before, crypto.ids, outcomes[i]);
      }
      assert order[..|order|] == order && outcomes[..|outcomes|] == outcomes;
    }
  }
}
