/** Two conflicting finalized blocks cost a known number of validators their standing. */
module Accountability {
  import opened Prelude
  import opened Sequences
  import opened VoteStore
  import V = Voting
  import opened VotingRuns
  import S = Slashing

  /** Quorum intersection: two q-subsets of n elements share at least 2q - n. */
  lemma QuorumsIntersect<T>(a: set<T>, b: set<T>, all: set<T>)
    requires a <= all && b <= all
    ensures |a * b| >= |a| + |b| - |all|
  {
    assert |a + b| == |a| + |b| - |a * b|;
    SubsetSize(a + b, all);
  }

  /** How much two quorums of n must overlap: at least one for n = 1 and n >= 3, over a third from n = 4 on. */
  lemma QuorumOverlap(n: nat)
    requires n >= 1
    ensures n != 2 ==> 2 * V.Quorum(n) - n >= 1
    ensures n == 2 ==> 2 * V.Quorum(n) - n == 0
    ensures n >= 4 ==> 3 * (2 * V.Quorum(n) - n) > n
  {
    assert 20 * (17 * n / 20) >= 17 * n - 19;
  }

  /** The stream feeds every vote of the session at the given height (in any order, among any other ballots). */
  ghost predicate Feeds(stream: seq<S.Ballot>, session: V.Session, height: nat) {
    forall v :: v in session.votes ==> S.Ballot(v, height, session.blockHash) in stream
  }

  ghost predicate VoteOf(ballot: S.Ballot, session: V.Session, height: nat) {
    ballot.height == height && ballot.blockHash == session.blockHash && ballot.validatorID in session.votes
  }

  ghost function SlashedSet(st: S.State, among: set<string>, height: nat): set<string> {
    set v | v in among && S.SlashedAt(st, v, height)
  }

  lemma BothVotersEquivocate(stream: seq<S.Ballot>, a: V.Session, b: V.Session, height: nat, v: string)
    requires Feeds(stream, a, height) && Feeds(stream, b, height) && a.blockHash != b.blockHash
    requires v in a.votes && v in b.votes
    ensures S.Equivocates(stream, v, height)
  {
    var i :| 0 <= i < |stream| && stream[i] == S.Ballot(v, height, a.blockHash);
    var j :| 0 <= j < |stream| && stream[j] == S.Ballot(v, height, b.blockHash);
    assert S.Is(stream[i], v, height) && S.Is(stream[j], v, height);
  }

  /** Accountable safety for two sessions in finished form. */
  lemma ConflictingSessionsAreSlashed(a: V.Session, b: V.Session, active: set<string>, height: nat,
                                      st: S.State, stream: seq<S.Ballot>, ticks: seq<S.Tick>)
    requires SessionOk(a.blockHash, a) && SessionOk(b.blockHash, b) && a.finalized && b.finalized
    requires a.blockHash != b.blockHash && a.totalValidators == b.totalValidators == |active|
    requires a.votes.Keys <= active && b.votes.Keys <= active
    requires st.tracker == map[] && st.events == [] && active <= st.registry.Keys
    requires |ticks| == |stream| && Feeds(stream, a, height) && Feeds(stream, b, height)
    ensures |SlashedSet(S.Feed(st, stream, ticks), active, height)| >= 2 * V.Quorum(|active|) - |active|
  {
    var slashed := SlashedSet(S.Feed(st, stream, ticks), active, height);
    var both := a.votes.Keys * b.votes.Keys;
    forall v | v in both ensures v in slashed {
      BothVotersEquivocate(stream, a, b, height, v);
      S.SlashedIffEquivocates(st, stream, ticks, v, height);
    }
    assert |a.votes.Keys| == |a.votes| && |b.votes.Keys| == |b.votes|;
    QuorumsIntersect(a.votes.Keys, b.votes.Keys, active);
    SubsetSize(both, slashed);
  }

  /** If only those votes are fed, nobody else is slashed: the slashed set is exactly the double voters. */
  lemma OnlyDoubleVotersAreSlashed(a: V.Session, b: V.Session, active: set<string>, height: nat,
                                   st: S.State, stream: seq<S.Ballot>, ticks: seq<S.Tick>)
    requires a.blockHash != b.blockHash && a.votes.Keys <= active && b.votes.Keys <= active
    requires st.tracker == map[] && st.events == [] && active <= st.registry.Keys
    requires |ticks| == |stream| && Feeds(stream, a, height) && Feeds(stream, b, height)
    requires forall x :: x in stream ==> VoteOf(x, a, height) || VoteOf(x, b, height)
    ensures SlashedSet(S.Feed(st, stream, ticks), active, height) == a.votes.Keys * b.votes.Keys
  {
    forall v | v in active
      ensures S.SlashedAt(S.Feed(st, stream, ticks), v, height) <==> v in a.votes && v in b.votes
    {
      S.SlashedIffEquivocates(st, stream, ticks, v, height);
      if v in a.votes && v in b.votes {
        BothVotersEquivocate(stream, a, b, height, v);
      } else if S.Equivocates(stream, v, height) {
        assert forall x :: x in stream && S.Is(x, v, height) ==>
            x.blockHash == if v in a.votes then a.blockHash else b.blockHash;
        assert false;
      }
    }
  }

  /** Accountable safety over whole runs of two nodes (or one node twice): when each finalizes a different
      block at one height over the same n active validators, feeding both sessions' votes to the detector
      slashes at least 2 * Quorum(n) - n of them. */
  lemma AccountableSafety(crypto: V.Crypto, st1: V.State, es1: seq<Event>, st2: V.State, es2: seq<Event>,
                          hash1: Bytes, hash2: Bytes, active: set<string>, height: nat,
                          st: S.State, stream: seq<S.Ballot>, ticks: seq<S.Tick>)
    requires st1.sessions == map[] && ValidRun(crypto, st1, es1) && CheckedAgainst(active, es1)
    requires st2.sessions == map[] && ValidRun(crypto, st2, es2) && CheckedAgainst(active, es2)
    requires hash1 != hash2
    requires hash1 in Run(crypto, st1, es1).sessions && hash2 in Run(crypto, st2, es2).sessions
    requires var a, b := Run(crypto, st1, es1).sessions[hash1], Run(crypto, st2, es2).sessions[hash2];
             && a.finalized && b.finalized && a.totalValidators == b.totalValidators == |active| >= 1
             && Feeds(stream, a, height) && Feeds(stream, b, height)
    requires st.tracker == map[] && st.events == [] && active <= st.registry.Keys && |ticks| == |stream|
    ensures var slashed := SlashedSet(S.Feed(st, stream, ticks), active, height);
            && |slashed| >= 2 * V.Quorum(|active|) - |active|
            && (|active| != 2 ==> |slashed| >= 1)
            && (|active| >= 4 ==> 3 * |slashed| > |active|)
            && forall v :: v in slashed ==> S.IsSuspended(S.Feed(st, stream, ticks), v)
  {
    FinalizedIffQuorum(crypto, st1, es1);
    FinalizedIffQuorum(crypto, st2, es2);
    OnlyActiveVoters(crypto, st1, es1, active);
    OnlyActiveVoters(crypto, st2, es2, active);
    var a, b := Run(crypto, st1, es1).sessions[hash1], Run(crypto, st2, es2).sessions[hash2];
    ConflictingSessionsAreSlashed(a, b, active, height, st, stream, ticks);
    QuorumOverlap(|active|);
    forall v | v in SlashedSet(S.Feed(st, stream, ticks), active, height)
      ensures S.IsSuspended(S.Feed(st, stream, ticks), v)
    {
      S.SuspendedIffSlashed(st, stream, ticks, v);
    }
  }

  /** One validator opens a voting session among two and votes for its own block. */
  function SoloRun(hash: Bytes, v: string, signature: Bytes, now: int, chain: V.Electorate): seq<Event> {
    [StartEvent(hash, 2, now), CastEvent(hash, v, signature, now, Some(chain), true)]
  }

  /** The run finalizes the block with the validator's vote alone. */
  lemma SoloFinalizes(crypto: V.Crypto, hash: Bytes, v: string, signature: Bytes, now: int, chain: V.Electorate)
    requires V.CheckVoter(crypto, Some(chain), V.MakeVote(crypto, hash, v, signature, now)).None?
    ensures var st, es := V.State(map[], {}, map[]), SoloRun(hash, v, signature, now, chain);
            && ValidRun(crypto, st, es) && CheckedAgainst(Elements(chain.active), es)
            && hash in Run(crypto, st, es).sessions
            && var session := Run(crypto, st, es).sessions[hash];
               session.finalized && session.totalValidators == 2 && session.votes.Keys == {v}
               && session.blockHash == hash
  {
    var st, es := V.State(map[], {}, map[]), SoloRun(hash, v, signature, now, chain);
    var st1 := Step(crypto, st, es[0]);
    var vote := V.MakeVote(crypto, hash, v, signature, now);
    assert es[1..] == [es[1]] && [es[1]][1..] == [];
    assert V.Refusal(crypto, st1, vote, now, Some(chain)).None?;
    var session := V.CountVote(st1.sessions[hash], vote, now);
    assert session.votes == map[v := vote] && |session.votes| == 1;
    var st2 := Step(crypto, st1, es[1]);
    assert st2.sessions[hash] == session;
    assert ValidRun(crypto, st2, []) && Run(crypto, st2, []) == st2;
    var last := [es[1]];
    assert last[1..] == [] && ValidRun(crypto, st1, last);
    assert Run(crypto, st1, last) == Run(crypto, Step(crypto, st1, last[0]), last[1..]);
    assert ValidRun(crypto, st, es) && Run(crypto, st, es) == Run(crypto, st1, es[1..]);
    assert forall e :: e in es && e.CastEvent? ==> e == es[1];
  }

  /** With two validators the guarantee is void: each can finalize its own block on its own node, and feeding both
      votes to the detector, in any order and any number of times, slashes nobody. */
  lemma TwoValidatorsCanSplit(crypto: V.Crypto, chain: V.Electorate, hash1: Bytes, hash2: Bytes, v1: string, v2: string,
                              signature1: Bytes, signature2: Bytes, now: int, height: nat,
                              st: S.State, stream: seq<S.Ballot>, ticks: seq<S.Tick>)
    requires hash1 != hash2 && v1 != v2 && Elements(chain.active) == {v1, v2}
    requires V.CheckVoter(crypto, Some(chain), V.MakeVote(crypto, hash1, v1, signature1, now)).None?
    requires V.CheckVoter(crypto, Some(chain), V.MakeVote(crypto, hash2, v2, signature2, now)).None?
    requires st.tracker == map[] && st.events == [] && v1 in st.registry && v2 in st.registry
    requires |ticks| == |stream|
    requires Elements(stream) == {S.Ballot(v1, height, hash1), S.Ballot(v2, height, hash2)}
    ensures exists es1, es2 ::
              var start := V.State(map[], {}, map[]);
              && ValidRun(crypto, start, es1) && CheckedAgainst({v1, v2}, es1)
              && ValidRun(crypto, start, es2) && CheckedAgainst({v1, v2}, es2)
              && hash1 in Run(crypto, start, es1).sessions && hash2 in Run(crypto, start, es2).sessions
              && var a, b := Run(crypto, start, es1).sessions[hash1], Run(crypto, start, es2).sessions[hash2];
                 && a.finalized && b.finalized && a.totalValidators == b.totalValidators == |{v1, v2}|
                 && Feeds(stream, a, height) && Feeds(stream, b, height)
                 && SlashedSet(S.Feed(st, stream, ticks), {v1, v2}, height) == {}
  {
    var start := V.State(map[], {}, map[]);
    var es1 := SoloRun(hash1, v1, signature1, now, chain);
    var es2 := SoloRun(hash2, v2, signature2, now, chain);
    SoloFinalizes(crypto, hash1, v1, signature1, now, chain);
    SoloFinalizes(crypto, hash2, v2, signature2, now, chain);
    var a, b := Run(crypto, start, es1).sessions[hash1], Run(crypto, start, es2).sessions[hash2];
    assert S.Ballot(v1, height, hash1) in Elements(stream) && S.Ballot(v2, height, hash2) in Elements(stream);
    assert forall x :: x in stream ==> x in Elements(stream);
    OnlyDoubleVotersAreSlashed(a, b, {v1, v2}, height, st, stream, ticks);
    assert a.votes.Keys * b.votes.Keys == {};
  }
}
