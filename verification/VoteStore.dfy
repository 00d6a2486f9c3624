/** The persistent vote index and the loader that migrates legacy records (vote_replay_protection.go). */
module VoteStore {
  import opened Prelude
  import opened Sequences
  import opened ByteCodec

  datatype Vote = Vote(blockHash: Bytes, validatorID: string, signature: Bytes, timestamp: int, voteID: string)

  /** A database value under a "vote_" key: a vote, or bytes that do not unmarshal. */
  datatype Stored = Garbled | Record(vote: Vote)

  /** The "vote_" part of LevelDB, by the text after the prefix. */
  type Database = map<string, Stored>

  /** generateVoteID: the hash of block hash and validator ID, without the signature. */
  type VoteIDs = (Bytes, string) -> string

  /** What the loader changes: the database and the processed-vote index. */
  datatype Index = Index(db: Database, processed: set<string>)

  function CorrectID(vote: Vote, ids: VoteIDs): string {
    ids(vote.blockHash, vote.validatorID)
  }

  /** No two recorded votes of different (block, validator) pairs share an ID. */
  ghost predicate NoClash(db: Database, ids: VoteIDs) {
    forall k, l :: k in db && l in db && db[k].Record? && db[l].Record?
      && CorrectID(db[k].vote, ids) == CorrectID(db[l].vote, ids)
      ==> db[k].vote.blockHash == db[l].vote.blockHash && db[k].vote.validatorID == db[l].vote.validatorID
  }

  /** PersistVote's invariant, old and new code alike: a vote lies under its own VoteID. */
  ghost predicate WellKeyed(db: Database) {
    forall k :: k in db && db[k].Record? ==> db[k].vote.voteID == k
  }

  /** Every vote lies under its deterministic ID and carries it. */
  ghost predicate Canonical(db: Database, ids: VoteIDs) {
    forall k :: k in db && db[k].Record? ==> db[k].vote.voteID == k && CorrectID(db[k].vote, ids) == k
  }

  ghost predicate HasPair(db: Database, blockHash: Bytes, validatorID: string) {
    exists k :: k in db && db[k].Record? && db[k].vote.blockHash == blockHash && db[k].vote.validatorID == validatorID
  }

  /** One iteration of the loading loop, on an entry read from the iterator's snapshot. */
  function LoadOne(entry: Stored, index: Index, ids: VoteIDs): Index {
    if entry.Garbled? then index
    else
      var vote := entry.vote;
      var correct := CorrectID(vote, ids);
      var processed := index.processed + {vote.voteID} + {correct};
      if vote.voteID == correct then Index(index.db, processed)
      else Index((index.db - {vote.voteID})[correct := Record(vote.(voteID := correct))], processed)
  }

  /** The loop over the keys of the snapshot in the iterator's order. */
  ghost function Load(snapshot: Database, order: seq<string>, processed: set<string>, ids: VoteIDs): Index
    requires forall k :: k in order ==> k in snapshot
  {
    if order == [] then Index(snapshot, processed)
    else
      var n := |order| - 1;
      LoadOne(snapshot[order[n]], Load(snapshot, order[..n], processed, ids), ids)
  }

  /** Whether LevelDB took the deletion and the rewrite of one migration; the loader does not look. */
  datatype Outcome = Outcome(deleted: bool, stored: bool)

  /** The same iteration when the two writes may fail. */
  function LoadOneWith(entry: Stored, index: Index, ids: VoteIDs, outcome: Outcome): Index {
    if entry.Garbled? then index
    else
      var vote := entry.vote;
      var correct := CorrectID(vote, ids);
      var processed := index.processed + {vote.voteID} + {correct};
      if vote.voteID == correct then Index(index.db, processed)
      else
        var left := if outcome.deleted then index.db - {vote.voteID} else index.db;
        Index(if outcome.stored then left[correct := Record(vote.(voteID := correct))] else left, processed)
  }

  ghost function LoadWith(snapshot: Database, order: seq<string>, processed: set<string>, ids: VoteIDs,
                          outcomes: seq<Outcome>): Index
    requires |outcomes| == |order| && forall k :: k in order ==> k in snapshot
  {
    if order == [] then Index(snapshot, processed)
    else
      var n := |order| - 1;
      LoadOneWith(snapshot[order[n]], LoadWith(snapshot, order[..n], processed, ids, outcomes[..n]), ids, outcomes[n])
  }

  /** Whatever the writes do, the index in memory is the same; when they all succeed, so is the database. */
  lemma {:induction false} FailedWritesSpareIndex(snapshot: Database, order: seq<string>, processed: set<string>,
                                                  ids: VoteIDs, outcomes: seq<Outcome>)
    requires |outcomes| == |order| && forall k :: k in order ==> k in snapshot
    ensures LoadWith(snapshot, order, processed, ids, outcomes).processed
            == Load(snapshot, order, processed, ids).processed
    ensures (forall o :: o in outcomes ==> o == Outcome(true, true)) ==>
              LoadWith(snapshot, order, processed, ids, outcomes) == Load(snapshot, order, processed, ids)
    decreases |order|
  {
    if order != [] {
      var n := |order| - 1;
      FailedWritesSpareIndex(snapshot, order[..n], processed, ids, outcomes[..n]);
      assert outcomes[n] in outcomes && forall o :: o in outcomes[..n] ==> o in outcomes;
    }
  }

  /** What holds after the keys in done have been visited. */
  ghost predicate PartlyMigrated(db: Database, snapshot: Database, done: seq<string>, ids: VoteIDs) {
    forall k :: k in db && db[k].Record? ==>
      && db[k].vote.voteID == k
      && (CorrectID(db[k].vote, ids) == k || (k in snapshot && db[k] == snapshot[k] && k !in done))
  }

  lemma {:induction false} LoadMigrates(snapshot: Database, order: seq<string>, processed: set<string>, ids: VoteIDs)
    requires WellKeyed(snapshot)
    requires forall k :: k in order ==> k in snapshot
    ensures PartlyMigrated(Load(snapshot, order, processed, ids).db, snapshot, order, ids)
  {
    if order != [] {
      var n := |order| - 1;
      LoadMigrates(snapshot, order[..n], processed, ids);
      assert order == order[..n] + [order[n]];
    }
  }

  /** After loading, every record lies under its deterministic key, whatever the iteration order. */
  lemma LoadIsCanonical(snapshot: Database, order: seq<string>, processed: set<string>, ids: VoteIDs)
    requires WellKeyed(snapshot) && Enumerates(order, snapshot.Keys)
    ensures Canonical(Load(snapshot, order, processed, ids).db, ids)
  {
    LoadMigrates(snapshot, order, processed, ids);
    var db := Load(snapshot, order, processed, ids).db;
    forall k | k in db && db[k].Record?
      ensures db[k].vote.voteID == k && CorrectID(db[k].vote, ids) == k
    {
      if k in snapshot {
        assert k in Elements(order);
      }
    }
  }

  /** The loader invents no pair. */
  lemma {:induction false} LoadAddsNoPair(snapshot: Database, order: seq<string>, processed: set<string>, ids: VoteIDs,
                                          h: Bytes, v: string)
    requires forall k :: k in order ==> k in snapshot
    requires HasPair(Load(snapshot, order, processed, ids).db, h, v)
    ensures HasPair(snapshot, h, v)
  {
    if order != [] {
      var n := |order| - 1;
      var before := Load(snapshot, order[..n], processed, ids);
      var after := Load(snapshot, order, processed, ids);
      var k :| k in after.db && after.db[k].Record? && after.db[k].vote.blockHash == h
               && after.db[k].vote.validatorID == v;
      if k in before.db && before.db[k] == after.db[k] {
        LoadAddsNoPair(snapshot, order[..n], processed, ids, h, v);
      } else {
        assert order[n] in snapshot && snapshot[order[n]].Record?;
      }
    }
  }

  /** Every vote on disk is marked processed under its deterministic ID, and nothing is unmarked. */
  lemma {:induction false} LoadMarksAll(snapshot: Database, order: seq<string>, processed: set<string>, ids: VoteIDs)
    requires forall k :: k in order ==> k in snapshot
    ensures processed <= Load(snapshot, order, processed, ids).processed
    ensures forall k :: k in order && snapshot[k].Record? ==>
              CorrectID(snapshot[k].vote, ids) in Load(snapshot, order, processed, ids).processed
  {
    if order != [] {
      var n := |order| - 1;
      LoadMarksAll(snapshot, order[..n], processed, ids);
      assert order == order[..n] + [order[n]];
    }
  }

  /** Loading a canonical database rewrites nothing, so a second load changes nothing. */
  lemma {:induction false} LoadOfCanonical(snapshot: Database, order: seq<string>, processed: set<string>, ids: VoteIDs)
    requires Canonical(snapshot, ids)
    requires forall k :: k in order ==> k in snapshot
    ensures Load(snapshot, order, processed, ids).db == snapshot
  {
    if order != [] {
      var n := |order| - 1;
      LoadOfCanonical(snapshot, order[..n], processed, ids);
      assert order[n] in snapshot;
    }
  }

  /** And it marks nothing but the records' own IDs. */
  lemma {:induction false} LoadOfCanonicalMarks(snapshot: Database, order: seq<string>, processed: set<string>,
                                                ids: VoteIDs, id: string)
    requires Canonical(snapshot, ids)
    requires forall k :: k in order ==> k in snapshot
    requires id in Load(snapshot, order, processed, ids).processed
    ensures id in processed || (id in snapshot && snapshot[id].Record?)
  {
    if order != [] {
      var n := |order| - 1;
      assert order[n] in snapshot;
      if id in Load(snapshot, order[..n], processed, ids).processed {
        LoadOfCanonicalMarks(snapshot, order[..n], processed, ids, id);
      }
    }
  }

  lemma LoadIsIdempotent(snapshot: Database, order: seq<string>, processed: set<string>,
                         again: seq<string>, processed': set<string>, ids: VoteIDs)
    requires WellKeyed(snapshot) && Enumerates(order, snapshot.Keys)
    requires Enumerates(again, Load(snapshot, order, processed, ids).db.Keys)
    ensures (forall k :: k in again ==> k in Load(snapshot, order, processed, ids).db)
            && Load(Load(snapshot, order, processed, ids).db, again, processed', ids).db
               == Load(snapshot, order, processed, ids).db
  {
    LoadIsCanonical(snapshot, order, processed, ids);
    var db := Load(snapshot, order, processed, ids).db;
    forall k | k in again ensures k in db {
      assert k in Elements(again);
    }
    LoadOfCanonical(db, again, processed', ids);
  }

  /** The i-th visited entry is a vote whose deterministic ID is c. */
  ghost predicate VoteFor(snapshot: Database, order: seq<string>, ids: VoteIDs, i: int, c: string) {
    && 0 <= i < |order| && order[i] in snapshot
    && snapshot[order[i]].Record? && CorrectID(snapshot[order[i]].vote, ids) == c
  }

  /** The i-th visited entry is a vote under a key other than its deterministic ID: it gets moved. */
  ghost predicate LegacyAt(snapshot: Database, order: seq<string>, ids: VoteIDs, i: int) {
    && 0 <= i < |order| && order[i] in snapshot
    && snapshot[order[i]].Record? && CorrectID(snapshot[order[i]].vote, ids) != order[i]
  }

  /** No legacy key that is some vote's deterministic ID is deleted after the last vote for that ID moved in. */
  ghost predicate NoLateDeletion(snapshot: Database, order: seq<string>, ids: VoteIDs) {
    forall i, j :: LegacyAt(snapshot, order, ids, i) && VoteFor(snapshot, order, ids, j, order[i])
      ==> exists later :: i < later && VoteFor(snapshot, order, ids, later, order[i])
  }

  ghost predicate PresentAt(db: Database, c: string, ids: VoteIDs) {
    c in db && db[c].Record? && CorrectID(db[c].vote, ids) == c
  }

  /** Only visiting legacy key c removes the vote stored under c. */
  lemma {:induction false} StaysPresent(snapshot: Database, order: seq<string>, processed: set<string>, ids: VoteIDs,
                                        c: string, m: nat)
    requires WellKeyed(snapshot) && m <= |order|
    requires forall k :: k in order ==> k in snapshot
    requires PresentAt(Load(snapshot, order[..m], processed, ids).db, c, ids)
    requires forall i :: m <= i < |order| && LegacyAt(snapshot, order, ids, i) ==> order[i] != c
    ensures PresentAt(Load(snapshot, order, processed, ids).db, c, ids)
    decreases |order|
  {
    if m == |order| {
      assert order[..m] == order;
    } else {
      var n := |order| - 1;
      var front := order[..n];
      assert front[..m] == order[..m];
      forall i | m <= i < |front| && LegacyAt(snapshot, front, ids, i) ensures front[i] != c {
        assert LegacyAt(snapshot, order, ids, i);
      }
      StaysPresent(snapshot, front, processed, ids, c, m);
      assert order[n] in snapshot;
      if snapshot[order[n]].Record? && CorrectID(snapshot[order[n]].vote, ids) != order[n] {
        assert LegacyAt(snapshot, order, ids, n);
      }
    }
  }

  /** Only visiting a vote for c puts one under c. */
  lemma {:induction false} StaysAbsent(snapshot: Database, order: seq<string>, processed: set<string>, ids: VoteIDs,
                                       c: string, m: nat)
    requires WellKeyed(snapshot) && m <= |order|
    requires forall k :: k in order ==> k in snapshot
    requires c !in Load(snapshot, order[..m], processed, ids).db
    requires forall i :: m <= i < |order| ==> !VoteFor(snapshot, order, ids, i, c)
    ensures c !in Load(snapshot, order, processed, ids).db
    decreases |order|
  {
    if m == |order| {
      assert order[..m] == order;
    } else {
      var n := |order| - 1;
      var front := order[..n];
      assert front[..m] == order[..m];
      forall i | m <= i < |front| ensures !VoteFor(snapshot, front, ids, i, c) {
        assert !VoteFor(snapshot, order, ids, i, c);
      }
      StaysAbsent(snapshot, front, processed, ids, c, m);
      assert order[n] in snapshot && !VoteFor(snapshot, order, ids, n, c);
    }
  }

  /** Right after a legacy vote is visited it lies under its deterministic ID and its old key is empty. */
  lemma LoadPrefixStep(snapshot: Database, order: seq<string>, processed: set<string>, ids: VoteIDs, i: nat)
    requires WellKeyed(snapshot) && LegacyAt(snapshot, order, ids, i)
    requires forall k :: k in order ==> k in snapshot
    ensures var db := Load(snapshot, order[..i + 1], processed, ids).db;
            && PresentAt(db, CorrectID(snapshot[order[i]].vote, ids), ids)
            && order[i] !in db
  {
    assert order[..i + 1][..i] == order[..i];
    assert order[..i + 1][i] == order[i];
  }

  /** A moved vote is still there at the end if its new key is not deleted afterwards. */
  lemma MovedVoteStays(snapshot: Database, order: seq<string>, processed: set<string>, ids: VoteIDs, j: int, c: string)
    requires WellKeyed(snapshot)
    requires forall k :: k in order ==> k in snapshot
    requires LegacyAt(snapshot, order, ids, j) && VoteFor(snapshot, order, ids, j, c)
    requires forall i :: j < i && LegacyAt(snapshot, order, ids, i) ==> order[i] != c
    ensures PresentAt(Load(snapshot, order, processed, ids).db, c, ids)
  {
    LoadPrefixStep(snapshot, order, processed, ids, j);
    StaysPresent(snapshot, order, processed, ids, c, j + 1);
  }

  /** A vote that never had to move stays where it is. */
  lemma UnmovedVoteStays(snapshot: Database, order: seq<string>, processed: set<string>, ids: VoteIDs,
                         j: int, c: string)
    requires WellKeyed(snapshot) && NoDuplicates(order)
    requires forall k :: k in order ==> k in snapshot
    requires VoteFor(snapshot, order, ids, j, c) && order[j] == c
    ensures PresentAt(Load(snapshot, order, processed, ids).db, c, ids)
  {
    assert order[..0] == [];
    assert Load(snapshot, order[..0], processed, ids).db == snapshot;
    StaysPresent(snapshot, order, processed, ids, c, 0);
  }

  /** Under NoLateDeletion the vote at position j is still there after the load. */
  lemma VoteSurvives(snapshot: Database, order: seq<string>, processed: set<string>, ids: VoteIDs, j: int, c: string)
    requires WellKeyed(snapshot) && NoDuplicates(order)
    requires forall k :: k in order ==> k in snapshot
    requires NoLateDeletion(snapshot, order, ids)
    requires VoteFor(snapshot, order, ids, j, c)
    ensures PresentAt(Load(snapshot, order, processed, ids).db, c, ids)
  {
    if order[j] == c {
      UnmovedVoteStays(snapshot, order, processed, ids, j, c);
    } else if i :| j < i && LegacyAt(snapshot, order, ids, i) && order[i] == c {
      var later :| i < later && VoteFor(snapshot, order, ids, later, order[i]);
      MovedVoteStays(snapshot, order, processed, ids, later, c);
    } else {
      MovedVoteStays(snapshot, order, processed, ids, j, c);
    }
  }

  ghost predicate SamePairs(db: Database, db': Database) {
    forall h, v :: HasPair(db, h, v) <==> HasPair(db', h, v)
  }

  /** The migrating load keeps the set of voted pairs exactly when no two pairs share an ID and no legacy key is
      deleted too late. */
  lemma LoadKeepsPairsIff(snapshot: Database, order: seq<string>, processed: set<string>, ids: VoteIDs)
    requires WellKeyed(snapshot) && Enumerates(order, snapshot.Keys)
    requires forall k :: k in order ==> k in snapshot
    ensures SamePairs(snapshot, Load(snapshot, order, processed, ids).db)
            <==> NoClash(snapshot, ids) && NoLateDeletion(snapshot, order, ids)
  {
    if !NoLateDeletion(snapshot, order, ids) {
      LateDeletionLosesVote(snapshot, order, processed, ids);
    } else if !NoClash(snapshot, ids) {
      ClashLosesVote(snapshot, order, processed, ids);
    } else {
      forall h, v ensures HasPair(snapshot, h, v) <==> HasPair(Load(snapshot, order, processed, ids).db, h, v) {
        if HasPair(snapshot, h, v) {
          PairSurvives(snapshot, order, processed, ids, h, v);
        }
        if HasPair(Load(snapshot, order, processed, ids).db, h, v) {
          LoadAddsNoPair(snapshot, order, processed, ids, h, v);
        }
      }
    }
  }

  lemma PairSurvives(snapshot: Database, order: seq<string>, processed: set<string>, ids: VoteIDs, h: Bytes, v: string)
    requires WellKeyed(snapshot) && Enumerates(order, snapshot.Keys)
    requires forall k :: k in order ==> k in snapshot
    requires NoClash(snapshot, ids) && NoLateDeletion(snapshot, order, ids) && HasPair(snapshot, h, v)
    ensures HasPair(Load(snapshot, order, processed, ids).db, h, v)
  {
    var db := Load(snapshot, order, processed, ids).db;
    var k :| k in snapshot && snapshot[k].Record? && snapshot[k].vote.blockHash == h
             && snapshot[k].vote.validatorID == v;
    assert k in Elements(order);
    var j :| 0 <= j < |order| && order[j] == k;
    VoteSurvives(snapshot, order, processed, ids, j, ids(h, v));
    var kept := db[ids(h, v)].vote;
    assert HasPair(db, kept.blockHash, kept.validatorID);
    LoadAddsNoPair(snapshot, order, processed, ids, kept.blockHash, kept.validatorID);
  }

  /** Two pairs with one ID cannot both lie under it. */
  lemma ClashLosesVote(snapshot: Database, order: seq<string>, processed: set<string>, ids: VoteIDs)
    requires WellKeyed(snapshot) && Enumerates(order, snapshot.Keys)
    requires forall k :: k in order ==> k in snapshot
    requires !NoClash(snapshot, ids)
    ensures !SamePairs(snapshot, Load(snapshot, order, processed, ids).db)
  {
    var db := Load(snapshot, order, processed, ids).db;
    LoadIsCanonical(snapshot, order, processed, ids);
    var k, l :| k in snapshot && l in snapshot && snapshot[k].Record? && snapshot[l].Record?
                && CorrectID(snapshot[k].vote, ids) == CorrectID(snapshot[l].vote, ids)
                && !(snapshot[k].vote.blockHash == snapshot[l].vote.blockHash
                     && snapshot[k].vote.validatorID == snapshot[l].vote.validatorID);
    assert HasPair(snapshot, snapshot[k].vote.blockHash, snapshot[k].vote.validatorID);
    assert HasPair(snapshot, snapshot[l].vote.blockHash, snapshot[l].vote.validatorID);
  }

  lemma LateDeletionEmptiesKey(snapshot: Database, order: seq<string>, processed: set<string>, ids: VoteIDs)
    returns (lost: Vote)
    requires WellKeyed(snapshot)
    requires forall k :: k in order ==> k in snapshot
    requires !NoLateDeletion(snapshot, order, ids)
    ensures HasPair(snapshot, lost.blockHash, lost.validatorID)
    ensures CorrectID(lost, ids) !in Load(snapshot, order, processed, ids).db
  {
    var i, j :| LegacyAt(snapshot, order, ids, i) && VoteFor(snapshot, order, ids, j, order[i])
                && !exists later :: i < later && VoteFor(snapshot, order, ids, later, order[i]);
    LoadPrefixStep(snapshot, order, processed, ids, i);
    forall l | i + 1 <= l < |order| ensures !VoteFor(snapshot, order, ids, l, order[i]) {}
    StaysAbsent(snapshot, order, processed, ids, order[i], i + 1);
    lost := snapshot[order[j]].vote;
    assert HasPair(snapshot, lost.blockHash, lost.validatorID);
  }

  lemma LateDeletionLosesVote(snapshot: Database, order: seq<string>, processed: set<string>, ids: VoteIDs)
    requires WellKeyed(snapshot) && Enumerates(order, snapshot.Keys)
    requires forall k :: k in order ==> k in snapshot
    requires !NoLateDeletion(snapshot, order, ids)
    ensures !SamePairs(snapshot, Load(snapshot, order, processed, ids).db)
  {
    var db := Load(snapshot, order, processed, ids).db;
    var lost := LateDeletionEmptiesKey(snapshot, order, processed, ids);
    if HasPair(db, lost.blockHash, lost.validatorID) {
      LoadIsCanonical(snapshot, order, processed, ids);
      assert false;
    }
  }

  /** A loss: a vote of the first pair lies under a legacy key, and its ID is the legacy key of a vote of the
      second. Visited in this order the first vote is moved onto the second's key, which is then deleted. */
  lemma LateDeletionExample(ids: VoteIDs, a: Vote, b: Vote, processed: set<string>)
    requires CorrectID(a, ids) != CorrectID(b, ids)
    requires a.voteID != CorrectID(a, ids) && a.voteID != CorrectID(b, ids) && b.voteID == CorrectID(a, ids)
    ensures var snapshot := map[a.voteID := Record(a), b.voteID := Record(b)];
            var order := [a.voteID, b.voteID];
            && WellKeyed(snapshot) && Enumerates(order, snapshot.Keys) && !NoLateDeletion(snapshot, order, ids)
            && HasPair(snapshot, a.blockHash, a.validatorID)
            && !HasPair(Load(snapshot, order, processed, ids).db, a.blockHash, a.validatorID)
  {
    var snapshot := map[a.voteID := Record(a), b.voteID := Record(b)];
    var order := [a.voteID, b.voteID];
    assert LegacyAt(snapshot, order, ids, 1) && VoteFor(snapshot, order, ids, 0, order[1]);
    assert order[..1] == [a.voteID] && order[..1][..0] == [];
    assert Load(snapshot, [a.voteID], processed, ids) == LoadOne(Record(a), Index(snapshot, processed), ids);
    assert HasPair(snapshot, a.blockHash, a.validatorID) by {
      assert snapshot[a.voteID].Record?;
    }
  }

  // ---- What is on disk when writes fail ----

  /** The i-th visit deletes the record under key k. */
  ghost predicate Removes(snapshot: Database, order: seq<string>, ids: VoteIDs, outcomes: seq<Outcome>,
                          i: int, k: string) {
    LegacyAt(snapshot, order, ids, i) && i < |outcomes| && outcomes[i].deleted && order[i] == k
  }

  /** The i-th visit writes its vote under key k. */
  ghost predicate Writes(snapshot: Database, order: seq<string>, ids: VoteIDs, outcomes: seq<Outcome>,
                         i: int, k: string) {
    LegacyAt(snapshot, order, ids, i) && i < |outcomes| && outcomes[i].stored
    && CorrectID(snapshot[order[i]].vote, ids) == k
  }

  /** No visit from m up to n touches key k. */
  ghost predicate Untouched(snapshot: Database, order: seq<string>, ids: VoteIDs, outcomes: seq<Outcome>,
                            m: int, n: int, k: string) {
    forall i :: m <= i < n ==>
      !Removes(snapshot, order, ids, outcomes, i, k) && !Writes(snapshot, order, ids, outcomes, i, k)
  }

  /** The record visited at i ends under key k: it lies there and is never touched, or is moved there and not touched
      again. */
  ghost predicate EndsAt(snapshot: Database, order: seq<string>, ids: VoteIDs, outcomes: seq<Outcome>,
                         i: int, n: int, k: string) {
    && 0 <= i < |order| && order[i] in snapshot && snapshot[order[i]].Record?
    && if order[i] == k then Untouched(snapshot, order, ids, outcomes, 0, n, k)
       else i < n && Writes(snapshot, order, ids, outcomes, i, k)
            && Untouched(snapshot, order, ids, outcomes, i + 1, n, k)
  }

  ghost predicate Survives(snapshot: Database, order: seq<string>, ids: VoteIDs, outcomes: seq<Outcome>, i: int) {
    && 0 <= i < |order| && order[i] in snapshot && snapshot[order[i]].Record?
    && (EndsAt(snapshot, order, ids, outcomes, i, |order|, order[i])
        || EndsAt(snapshot, order, ids, outcomes, i, |order|, CorrectID(snapshot[order[i]].vote, ids)))
  }

  ghost predicate IsPair(entry: Stored, h: Bytes, v: string) {
    entry.Record? && entry.vote.blockHash == h && entry.vote.validatorID == v
  }

  /** The database after n visits. */
  ghost function DbAfter(snapshot: Database, order: seq<string>, processed: set<string>, ids: VoteIDs,
                         outcomes: seq<Outcome>, n: nat): Database
    requires |outcomes| == |order| && (forall k :: k in order ==> k in snapshot) && n <= |order|
  {
    LoadWith(snapshot, order[..n], processed, ids, outcomes[..n]).db
  }

  lemma DbNext(snapshot: Database, order: seq<string>, processed: set<string>, ids: VoteIDs,
               outcomes: seq<Outcome>, n: nat, k: string)
    requires WellKeyed(snapshot) && |outcomes| == |order| && (forall k :: k in order ==> k in snapshot) && n < |order|
    ensures var before := DbAfter(snapshot, order, processed, ids, outcomes, n);
            var after := DbAfter(snapshot, order, processed, ids, outcomes, n + 1);
            if Writes(snapshot, order, ids, outcomes, n, k) then
              k in after && after[k] == Record(snapshot[order[n]].vote.(voteID := k))
            else if Removes(snapshot, order, ids, outcomes, n, k) then k !in after
            else (k in after <==> k in before) && (k in after ==> after[k] == before[k])
  {
    assert order[..n + 1][..n] == order[..n] && outcomes[..n + 1][..n] == outcomes[..n];
    assert order[n] in snapshot;
  }

  lemma {:induction false} UntouchedStays(snapshot: Database, order: seq<string>, processed: set<string>, ids: VoteIDs,
                                          outcomes: seq<Outcome>, m: nat, n: nat, k: string)
    requires WellKeyed(snapshot) && |outcomes| == |order| && (forall k :: k in order ==> k in snapshot)
    requires m <= n <= |order| && Untouched(snapshot, order, ids, outcomes, m, n, k)
    ensures var before := DbAfter(snapshot, order, processed, ids, outcomes, m);
            var after := DbAfter(snapshot, order, processed, ids, outcomes, n);
            (k in after <==> k in before) && (k in after ==> after[k] == before[k])
    decreases n
  {
    if m < n {
      UntouchedStays(snapshot, order, processed, ids, outcomes, m, n - 1, k);
      DbNext(snapshot, order, processed, ids, outcomes, n - 1, k);
    }
  }

  /** Whatever is on disk under a key got there by a visit that survived, or was never touched. */
  lemma {:induction false} OnDiskSurvived(snapshot: Database, order: seq<string>, processed: set<string>, ids: VoteIDs,
                                          outcomes: seq<Outcome>, n: nat, k: string, h: Bytes, v: string)
    returns (i: nat)
    requires WellKeyed(snapshot) && Enumerates(order, snapshot.Keys)
    requires |outcomes| == |order| && (forall k :: k in order ==> k in snapshot) && n <= |order|
    requires var db := DbAfter(snapshot, order, processed, ids, outcomes, n); k in db && IsPair(db[k], h, v)
    ensures EndsAt(snapshot, order, ids, outcomes, i, n, k) && IsPair(snapshot[order[i]], h, v)
    decreases n
  {
    if n == 0 {
      assert order[..0] == [] && k in Elements(order);
      i :| 0 <= i < |order| && order[i] == k;
    } else {
      DbNext(snapshot, order, processed, ids, outcomes, n - 1, k);
      if Writes(snapshot, order, ids, outcomes, n - 1, k) {
        i := n - 1;
      } else {
        i := OnDiskSurvived(snapshot, order, processed, ids, outcomes, n - 1, k, h, v);
      }
    }
  }

  /** Which pairs are on disk after a load whose writes may fail: exactly those with a record that no write touched,
      or that was moved to a key no later write touched. */
  lemma PairOnDiskIff(snapshot: Database, order: seq<string>, processed: set<string>, ids: VoteIDs,
                      outcomes: seq<Outcome>, h: Bytes, v: string)
    requires WellKeyed(snapshot) && Enumerates(order, snapshot.Keys)
    requires |outcomes| == |order| && forall k :: k in order ==> k in snapshot
    ensures HasPair(LoadWith(snapshot, order, processed, ids, outcomes).db, h, v)
            <==> exists i :: Survives(snapshot, order, ids, outcomes, i) && IsPair(snapshot[order[i]], h, v)
  {
    var n := |order|;
    var db := DbAfter(snapshot, order, processed, ids, outcomes, n);
    assert order[..n] == order && outcomes[..n] == outcomes;
    if HasPair(db, h, v) {
      var k :| k in db && db[k].Record? && db[k].vote.blockHash == h && db[k].vote.validatorID == v;
      var i := OnDiskSurvived(snapshot, order, processed, ids, outcomes, n, k, h, v);
    }
    if i :| Survives(snapshot, order, ids, outcomes, i) && IsPair(snapshot[order[i]], h, v) {
      SurvivorIsOnDisk(snapshot, order, processed, ids, outcomes, i, h, v);
    }
  }

  lemma SurvivorIsOnDisk(snapshot: Database, order: seq<string>, processed: set<string>, ids: VoteIDs,
                         outcomes: seq<Outcome>, i: nat, h: Bytes, v: string)
    requires WellKeyed(snapshot) && |outcomes| == |order| && forall k :: k in order ==> k in snapshot
    requires Survives(snapshot, order, ids, outcomes, i) && IsPair(snapshot[order[i]], h, v)
    ensures HasPair(DbAfter(snapshot, order, processed, ids, outcomes, |order|), h, v)
  {
    var n := |order|;
    var db := DbAfter(snapshot, order, processed, ids, outcomes, n);
    if EndsAt(snapshot, order, ids, outcomes, i, n, order[i]) {
      UntouchedStays(snapshot, order, processed, ids, outcomes, 0, n, order[i]);
      assert order[..0] == [] && outcomes[..0] == [];
      assert db[order[i]].Record?;
    } else {
      var c := CorrectID(snapshot[order[i]].vote, ids);
      DbNext(snapshot, order, processed, ids, outcomes, i, c);
      UntouchedStays(snapshot, order, processed, ids, outcomes, i + 1, n, c);
      assert db[c].Record?;
    }
  }

  // ---- The node's own IDs ----

  /** generateVoteID: the hex of the hash of the block hash followed by the validator ID's bytes, no separator. */
  ghost function NodeIDs(sha: Bytes -> Bytes, text: string -> Bytes): VoteIDs {
    (blockHash: Bytes, validatorID: string) => HexEncode(sha(Concatenation(text, blockHash, validatorID)))
  }

  /** The bytes that are hashed. */
  function Concatenation(text: string -> Bytes, blockHash: Bytes, validatorID: string): Bytes {
    blockHash + text(validatorID)
  }

  /** So two pairs share an ID exactly when the hashes of their concatenations are equal, and if the hash does not
      collide on those two, exactly when the concatenations are. */
  lemma SameIDIff(sha: Bytes -> Bytes, text: string -> Bytes, h: Bytes, v: string, h': Bytes, v': string)
    ensures var x, y := Concatenation(text, h, v), Concatenation(text, h', v');
            && (NodeIDs(sha, text)(h, v) == NodeIDs(sha, text)(h', v') <==> sha(x) == sha(y))
            && ((sha(x) == sha(y) ==> x == y) ==>
                  (NodeIDs(sha, text)(h, v) == NodeIDs(sha, text)(h', v') <==> x == y))
  {
    HexRoundTrip(sha(Concatenation(text, h, v)));
    HexRoundTrip(sha(Concatenation(text, h', v')));
  }

  /** Two different pairs with one ID, whatever the hash: a letter moved from the validator ID to the block hash. */
  lemma DifferentPairsShareID(sha: Bytes -> Bytes, text: string -> Bytes)
    requires text("A") == [65] && text("") == []
    ensures NodeIDs(sha, text)([65], "") == NodeIDs(sha, text)([], "A")
  {
    SameIDIff(sha, text, [65], "", [], "A");
    assert Concatenation(text, [65], "") == Concatenation(text, [], "A");
  }

  /** ... but recorded votes with block hashes of one length do not clash unless the hash itself collides. */
  lemma OneLengthDoesNotClash(sha: Bytes -> Bytes, text: string -> Bytes, db: Database, length: nat)
    requires forall k :: k in db && db[k].Record? ==> |db[k].vote.blockHash| == length
    requires forall v, v' :: text(v) == text(v') ==> v == v'
    requires forall k, l :: k in db && l in db && db[k].Record? && db[l].Record? ==>
               var x, y := Concatenation(text, db[k].vote.blockHash, db[k].vote.validatorID),
                           Concatenation(text, db[l].vote.blockHash, db[l].vote.validatorID);
               sha(x) == sha(y) ==> x == y
    ensures NoClash(db, NodeIDs(sha, text))
  {
    forall k, l | k in db && l in db && db[k].Record? && db[l].Record?
                  && CorrectID(db[k].vote, NodeIDs(sha, text)) == CorrectID(db[l].vote, NodeIDs(sha, text))
      ensures db[k].vote.blockHash == db[l].vote.blockHash && db[k].vote.validatorID == db[l].vote.validatorID
    {
      var a, b := db[k].vote, db[l].vote;
      SameIDIff(sha, text, a.blockHash, a.validatorID, b.blockHash, b.validatorID);
      var x, y := Concatenation(text, a.blockHash, a.validatorID), Concatenation(text, b.blockHash, b.validatorID);
      assert x[..length] == a.blockHash && y[..length] == b.blockHash;
      assert x[length..] == text(a.validatorID) && y[length..] == text(b.validatorID);
    }
  }
}
