/** The first-vote tracker that suspends validators voting for two blocks at one height (slashing.go). */
module Slashing {
  import opened Prelude

  /** One vote as it is fed to DetectDoubleVoting. */
  datatype Ballot = Ballot(validatorID: string, height: nat, blockHash: Bytes)

  datatype SlashEvent = SlashEvent(validatorID: string, evidence: Bytes, height: nat, timestamp: int, until: int)

  datatype Registration = Registration(suspended: bool, until: int)

  const DOUBLE_VOTING_SUSPENSION: int := 24 * 60 * MINUTE

  /** stored holds the "slashing_" part of LevelDB, by validator and height. */
  datatype State = State(tracker: map<string, map<int, Bytes>>, events: seq<SlashEvent>,
                         registry: map<string, Registration>, stored: map<(string, nat), SlashEvent>)

  datatype SlashError = UnknownValidator | WriteFailed

  /** When a ballot is fed, and whether LevelDB would take an event then. */
  datatype Tick = Tick(now: int, written: bool)

  function Tracked(st: State, v: string, h: nat): Option<Bytes> {
    if v in st.tracker && h in st.tracker[v] then Some(st.tracker[v][h]) else None
  }

  /** slashValidator for double voting: suspend in the registry, log the event, then store it. */
  function Slash(st: State, b: Ballot, evidence: Bytes, tick: Tick): (State, Option<SlashError>) {
    if b.validatorID !in st.registry then (st, Some(UnknownValidator))
    else
      var until := tick.now + DOUBLE_VOTING_SUSPENSION;
      var event := SlashEvent(b.validatorID, evidence, b.height, tick.now, until);
      var logged := st.(registry := st.registry[b.validatorID := Registration(true, until)],
                        events := st.events + [event]);
      if tick.written then (logged.(stored := st.stored[(b.validatorID, b.height) := event]), None)
      else (logged, Some(WriteFailed))
  }

  function Detect(st: State, b: Ballot, tick: Tick): (State, Option<SlashError>) {
    var ready := if b.validatorID in st.tracker then st
                  else st.(tracker := st.tracker[b.validatorID := map[]]);
    match Tracked(ready, b.validatorID, b.height)
    case None =>
      var votes := ready.tracker[b.validatorID][b.height := b.blockHash];
      (ready.(tracker := ready.tracker[b.validatorID := votes]), None)
    case Some(previous) =>
      if previous != b.blockHash then Slash(ready, b, previous + b.blockHash, tick) else (ready, None)
  }

  class SlashingManager {
    var tracker: map<string, map<int, Bytes>>
    var events: seq<SlashEvent>
    var registry: map<string, Registration>
    var stored: map<(string, nat), SlashEvent>

    ghost function View(): State
      reads this
    {
      State(tracker, events, registry, stored)
    }

    constructor (registry: map<string, Registration>)
      ensures View() == State(map[], [], registry, map[])
    {
      this.tracker, this.events, this.registry, this.stored := map[], [], registry, map[];
    }

    method SlashValidator(b: Ballot, evidence: Bytes, tick: Tick) returns (error: Option<SlashError>)
      modifies `events, `registry, `stored
      ensures (View(), error) == Slash(old(View()), b, evidence, tick)
    {
      if b.validatorID !in registry {
        return Some(UnknownValidator);
      }
      var until := tick.now + DOUBLE_VOTING_SUSPENSION;
      registry := registry[b.validatorID := Registration(true, until)];
      var event := SlashEvent(b.validatorID, evidence, b.height, tick.now, until);
      events := events + [event];
      if !tick.written {
        return Some(WriteFailed);
      }
      stored := stored[(b.validatorID, b.height) := event];
      return None;
    }

    method DetectDoubleVoting(b: Ballot, tick: Tick) returns (error: Option<SlashError>)
      modifies this
      ensures (View(), error) == Detect(old(View()), b, tick)
    {
      if b.validatorID !in tracker {
        tracker := tracker[b.validatorID := map[]];
      }
      if b.height in tracker[b.validatorID] {
        var previousVote := tracker[b.validatorID][b.height];
        if previousVote != b.blockHash {
          error := SlashValidator(b, previousVote + b.blockHash, tick);
          return;
        }
      } else {
        tracker := tracker[b.validatorID := tracker[b.validatorID][b.height := b.blockHash]];
      }
      return None;
    }
  }

  /** The state after a stream of ballots, each with the tick at which it was fed. */
  ghost function Feed(st: State, stream: seq<Ballot>, ticks: seq<Tick>): State
    requires |ticks| == |stream|
  {
    if stream == [] then st
    else
      var n := |stream| - 1;
      Detect(Feed(st, stream[..n], ticks[..n]), stream[n], ticks[n]).0
  }

  ghost predicate Is(b: Ballot, v: string, h: nat) {
    b.validatorID == v && b.height == h
  }

  /** The hash of the earliest ballot of v at height h. */
  ghost function First(stream: seq<Ballot>, v: string, h: nat): Option<Bytes> {
    if stream == [] then None
    else
      var n := |stream| - 1;
      var earlier := First(stream[..n], v, h);
      if earlier.Some? then earlier
      else if Is(stream[n], v, h) then Some(stream[n].blockHash) else None
  }

  ghost predicate SlashedAt(st: State, v: string, h: nat) {
    exists i :: 0 <= i < |st.events| && st.events[i].validatorID == v && st.events[i].height == h
  }

  ghost predicate IsSuspended(st: State, v: string) {
    v in st.registry && st.registry[v].suspended
  }

  /** The stream holds two different hashes of v at height h. */
  ghost predicate Equivocates(stream: seq<Ballot>, v: string, h: nat) {
    exists i, j :: 0 <= i < |stream| && 0 <= j < |stream| && Is(stream[i], v, h) && Is(stream[j], v, h)
      && stream[i].blockHash != stream[j].blockHash
  }

  /** The stream holds a hash of v at height h other than its first. */
  ghost predicate Deviates(stream: seq<Ballot>, v: string, h: nat) {
    exists i :: 0 <= i < |stream| && Is(stream[i], v, h) && First(stream, v, h) != Some(stream[i].blockHash)
  }

  lemma {:induction false} FirstIsInStream(stream: seq<Ballot>, v: string, h: nat)
    ensures First(stream, v, h).Some? ==>
              exists i :: 0 <= i < |stream| && Is(stream[i], v, h) && First(stream, v, h) == Some(stream[i].blockHash)
    ensures forall i :: 0 <= i < |stream| && Is(stream[i], v, h) ==> First(stream, v, h).Some?
  {
    if stream != [] {
      var n := |stream| - 1;
      FirstIsInStream(stream[..n], v, h);
      forall i | 0 <= i < |stream| && Is(stream[i], v, h) ensures First(stream, v, h).Some? {
        if i < n {
          assert stream[..n][i] == stream[i];
        }
      }
      if First(stream[..n], v, h).Some? {
        var i :| 0 <= i < n && Is(stream[..n][i], v, h) && First(stream[..n], v, h) == Some(stream[..n][i].blockHash);
        assert Is(stream[i], v, h);
      }
    }
  }

  lemma DeviatesIffEquivocates(stream: seq<Ballot>, v: string, h: nat)
    ensures Deviates(stream, v, h) <==> Equivocates(stream, v, h)
  {
    FirstIsInStream(stream, v, h);
    if Deviates(stream, v, h) {
      var j :| 0 <= j < |stream| && Is(stream[j], v, h) && First(stream, v, h) != Some(stream[j].blockHash);
      var i :| 0 <= i < |stream| && Is(stream[i], v, h) && First(stream, v, h) == Some(stream[i].blockHash);
      assert stream[i].blockHash != stream[j].blockHash;
    }
  }

  /** The tracker remembers exactly the first hash per validator and height. */
  lemma {:induction false} TrackerHoldsFirst(st: State, stream: seq<Ballot>, ticks: seq<Tick>, v: string, h: nat)
    requires |ticks| == |stream| && st.tracker == map[]
    ensures Tracked(Feed(st, stream, ticks), v, h) == First(stream, v, h)
    ensures Feed(st, stream, ticks).registry.Keys == st.registry.Keys
  {
    if stream != [] {
      var n := |stream| - 1;
      TrackerHoldsFirst(st, stream[..n], ticks[..n], v, h);
      TrackerHoldsFirst(st, stream[..n], ticks[..n], stream[n].validatorID, stream[n].height);
    }
  }

  /** One more ballot slashes v at h exactly when it is v's, at h, and not v's first hash there. */
  lemma DetectSlashes(st: State, b: Ballot, tick: Tick, v: string, h: nat)
    requires v in st.registry
    ensures SlashedAt(Detect(st, b, tick).0, v, h)
            <==> SlashedAt(st, v, h)
                 || (Is(b, v, h) && Tracked(st, v, h).Some? && Tracked(st, v, h) != Some(b.blockHash))
  {
    var next := Detect(st, b, tick).0;
    if |next.events| > |st.events| {
      assert next.events == st.events + [next.events[|st.events|]];
    }
    if SlashedAt(st, v, h) {
      var i :| 0 <= i < |st.events| && st.events[i].validatorID == v && st.events[i].height == h;
      assert next.events[i] == st.events[i];
    }
  }

  lemma DeviatesStep(stream: seq<Ballot>, v: string, h: nat)
    requires stream != []
    ensures var n := |stream| - 1;
            Deviates(stream, v, h) <==>
              Deviates(stream[..n], v, h)
              || (Is(stream[n], v, h) && First(stream[..n], v, h).Some?
                  && First(stream[..n], v, h) != Some(stream[n].blockHash))
  {
    var n := |stream| - 1;
    FirstIsInStream(stream[..n], v, h);
    if Deviates(stream, v, h) {
      var i :| 0 <= i < |stream| && Is(stream[i], v, h) && First(stream, v, h) != Some(stream[i].blockHash);
      if i < n {
        assert stream[..n][i] == stream[i];
      }
    }
    if Deviates(stream[..n], v, h) {
      var i :| 0 <= i < n && Is(stream[..n][i], v, h) && First(stream[..n], v, h) != Some(stream[..n][i].blockHash);
      assert stream[i] == stream[..n][i];
    }
  }

  /** A registered validator is slashed at a height exactly when the stream shows two of its hashes there. */
  lemma {:induction false} SlashedIffEquivocates(st: State, stream: seq<Ballot>, ticks: seq<Tick>, v: string, h: nat)
    requires |ticks| == |stream| && st.tracker == map[] && st.events == [] && v in st.registry
    ensures SlashedAt(Feed(st, stream, ticks), v, h) <==> Equivocates(stream, v, h)
    decreases |stream|
  {
    DeviatesIffEquivocates(stream, v, h);
    if stream != [] {
      var n := |stream| - 1;
      SlashedIffEquivocates(st, stream[..n], ticks[..n], v, h);
      TrackerHoldsFirst(st, stream[..n], ticks[..n], v, h);
      DetectSlashes(Feed(st, stream[..n], ticks[..n]), stream[n], ticks[n], v, h);
      DeviatesStep(stream, v, h);
      DeviatesIffEquivocates(stream[..n], v, h);
    }
  }

  /** And it ends suspended exactly when it started suspended or was slashed at some height. */
  lemma {:induction false} SuspendedIffSlashed(st: State, stream: seq<Ballot>, ticks: seq<Tick>, v: string)
    requires |ticks| == |stream| && st.tracker == map[] && st.events == [] && v in st.registry
    ensures IsSuspended(Feed(st, stream, ticks), v)
            <==> IsSuspended(st, v) || exists h :: SlashedAt(Feed(st, stream, ticks), v, h)
    decreases |stream|
  {
    if stream != [] {
      var n := |stream| - 1;
      var before := Feed(st, stream[..n], ticks[..n]);
      var after := Feed(st, stream, ticks);
      SuspendedIffSlashed(st, stream[..n], ticks[..n], v);
      TrackerHoldsFirst(st, stream[..n], ticks[..n], v, 0);
      forall h ensures SlashedAt(before, v, h) ==> SlashedAt(after, v, h) {
        DetectSlashes(before, stream[n], ticks[n], v, h);
      }
      DetectSlashes(before, stream[n], ticks[n], v, stream[n].height);
      if after.events == before.events {
        assert forall h :: SlashedAt(after, v, h) <==> SlashedAt(before, v, h);
      } else {
        assert SlashedAt(after, stream[n].validatorID, stream[n].height) by {
          assert after.events[|after.events| - 1].validatorID == stream[n].validatorID;
        }
        if stream[n].validatorID != v {
          forall h ensures SlashedAt(after, v, h) <==> SlashedAt(before, v, h) {
            DetectSlashes(before, stream[n], ticks[n], v, h);
          }
        }
      }
    }
  }

  /** Suspension for 24 hours from the tick, one event with both hashes, the first one first, and that event on disk
      if the write succeeds. */
  ghost predicate IsPunished(before: State, after: State, b: Ballot, first: Bytes, tick: Tick) {
    var until := tick.now + 86_400_000_000_000;
    var event := SlashEvent(b.validatorID, first + b.blockHash, b.height, tick.now, until);
    && after.registry == before.registry[b.validatorID := Registration(true, until)]
    && after.events == before.events + [event]
    && after.stored == if tick.written then before.stored[(b.validatorID, b.height) := event] else before.stored
  }

  ghost predicate IsUnpunished(before: State, after: State) {
    after.registry == before.registry && after.events == before.events && after.stored == before.stored
  }

  lemma DetectCosts(st: State, b: Ballot, tick: Tick)
    ensures var after, first := Detect(st, b, tick).0, Tracked(st, b.validatorID, b.height);
            if first.Some? && first.value != b.blockHash && b.validatorID in st.registry
            then IsPunished(st, after, b, first.value, tick)
            else IsUnpunished(st, after)
  {
  }

  /** What the second hash costs a registered validator, and that a first hash and a repeat cost nothing. */
  lemma SecondHashCosts(st: State, stream: seq<Ballot>, ticks: seq<Tick>, b: Ballot, tick: Tick)
    requires |ticks| == |stream| && st.tracker == map[]
    ensures var before, after := Feed(st, stream, ticks), Feed(st, stream + [b], ticks + [tick]);
            var first := First(stream, b.validatorID, b.height);
            if first.Some? && first.value != b.blockHash && b.validatorID in st.registry
            then IsPunished(before, after, b, first.value, tick)
            else IsUnpunished(before, after)
  {
    FeedNext(st, stream, ticks, b, tick);
    TrackerHoldsFirst(st, stream, ticks, b.validatorID, b.height);
    DetectCosts(Feed(st, stream, ticks), b, tick);
  }

  lemma FeedNext(st: State, stream: seq<Ballot>, ticks: seq<Tick>, b: Ballot, tick: Tick)
    requires |ticks| == |stream|
    ensures Feed(st, stream + [b], ticks + [tick]) == Detect(Feed(st, stream, ticks), b, tick).0
  {
    assert (stream + [b])[..|stream|] == stream && (ticks + [tick])[..|stream|] == ticks;
  }
}
