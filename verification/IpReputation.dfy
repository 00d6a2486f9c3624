/** Per-address reputation and the per-subnet counter index (ip_reputation.go). */
module IpReputation {
  import opened Prelude

  datatype Reputation = Reputation(score: int, misbehaviors: seq<int>, lastSeen: int, blacklisted: bool,
                                   blacklistUntil: int)

  /** getSubnet: address masking is foreign. */
  type Subnets = string -> string

  datatype State = State(reps: map<string, Reputation>, counts: map<string, int>)

  const INITIAL_SCORE: int := 100
  const BLACKLIST_THRESHOLD: int := 20
  const MAX_NODES: int := 3
  const HOUR: int := 60 * MINUTE
  const DAY: int := 24 * HOUR

  function GetOrCreate(s: State, ip: string, subnets: Subnets, now: int): State {
    if ip in s.reps then s
    else
      var subnet := subnets(ip);
      State(s.reps[ip := Reputation(INITIAL_SCORE, [], now, false, 0)],
            s.counts[subnet := (if subnet in s.counts then s.counts[subnet] else 0) + 1])
  }

  function Punished(r: Reputation, severity: int, now: int): Reputation {
    var lowered := if r.score - severity * 5 < 0 then 0 else r.score - severity * 5;
    var hit := r.(misbehaviors := r.misbehaviors + [now], lastSeen := now, score := lowered);
    var listed := if lowered < BLACKLIST_THRESHOLD && !hit.blacklisted
                  then hit.(blacklisted := true, blacklistUntil := now + DAY) else hit;
    if severity >= 8 then listed.(blacklisted := true, blacklistUntil := now + 7 * DAY) else listed
  }

  function Rewarded(r: Reputation, now: int): Reputation {
    r.(lastSeen := now, score := if r.score + 1 > 100 then 100 else r.score + 1)
  }

  /** One hourly recovery step of one address: a tenth of what is missing, at least one point. */
  function Recovered(r: Reputation, now: int): Reputation {
    if r.blacklisted && now < r.blacklistUntil then r
    else if exists i :: 0 <= i < |r.misbehaviors| && r.misbehaviors[i] > now - DAY then r
    else if r.score < INITIAL_SCORE then
      var tenth := (INITIAL_SCORE - r.score) / 10;
      var raised := r.score + if tenth < 1 then 1 else tenth;
      r.(score := if raised > INITIAL_SCORE then INITIAL_SCORE else raised)
    else r
  }

  /** CheckIPAllowed lifts an expired blacklisting before it looks at the score. */
  function Checked(r: Reputation, now: int): Reputation {
    if r.blacklisted && now >= r.blacklistUntil then r.(blacklisted := false, score := BLACKLIST_THRESHOLD + 5) else r
  }

  predicate Removable(r: Reputation, now: int) {
    !r.blacklisted && r.lastSeen < now - 30 * DAY && r.score >= 90
  }

  /** CheckIPAllowed's answer. */
  predicate Admits(s: State, ip: string, subnets: Subnets, now: int) {
    if ip in s.reps then !Checked(s.reps[ip], now).blacklisted && Checked(s.reps[ip], now).score >= BLACKLIST_THRESHOLD
    else subnets(ip) !in s.counts || s.counts[subnets(ip)] < MAX_NODES
  }

  class IPReputationSystem {
    var reps: map<string, Reputation>
    var counts: map<string, int>
    const subnets: Subnets

    ghost function View(): State
      reads this
    {
      State(reps, counts)
    }

    constructor (subnets: Subnets)
      ensures this.subnets == subnets && View() == State(map[], map[]) && CountsOk(View(), subnets)
    {
      this.subnets, reps, counts := subnets, map[], map[];
    }

    method CheckIPAllowed(ip: string, now: int) returns (allowed: bool)
      modifies `reps
      ensures ip in old(reps) ==>
                && reps == old(reps)[ip := Checked(old(reps)[ip], now)]
                && allowed == (!(reps[ip].blacklisted) && reps[ip].score >= BLACKLIST_THRESHOLD)
      ensures ip !in old(reps) ==>
                && reps == old(reps)
                && allowed == (subnets(ip) !in counts || counts[subnets(ip)] < MAX_NODES)
      ensures allowed == Admits(old(View()), ip, subnets, now)
    {
      if ip !in reps {
        var subnet := subnets(ip);
        var count := if subnet in counts then counts[subnet] else 0;
        return !(count >= MAX_NODES);
      }
      var rep := reps[ip];
      if rep.blacklisted {
        if now < rep.blacklistUntil {
          return false;
        }
        rep := rep.(blacklisted := false, score := BLACKLIST_THRESHOLD + 5);
        reps := reps[ip := rep];
      }
      if rep.score < BLACKLIST_THRESHOLD {
        return false;
      }
      return true;
    }

    method GetOrCreateReputation(ip: string, now: int)
      modifies this
      ensures View() == GetOrCreate(old(View()), ip, subnets, now)
    {
      if ip !in reps {
        reps := reps[ip := Reputation(INITIAL_SCORE, [], now, false, 0)];
        var subnet := subnets(ip);
        counts := counts[subnet := (if subnet in counts then counts[subnet] else 0) + 1];
      }
    }

    method RecordMisbehavior(ip: string, severity: int, now: int)
      modifies this
      ensures View() == Step(old(View()), Misbehavior(ip, severity, now), subnets)
    {
      GetOrCreateReputation(ip, now);
      var rep := reps[ip];
      rep := rep.(misbehaviors := rep.misbehaviors + [now], lastSeen := now);
      var penalty := severity * 5;
      rep := rep.(score := rep.score - penalty);
      if rep.score < 0 {
        rep := rep.(score := 0);
      }
      if rep.score < BLACKLIST_THRESHOLD && !rep.blacklisted {
        rep := rep.(blacklisted := true, blacklistUntil := now + DAY);
      }
      if severity >= 8 {
        rep := rep.(blacklisted := true, blacklistUntil := now + 7 * DAY);
      }
      reps := reps[ip := rep];
    }

    method RecordSuccess(ip: string, now: int)
      modifies this
      ensures View() == Step(old(View()), Success(ip, now), subnets)
    {
      GetOrCreateReputation(ip, now);
      var rep := reps[ip];
      rep := rep.(lastSeen := now, score := rep.score + 1);
      if rep.score > 100 {
        rep := rep.(score := 100);
      }
      reps := reps[ip := rep];
    }

    /** One tick of the hourly recovery. */
    method RecoverReputations(now: int)
      modifies `reps
      ensures reps == map ip | ip in old(reps) :: Recovered(old(reps)[ip], now)
    {
      var todo := reps.Keys;
      while todo != {}
        invariant todo <= reps.Keys == old(reps).Keys
        invariant forall ip :: ip in reps ==>
                    reps[ip] == if ip in todo then old(reps)[ip] else Recovered(old(reps)[ip], now)
        decreases todo
      {
        var ip :| ip in todo;
        todo := todo - {ip};
        var rep := RecoverOne(reps[ip], now);
        reps := reps[ip := rep];
      }
    }

    static method RecoverOne(before: Reputation, now: int) returns (rep: Reputation)
      ensures rep == Recovered(before, now)
    {
      rep := before;
      if rep.blacklisted && now < rep.blacklistUntil {
        return;
      }
      var recentMisbehavior := HasRecent(rep.misbehaviors, now - DAY);
      if !recentMisbehavior && rep.score < INITIAL_SCORE {
        var recovery := (INITIAL_SCORE - rep.score) / 10;
        if recovery < 1 {
          recovery := 1;
        }
        rep := rep.(score := rep.score + recovery);
        if rep.score > INITIAL_SCORE {
          rep := rep.(score := INITIAL_SCORE);
        }
      }
    }

    static method HasRecent(times: seq<int>, cutoff: int) returns (recent: bool)
      ensures recent <==> exists i :: 0 <= i < |times| && times[i] > cutoff
    {
      for i := 0 to |times|
        invariant forall k :: 0 <= k < i ==> times[k] <= cutoff
      {
        if times[i] > cutoff {
          return true;
        }
      }
      return false;
    }

    /** Ranges over the addresses in any order, decrementing counters as it deletes. */
    method CleanupOldReputations(now: int)
      requires CountsOk(View(), subnets)
      modifies this
      ensures reps == map ip | ip in old(reps) && !Removable(old(reps)[ip], now) :: old(reps)[ip]
      ensures CountsOk(View(), subnets) && View() == Step(old(View()), CleanupEvent(now), subnets)
    {
      var cutoff := now - 30 * DAY;
      var todo := reps.Keys;
      while todo != {}
        invariant todo <= reps.Keys <= old(reps).Keys && CountsOk(View(), subnets)
        invariant forall ip :: ip in reps ==> reps[ip] == old(reps)[ip]
        invariant forall ip :: ip in old(reps).Keys - todo ==> (ip in reps <==> !Removable(old(reps)[ip], now))
        decreases todo
      {
        var ip :| ip in todo;
        todo := todo - {ip};
        var rep := reps[ip];
        if rep.blacklisted || rep.lastSeen > cutoff {
          continue;
        }
        if rep.score >= 90 && rep.lastSeen < cutoff {
          RemoveKeepsCounts(View(), ip, subnets);
          var subnet := subnets(ip);
          counts := counts[subnet := counts[subnet] - 1];
          if counts[subnet] <= 0 {
            counts := counts - {subnet};
          }
          reps := reps - {ip};
        }
      }
      CountsOkIsUnique(View(), subnets);
      assert reps == CleanedReps(old(reps), now);
    }
  }

  // ---- The counter index over runs ----

  datatype Event =
    | Misbehavior(ip: string, severity: int, now: int)
    | Success(ip: string, now: int)
    | Check(ip: string, now: int)
    | Recovery(now: int)
    | CleanupEvent(now: int)

  ghost function Members(reps: map<string, Reputation>, subnets: Subnets, subnet: string): set<string> {
    set ip | ip in reps && subnets(ip) == subnet
  }

  /** Every subnet's counter is the number of its tracked addresses, and subnets without any have none. */
  ghost predicate CountsOk(s: State, subnets: Subnets) {
    forall subnet ::
      var size := |Members(s.reps, subnets, subnet)|;
      (subnet in s.counts <==> size > 0) && (subnet in s.counts ==> s.counts[subnet] == size)
  }

  ghost predicate ScoresOk(s: State) {
    forall ip :: ip in s.reps ==> 0 <= s.reps[ip].score <= 100
  }

  /** Deleting an address and decrementing its subnet's counter. */
  function Remove(s: State, ip: string, subnets: Subnets): State
    requires subnets(ip) in s.counts
  {
    var subnet := subnets(ip);
    var lowered := s.counts[subnet := s.counts[subnet] - 1];
    State(s.reps - {ip}, if lowered[subnet] <= 0 then lowered - {subnet} else lowered)
  }

  /** The counters a cleanup leaves are those of the addresses it keeps. */
  ghost function CleanedReps(reps: map<string, Reputation>, now: int): map<string, Reputation> {
    map ip | ip in reps && !Removable(reps[ip], now) :: reps[ip]
  }

  ghost function CountsOf(reps: map<string, Reputation>, subnets: Subnets): map<string, int> {
    map subnet | subnet in (set ip | ip in reps :: subnets(ip)) :: |Members(reps, subnets, subnet)|
  }

  ghost function Step(s: State, e: Event, subnets: Subnets): State {
    match e
    case Misbehavior(ip, severity, now) =>
      var ready := GetOrCreate(s, ip, subnets, now);
      ready.(reps := ready.reps[ip := Punished(ready.reps[ip], severity, now)])
    case Success(ip, now) =>
      var ready := GetOrCreate(s, ip, subnets, now);
      ready.(reps := ready.reps[ip := Rewarded(ready.reps[ip], now)])
    case Check(ip, now) =>
      if ip in s.reps then s.(reps := s.reps[ip := Checked(s.reps[ip], now)]) else s
    case Recovery(now) => s.(reps := map ip | ip in s.reps :: Recovered(s.reps[ip], now))
    case CleanupEvent(now) => State(CleanedReps(s.reps, now), CountsOf(CleanedReps(s.reps, now), subnets))
  }

  /** Counters that are right are the only right ones. */
  lemma CountsOkIsUnique(s: State, subnets: Subnets)
    ensures CountsOk(s, subnets) <==> s.counts == CountsOf(s.reps, subnets)
  {
    var counts := CountsOf(s.reps, subnets);
    forall subnet ensures subnet in counts <==> |Members(s.reps, subnets, subnet)| > 0 {
      if ip :| ip in s.reps && subnets(ip) == subnet {
        assert ip in Members(s.reps, subnets, subnet);
      } else {
        assert Members(s.reps, subnets, subnet) == {};
      }
    }
    if CountsOk(s, subnets) {
      assert s.counts.Keys == counts.Keys;
    }
  }

  lemma AddKeepsCounts(s: State, ip: string, subnets: Subnets, now: int)
    requires CountsOk(s, subnets)
    ensures CountsOk(GetOrCreate(s, ip, subnets, now), subnets)
  {
    var next := GetOrCreate(s, ip, subnets, now);
    if ip !in s.reps {
      forall subnet
        ensures |Members(next.reps, subnets, subnet)|
                == |Members(s.reps, subnets, subnet)| + if subnet == subnets(ip) then 1 else 0
      {
        if subnet == subnets(ip) {
          assert Members(next.reps, subnets, subnet) == Members(s.reps, subnets, subnet) + {ip};
        } else {
          assert Members(next.reps, subnets, subnet) == Members(s.reps, subnets, subnet);
        }
      }
    }
  }

  lemma RemoveKeepsCounts(s: State, ip: string, subnets: Subnets)
    requires CountsOk(s, subnets) && ip in s.reps
    ensures subnets(ip) in s.counts && CountsOk(Remove(s, ip, subnets), subnets)
  {
    assert ip in Members(s.reps, subnets, subnets(ip));
    assert |Members(s.reps, subnets, subnets(ip))| > 0;
    var next := Remove(s, ip, subnets);
    forall subnet
      ensures |Members(next.reps, subnets, subnet)|
              == |Members(s.reps, subnets, subnet)| - if subnet == subnets(ip) then 1 else 0
    {
      if subnet == subnets(ip) {
        assert Members(next.reps, subnets, subnet) == Members(s.reps, subnets, subnet) - {ip};
      } else {
        assert Members(next.reps, subnets, subnet) == Members(s.reps, subnets, subnet);
      }
    }
  }

  lemma SameMembersSameCounts(s: State, reps: map<string, Reputation>, subnets: Subnets)
    requires CountsOk(s, subnets) && reps.Keys == s.reps.Keys
    ensures CountsOk(State(reps, s.counts), subnets)
  {
    forall subnet ensures Members(reps, subnets, subnet) == Members(s.reps, subnets, subnet) {}
  }

  /** Every step keeps the counters right, and the scores in range unless a severity is negative. */
  lemma StepKeepsIndex(s: State, e: Event, subnets: Subnets)
    requires CountsOk(s, subnets) && ScoresOk(s) && (e.Misbehavior? ==> e.severity >= 0)
    ensures CountsOk(Step(s, e, subnets), subnets) && ScoresOk(Step(s, e, subnets))
  {
    var next := Step(s, e, subnets);
    match e
    case CleanupEvent(now) =>
      CountsOkIsUnique(next, subnets);
    case Recovery(now) =>
      SameMembersSameCounts(s, next.reps, subnets);
    case Check(ip, now) =>
      SameMembersSameCounts(s, next.reps, subnets);
    case _ =>
      AddKeepsCounts(s, e.ip, subnets, e.now);
      SameMembersSameCounts(GetOrCreate(s, e.ip, subnets, e.now), next.reps, subnets);
  }

  ghost function Run(s: State, es: seq<Event>, subnets: Subnets): State {
    if es == [] then s else Step(Run(s, es[..|es| - 1], subnets), es[|es| - 1], subnets)
  }

  /** Over every run with non-negative severities the counter index is exact and scores stay between 0 and 100. */
  lemma {:induction false} IndexIsExact(es: seq<Event>, subnets: Subnets)
    requires forall e :: e in es && e.Misbehavior? ==> e.severity >= 0
    ensures var s := Run(State(map[], map[]), es, subnets); CountsOk(s, subnets) && ScoresOk(s)
    decreases |es|
  {
    if es != [] {
      assert es[|es| - 1] in es;
      IndexIsExact(es[..|es| - 1], subnets);
      StepKeepsIndex(Run(State(map[], map[]), es[..|es| - 1], subnets), es[|es| - 1], subnets);
    }
  }

  /** The penalty is not checked for its sign: scores stay in range exactly for severities that are not negative. */
  lemma ScoreInRangeIff(severity: int, now: int)
    ensures (forall r: Reputation :: 0 <= r.score <= 100 ==> 0 <= Punished(r, severity, now).score <= 100)
            <==> severity >= 0
  {
    if severity < 0 {
      var r := Reputation(100, [], 0, false, 0);
      assert Punished(r, severity, now).score > 100;
    }
  }

  // ---- What an address experiences ----

  /** A new address is admitted exactly while fewer than three addresses of its subnet are tracked. */
  lemma NewAddressIsAdmittedIff(s: State, ip: string, subnets: Subnets, now: int)
    requires CountsOk(s, subnets) && ip !in s.reps
    ensures Admits(s, ip, subnets, now) <==> |set a | a in s.reps && subnets(a) == subnets(ip)| < 3
  {
    assert Members(s.reps, subnets, subnets(ip)) == set a | a in s.reps && subnets(a) == subnets(ip);
  }

  /** A score starts at 100; a misbehaviour takes five points per degree and never more than there are, a success
      gives one up to 100. */
  lemma ScoreMoves(s: State, ip: string, severity: nat, now: int, subnets: Subnets)
    ensures var before := if ip in s.reps then s.reps[ip].score else 100;
            && Step(s, Misbehavior(ip, severity, now), subnets).reps[ip].score
               == (if before >= 5 * severity then before - 5 * severity else 0)
            && (before <= 100 ==> Step(s, Success(ip, now), subnets).reps[ip].score
                                  == if before < 100 then before + 1 else 100)
  {
  }

  /** A critical misbehaviour shuts an address out for seven days, to the nanosecond. */
  lemma CriticalShutsOutSevenDays(s: State, ip: string, severity: int, now: int, subnets: Subnets, later: int)
    requires severity >= 8
    ensures Admits(Step(s, Misbehavior(ip, severity, now), subnets), ip, subnets, later)
            <==> later >= now + 604_800_000_000_000
  {
  }

  /** A lesser one shuts an address in good standing out for a day if it takes its score below 20, and otherwise not
      at all. */
  lemma LowScoreShutsOutOneDay(s: State, ip: string, severity: nat, now: int, subnets: Subnets, later: int)
    requires severity < 8 && ip in s.reps && !s.reps[ip].blacklisted && s.reps[ip].score >= 20
    ensures Admits(Step(s, Misbehavior(ip, severity, now), subnets), ip, subnets, later)
            <==> s.reps[ip].score - 5 * severity >= 20 || later >= now + 86_400_000_000_000
  {
  }

  /** An hourly recovery passes over addresses under a running blacklisting or with a misbehaviour in the last day;
      any other gets back a tenth of what is missing, rounded down but at least a point, and never passes 100. */
  lemma RecoveryReturnsATenth(s: State, ip: string, now: int, subnets: Subnets)
    requires ip in s.reps
    ensures var r, after := s.reps[ip], Step(s, Recovery(now), subnets).reps[ip];
            var held := (r.blacklisted && now < r.blacklistUntil)
                        || exists i :: 0 <= i < |r.misbehaviors| && r.misbehaviors[i] > now - 86_400_000_000_000;
            && after == r.(score := after.score)
            && (held || r.score >= 100 ==> after.score == r.score)
            && (!held && r.score < 100 ==>
                  && r.score < after.score <= 100
                  && 10 * (after.score - r.score) <= (if 100 - r.score > 10 then 100 - r.score else 10)
                  && 100 - r.score < 10 * (after.score - r.score + 1))
  {
  }

  /** A cleanup removes exactly the addresses that are not blacklisted, score at least 90 and were last seen over
      thirty days ago. */
  lemma CleanupRemovesIff(s: State, ip: string, now: int, subnets: Subnets)
    requires ip in s.reps
    ensures var next := Step(s, CleanupEvent(now), subnets);
            && (ip !in next.reps
                <==> !s.reps[ip].blacklisted && s.reps[ip].score >= 90
                     && s.reps[ip].lastSeen < now - 2_592_000_000_000_000)
            && (ip in next.reps ==> next.reps[ip] == s.reps[ip])
  {
  }

  /** A misbehaviour keeps an address from recovering for a day. */
  lemma MisbehaviourHoldsRecovery(s: State, ip: string, severity: int, now: int, later: int, subnets: Subnets)
    requires later < now + 86_400_000_000_000
    ensures var punished := Step(s, Misbehavior(ip, severity, now), subnets);
            ip in punished.reps && Step(punished, Recovery(later), subnets).reps[ip] == punished.reps[ip]
  {
    var r := Step(s, Misbehavior(ip, severity, now), subnets).reps[ip];
    assert r.misbehaviors[|r.misbehaviors| - 1] == now;
  }

  /** An address that was heard of stays tracked for thirty days. */
  lemma ActivityKeepsTracked(s: State, ip: string, severity: int, now: int, later: int, subnets: Subnets)
    requires later <= now + 2_592_000_000_000_000
    ensures ip in Step(Step(s, Misbehavior(ip, severity, now), subnets), CleanupEvent(later), subnets).reps
    ensures ip in Step(Step(s, Success(ip, now), subnets), CleanupEvent(later), subnets).reps
  {
  }
}
