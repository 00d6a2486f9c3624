/** What a crash leaves, and when memory and disk agree. */
module CrashSafety {
  import opened Prelude
  import opened Ledger
  import opened Blocks
  import opened AtomicMachine
  import opened CommitRuns

  // ---- Crashes ----

  /** The batches a run has written, one after the other. */
  ghost function Committed(n: Node, steps: seq<Step>): seq<Put> {
    if steps == [] then []
    else
      var last := |steps| - 1;
      var before := DoAll(n, steps[..last]);
      Committed(n, steps[..last]) + if Written(before, steps[last]) then before.batch else []
  }

  /** At every moment of every run the disk is the old disk with the committed batches replayed whole. */
  lemma {:induction false} DiskIsCommitted(n: Node, steps: seq<Step>)
    ensures DoAll(n, steps).disk == Replay(n.disk, Committed(n, steps))
    decreases |steps|
  {
    if steps != [] {
      var last := |steps| - 1;
      var before := DoAll(n, steps[..last]);
      DiskIsCommitted(n, steps[..last]);
      StepDisk(before, steps[last]);
      if Written(before, steps[last]) {
        ReplayConcat(n.disk, Committed(n, steps[..last]), before.batch);
      } else {
        assert Committed(n, steps) == Committed(n, steps[..last]);
      }
    }
  }

  /** Without a write the disk stays. */
  lemma {:induction false} DiskStays(n: Node, steps: seq<Step>)
    requires forall i :: 0 <= i < |steps| ==> !steps[i].Write?
    ensures DoAll(n, steps).disk == n.disk
    decreases |steps|
  {
    if steps != [] {
      DiskStays(n, steps[..|steps| - 1]);
      StepDisk(DoAll(n, steps[..|steps| - 1]), steps[|steps| - 1]);
    }
  }

  /** Memory and disk hold the same. */
  ghost predicate InSync(n: Node) {
    && (forall a :: a in n.accounts <==> AccountKey(a) in n.disk)
    && (forall id :: id in n.validators <==> ValidatorKey(id) in n.disk)
    && (forall a :: a in n.accounts ==> SameOnDisk(n, a))
    && (forall id :: id in n.validators ==> n.disk[ValidatorKey(id)] == ValidatorRecord(n.validators[id]))
  }

  ghost predicate SameOnDisk(n: Node, a: string)
    requires a in n.accounts
  {
    var o := n.accounts[a];
    AccountKey(a) in n.disk && o in n.heap && n.disk[AccountKey(a)] == AccountRecord(a, n.heap[o])
  }

  lemma CrashReloadsDisk(n: Node, reloaded: map<string, Account>)
    requires NodeOk(n) && Reloads(reloaded, n.disk)
    ensures var after := Do(n, Crash(reloaded)); after.disk == n.disk && NodeOk(after) && InSync(after)
  {
    var after := Do(n, Crash(reloaded));
    StepKeepsNodeOk(n, Crash(reloaded));
    forall id ensures id in after.validators <==> ValidatorKey(id) in after.disk {
      if ValidatorKey(id) in n.disk {
        assert ValidatorKey(id).id == id;
      }
    }
  }

  ghost predicate HasWrite(steps: seq<Step>) {
    exists i :: 0 <= i < |steps| && steps[i].Write?
  }

  /** A node that crashes after any part of a call comes back with memory equal to the disk, which is exactly as it
      was before the call until the database write, and from then on exactly as the whole call leaves it. */
  lemma CrashIsAllOrNothing(n: Node, steps: seq<Step>, k: nat, reloaded: map<string, Account>)
    requires NodeOk(n) && OneCall(steps) && k <= |steps|
    requires Reloads(reloaded, DoAll(n, steps[..k]).disk)
    ensures var after := Do(DoAll(n, steps[..k]), Crash(reloaded));
            InSync(after) && after.disk == if HasWrite(steps[..k]) then DoAll(n, steps).disk else n.disk
  {
    RunKeepsNodeOk(n, steps[..k]);
    CrashReloadsDisk(DoAll(n, steps[..k]), reloaded);
    DiskBeforeOrAfter(n, steps, k);
  }

  lemma DiskBeforeOrAfter(n: Node, steps: seq<Step>, k: nat)
    requires OneCall(steps) && k <= |steps|
    ensures DoAll(n, steps[..k]).disk == if HasWrite(steps[..k]) then DoAll(n, steps).disk else n.disk
  {
    if HasWrite(steps[..k]) {
      var i :| 0 <= i < k && steps[i].Write?;
      assert steps == steps[..k] + steps[k..];
      DoAllConcat(n, steps[..k], steps[k..]);
      DiskStays(DoAll(n, steps[..k]), steps[k..]);
    } else {
      DiskStays(n, steps[..k]);
    }
  }

  // ---- When memory and disk agree ----

  /** How far an object has moved: balance, and sends modulo 2^64. */
  datatype Drift = Drift(amount: int, sends: Uint64)

  const NONE := Drift(0, 0)

  function Plus(f: Funds, d: Drift): Funds {
    Funds(f.balance + d.amount, if f.nonce + d.sends < U64 then f.nonce + d.sends else f.nonce + d.sends - U64)
  }

  function Further(d: Drift, amount: int, sends: bool): Drift {
    Drift(d.amount + amount, if sends then Next(d.sends) else d.sends)
  }

  /** What the moves of a run did to an object since it was last staged. */
  ghost function SinceStaged(n: Node, steps: seq<Step>, o: Account): Drift {
    if steps == [] then NONE
    else
      var last := |steps| - 1;
      var at, before := DoAll(n, steps[..last]), SinceStaged(n, steps[..last], o);
      match steps[last]
      case Move(moved, amount, sends) => if moved == o && o in at.heap then Further(before, amount, sends) else before
      case StageAccount(staged) => if staged == o && at.phase.Open? then NONE else before
      case _ => before
  }

  /** What the moves of a run did to an object that no commit has saved: all its moves since the restart, or
      since it was staged for the last commit that wrote it. */
  ghost function Unsaved(n: Node, steps: seq<Step>, o: Account): Drift {
    if steps == [] then NONE
    else
      var last := |steps| - 1;
      var at, before := DoAll(n, steps[..last]), Unsaved(n, steps[..last], o);
      match steps[last]
      case Move(moved, amount, sends) => if moved == o && o in at.heap then Further(before, amount, sends) else before
      case Write(ok) =>
        if Written(at, steps[last]) && o in at.accountCache.Values then SinceStaged(n, steps[..last], o) else before
      case Crash(reloaded) => if Reloads(reloaded, at.disk) then NONE else before
      case _ => before
  }

  lemma PlusFurther(f: Funds, d: Drift, amount: int, sends: bool)
    ensures Changed(Plus(f, d), amount, sends) == Plus(f, Further(d, amount, sends))
  {
  }

  /** Every object differs from its record by what no commit has saved: a cached object from what is staged, an
      installed one from the disk, unless its key is still to be installed. */
  ghost predicate Tracked(n: Node, steps: seq<Step>) {
    var at := DoAll(n, steps);
    && (forall a :: a in at.accountCache ==> CacheTracked(n, steps, at, a))
    && (forall a :: a in at.accounts && !Pending(at, AccountKey(a)) ==> AccountTracked(n, steps, at, a))
  }

  ghost predicate CacheTracked(n: Node, steps: seq<Step>, at: Node, a: string)
    requires a in at.accountCache
  {
    var o := at.accountCache[a];
    && Contents(at, o) == Plus(StagedFunds(at.batch, a), SinceStaged(n, steps, o))
    && (at.phase.Installing? ==> SinceStaged(n, steps, o) == Unsaved(n, steps, o))
  }

  ghost predicate AccountTracked(n: Node, steps: seq<Step>, at: Node, a: string)
    requires a in at.accounts
  {
    var o := at.accounts[a];
    AccountKey(a) in at.disk && Contents(at, o) == Plus(FundsOn(at.disk, a), Unsaved(n, steps, o))
  }

  /** The state before the last step of a run, when the run so far is tracked. */
  ghost predicate Ready(n: Node, steps: seq<Step>) {
    steps != [] && NodeOk(DoAll(n, steps[..|steps| - 1])) && Tracked(n, steps[..|steps| - 1])
  }

  lemma MoveIsTracked(n: Node, steps: seq<Step>)
    requires Ready(n, steps) && steps[|steps| - 1].Move?
    ensures Tracked(n, steps)
  {
    var last := |steps| - 1;
    var s, at, next := steps[last], DoAll(n, steps[..last]), DoAll(n, steps);
    var o := s.account;
    forall a | a in next.accountCache ensures CacheTracked(n, steps, next, a) {
      assert CacheTracked(n, steps[..last], at, a);
      PlusFurther(StagedFunds(at.batch, a), SinceStaged(n, steps[..last], o), s.amount, s.sends);
    }
    forall a | a in next.accounts && !Pending(next, AccountKey(a)) ensures AccountTracked(n, steps, next, a) {
      assert AccountTracked(n, steps[..last], at, a);
      PlusFurther(FundsOn(at.disk, a), Unsaved(n, steps[..last], o), s.amount, s.sends);
    }
  }

  lemma StageIsTracked(n: Node, steps: seq<Step>)
    requires Ready(n, steps) && steps[|steps| - 1].StageAccount?
    ensures Tracked(n, steps)
  {
    var last := |steps| - 1;
    var s, at, next := steps[last], DoAll(n, steps[..last]), DoAll(n, steps);
    if at.phase.Open? && s.account in at.heap {
      StagedFundsNext(at, s.account);
    }
    forall a | a in next.accountCache ensures CacheTracked(n, steps, next, a) {
      if a in at.accountCache {
        assert CacheTracked(n, steps[..last], at, a);
      }
    }
    forall a | a in next.accounts && !Pending(next, AccountKey(a)) ensures AccountTracked(n, steps, next, a) {
      assert AccountTracked(n, steps[..last], at, a);
    }
  }

  lemma StagedFundsNext(n: Node, o: Account)
    requires n.phase.Open? && o in n.heap
    ensures var next := Do(n, StageAccount(o));
            && next.heap == n.heap && next.accounts == n.accounts && next.disk == n.disk && next.phase.Open?
            && next.accountCache == n.accountCache[o.address := o]
            && forall a :: StagedFunds(next.batch, a) == if a == o.address then n.heap[o] else StagedFunds(n.batch, a)
  {
    LastPutOfStaged(n.batch, Put(AccountKey(o.address), AccountRecord(o.address, n.heap[o])));
  }

  lemma WriteIsTracked(n: Node, steps: seq<Step>)
    requires Ready(n, steps) && steps[|steps| - 1].Write?
    ensures Tracked(n, steps)
  {
    var last := |steps| - 1;
    var s, at, next := steps[last], DoAll(n, steps[..last]), DoAll(n, steps);
    WriteOverlays(at);
    ReplayIsOverlay(at.disk, at.batch);
    forall a | a in next.accountCache ensures CacheTracked(n, steps, next, a) {
      assert CacheTracked(n, steps[..last], at, a);
    }
    forall a | a in next.accounts && !Pending(next, AccountKey(a)) ensures AccountTracked(n, steps, next, a) {
      assert AccountTracked(n, steps[..last], at, a);
      LastPutIffKey(at.batch, AccountKey(a));
    }
  }

  /** A key that stops pending was installed from the cache. */
  lemma InstalledAccount(n: Node, s: Step, a: string)
    requires NodeOk(n) && s.Install? && Pending(n, AccountKey(a)) && !Pending(Do(n, s), AccountKey(a))
    ensures a in n.accountCache && a in Do(n, s).accounts && Do(n, s).accounts[a] == n.accountCache[a]
  {
    LastPutIffKey(n.batch, AccountKey(a));
    InstallMoves(n, s);
    InstallIs(n, s);
    assert s.key == AccountKey(a);
  }

  lemma InstallIsTracked(n: Node, steps: seq<Step>)
    requires Ready(n, steps) && steps[|steps| - 1].Install?
    ensures Tracked(n, steps)
  {
    var last := |steps| - 1;
    var s, at, next := steps[last], DoAll(n, steps[..last]), DoAll(n, steps);
    InstallMoves(at, s);
    forall a | a in next.accountCache ensures CacheTracked(n, steps, next, a) {
      assert CacheTracked(n, steps[..last], at, a);
    }
    forall a | a in next.accounts && !Pending(next, AccountKey(a)) ensures AccountTracked(n, steps, next, a) {
      if Pending(at, AccountKey(a)) {
        LastPutIffKey(at.batch, AccountKey(a));
        InstalledAccount(at, s, a);
        assert CacheTracked(n, steps[..last], at, a);
      } else {
        assert AccountTracked(n, steps[..last], at, a);
      }
    }
  }

  lemma RestartedContents(disk: Disk, reloaded: map<string, Account>, a: string)
    requires Reloads(reloaded, disk) && a in reloaded
    ensures AccountKey(a) in disk && Contents(Restarted(disk, reloaded), reloaded[a]) == Plus(FundsOn(disk, a), NONE)
  {
  }

  lemma CrashIsTracked(n: Node, steps: seq<Step>)
    requires Ready(n, steps) && steps[|steps| - 1].Crash?
    requires Reloads(steps[|steps| - 1].reloaded, DoAll(n, steps[..|steps| - 1]).disk)
    ensures Tracked(n, steps)
  {
    var s, at := steps[|steps| - 1], DoAll(n, steps[..|steps| - 1]);
    var next := Restarted(at.disk, s.reloaded);
    CrashRestarts(at, s.reloaded);
    forall a | a in next.accounts ensures AccountTracked(n, steps, next, a) {
      RestartedContents(at.disk, s.reloaded, a);
      assert Unsaved(n, steps, next.accounts[a]) == NONE;
    }
  }

  /** A step that leaves objects, records and staging alone, or only drops what is staged. */
  lemma RestIsTracked(n: Node, steps: seq<Step>)
    requires Ready(n, steps) && IsRest(DoAll(n, steps[..|steps| - 1]), steps[|steps| - 1])
    ensures Tracked(n, steps)
  {
    var last := |steps| - 1;
    var s, at, next := steps[last], DoAll(n, steps[..last]), DoAll(n, steps);
    RestStays(at, s);
    forall a | a in next.accountCache ensures CacheTracked(n, steps, next, a) {
      assert CacheTracked(n, steps[..last], at, a);
    }
    forall a | a in next.accounts && !Pending(next, AccountKey(a)) ensures AccountTracked(n, steps, next, a) {
      assert AccountTracked(n, steps[..last], at, a);
    }
  }

  /** A node that has just read its disk, with nothing staged. */
  ghost predicate Started(n: Node) {
    NodeOk(n) && InSync(n) && n.phase.Open? && n.accountCache == map[]
  }

  lemma RestartedIsStarted(disk: Disk, reloaded: map<string, Account>)
    requires DiskKeyed(disk) && Reloads(reloaded, disk)
    ensures Started(Restarted(disk, reloaded))
  {
    var n := Restarted(disk, reloaded);
    RestartedOk(disk, reloaded);
    CrashReloadsDisk(n, reloaded);
    CrashRestarts(n, reloaded);
  }

  lemma {:induction false} AlwaysTracked(n: Node, steps: seq<Step>)
    requires Started(n)
    ensures Tracked(n, steps)
    decreases |steps|
  {
    if steps == [] {
      forall a | a in n.accounts ensures AccountTracked(n, [], n, a) {
        assert SameOnDisk(n, a);
      }
    } else {
      var last := |steps| - 1;
      var s := steps[last];
      AlwaysTracked(n, steps[..last]);
      RunKeepsNodeOk(n, steps[..last]);
      match s
      case Move(_, _, _) => MoveIsTracked(n, steps);
      case StageAccount(_) => StageIsTracked(n, steps);
      case Write(_) => WriteIsTracked(n, steps);
      case Install(_) => InstallIsTracked(n, steps);
      case Crash(reloaded) =>
        if Reloads(reloaded, DoAll(n, steps[..last]).disk) {
          CrashIsTracked(n, steps);
        } else {
          RestIsTracked(n, steps);
        }
      case _ => RestIsTracked(n, steps);
    }
  }

  /** Memory and disk know the same names, and the same validators, but for keys still to be installed. */
  ghost predicate NamesAgree(n: Node) {
    && (forall a :: !Pending(n, AccountKey(a)) ==> (a in n.accounts <==> AccountKey(a) in n.disk))
    && (forall id :: !Pending(n, ValidatorKey(id)) ==>
          && (id in n.validators <==> ValidatorKey(id) in n.disk)
          && (id in n.validators ==> n.disk[ValidatorKey(id)] == ValidatorRecord(n.validators[id])))
  }

  lemma StepKeepsNames(n: Node, s: Step)
    requires NodeOk(n) && NamesAgree(n)
    ensures NamesAgree(Do(n, s))
  {
    match s
    case Write(ok) => WriteKeepsNames(n, s);
    case Install(key) => InstallKeepsNames(n, s);
    case Crash(reloaded) =>
      if Reloads(reloaded, n.disk) {
        CrashReloadsDisk(n, reloaded);
      }
    case _ => OtherKeepsNames(n, s);
  }

  lemma OtherKeepsNames(n: Node, s: Step)
    requires NodeOk(n) && NamesAgree(n) && !s.Write? && !s.Install? && !s.Crash?
    ensures NamesAgree(Do(n, s))
  {
    if s.Move? || s.StageAccount? {
      MoveKeepsMaps(n, s);
    } else {
      RestStays(n, s);
    }
  }

  lemma WriteKeepsNames(n: Node, s: Step)
    requires NodeOk(n) && NamesAgree(n) && s.Write?
    ensures NamesAgree(Do(n, s))
  {
    ReplayIsOverlay(n.disk, n.batch);
    forall k ensures LastPut(n.batch, k).Some? <==> k in Keys(n.batch) {
      LastPutIffKey(n.batch, k);
    }
  }

  lemma InstallKeepsNames(n: Node, s: Step)
    requires NodeOk(n) && NamesAgree(n) && s.Install?
    ensures NamesAgree(Do(n, s))
  {
    if Pending(n, s.key) {
      LastPutIffKey(n.batch, s.key);
      var left := n.phase.todo - {s.key};
      match s.key
      case AccountKey(a) =>
        assert Do(n, s) == n.(accounts := n.accounts[a := n.accountCache[a]], phase := Installing(left));
        AccountJoins(n, a, left);
      case ValidatorKey(id) =>
        assert Do(n, s) == n.(validators := n.validators[id := n.validatorCache[id]], phase := Installing(left));
        ValidatorJoins(n, id, left);
    } else {
      assert Do(n, s) == n;
    }
  }

  lemma AccountJoins(n: Node, a: string, left: set<Key>)
    requires NodeOk(n) && NamesAgree(n) && Pending(n, AccountKey(a)) && a in n.accountCache
    requires left == n.phase.todo - {AccountKey(a)}
    ensures NamesAgree(n.(accounts := n.accounts[a := n.accountCache[a]], phase := Installing(left)))
  {
    var next := n.(accounts := n.accounts[a := n.accountCache[a]], phase := Installing(left));
    assert AccountKey(a) in n.disk;
    assert forall k :: k != AccountKey(a) ==> (Pending(next, k) <==> Pending(n, k));
  }

  lemma ValidatorJoins(n: Node, id: string, left: set<Key>)
    requires NodeOk(n) && NamesAgree(n) && Pending(n, ValidatorKey(id)) && id in n.validatorCache
    requires left == n.phase.todo - {ValidatorKey(id)}
    ensures NamesAgree(n.(validators := n.validators[id := n.validatorCache[id]], phase := Installing(left)))
  {
    var next := n.(validators := n.validators[id := n.validatorCache[id]], phase := Installing(left));
    assert ValidatorKey(id) in n.disk && n.disk[ValidatorKey(id)] == ValidatorRecord(n.validatorCache[id]);
    assert forall k :: k != ValidatorKey(id) ==> (Pending(next, k) <==> Pending(n, k));
  }

  lemma {:induction false} NamesAlwaysAgree(n: Node, steps: seq<Step>)
    requires Started(n)
    ensures NamesAgree(DoAll(n, steps))
    decreases |steps|
  {
    if steps != [] {
      NamesAlwaysAgree(n, steps[..|steps| - 1]);
      RunKeepsNodeOk(n, steps[..|steps| - 1]);
      StepKeepsNames(DoAll(n, steps[..|steps| - 1]), steps[|steps| - 1]);
    }
  }

  lemma PlusIsSameIff(f: Funds, d: Drift)
    ensures Plus(f, d) == f <==> d == NONE
  {
  }

  /** At every moment of every run that is not inside a commit, memory and disk agree on an account exactly when
      the moves no commit has saved cancel out, and on everything exactly when they do for every loaded object. */
  lemma InSyncIff(n: Node, steps: seq<Step>)
    requires Started(n) && DoAll(n, steps).phase.Open?
    ensures var at := DoAll(n, steps);
            && (forall a :: a in at.accounts ==> (SameOnDisk(at, a) <==> Unsaved(n, steps, at.accounts[a]) == NONE))
            && (InSync(at) <==> forall a :: a in at.accounts ==> Unsaved(n, steps, at.accounts[a]) == NONE)
  {
    var at := DoAll(n, steps);
    RunKeepsNodeOk(n, steps);
    NamesAlwaysAgree(n, steps);
    AlwaysTracked(n, steps);
    forall a | a in at.accounts ensures SameOnDisk(at, a) <==> Unsaved(n, steps, at.accounts[a]) == NONE {
      assert AccountTracked(n, steps, at, a) && WellKeyed(AccountKey(a), at.disk[AccountKey(a)]);
      PlusIsSameIff(FundsOn(at.disk, a), Unsaved(n, steps, at.accounts[a]));
    }
  }
}
