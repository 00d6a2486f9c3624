/** Atomic state commits step by step (atomic_state.go): the disk, the account objects in memory, and crashes. */
module AtomicMachine {
  import opened Prelude
  import opened Ledger
  import opened Blocks

  /** Keys "account_..." and "validator_..." never collide. */
  datatype Key = AccountKey(address: string) | ValidatorKey(id: string)

  /** What is marshalled under a key. */
  datatype Record = AccountRecord(address: string, funds: Funds) | ValidatorRecord(info: ValidatorInfo)

  type Disk = map<Key, Record>

  datatype Put = Put(key: Key, value: Record)

  /** LevelDB's atomic batch write: the puts in order. */
  function Replay(disk: Disk, batch: seq<Put>): Disk {
    if batch == [] then disk
    else
      var n := |batch| - 1;
      Replay(disk, batch[..n])[batch[n].key := batch[n].value]
  }

  /** The last value staged for a key. */
  function LastPut(batch: seq<Put>, key: Key): Option<Record> {
    if batch == [] then None
    else
      var n := |batch| - 1;
      if batch[n].key == key then Some(batch[n].value) else LastPut(batch[..n], key)
  }

  /** Replaying a batch, repeats included, is the same as overlaying the last value of every staged key. */
  lemma {:induction false} ReplayIsOverlay(disk: Disk, batch: seq<Put>)
    ensures forall k :: k in Replay(disk, batch) <==> k in disk || LastPut(batch, k).Some?
    ensures forall k :: k in Replay(disk, batch) ==>
              Replay(disk, batch)[k] == if LastPut(batch, k).Some? then LastPut(batch, k).value else disk[k]
    decreases |batch|
  {
    if batch != [] {
      ReplayIsOverlay(disk, batch[..|batch| - 1]);
    }
  }

  lemma {:induction false} ReplayConcat(disk: Disk, batch: seq<Put>, more: seq<Put>)
    ensures Replay(disk, batch + more) == Replay(Replay(disk, batch), more)
    decreases |more|
  {
    if more == [] {
      assert batch + more == batch;
    } else {
      assert (batch + more)[..|batch + more| - 1] == batch + more[..|more| - 1];
      ReplayConcat(disk, batch, more[..|more| - 1]);
    }
  }

  // ---- The machine ----

  /** A transaction can be filled until its batch is written; then its keys are installed in memory one by one. */
  datatype Phase = Open | Installing(todo: set<Key>)

  /** The database, the two maps of the state, the contents of every account object in use, and one transaction. */
  datatype Node = Node(disk: Disk, accounts: map<string, Account>, validators: map<string, ValidatorInfo>,
                       heap: map<Account, Funds>, batch: seq<Put>, accountCache: map<string, Account>,
                       validatorCache: map<string, ValidatorInfo>, phase: Phase)

  /** Fetch hands out an object; Move changes one in place; Write is the database write of a commit, which may fail;
      Crash restarts the node, which reads every stored record into a new object. */
  datatype Step =
    | Begin
    | Fetch(account: Account)
    | Move(account: Account, amount: int, sends: bool)
    | StageAccount(account: Account)
    | StageValidator(info: ValidatorInfo)
    | Write(ok: bool)
    | Install(key: Key)
    | Finish
    | Rollback
    | Crash(reloaded: map<string, Account>)

  ghost function Keys(batch: seq<Put>): set<Key> {
    set p | p in batch :: p.key
  }

  function Changed(f: Funds, amount: int, sends: bool): Funds {
    Funds(f.balance + amount, if sends then Next(f.nonce) else f.nonce)
  }

  ghost predicate Written(n: Node, s: Step) {
    s.Write? && s.ok && n.phase.Open?
  }

  /** New objects for exactly the stored accounts. */
  ghost predicate Reloads(reloaded: map<string, Account>, disk: Disk) {
    forall a ::
      && (a in reloaded <==> AccountKey(a) in disk)
      && (a in reloaded ==> reloaded[a].address == a)
  }

  ghost function FundsOn(disk: Disk, a: string): Funds {
    if AccountKey(a) in disk && disk[AccountKey(a)].AccountRecord? then disk[AccountKey(a)].funds else Funds(0, 0)
  }

  ghost function StoredValidators(disk: Disk): map<string, ValidatorInfo> {
    map id | id in (set k | k in disk && k.ValidatorKey? :: k.id) && disk[ValidatorKey(id)].ValidatorRecord?
      :: disk[ValidatorKey(id)].info
  }

  /** One step; a step that does not fit the state does nothing. */
  ghost function Do(n: Node, s: Step): Node {
    if s.Begin? || s.Rollback? then DoClear(n, s)
    else if s.Fetch? then DoFetch(n, s)
    else if s.Move? then DoMove(n, s)
    else if s.StageAccount? then DoStageAccount(n, s)
    else if s.StageValidator? then DoStageValidator(n, s)
    else if s.Write? then DoWrite(n, s)
    else if s.Install? then DoInstall(n, s)
    else if s.Finish? then DoFinish(n, s)
    else DoCrash(n, s)
  }

  ghost function DoClear(n: Node, s: Step): Node
    requires s.Begin? || s.Rollback?
  {
    if n.phase.Open? then Cleared(n) else n
  }

  ghost function DoFetch(n: Node, s: Step): Node
    requires s.Fetch?
  {
    if s.account in n.heap then n else n.(heap := n.heap[s.account := Funds(0, 0)])
  }

  ghost function DoMove(n: Node, s: Step): Node
    requires s.Move?
  {
    if s.account in n.heap
    then n.(heap := n.heap[s.account := Changed(n.heap[s.account], s.amount, s.sends)])
    else n
  }

  ghost function DoStageAccount(n: Node, s: Step): Node
    requires s.StageAccount?
  {
    var o := s.account;
    if n.phase.Open? && o in n.heap
    then n.(batch := n.batch + [Put(AccountKey(o.address), AccountRecord(o.address, n.heap[o]))],
            accountCache := n.accountCache[o.address := o])
    else n
  }

  ghost function DoStageValidator(n: Node, s: Step): Node
    requires s.StageValidator?
  {
    if n.phase.Open?
    then n.(batch := n.batch + [Put(ValidatorKey(s.info.id), ValidatorRecord(s.info))],
            validatorCache := n.validatorCache[s.info.id := s.info])
    else n
  }

  ghost function DoWrite(n: Node, s: Step): Node
    requires s.Write?
  {
    if Written(n, s) then n.(disk := Replay(n.disk, n.batch), phase := Installing(Keys(n.batch))) else n
  }

  ghost function DoInstall(n: Node, s: Step): Node
    requires s.Install?
  {
    if n.phase.Installing? && s.key in n.phase.todo
    then Installed(n, s.key).(phase := Installing(n.phase.todo - {s.key}))
    else n
  }

  ghost function DoFinish(n: Node, s: Step): Node
    requires s.Finish?
  {
    if n.phase == Installing({}) then n.(phase := Open) else n
  }

  ghost function DoCrash(n: Node, s: Step): Node
    requires s.Crash?
  {
    if Reloads(s.reloaded, n.disk) then Restarted(n.disk, s.reloaded) else n
  }

  ghost function Restarted(disk: Disk, reloaded: map<string, Account>): Node {
    Node(disk, reloaded, StoredValidators(disk), map o | o in reloaded.Values :: FundsOn(disk, o.address),
         [], map[], map[], Open)
  }

  /** Only a successful write changes the disk. */
  lemma StepDisk(n: Node, s: Step)
    ensures Do(n, s).disk == if Written(n, s) then Replay(n.disk, n.batch) else n.disk
  {
  }

  ghost function Cleared(n: Node): Node {
    n.(batch := [], accountCache := map[], validatorCache := map[])
  }

  /** One assignment of the two loops that end a commit. */
  ghost function Installed(n: Node, key: Key): Node {
    match key
    case AccountKey(a) =>
      if a in n.accountCache then n.(accounts := n.accounts[a := n.accountCache[a]]) else n
    case ValidatorKey(id) =>
      if id in n.validatorCache then n.(validators := n.validators[id := n.validatorCache[id]]) else n
  }

  ghost function DoAll(n: Node, steps: seq<Step>): Node {
    if steps == [] then n else Do(DoAll(n, steps[..|steps| - 1]), steps[|steps| - 1])
  }

  lemma {:induction false} DoAllConcat(n: Node, steps: seq<Step>, more: seq<Step>)
    ensures DoAll(n, steps + more) == DoAll(DoAll(n, steps), more)
    decreases |more|
  {
    if more == [] {
      assert steps + more == steps;
    } else {
      assert (steps + more)[..|steps + more| - 1] == steps + more[..|more| - 1];
      DoAllConcat(n, steps, more[..|more| - 1]);
    }
  }

  ghost function Contents(n: Node, o: Account): Funds {
    if o in n.heap then n.heap[o] else Funds(0, 0)
  }

  /** The record a commit would leave for an address. */
  ghost function StagedFunds(batch: seq<Put>, a: string): Funds {
    match LastPut(batch, AccountKey(a))
    case Some(AccountRecord(_, funds)) => funds
    case _ => Funds(0, 0)
  }

  /** The funds in memory, account by account. */
  ghost function MemoryOf(n: Node): Accounts {
    map a | a in n.accounts :: Contents(n, n.accounts[a])
  }

  lemma FetchEffect(n: Node, o: Account)
    ensures Do(n, Fetch(o)) == n.(heap := n.heap[o := Contents(n, o)])
  {
    assert o in n.heap ==> n.heap[o := n.heap[o]] == n.heap;
  }

  lemma MoveEffect(n: Node, o: Account, amount: int, sends: bool)
    requires o in n.heap
    ensures Do(n, Move(o, amount, sends)) == n.(heap := n.heap[o := Changed(n.heap[o], amount, sends)])
  {
  }

  lemma DoNext(n: Node, steps: seq<Step>, s: Step)
    ensures DoAll(n, steps + [s]) == Do(DoAll(n, steps), s)
  {
    assert (steps + [s])[..|steps + [s]| - 1] == steps;
  }

  lemma DoTwo(n: Node, a: Step, b: Step, n1: Node, n2: Node)
    requires n1 == Do(n, a) && n2 == Do(n1, b)
    ensures DoAll(n, [a, b]) == n2
  {
    DoNext(n, [], a);
    DoNext(n, [a], b);
    assert [] + [a] == [a] && [a] + [b] == [a, b];
  }

  lemma DoFour(n: Node, a: Step, b: Step, c: Step, d: Step, n1: Node, n2: Node, n3: Node, n4: Node)
    requires n1 == Do(n, a) && n2 == Do(n1, b) && n3 == Do(n2, c) && n4 == Do(n3, d)
    ensures DoAll(n, [a, b, c, d]) == n4
  {
    DoTwo(n, a, b, n1, n2);
    DoTwo(n2, c, d, n3, n4);
    DoAllConcat(n, [a, b], [c, d]);
    assert [a, b] + [c, d] == [a, b, c, d];
  }

  // ---- What every step keeps ----

  /** Everything is stored under its own name, the caches hold exactly what is staged, and what is being
      installed is what the disk already holds. */
  ghost predicate NodeOk(n: Node) {
    && DiskKeyed(n.disk) && BatchKeyed(n.batch)
    && ObjectsOk(n.accounts, n.heap) && ObjectsOk(n.accountCache, n.heap)
    && Caches(n.batch, n.accountCache, n.validatorCache)
    && (n.phase.Installing? ==> n.phase.todo <= Keys(n.batch) && Overlaid(n.disk, n.batch))
  }

  ghost predicate DiskKeyed(disk: Disk) {
    forall k :: k in disk ==> WellKeyed(k, disk[k])
  }

  ghost predicate BatchKeyed(batch: seq<Put>) {
    forall p :: p in batch ==> WellKeyed(p.key, p.value)
  }

  ghost predicate ObjectsOk(objects: map<string, Account>, heap: map<Account, Funds>) {
    forall a :: a in objects ==> objects[a] in heap && objects[a].address == a
  }

  /** The caches hold exactly the staged keys, validators with their last staged value. */
  ghost predicate Caches(batch: seq<Put>, accountCache: map<string, Account>,
                         validatorCache: map<string, ValidatorInfo>) {
    && (forall a :: a in accountCache <==> LastPut(batch, AccountKey(a)).Some?)
    && (forall id :: id in validatorCache <==> LastPut(batch, ValidatorKey(id)).Some?)
    && (forall id :: id in validatorCache ==>
          LastPut(batch, ValidatorKey(id)) == Some(ValidatorRecord(validatorCache[id])))
  }

  ghost predicate Overlaid(disk: Disk, batch: seq<Put>) {
    forall k :: LastPut(batch, k).Some? ==> k in disk && disk[k] == LastPut(batch, k).value
  }

  ghost predicate WellKeyed(key: Key, record: Record) {
    match key
    case AccountKey(a) => record.AccountRecord? && record.address == a
    case ValidatorKey(id) => record.ValidatorRecord? && record.info.id == id
  }

  lemma {:induction false} LastPutIffKey(batch: seq<Put>, k: Key)
    ensures LastPut(batch, k).Some? <==> k in Keys(batch)
    ensures LastPut(batch, k).Some? ==> Put(k, LastPut(batch, k).value) in batch
  {
    if batch != [] {
      var n := |batch| - 1;
      assert batch == batch[..n] + [batch[n]];
      LastPutIffKey(batch[..n], k);
      if k in Keys(batch) {
        var p :| p in batch && p.key == k;
        assert p == batch[n] || p in batch[..n];
      }
    }
  }

  lemma LastPutOfStaged(batch: seq<Put>, put: Put)
    ensures forall k :: LastPut(batch + [put], k) == if k == put.key then Some(put.value) else LastPut(batch, k)
  {
    assert (batch + [put])[..|batch + [put]| - 1] == batch;
  }

  lemma WriteOverlays(n: Node)
    requires NodeOk(n)
    ensures Overlaid(Replay(n.disk, n.batch), n.batch)
    ensures DiskKeyed(Replay(n.disk, n.batch))
  {
    ReplayIsOverlay(n.disk, n.batch);
    forall k | LastPut(n.batch, k).Some? ensures WellKeyed(k, LastPut(n.batch, k).value) {
      LastPutIffKey(n.batch, k);
    }
  }

  lemma StageAccountEffect(n: Node, o: Account)
    requires n.phase.Open? && o in n.heap
    ensures Do(n, StageAccount(o))
            == n.(batch := n.batch + [Put(AccountKey(o.address), AccountRecord(o.address, n.heap[o]))],
                  accountCache := n.accountCache[o.address := o])
  {
  }

  lemma StepKeepsNodeOk(n: Node, s: Step)
    requires NodeOk(n)
    ensures NodeOk(Do(n, s))
  {
    if s.Write? {
      WriteKeepsNodeOk(n, s);
    } else if s.StageAccount? {
      StageAccountKeepsNodeOk(n, s);
    } else if s.StageValidator? {
      StageValidatorKeepsNodeOk(n, s);
    } else if s.Install? {
      InstallKeepsNodeOk(n, s);
    } else if s.Crash? {
      CrashKeepsNodeOk(n, s);
    } else {
      OtherKeepsNodeOk(n, s);
    }
  }

  lemma WriteKeepsNodeOk(n: Node, s: Step)
    requires NodeOk(n) && s.Write?
    ensures NodeOk(Do(n, s))
  {
    WriteOverlays(n);
  }

  lemma StageAccountKeepsNodeOk(n: Node, s: Step)
    requires NodeOk(n) && s.StageAccount?
    ensures NodeOk(Do(n, s))
  {
    var o := s.account;
    if o in n.heap && n.phase.Open? {
      StageAccountEffect(n, o);
      CachesWithAccount(n.batch, n.accountCache, n.validatorCache, o, n.heap[o]);
    }
  }

  lemma CachesWithAccount(batch: seq<Put>, accountCache: map<string, Account>,
                          validatorCache: map<string, ValidatorInfo>, o: Account, funds: Funds)
    requires Caches(batch, accountCache, validatorCache)
    ensures var put := Put(AccountKey(o.address), AccountRecord(o.address, funds));
            && Caches(batch + [put], accountCache[o.address := o], validatorCache)
            && (BatchKeyed(batch) ==> BatchKeyed(batch + [put]))
  {
    LastPutOfStaged(batch, Put(AccountKey(o.address), AccountRecord(o.address, funds)));
  }

  lemma CachesWithValidator(batch: seq<Put>, accountCache: map<string, Account>,
                            validatorCache: map<string, ValidatorInfo>, info: ValidatorInfo)
    requires Caches(batch, accountCache, validatorCache)
    ensures var put := Put(ValidatorKey(info.id), ValidatorRecord(info));
            Caches(batch + [put], accountCache, validatorCache[info.id := info])
            && (BatchKeyed(batch) ==> BatchKeyed(batch + [put]))
            && forall a :: LastPut(batch + [put], AccountKey(a)) == LastPut(batch, AccountKey(a))
  {
    LastPutOfStaged(batch, Put(ValidatorKey(info.id), ValidatorRecord(info)));
  }

  lemma StageValidatorEffect(n: Node, info: ValidatorInfo)
    requires n.phase.Open?
    ensures Do(n, StageValidator(info)) == n.(batch := n.batch + [Put(ValidatorKey(info.id), ValidatorRecord(info))],
                                              validatorCache := n.validatorCache[info.id := info])
  {
  }

  lemma StageValidatorKeepsNodeOk(n: Node, s: Step)
    requires NodeOk(n) && s.StageValidator?
    ensures NodeOk(Do(n, s))
  {
    if n.phase.Open? {
      StageValidatorEffect(n, s.info);
      CachesWithValidator(n.batch, n.accountCache, n.validatorCache, s.info);
    }
  }

  /** An install moves one entry from a cache to memory and touches nothing else. */
  lemma InstallMoves(n: Node, s: Step)
    requires s.Install?
    ensures var next := Do(n, s);
            && next.heap == n.heap && next.disk == n.disk && next.batch == n.batch
            && next.accountCache == n.accountCache && next.validatorCache == n.validatorCache
            && next.phase.Installing? == n.phase.Installing?
            && (n.phase.Installing? ==> next.phase.todo == n.phase.todo - {s.key})
            && (next.accounts == n.accounts
                || (s.key.AccountKey? && s.key.address in n.accountCache
                    && next.accounts == n.accounts[s.key.address := n.accountCache[s.key.address]]))
  {
    InstallIs(n, s);
  }

  lemma InstallIs(n: Node, s: Step)
    requires s.Install?
    ensures Do(n, s) == if Pending(n, s.key)
                        then Installed(n, s.key).(phase := Installing(n.phase.todo - {s.key}))
                        else n
  {
  }

  lemma InstallKeepsNodeOk(n: Node, s: Step)
    requires NodeOk(n) && s.Install?
    ensures NodeOk(Do(n, s))
  {
    InstallMoves(n, s);
  }

  lemma CrashRestarts(n: Node, reloaded: map<string, Account>)
    requires Reloads(reloaded, n.disk)
    ensures Do(n, Crash(reloaded)) == Restarted(n.disk, reloaded)
  {
  }

  lemma RestartedOk(disk: Disk, reloaded: map<string, Account>)
    requires DiskKeyed(disk) && Reloads(reloaded, disk)
    ensures NodeOk(Restarted(disk, reloaded))
  {
  }

  lemma CrashKeepsNodeOk(n: Node, s: Step)
    requires NodeOk(n) && s.Crash?
    ensures NodeOk(Do(n, s))
  {
    if Reloads(s.reloaded, n.disk) {
      CrashRestarts(n, s.reloaded);
      RestartedOk(n.disk, s.reloaded);
    }
  }

  lemma OtherKeepsNodeOk(n: Node, s: Step)
    requires NodeOk(n) && (s.Begin? || s.Fetch? || s.Move? || s.Finish? || s.Rollback?)
    ensures NodeOk(Do(n, s))
  {
  }

  /** Steps that neither change an object nor stage an account nor write leave everything else as it is, except
      that they may drop what is staged. */
  ghost predicate IsRest(n: Node, s: Step) {
    || s.Begin? || s.Fetch? || s.StageValidator? || s.Finish? || s.Rollback?
    || (s.Crash? && !Reloads(s.reloaded, n.disk))
  }

  lemma RestStays(n: Node, s: Step)
    requires IsRest(n, s)
    ensures MapsStay(n, Do(n, s))
    ensures var next := Do(n, s);
            && (forall o :: Contents(next, o) == Contents(n, o))
            && (next.phase.Installing? ==> n.phase.Installing?)
            && forall a :: a in next.accountCache ==>
                 && a in n.accountCache && next.accountCache[a] == n.accountCache[a]
                 && StagedFunds(next.batch, a) == StagedFunds(n.batch, a)
  {
    if s.Begin? || s.Rollback? {
      assert Do(n, s) == DoClear(n, s);
    } else if s.Fetch? {
      FetchEffect(n, s.account);
    } else if s.StageValidator? {
      if n.phase.Open? {
        StageValidatorEffect(n, s.info);
        LastPutOfStaged(n.batch, Put(ValidatorKey(s.info.id), ValidatorRecord(s.info)));
      } else {
        assert Do(n, s) == n;
      }
    } else if s.Finish? {
      assert Do(n, s) == DoFinish(n, s);
    } else {
      assert Do(n, s) == n;
    }
  }

  ghost predicate Pending(n: Node, key: Key) {
    n.phase.Installing? && key in n.phase.todo
  }

  /** Disk and maps are the same, and so are the keys still to be installed. */
  ghost predicate MapsStay(n: Node, next: Node) {
    && next.accounts == n.accounts && next.validators == n.validators && next.disk == n.disk
    && forall k :: Pending(next, k) <==> Pending(n, k)
  }

  lemma MoveKeepsMaps(n: Node, s: Step)
    requires s.Move? || s.StageAccount?
    ensures MapsStay(n, Do(n, s))
  {
  }

  lemma {:induction false} RunKeepsNodeOk(n: Node, steps: seq<Step>)
    requires NodeOk(n)
    ensures NodeOk(DoAll(n, steps))
    decreases |steps|
  {
    if steps != [] {
      RunKeepsNodeOk(n, steps[..|steps| - 1]);
      StepKeepsNodeOk(DoAll(n, steps[..|steps| - 1]), steps[|steps| - 1]);
    }
  }
}
