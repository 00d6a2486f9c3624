/** Staged state updates and their commit to LevelDB (atomic_state.go), as the classes that run the machine. */
module AtomicState {
  import opened Prelude
  import opened Sequences
  import opened Ledger
  import opened Blocks
  import opened AtomicMachine
  import opened CommitRuns
  import opened CrashSafety

  function RecordOf(account: Account): Record
    reads account
  {
    AccountRecord(account.address, FundsOf(account))
  }

  function FundsOf(account: Account): Funds
    reads account
  {
    Funds(account.balance, account.nonce)
  }

  /** What the given objects hold. */
  ghost function HeapOf(objects: set<Account>): map<Account, Funds>
    reads objects
  {
    map o | o in objects :: FundsOf(o)
  }

  datatype ApplyError = InsufficientBalance | InvalidNonce | CommitFailed

  class State {
    var db: Disk
    var accounts: map<string, Account>
    var validators: map<string, ValidatorInfo>

    ghost predicate Valid()
      reads this
    {
      forall a :: a in accounts ==> accounts[a].address == a
    }

    /** The state as a node of the machine, with no transaction at hand. */
    ghost function View(objects: set<Account>): Node
      reads this, objects
    {
      Node(db, accounts, validators, HeapOf(objects), [], map[], map[], Open)
    }

    /** The address reads alike on disk and in memory. */
    ghost predicate AgreesOn(a: string)
      reads this, accounts.Values
    {
      && a in accounts && AccountKey(a) in db
      && db[AccountKey(a)] == RecordOf(accounts[a])
    }

    /** A start reads every stored record, each account into a new object: the machine's state after a crash. */
    constructor (disk: Disk)
      requires DiskKeyed(disk)
      ensures Valid() && fresh(accounts.Values) && Reloads(accounts, disk)
      ensures View(accounts.Values) == Restarted(disk, accounts) && Started(View(accounts.Values))
    {
      db, accounts, validators := disk, map[], map[];
      new;
      LoadAccounts();
      LoadValidators();
      LoadedIsRestarted();
    }

    /** Reads the account records, each into a new object. */
    method LoadAccounts()
      requires DiskKeyed(db) && accounts == map[]
      modifies `accounts
      ensures fresh(accounts.Values) && Reloads(accounts, db)
      ensures forall a :: a in accounts ==> FundsOf(accounts[a]) == FundsOn(db, a)
    {
      var todo := db.Keys;
      while todo != {}
        invariant todo <= db.Keys && forall a :: a in accounts ==> fresh(accounts[a])
        invariant forall a :: a in accounts <==> AccountKey(a) in db.Keys - todo
        invariant forall a :: a in accounts ==> accounts[a].address == a && FundsOf(accounts[a]) == FundsOn(db, a)
        decreases todo
      {
        var key :| key in todo;
        todo := todo - {key};
        if key.AccountKey? {
          assert WellKeyed(key, db[key]);
          var account := NewAccount(key.address, db[key].funds);
          accounts := accounts[key.address := account];
        }
      }
    }

    static method NewAccount(address: string, funds: Funds) returns (account: Account)
      ensures fresh(account) && account.address == address && FundsOf(account) == funds
    {
      account := new Account(address);
      account.balance, account.nonce := funds.balance, funds.nonce;
    }

    /** Reads the validator records. */
    method LoadValidators()
      requires DiskKeyed(db) && validators == map[]
      modifies `validators
      ensures forall id :: id in validators <==> ValidatorKey(id) in db
      ensures forall id :: id in validators ==> db[ValidatorKey(id)] == ValidatorRecord(validators[id])
    {
      var todo := db.Keys;
      while todo != {}
        invariant todo <= db.Keys
        invariant forall id :: id in validators <==> ValidatorKey(id) in db.Keys - todo
        invariant forall id :: id in validators ==> db[ValidatorKey(id)] == ValidatorRecord(validators[id])
        decreases todo
      {
        var key :| key in todo;
        todo := todo - {key};
        if key.ValidatorKey? {
          assert WellKeyed(key, db[key]);
          validators := validators[key.id := db[key].info];
        }
      }
    }

    lemma LoadedIsRestarted()
      requires DiskKeyed(db) && Reloads(accounts, db)
      requires forall a :: a in accounts ==> FundsOf(accounts[a]) == FundsOn(db, a)
      requires forall id :: id in validators <==> ValidatorKey(id) in db
      requires forall id :: id in validators ==> db[ValidatorKey(id)] == ValidatorRecord(validators[id])
      ensures View(accounts.Values) == Restarted(db, accounts) && Started(View(accounts.Values))
    {
      LoadedValidators(db, validators);
      LoadedHeap();
      RestartedIsStarted(db, accounts);
    }

    lemma LoadedHeap()
      requires Reloads(accounts, db) && forall a :: a in accounts ==> FundsOf(accounts[a]) == FundsOn(db, a)
      ensures HeapOf(accounts.Values) == Restarted(db, accounts).heap
    {
    }

    method GetAccount(a: string) returns (account: Account)
      requires Valid()
      ensures account.address == a
      ensures a in accounts ==> account == accounts[a]
      ensures a !in accounts ==> fresh(account) && account.balance == 0 && account.nonce == 0
    {
      if a in accounts {
        return accounts[a];
      }
      account := new Account(a);
    }

    /** Reads both accounts and moves the amount between the objects: accounts in memory change at once. */
    method MoveInMemory(tx: Transaction, ghost objects: set<Account>) returns (sender: Account, recipient: Account)
      requires Valid() && accounts.Values <= objects
      modifies accounts.Values
      ensures Handed(old(View(objects)), tx.from, sender) && Handed(old(View(objects)), tx.to, recipient)
      ensures sender == recipient <==> tx.from == tx.to && tx.from in accounts
      ensures View(objects + {sender, recipient})
              == DoAll(old(View(objects)), MoveSteps(sender, recipient, tx.amount))
    {
      sender := GetAccount(tx.from);
      recipient := GetAccount(tx.to);
      ghost var used := objects + {sender, recipient};
      assert HeapOf(used) == Fetched(Fetched(old(HeapOf(objects)), sender), recipient);
      MoveObjects(sender, recipient, tx, used);
      MoveStepsEffect(old(View(objects)), sender, recipient, tx.amount);
    }

    /** The funds in memory, account by account. */
    ghost function Memory(): Accounts
      reads this, accounts.Values
    {
      map a | a in accounts :: FundsOf(accounts[a])
    }

    /** Stages every account, then commits: the disk takes the puts in order, memory the last object per address,
        and the two agree on every staged account. */
    method BatchUpdateAccountsAtomic(batch: seq<Account>, written: bool, ghost objects: set<Account>)
      returns (ok: bool, ghost puts: seq<Put>, ghost staged: map<string, Account>, ghost steps: seq<Step>)
      requires Valid() && forall account :: account in batch ==> account in objects
      modifies this
      ensures ok == written && Valid() && |puts| == |batch|
      ensures forall k :: 0 <= k < |batch| ==> puts[k] == Put(AccountKey(batch[k].address), RecordOf(batch[k]))
      ensures forall a :: a in staged <==> LastPut(puts, AccountKey(a)).Some?
      ensures forall a :: a in staged ==>
                staged[a] in batch && LastPut(puts, AccountKey(a)) == Some(RecordOf(staged[a]))
      ensures db == if written then Replay(old(db), puts) else old(db)
      ensures accounts == if written then old(accounts) + staged else old(accounts)
      ensures validators == old(validators)
      ensures View(objects) == DoAll(old(View(objects)), steps) && OneCall(steps)
    {
      var tx := new StateTransaction(this);
      ghost var stageSteps := tx.StageAll(batch, objects);
      ghost var between := tx.View(objects);
      puts, staged := tx.batch, tx.accountCache;
      ghost var commitSteps;
      ok, commitSteps := tx.CommitAndDrop(written, objects);
      steps := stageSteps + commitSteps;
      JoinRuns(old(View(objects)), stageSteps, between, commitSteps, View(objects));
    }

    method StageAndCommit(sender: Account, recipient: Account, written: bool, ghost objects: set<Account>)
      returns (ok: bool, ghost steps: seq<Step>)
      requires Valid() && sender in objects && recipient in objects
      modifies this
      ensures ok == written && Valid()
      ensures !written ==> db == old(db) && accounts == old(accounts)
      ensures written ==>
                && accounts == old(accounts)[sender.address := sender][recipient.address := recipient]
                && db == old(db)[AccountKey(sender.address) := RecordOf(sender)]
                                [AccountKey(recipient.address) := RecordOf(recipient)]
      ensures validators == old(validators)
      ensures View(objects) == DoAll(old(View(objects)), steps) && OneCall(steps)
    {
      OverlayTwo(accounts, sender.address, sender, recipient.address, recipient);
      ReplayTwo(db, Put(AccountKey(sender.address), RecordOf(sender)),
                Put(AccountKey(recipient.address), RecordOf(recipient)));
      ok, steps := StageThenCommit(sender, recipient, written, objects);
    }

    method StageThenCommit(sender: Account, recipient: Account, written: bool, ghost objects: set<Account>)
      returns (ok: bool, ghost steps: seq<Step>)
      requires Valid() && sender in objects && recipient in objects
      modifies this
      ensures ok == written && Valid() && validators == old(validators)
      ensures !written ==> db == old(db) && accounts == old(accounts)
      ensures written ==>
                && accounts == old(accounts) + map[][sender.address := sender][recipient.address := recipient]
                && db == Replay(old(db), [Put(AccountKey(sender.address), RecordOf(sender)),
                                          Put(AccountKey(recipient.address), RecordOf(recipient))])
      ensures View(objects) == DoAll(old(View(objects)), steps) && OneCall(steps)
    {
      var stateTx := new StateTransaction(this);
      ghost var stageSteps := stateTx.StagePair(sender, recipient, objects);
      ghost var staged := stateTx.View(objects);
      ghost var commitSteps;
      ok, commitSteps := stateTx.CommitOrRollBack(written, objects);
      steps := stageSteps + commitSteps;
      JoinRuns(old(View(objects)), stageSteps, staged, commitSteps, View(objects));
    }

    /** Moves the amount between the account objects themselves, then stages and commits them. On disk a failed
        write changes nothing; in memory the accounts that were already loaded have changed all the same. */
    method ApplyTransactionAtomic(tx: Transaction, written: bool, ghost objects: set<Account>)
      returns (error: Option<ApplyError>, ghost used: set<Account>, ghost steps: seq<Step>)
      requires Valid() && accounts.Values <= objects
      modifies this, accounts.Values
      ensures Valid() && objects <= used && accounts.Values <= used
      ensures error == Refusal(old(Memory()), tx, written)
      ensures error.Some? && error != Some(CommitFailed) ==> db == old(db) && Memory() == old(Memory())
      ensures error.None? ==> Memory() == Moved(old(Memory()), tx) && db == Stored(old(db), Memory(), tx)
      ensures error == Some(CommitFailed) ==>
                db == old(db) && Memory() == Loaded(old(Memory()), Moved(old(Memory()), tx))
      ensures ApplyOutcome(old(View(objects)), View(used), tx, error)
      ensures View(used) == DoAll(old(View(objects)), steps) && OneCall(steps)
    {
      MemoryIs(objects);
      used, steps := objects, [];
      var account := GetAccount(tx.from);
      if account.balance < tx.amount {
        return Some(InsufficientBalance), used, steps;
      }
      if account.nonce != tx.nonce {
        return Some(InvalidNonce), used, steps;
      }
      var ok;
      ok, used, steps := Transfer(tx, written, objects);
      error := if ok then None else Some(CommitFailed);
      MemoryIs(used);
    }

    /** The second half of a transfer: move, stage, commit. */
    method Transfer(tx: Transaction, written: bool, ghost objects: set<Account>)
      returns (ok: bool, ghost used: set<Account>, ghost steps: seq<Step>)
      requires Valid() && accounts.Values <= objects
      modifies this, accounts.Values
      ensures ok == written && Valid() && objects <= used && accounts.Values <= used
      ensures db == if ok then Stored(old(db), Memory(), tx) else old(db)
      ensures Memory() == if ok then Moved(old(Memory()), tx) else Loaded(old(Memory()), Moved(old(Memory()), tx))
      ensures validators == old(validators)
      ensures View(used) == DoAll(old(View(objects)), steps) && OneCall(steps)
    {
      ghost var start := View(objects);
      MemoryIs(objects);
      ghost var sender, recipient;
      ok, sender, recipient, used, steps := MoveAndStore(tx, written, objects);
      TransferOutcome(start, View(used), sender, recipient, tx, ok);
      MemoryIs(used);
    }

    lemma MemoryIs(objects: set<Account>)
      requires accounts.Values <= objects
      ensures Memory() == MemoryOf(View(objects))
    {
    }

    method MoveAndStore(tx: Transaction, written: bool, ghost objects: set<Account>)
      returns (ok: bool, ghost sender: Account, ghost recipient: Account, ghost used: set<Account>,
               ghost steps: seq<Step>)
      requires Valid() && accounts.Values <= objects
      modifies this, accounts.Values
      ensures ok == written && Valid() && objects <= used && accounts.Values <= used
      ensures TransferEnds(old(View(objects)), View(used), sender, recipient, tx.amount, ok)
      ensures Handed(old(View(objects)), tx.from, sender) && Handed(old(View(objects)), tx.to, recipient)
      ensures sender == recipient <==> tx.from == tx.to && tx.from in old(accounts)
      ensures View(used) == DoAll(old(View(objects)), steps) && OneCall(steps)
    {
      ghost var start := View(objects);
      var from, to := MoveInMemory(tx, objects);
      sender, recipient, used := from, to, objects + {from, to};
      ghost var between := View(used);
      MoveStepsEffect(start, sender, recipient, tx.amount);
      ghost var call;
      ok, call := StageAndCommit(from, to, written, used);
      steps := MoveSteps(sender, recipient, tx.amount) + call;
      JoinRuns(start, MoveSteps(sender, recipient, tx.amount), between, call, View(used));
    }

    static method MoveObjects(sender: Account, recipient: Account, tx: Transaction, ghost used: set<Account>)
      requires sender in used && recipient in used
      modifies sender, recipient
      ensures HeapOf(used) == PaidHeap(old(HeapOf(used)), sender, recipient, tx.amount)
    {
      ChainState.MoveFunds(sender, recipient, tx.(fee := 0));
      ghost var heap := old(HeapOf(used));
      forall o | o in used ensures FundsOf(o) == PaidHeap(heap, sender, recipient, tx.amount)[o] {
        if o != sender && o != recipient {
          assert FundsOf(o) == old(FundsOf(o));
        }
      }
    }
  }

  lemma LoadedValidators(disk: Disk, validators: map<string, ValidatorInfo>)
    requires forall id :: id in validators <==> ValidatorKey(id) in disk
    requires forall id :: id in validators ==> disk[ValidatorKey(id)] == ValidatorRecord(validators[id])
    ensures validators == StoredValidators(disk)
  {
    forall id ensures id in validators <==> id in StoredValidators(disk) {
      if ValidatorKey(id) in disk {
        assert ValidatorKey(id).id == id;
      }
    }
  }

  /** The object GetAccount gives out: the loaded one, or a new one. */
  ghost predicate Handed(n: Node, a: string, o: Account) {
    o.address == a && if a in n.accounts then o == n.accounts[a] else o !in n.heap
  }

  ghost function MoveSteps(sender: Account, recipient: Account, amount: int): seq<Step> {
    [Fetch(sender), Fetch(recipient), Move(sender, -amount, true), Move(recipient, amount, false)]
  }

  lemma OverlayTwo<V>(m: map<string, V>, a: string, x: V, b: string, y: V)
    ensures m + map[][a := x][b := y] == m[a := x][b := y]
  {
  }

  lemma ReplayTwo(disk: Disk, first: Put, second: Put)
    ensures Replay(disk, [first, second]) == disk[first.key := first.value][second.key := second.value]
  {
    assert [first, second][..1] == [first] && [first][..0] == [];
    assert Replay(disk, [first]) == disk[first.key := first.value];
  }

  ghost function Fetched(heap: map<Account, Funds>, o: Account): map<Account, Funds> {
    heap[o := if o in heap then heap[o] else Funds(0, 0)]
  }

  ghost function MovedHeap(heap: map<Account, Funds>, sender: Account, recipient: Account, amount: int)
    : map<Account, Funds>
  {
    PaidHeap(Fetched(Fetched(heap, sender), recipient), sender, recipient, amount)
  }

  ghost function PaidHeap(heap: map<Account, Funds>, sender: Account, recipient: Account, amount: int)
    : map<Account, Funds>
    requires sender in heap && recipient in heap
  {
    var paid := heap[sender := Changed(heap[sender], -amount, true)];
    paid[recipient := Changed(paid[recipient], amount, false)]
  }

  lemma MoveStepsEffect(n: Node, sender: Account, recipient: Account, amount: int)
    ensures DoAll(n, MoveSteps(sender, recipient, amount))
            == n.(heap := MovedHeap(n.heap, sender, recipient, amount))
  {
    FetchEffect(n, sender);
    var n1 := n.(heap := Fetched(n.heap, sender));
    assert Do(n, Fetch(sender)) == n1;
    FetchEffect(n1, recipient);
    var n2 := n1.(heap := Fetched(n1.heap, recipient));
    assert Do(n1, Fetch(recipient)) == n2;
    MoveEffect(n2, sender, -amount, true);
    var n3 := n2.(heap := n2.heap[sender := Changed(n2.heap[sender], -amount, true)]);
    assert Do(n2, Move(sender, -amount, true)) == n3;
    MoveEffect(n3, recipient, amount, false);
    var n4 := n3.(heap := n3.heap[recipient := Changed(n3.heap[recipient], amount, false)]);
    DoFour(n, Fetch(sender), Fetch(recipient), Move(sender, -amount, true), Move(recipient, amount, false),
           n1, n2, n3, n4);
  }

  class StateTransaction {
    const state: State
    var batch: seq<Put>
    var accountCache: map<string, Account>
    var validatorCache: map<string, ValidatorInfo>

    ghost predicate Valid()
      reads this
    {
      && Caches(batch, accountCache, validatorCache)
      && forall a :: a in accountCache ==> accountCache[a].address == a
    }

    /** The state with this transaction as a node of the machine. */
    ghost function View(objects: set<Account>): Node
      reads this, state, objects
    {
      Node(state.db, state.accounts, state.validators, HeapOf(objects), batch, accountCache, validatorCache, Open)
    }

    /** No cached account object has been changed since it was staged. */
    ghost predicate Unchanged()
      requires Valid()
      reads this, accountCache.Values
    {
      forall a :: a in accountCache ==> LastPut(batch, AccountKey(a)) == Some(RecordOf(accountCache[a]))
    }

    constructor (state: State)
      ensures this.state == state && Valid() && batch == [] && accountCache == map[] && validatorCache == map[]
      ensures Unchanged()
    {
      this.state, batch, accountCache, validatorCache := state, [], map[], map[];
    }

    method UpdateAccountAtomic(account: Account, ghost objects: set<Account>)
      requires Valid() && account in objects
      modifies this
      ensures Valid() && (old(Unchanged()) ==> Unchanged())
      ensures batch == old(batch) + [Put(AccountKey(account.address), RecordOf(account))]
      ensures accountCache == old(accountCache)[account.address := account] && validatorCache == old(validatorCache)
      ensures View(objects) == Do(old(View(objects)), StageAccount(account))
    {
      StageAccountEffect(View(objects), account);
      StageObject(account);
    }

    method StageObject(account: Account)
      requires Valid()
      modifies this
      ensures Valid() && (old(Unchanged()) ==> Unchanged())
      ensures batch == old(batch) + [Put(AccountKey(account.address), RecordOf(account))]
      ensures accountCache == old(accountCache)[account.address := account] && validatorCache == old(validatorCache)
    {
      CachesWithAccount(batch, accountCache, validatorCache, account, FundsOf(account));
      LastPutOfStaged(batch, Put(AccountKey(account.address), RecordOf(account)));
      batch := batch + [Put(AccountKey(account.address), RecordOf(account))];
      accountCache := accountCache[account.address := account];
    }

    method StagePair(sender: Account, recipient: Account, ghost objects: set<Account>) returns (ghost steps: seq<Step>)
      requires Valid() && sender in objects && recipient in objects && batch == [] && accountCache == map[]
      modifies this
      ensures Valid()
      ensures batch == [Put(AccountKey(sender.address), RecordOf(sender)),
                        Put(AccountKey(recipient.address), RecordOf(recipient))]
      ensures accountCache == map[][sender.address := sender][recipient.address := recipient]
      ensures validatorCache == old(validatorCache)
      ensures View(objects) == DoAll(old(View(objects)), steps) && Quiet(steps)
    {
      ghost var start := View(objects);
      UpdateAccountAtomic(sender, objects);
      ghost var between := View(objects);
      UpdateAccountAtomic(recipient, objects);
      steps := [StageAccount(sender), StageAccount(recipient)];
      DoTwo(start, StageAccount(sender), StageAccount(recipient), between, View(objects));
    }

    /** A commit after which the transaction is dropped, whether or not the write succeeded. */
    method CommitAndDrop(written: bool, ghost objects: set<Account>) returns (ok: bool, ghost steps: seq<Step>)
      requires Valid() && state.Valid()
      modifies state
      ensures ok == written && state.Valid()
      ensures state.db == if written then Replay(old(state.db), batch) else old(state.db)
      ensures state.accounts == if written then old(state.accounts) + accountCache else old(state.accounts)
      ensures state.validators == if written then old(state.validators) + validatorCache else old(state.validators)
      ensures state.View(objects) == DoAll(old(View(objects)), steps) && OneCall(steps)
    {
      ghost var commitSteps;
      ok, commitSteps := Commit(written, objects);
      ClosedRun(old(View(objects)), commitSteps, ok, Begin, View(objects));
      steps := commitSteps + [Begin];
    }

    /** A commit that clears the transaction when the write fails; either way the transaction is done with. */
    method CommitOrRollBack(written: bool, ghost objects: set<Account>) returns (ok: bool, ghost steps: seq<Step>)
      requires Valid() && state.Valid()
      modifies this, state
      ensures ok == written && state.Valid()
      ensures !written ==> state.db == old(state.db) && state.accounts == old(state.accounts)
                           && state.validators == old(state.validators)
      ensures written ==> && state.db == Replay(old(state.db), old(batch))
                          && state.accounts == old(state.accounts) + old(accountCache)
                          && state.validators == old(state.validators) + old(validatorCache)
      ensures state.View(objects) == DoAll(old(View(objects)), steps) && OneCall(steps)
    {
      ghost var commitSteps;
      ok, commitSteps := Commit(written, objects);
      ghost var last := if ok then Begin else AtomicMachine.Rollback;
      ClosedRun(old(View(objects)), commitSteps, ok, last, View(objects));
      steps := commitSteps + [last];
      if !ok {
        Rollback(objects);
      }
    }

    /** The staging loop of a batch update. */
    method StageAll(accounts: seq<Account>, ghost objects: set<Account>) returns (ghost steps: seq<Step>)
      requires Valid() && batch == [] && accountCache == map[] && validatorCache == map[]
      requires forall account :: account in accounts ==> account in objects
      modifies this
      ensures Valid() && Unchanged() && validatorCache == map[] && |batch| == |accounts|
      ensures forall k :: 0 <= k < |accounts| ==>
                batch[k] == Put(AccountKey(accounts[k].address), RecordOf(accounts[k]))
      ensures forall a :: a in accountCache ==> accountCache[a] in accounts
      ensures View(objects) == DoAll(old(View(objects)), steps)
      ensures forall i :: 0 <= i < |steps| ==> steps[i].StageAccount?
    {
      steps := [];
      ghost var puts := seq(|accounts|, k requires 0 <= k < |accounts|
                            reads accounts => Put(AccountKey(accounts[k].address), RecordOf(accounts[k])));
      for i := 0 to |accounts|
        invariant Valid() && Unchanged() && validatorCache == map[] && batch == puts[..i]
        invariant forall a :: a in accountCache ==> accountCache[a] in accounts
        invariant View(objects) == DoAll(old(View(objects)), steps)
        invariant forall j :: 0 <= j < |steps| ==> steps[j].StageAccount?
      {
        assert puts[..i + 1] == puts[..i] + [puts[i]];
        UpdateAccountAtomic(accounts[i], objects);
        DoNext(old(View(objects)), steps, StageAccount(accounts[i]));
        steps := steps + [StageAccount(accounts[i])];
      }
    }

    method UpdateValidatorAtomic(info: ValidatorInfo, ghost objects: set<Account>)
      requires Valid()
      modifies this
      ensures Valid() && (old(Unchanged()) ==> Unchanged())
      ensures batch == old(batch) + [Put(ValidatorKey(info.id), ValidatorRecord(info))]
      ensures accountCache == old(accountCache) && validatorCache == old(validatorCache)[info.id := info]
      ensures View(objects) == Do(old(View(objects)), StageValidator(info))
    {
      StageValidatorEffect(View(objects), info);
      StageInfo(info);
    }

    method StageInfo(info: ValidatorInfo)
      requires Valid()
      modifies this
      ensures Valid() && (old(Unchanged()) ==> Unchanged())
      ensures batch == old(batch) + [Put(ValidatorKey(info.id), ValidatorRecord(info))]
      ensures accountCache == old(accountCache) && validatorCache == old(validatorCache)[info.id := info]
    {
      CachesWithValidator(batch, accountCache, validatorCache, info);
      batch := batch + [Put(ValidatorKey(info.id), ValidatorRecord(info))];
      validatorCache := validatorCache[info.id := info];
    }

    /** Disk first, atomically; memory only if the disk took the batch. Afterwards every staged record reads alike
        on both sides if and only if no staged object was changed between its staging and the commit. */
    method Commit(written: bool, ghost objects: set<Account>) returns (ok: bool, ghost steps: seq<Step>)
      requires Valid() && state.Valid()
      modifies state
      ensures ok == written && state.Valid()
      ensures !written ==> state.db == old(state.db) && state.accounts == old(state.accounts)
                           && state.validators == old(state.validators)
      ensures written ==> && state.db == Replay(old(state.db), batch)
                          && state.accounts == old(state.accounts) + accountCache
                          && state.validators == old(state.validators) + validatorCache
      ensures written ==> (old(Unchanged()) <==> forall a :: a in accountCache ==> state.AgreesOn(a))
      ensures written ==> forall id :: id in validatorCache ==>
                ValidatorKey(id) in state.db && state.db[ValidatorKey(id)] == ValidatorRecord(state.validators[id])
      ensures View(objects) == DoAll(old(View(objects)), steps) && CommitSteps(steps, written)
    {
      if !written {
        steps := [Write(false)];
        DoNext(View(objects), [], Write(false));
        assert [] + steps == steps;
        return false, steps;
      }
      steps := WriteAndInstall(objects);
      ReplayIsOverlay(old(state.db), batch);
      forall a | a in accountCache
        ensures state.AgreesOn(a) <==> LastPut(batch, AccountKey(a)) == Some(RecordOf(accountCache[a]))
      {
        assert state.accounts[a] == accountCache[a];
      }
      return true, steps;
    }

    method WriteAndInstall(ghost objects: set<Account>) returns (ghost steps: seq<Step>)
      requires Valid()
      modifies state
      ensures state.db == Replay(old(state.db), batch)
      ensures state.accounts == old(state.accounts) + accountCache
      ensures state.validators == old(state.validators) + validatorCache
      ensures View(objects) == DoAll(old(View(objects)), steps) && CommitSteps(steps, true)
    {
      ghost var start := View(objects);
      state.db := Replay(state.db, batch);
      ghost var accountOrder := InstallAccounts();
      ghost var validatorOrder := InstallValidators();
      steps := CommitRun(accountOrder, validatorOrder);
      CommitRunEffect(start, accountOrder, validatorOrder);
      CommitRunIsCommit(accountOrder, validatorOrder);
    }

    method InstallAccounts() returns (ghost order: seq<string>)
      modifies state`accounts
      ensures state.accounts == old(state.accounts) + accountCache && Enumerates(order, accountCache.Keys)
    {
      var todo := accountCache.Keys;
      order := [];
      while todo != {}
        invariant todo <= accountCache.Keys && Enumerates(order, accountCache.Keys - todo)
        invariant state.accounts == old(state.accounts) + (accountCache - todo)
        decreases todo
      {
        var a :| a in todo;
        EnumeratesNext(order, accountCache.Keys - todo, a);
        assert accountCache.Keys - (todo - {a}) == (accountCache.Keys - todo) + {a};
        order := order + [a];
        todo := todo - {a};
        state.accounts := state.accounts[a := accountCache[a]];
      }
      assert accountCache - todo == accountCache && accountCache.Keys - todo == accountCache.Keys;
    }

    method InstallValidators() returns (ghost order: seq<string>)
      modifies state`validators
      ensures state.validators == old(state.validators) + validatorCache && Enumerates(order, validatorCache.Keys)
    {
      var todo := validatorCache.Keys;
      order := [];
      while todo != {}
        invariant todo <= validatorCache.Keys && Enumerates(order, validatorCache.Keys - todo)
        invariant state.validators == old(state.validators) + (validatorCache - todo)
        decreases todo
      {
        var id :| id in todo;
        EnumeratesNext(order, validatorCache.Keys - todo, id);
        assert validatorCache.Keys - (todo - {id}) == (validatorCache.Keys - todo) + {id};
        order := order + [id];
        todo := todo - {id};
        state.validators := state.validators[id := validatorCache[id]];
      }
      assert validatorCache - todo == validatorCache && validatorCache.Keys - todo == validatorCache.Keys;
    }

    /** Forgets what was staged; neither disk nor memory is touched. */
    method Rollback(ghost objects: set<Account>)
      modifies this
      ensures Valid() && batch == [] && accountCache == map[] && validatorCache == map[]
      ensures View(objects) == Do(old(View(objects)), AtomicMachine.Rollback)
    {
      batch, accountCache, validatorCache := [], map[], map[];
    }
  }

  function Refusal(memory: Accounts, tx: Transaction, written: bool): Option<ApplyError> {
    var sender := Get(memory, tx.from);
    if sender.balance < tx.amount then Some(InsufficientBalance)
    else if sender.nonce != tx.nonce then Some(InvalidNonce)
    else if !written then Some(CommitFailed)
    else None
  }

  /** A transfer charges no fee here. */
  function Moved(l: Accounts, tx: Transaction): Accounts {
    Apply(l, tx.(fee := 0))
  }

  /** The part of a ledger whose accounts were in memory before. */
  function Loaded(before: Accounts, after: Accounts): Accounts {
    map a | a in before && a in after :: after[a]
  }

  /** What a transfer leaves: the objects moved, and disk and maps updated if the write succeeded. */
  ghost predicate TransferEnds(n: Node, after: Node, sender: Account, recipient: Account, amount: int, ok: bool) {
    && after.heap == MovedHeap(n.heap, sender, recipient, amount) && after.validators == n.validators
    && if ok then
         && after.accounts == n.accounts[sender.address := sender][recipient.address := recipient]
         && after.disk
            == n.disk[AccountKey(sender.address) := AccountRecord(sender.address, after.heap[sender])]
                     [AccountKey(recipient.address) := AccountRecord(recipient.address, after.heap[recipient])]
       else after.accounts == n.accounts && after.disk == n.disk
  }

  /** What a transfer leaves, seen from outside. */
  ghost predicate ApplyOutcome(n: Node, after: Node, tx: Transaction, error: Option<ApplyError>) {
    var l := MemoryOf(n);
    && after.validators == n.validators
    && match error
       case None => MemoryOf(after) == Moved(l, tx) && after.disk == Stored(n.disk, MemoryOf(after), tx)
       case Some(CommitFailed) => MemoryOf(after) == Loaded(l, Moved(l, tx)) && after.disk == n.disk
       case Some(_) => MemoryOf(after) == l && after.disk == n.disk
  }

  ghost predicate SameFunds(disk: Disk, memory: Accounts) {
    forall a ::
      && (a in memory <==> AccountKey(a) in disk)
      && (a in memory ==> disk[AccountKey(a)] == AccountRecord(a, memory[a]))
  }

  lemma InSyncIsSameFunds(n: Node)
    requires ObjectsOk(n.accounts, n.heap)
    ensures InSync(n) <==> SameFunds(n.disk, MemoryOf(n)) && SameValidators(n.disk, n.validators)
  {
    assert forall a :: a in n.accounts ==> MemoryOf(n)[a] == n.heap[n.accounts[a]];
  }

  ghost predicate SameValidators(disk: Disk, validators: map<string, ValidatorInfo>) {
    && (forall id :: id in validators <==> ValidatorKey(id) in disk)
    && (forall id :: id in validators ==> disk[ValidatorKey(id)] == ValidatorRecord(validators[id]))
  }

  /** From memory and disk that agree, a transfer leaves them agreeing exactly unless its commit fails after it
      has charged a loaded sender or paid a loaded recipient. */
  lemma TransferKeepsSyncIff(n: Node, after: Node, tx: Transaction, error: Option<ApplyError>)
    requires ObjectsOk(n.accounts, n.heap) && ObjectsOk(after.accounts, after.heap)
    requires InSync(n) && ApplyOutcome(n, after, tx, error)
    ensures InSync(after) <==>
              (error == Some(CommitFailed) ==> tx.from !in n.accounts && (tx.to !in n.accounts || tx.amount == 0))
  {
    var l, m := MemoryOf(n), MemoryOf(after);
    InSyncIsSameFunds(n);
    InSyncIsSameFunds(after);
    match error
    case None => StoredIsSame(n.disk, l, tx);
    case Some(CommitFailed) =>
      FailedCommitIsCleanIff(l, tx);
      SameFundsIsUnique(n.disk, l, m);
    case _ =>
  }

  lemma StoredIsSame(disk: Disk, l: Accounts, tx: Transaction)
    requires SameFunds(disk, l)
    ensures SameFunds(Stored(disk, Moved(l, tx), tx), Moved(l, tx))
  {
  }

  lemma SameFundsIsUnique(disk: Disk, l: Accounts, m: Accounts)
    requires SameFunds(disk, l)
    ensures SameFunds(disk, m) <==> m == l
  {
    if SameFunds(disk, m) {
      SameLedger(m, l);
    }
  }

  /** The two records a transfer puts on disk are those of the two accounts in memory. */
  function Stored(disk: Disk, memory: Accounts, tx: Transaction): Disk {
    disk[AccountKey(tx.from) := AccountRecord(tx.from, Get(memory, tx.from))]
        [AccountKey(tx.to) := AccountRecord(tx.to, Get(memory, tx.to))]
  }

  /** Moving the loaded objects changes the ledger in memory; storing both objects completes the transfer. */
  lemma TransferOutcome(n: Node, after: Node, sender: Account, recipient: Account, tx: Transaction, ok: bool)
    requires ObjectsOk(n.accounts, n.heap) && TransferEnds(n, after, sender, recipient, tx.amount, ok)
    requires Handed(n, tx.from, sender) && Handed(n, tx.to, recipient)
    requires sender == recipient <==> tx.from == tx.to && tx.from in n.accounts
    ensures var l := MemoryOf(n);
            MemoryOf(after) == if ok then Moved(l, tx) else Loaded(l, Moved(l, tx))
    ensures ok ==> after.disk == Stored(n.disk, MemoryOf(after), tx)
  {
    MovedFunds(n, sender, recipient, tx);
    if ok {
      OutcomeWhenStored(n, after, sender, recipient, tx);
    } else {
      SameLedger(MemoryOf(after), Loaded(MemoryOf(n), Moved(MemoryOf(n), tx)));
    }
  }

  lemma MovedFunds(n: Node, sender: Account, recipient: Account, tx: Transaction)
    requires ObjectsOk(n.accounts, n.heap)
    requires Handed(n, tx.from, sender) && Handed(n, tx.to, recipient)
    requires sender == recipient <==> tx.from == tx.to && tx.from in n.accounts
    ensures var heap := MovedHeap(n.heap, sender, recipient, tx.amount);
            MemoryOf(n)[tx.from := heap[sender]][tx.to := heap[recipient]] == Moved(MemoryOf(n), tx)
  {
    var heap := MovedHeap(n.heap, sender, recipient, tx.amount);
    ApplyIs(MemoryOf(n), tx.(fee := 0), heap[sender], heap[recipient]);
  }

  lemma OutcomeWhenStored(n: Node, after: Node, sender: Account, recipient: Account, tx: Transaction)
    requires ObjectsOk(n.accounts, n.heap) && TransferEnds(n, after, sender, recipient, tx.amount, true)
    requires Handed(n, tx.from, sender) && Handed(n, tx.to, recipient)
    requires sender == recipient <==> tx.from == tx.to && tx.from in n.accounts
    requires MemoryOf(n)[tx.from := after.heap[sender]][tx.to := after.heap[recipient]] == Moved(MemoryOf(n), tx)
    ensures MemoryOf(after) == Moved(MemoryOf(n), tx)
    ensures after.disk == Stored(n.disk, MemoryOf(after), tx)
  {
    SameLedger(MemoryOf(after), Moved(MemoryOf(n), tx));
    assert MemoryOf(after)[tx.to] == after.heap[recipient];
    assert tx.from != tx.to ==> MemoryOf(after)[tx.from] == after.heap[sender];
  }

  /** A failed commit leaves memory as it was exactly when the sender was not loaded and the recipient was not
      loaded or receives nothing. */
  lemma FailedCommitIsCleanIff(l: Accounts, tx: Transaction)
    ensures Loaded(l, Moved(l, tx)) == l <==> tx.from !in l && (tx.to !in l || tx.amount == 0)
  {
    var after := Loaded(l, Moved(l, tx));
    if tx.from in l {
      assert after[tx.from].nonce != l[tx.from].nonce;
    } else if tx.to in l && tx.amount != 0 {
      assert after[tx.to].balance != l[tx.to].balance;
    } else {
      assert forall a :: a in l ==> after[a] == l[a];
    }
  }

  /** A transfer goes through exactly with a sufficient balance, the sender's own nonce and a write that succeeds. */
  lemma TransferIsCommittedIff(memory: Accounts, tx: Transaction, written: bool)
    ensures Refusal(memory, tx, written).None?
            <==> Get(memory, tx.from).balance >= tx.amount && Get(memory, tx.from).nonce == tx.nonce && written
    ensures Refusal(memory, tx, written) == Some(CommitFailed)
            <==> Get(memory, tx.from).balance >= tx.amount && Get(memory, tx.from).nonce == tx.nonce && !written
  {
  }

  /** And what went through cannot go through again, unless it was a payment of an address to itself that created
      it: that one leaves the nonce at zero. */
  lemma ReplayIsRefusedIff(memory: Accounts, tx: Transaction)
    requires Refusal(memory, tx, true).None?
    ensures Refusal(Moved(memory, tx), tx, true).Some? <==> tx.from in memory || tx.from != tx.to
  {
  }
}
