/** Accounts, transaction checks and transaction effects (validator_service.go). */
module Ledger {
  import opened Prelude
  import opened Sequences
  import opened MapSums
  import opened ByteCodec
  import opened Signatures
  import opened Blocks

  datatype Funds = Funds(balance: int, nonce: Uint64)

  /** Every stored account by address. */
  type Accounts = map<string, Funds>

  /** An unknown address reads as an empty account. */
  function Get(l: Accounts, a: string): Funds {
    if a in l then l[a] else Funds(0, 0)
  }

  /** What signature checks need: validator keys, the curve and the transaction digest. */
  datatype Keyring = Keyring(publicKeys: map<string, Bytes>, curve: Curve, digest: Transaction -> Bytes)

  function Cost(tx: Transaction): int {
    tx.amount + tx.fee
  }

  /** The nonce and balance half of validateTransaction. */
  predicate Affordable(l: Accounts, tx: Transaction) {
    Get(l, tx.from).nonce == tx.nonce && Get(l, tx.from).balance >= Cost(tx)
  }

  /** The signature half: an unsigned transaction passes. */
  predicate SignedOk(keys: Keyring, tx: Transaction) {
    |tx.signature| > 0 ==>
      && |tx.signature| >= 32
      && tx.from in keys.publicKeys
      && (match DecodePublicKey(keys.publicKeys[tx.from], keys.curve)
          case Err(_) => false
          case Ok(key) =>
            var (r, s) := SplitSignature(tx.signature);
            keys.curve.verify(key, keys.digest(tx.(signature := [])), r, s))
  }

  /** validateTransaction. */
  predicate IsValid(l: Accounts, keys: Keyring, tx: Transaction) {
    Affordable(l, tx) && SignedOk(keys, tx)
  }

  function Next(nonce: Uint64): Uint64 {
    if nonce + 1 < U64 then nonce + 1 else 0
  }

  /** applyTransaction. Sender and recipient are one object when an existing account pays itself; an account
      that does not exist yet is read twice, as two new objects, and the recipient's is stored last. */
  function Apply(l: Accounts, tx: Transaction): Accounts {
    var sender := Get(l, tx.from);
    var paid := Funds(sender.balance - Cost(tx), Next(sender.nonce));
    if tx.from != tx.to then
      var recipient := Get(l, tx.to);
      l[tx.from := paid][tx.to := recipient.(balance := recipient.balance + tx.amount)]
    else if tx.from in l then l[tx.from := paid.(balance := paid.balance + tx.amount)]
    else l[tx.from := Funds(tx.amount, 0)]
  }

  /** The two accounts stored at the end, the recipient's last. */
  lemma ApplyIs(l: Accounts, tx: Transaction, paid: Funds, received: Funds)
    requires var sender, recipient := Get(l, tx.from), Get(l, tx.to);
             var charged := Funds(sender.balance - Cost(tx), Next(sender.nonce));
             if tx.from != tx.to
             then paid == charged && received == Funds(recipient.balance + tx.amount, recipient.nonce)
             else if tx.from in l then received == Funds(charged.balance + tx.amount, charged.nonce)
             else received == Funds(tx.amount, 0)
    ensures l[tx.from := paid][tx.to := received] == Apply(l, tx)
  {
  }

  lemma SameLedger(l: Accounts, m: Accounts)
    requires l.Keys == m.Keys && forall a :: a in l ==> l[a] == m[a]
    ensures l == m
  {
  }

  /** Highest fee first. */
  ghost predicate ByFee(txs: seq<Transaction>) {
    forall i, j :: 0 <= i < j < |txs| ==> txs[i].fee >= txs[j].fee
  }

  /** The valid transactions of a list, in its order. */
  ghost function Kept(l: Accounts, keys: Keyring, txs: seq<Transaction>): seq<Transaction> {
    if txs == [] then []
    else
      var n := |txs| - 1;
      Kept(l, keys, txs[..n]) + if IsValid(l, keys, txs[n]) then [txs[n]] else []
  }

  lemma {:induction false} KeptCount(l: Accounts, keys: Keyring, txs: seq<Transaction>, tx: Transaction)
    ensures multiset(Kept(l, keys, txs))[tx]
            == if IsValid(l, keys, tx) then multiset(txs)[tx] else 0
    decreases |txs|
  {
    if txs != [] {
      var n := |txs| - 1;
      KeptCount(l, keys, txs[..n], tx);
      assert txs == txs[..n] + [txs[n]];
    }
  }

  lemma KeptCounts(l: Accounts, keys: Keyring, txs: seq<Transaction>)
    ensures forall tx :: multiset(Kept(l, keys, txs))[tx]
              == if IsValid(l, keys, tx) then multiset(txs)[tx] else 0
    ensures forall tx :: tx in Kept(l, keys, txs) <==> tx in txs && IsValid(l, keys, tx)
    ensures multiset(Kept(l, keys, txs)) <= multiset(txs)
  {
    forall tx
      ensures multiset(Kept(l, keys, txs))[tx]
              == if IsValid(l, keys, tx) then multiset(txs)[tx] else 0
      ensures tx in Kept(l, keys, txs) <==> tx in txs && IsValid(l, keys, tx)
    {
      KeptCount(l, keys, txs, tx);
      assert tx in Kept(l, keys, txs) <==> multiset(Kept(l, keys, txs))[tx] > 0;
      assert tx in txs <==> multiset(txs)[tx] > 0;
    }
  }

  lemma AppendByFee(sorted: seq<Transaction>, chosen: seq<Transaction>, i: nat)
    requires i < |sorted| && ByFee(sorted) && ByFee(chosen) && forall tx :: tx in chosen ==> tx in sorted[..i]
    ensures ByFee(chosen + [sorted[i]])
  {
    forall k | 0 <= k < |chosen| ensures chosen[k].fee >= sorted[i].fee {
      assert chosen[k] in sorted[..i];
    }
  }

  lemma KeptIsInside(l: Accounts, keys: Keyring, txs: seq<Transaction>)
    ensures forall tx :: tx in Kept(l, keys, txs) ==> tx in txs
  {
    KeptCounts(l, keys, txs);
  }

  lemma {:induction false} KeptByFee(l: Accounts, keys: Keyring, txs: seq<Transaction>)
    requires ByFee(txs)
    ensures ByFee(Kept(l, keys, txs))
    decreases |txs|
  {
    if txs != [] {
      var n := |txs| - 1;
      KeptByFee(l, keys, txs[..n]);
      KeptIsInside(l, keys, txs[..n]);
      AppendByFee(txs, Kept(l, keys, txs[..n]), n);
    }
  }

  class Account {
    const address: string
    var balance: int
    var nonce: Uint64

    constructor (address: string)
      ensures this.address == address && balance == 0 && nonce == 0
    {
      this.address, balance, nonce := address, 0, 0;
    }
  }

  class ChainState {
    var accounts: map<string, Account>
    ghost var ledger: Accounts
    ghost var repr: set<Account>

    /** Accounts are stored under their own address, so no object is stored twice, and the ledger is their contents. */
    ghost predicate Valid()
      reads this, repr
    {
      && ledger.Keys == accounts.Keys
      && forall a :: a in accounts ==>
           && accounts[a] in repr && accounts[a].address == a
           && ledger[a] == Funds(accounts[a].balance, accounts[a].nonce)
    }

    constructor ()
      ensures Valid() && ledger == map[] && fresh(repr)
    {
      accounts, ledger, repr := map[], map[], {};
    }

    method GetAccount(a: string) returns (account: Account)
      requires a in accounts ==> accounts[a].address == a
      ensures account.address == a
      ensures a in accounts ==> account == accounts[a]
      ensures a !in accounts ==> fresh(account) && account.balance == 0 && account.nonce == 0
    {
      if a in accounts {
        return accounts[a];
      }
      account := new Account(a);
    }

    method UpdateAccount(account: Account)
      modifies this
      ensures accounts == old(accounts)[account.address := account]
      ensures ledger == old(ledger)[account.address := Funds(account.balance, account.nonce)]
      ensures repr == old(repr) + {account}
    {
      repr := repr + {account};
      accounts := accounts[account.address := account];
      ledger := ledger[account.address := Funds(account.balance, account.nonce)];
    }

    method ValidateTransaction(tx: Transaction, keys: Keyring) returns (valid: bool)
      requires Valid()
      ensures valid <==> IsValid(ledger, keys, tx)
    {
      var account := GetAccount(tx.from);
      if account.nonce != tx.nonce {
        return false;
      }
      if account.balance < tx.amount + tx.fee {
        return false;
      }
      if |tx.signature| > 0 {
        if |tx.signature| < 32 || tx.from !in keys.publicKeys {
          return false;
        }
        var (r, s) := SplitSignature(tx.signature);
        var decoded := DecodePublicKey(keys.publicKeys[tx.from], keys.curve);
        if decoded.Err? {
          return false;
        }
        return keys.curve.verify(decoded.value, keys.digest(tx.(signature := [])), r, s);
      }
      return true;
    }

    /** The block proposer's choice from a list already sorted by fee: what is valid on the current state. */
    method SelectTransactions(sorted: seq<Transaction>, keys: Keyring) returns (valid: seq<Transaction>)
      requires Valid() && ByFee(sorted)
      ensures forall tx :: tx in valid <==> tx in sorted && IsValid(ledger, keys, tx)
      ensures forall tx :: tx in valid ==> multiset(valid)[tx] == multiset(sorted)[tx]
      ensures multiset(valid) <= multiset(sorted) && ByFee(valid)
    {
      valid := [];
      for i := 0 to |sorted|
        invariant valid == Kept(ledger, keys, sorted[..i])
      {
        assert sorted[..i + 1][..i] == sorted[..i];
        var ok := ValidateTransaction(sorted[i], keys);
        if ok {
          valid := valid + [sorted[i]];
        }
      }
      assert sorted[..|sorted|] == sorted;
      KeptCounts(ledger, keys, sorted);
      KeptByFee(ledger, keys, sorted);
    }

    /** The arithmetic on the two account objects, which may be one. */
    static method MoveFunds(fromAccount: Account, toAccount: Account, tx: Transaction)
      modifies fromAccount, toAccount
      ensures fromAccount.nonce == Next(old(fromAccount.nonce))
      ensures fromAccount != toAccount ==>
                && toAccount.nonce == old(toAccount.nonce)
                && fromAccount.balance == old(fromAccount.balance) - Cost(tx)
                && toAccount.balance == old(toAccount.balance) + tx.amount
      ensures fromAccount == toAccount ==> fromAccount.balance == old(fromAccount.balance) - Cost(tx) + tx.amount
    {
      var totalCost := tx.amount + tx.fee;
      fromAccount.balance := fromAccount.balance - totalCost;
      fromAccount.nonce := Next(fromAccount.nonce);
      toAccount.balance := toAccount.balance + tx.amount;
    }

    method ApplyTransaction(tx: Transaction)
      requires Valid()
      modifies this, repr
      ensures Valid() && ledger == Apply(old(ledger), tx)
      ensures fresh(repr - old(repr))
    {
      var fromAccount := GetAccount(tx.from);
      var toAccount := GetAccount(tx.to);
      MoveFunds(fromAccount, toAccount, tx);
      UpdateAccount(fromAccount);
      UpdateAccount(toAccount);
      forall a | a in accounts && a != tx.from && a != tx.to
        ensures accounts[a].address == a && ledger[a] == Funds(accounts[a].balance, accounts[a].nonce)
      {
        assert accounts[a] == old(accounts)[a] && accounts[a] != fromAccount && accounts[a] != toAccount;
      }
      ApplyIs(old(ledger), tx, Funds(fromAccount.balance, fromAccount.nonce),
              Funds(toAccount.balance, toAccount.nonce));
    }

    /** Adds to one account, creating it if needed: how block rewards are paid. */
    method Credit(a: string, amount: int)
      requires Valid()
      modifies this, repr
      ensures Valid() && ledger == Credited(old(ledger), a, amount)
      ensures fresh(repr - old(repr))
    {
      var account := GetAccount(a);
      account.balance := account.balance + amount;
      UpdateAccount(account);
    }
  }

  function Credited(l: Accounts, a: string, amount: int): Accounts {
    l[a := Get(l, a).(balance := Get(l, a).balance + amount)]
  }

  // ---- Blocks of transactions ----

  ghost function ApplyAll(l: Accounts, txs: seq<Transaction>): Accounts {
    if txs == [] then l else Apply(ApplyAll(l, txs[..|txs| - 1]), txs[|txs| - 1])
  }

  /** A self-transfer is from an account that exists. */
  predicate Regular(l: Accounts, tx: Transaction) {
    tx.from != tx.to || tx.from in l
  }

  ghost predicate AllRegular(l: Accounts, txs: seq<Transaction>) {
    forall tx :: tx in txs ==> Regular(l, tx)
  }

  /** What a transaction adds to an account. */
  function Net(tx: Transaction, a: string): int {
    (if tx.to == a then tx.amount else 0) - (if tx.from == a then Cost(tx) else 0)
  }

  ghost function NetAt(a: string): Transaction -> int {
    tx => Net(tx, a)
  }

  ghost function SentBy(a: string): Transaction -> int {
    (tx: Transaction) => if tx.from == a then 1 else 0
  }

  ghost function FeeOf(): Transaction -> int {
    (tx: Transaction) => tx.fee
  }

  ghost function Touched(txs: seq<Transaction>): set<string> {
    (set tx | tx in txs :: tx.from) + set tx | tx in txs :: tx.to
  }

  /** The nonce after n transactions of an account. */
  ghost function Advance(nonce: Uint64, n: nat): Uint64 {
    if n == 0 then nonce else Next(Advance(nonce, n - 1))
  }

  lemma ApplyEffect(l: Accounts, tx: Transaction, a: string)
    requires Regular(l, tx)
    ensures Get(Apply(l, tx), a).balance == Get(l, a).balance + Net(tx, a)
    ensures Get(Apply(l, tx), a).nonce == if tx.from == a then Next(Get(l, a).nonce) else Get(l, a).nonce
    ensures Apply(l, tx).Keys == l.Keys + {tx.from, tx.to}
  {
  }

  lemma SumSnoc(txs: seq<Transaction>, f: Transaction -> int)
    requires txs != []
    ensures Sum(txs, f) == Sum(txs[..|txs| - 1], f) + f(txs[|txs| - 1])
  {
    var n := |txs| - 1;
    assert txs == txs[..n] + [txs[n]];
    SumConcat(txs[..n], [txs[n]], f);
    assert Sum([txs[n]], f) == f(txs[n]) + Sum([], f) by {
      assert [txs[n]][1..] == [];
    }
  }

  lemma {:induction false} KeysAfter(l: Accounts, txs: seq<Transaction>)
    ensures ApplyAll(l, txs).Keys == l.Keys + Touched(txs)
    decreases |txs|
  {
    if txs != [] {
      var n := |txs| - 1;
      KeysAfter(l, txs[..n]);
      TouchedNext(txs);
    }
  }

  lemma TouchedNext(txs: seq<Transaction>)
    requires txs != []
    ensures var n := |txs| - 1; Touched(txs) == Touched(txs[..n]) + {txs[n].from, txs[n].to}
  {
    var n := |txs| - 1;
    assert txs == txs[..n] + [txs[n]];
  }

  /** The last transaction of a block is regular when its turn comes. */
  lemma LastIsRegular(l: Accounts, txs: seq<Transaction>)
    requires AllRegular(l, txs) && txs != []
    ensures var n := |txs| - 1; AllRegular(l, txs[..n]) && Regular(ApplyAll(l, txs[..n]), txs[n])
  {
    var n := |txs| - 1;
    KeysAfter(l, txs[..n]);
    assert Regular(l, txs[n]);
  }

  /** Closed form of a block: every balance moves by the sum of the nets, in no particular order. */
  lemma {:induction false} BalanceAfter(l: Accounts, txs: seq<Transaction>, a: string)
    requires AllRegular(l, txs)
    ensures Get(ApplyAll(l, txs), a).balance == Get(l, a).balance + Sum(txs, NetAt(a))
    decreases |txs|
  {
    if txs != [] {
      var n := |txs| - 1;
      LastIsRegular(l, txs);
      BalanceAfter(l, txs[..n], a);
      ApplyEffect(ApplyAll(l, txs[..n]), txs[n], a);
      SumSnoc(txs, NetAt(a));
    }
  }

  lemma {:induction false} SentCount(txs: seq<Transaction>, a: string)
    ensures Sum(txs, SentBy(a)) >= 0
  {
    if txs != [] {
      SentCount(txs[1..], a);
    }
  }

  /** And every nonce by the number of transactions sent. */
  lemma {:induction false} NonceAfter(l: Accounts, txs: seq<Transaction>, a: string)
    requires AllRegular(l, txs)
    ensures Sum(txs, SentBy(a)) >= 0
    ensures Get(ApplyAll(l, txs), a).nonce == Advance(Get(l, a).nonce, Sum(txs, SentBy(a)))
    decreases |txs|
  {
    SentCount(txs, a);
    if txs != [] {
      var n := |txs| - 1;
      LastIsRegular(l, txs);
      NonceAfter(l, txs[..n], a);
      ApplyEffect(ApplyAll(l, txs[..n]), txs[n], a);
      SumSnoc(txs, SentBy(a));
    }
  }

  /** The final ledger of a block does not depend on the order of its transactions. */
  lemma OrderIsIrrelevant(l: Accounts, txs: seq<Transaction>, other: seq<Transaction>)
    requires AllRegular(l, txs) && multiset(txs) == multiset(other)
    ensures ApplyAll(l, txs) == ApplyAll(l, other)
  {
    SameMembers(txs, other);
    assert Touched(txs) == Touched(other);
    var x, y := ApplyAll(l, txs), ApplyAll(l, other);
    forall a ensures Get(x, a) == Get(y, a) && (a in x <==> a in y) {
      KeysAfter(l, txs);
      KeysAfter(l, other);
      BalanceAfter(l, txs, a);
      BalanceAfter(l, other, a);
      NonceAfter(l, txs, a);
      NonceAfter(l, other, a);
      SumPermutation(txs, other, NetAt(a));
      SumPermutation(txs, other, SentBy(a));
    }
    forall a | a in x ensures x[a] == y[a] {
      assert Get(x, a) == Get(y, a);
    }
    SameLedger(x, y);
  }

  lemma SameMembers<T>(a: seq<T>, b: seq<T>)
    requires multiset(a) == multiset(b)
    ensures forall x :: x in a <==> x in b
  {
    forall x ensures x in a <==> x in b {
      assert x in a <==> x in multiset(a);
      assert x in b <==> x in multiset(b);
    }
  }

  ghost predicate NonNegative(l: Accounts) {
    forall a :: a in l ==> l[a].balance >= 0
  }

  /** However the block is ordered, no balance is ever negative after any number of its transactions. */
  ghost predicate SafeInEveryOrder(l: Accounts, txs: seq<Transaction>) {
    forall order: seq<Transaction>, k :: multiset(order) == multiset(txs) && 0 <= k <= |order|
      ==> NonNegative(ApplyAll(l, order[..k]))
  }

  /** What a transaction takes from an account, if anything. */
  ghost function DrainAt(a: string): Transaction -> int {
    tx => if Net(tx, a) < 0 then -Net(tx, a) else 0
  }

  /** Every account can pay everything the block takes from it without anything coming in. */
  ghost predicate Covered(l: Accounts, txs: seq<Transaction>) {
    forall a :: Get(l, a).balance >= Sum(txs, DrainAt(a))
  }

  lemma {:induction false} SumNonNegative(txs: seq<Transaction>, a: string)
    ensures Sum(txs, DrainAt(a)) >= 0
  {
    if txs != [] {
      SumNonNegative(txs[1..], a);
    }
  }

  lemma {:induction false} NetAtLeastDrain(txs: seq<Transaction>, a: string)
    ensures Sum(txs, NetAt(a)) >= -Sum(txs, DrainAt(a))
    ensures (forall tx :: tx in txs ==> Net(tx, a) < 0) ==> Sum(txs, NetAt(a)) == -Sum(txs, DrainAt(a))
    ensures (forall tx :: tx in txs ==> Net(tx, a) >= 0) ==> Sum(txs, DrainAt(a)) == 0
  {
    if txs != [] {
      NetAtLeastDrain(txs[1..], a);
    }
  }

  lemma CoveredIsSafe(l: Accounts, txs: seq<Transaction>, order: seq<Transaction>, k: nat, a: string)
    requires AllRegular(l, txs) && Covered(l, txs)
    requires multiset(order) == multiset(txs) && k <= |order|
    ensures Get(ApplyAll(l, order[..k]), a).balance >= 0
  {
    SameMembers(order, txs);
    assert order == order[..k] + order[k..];
    assert AllRegular(l, order[..k]);
    BalanceAfter(l, order[..k], a);
    NetAtLeastDrain(order[..k], a);
    SumConcat(order[..k], order[k..], DrainAt(a));
    SumNonNegative(order[k..], a);
    SumPermutation(order, txs, DrainAt(a));
  }

  /** The transactions that take from an account. */
  ghost function Drains(txs: seq<Transaction>, a: string): seq<Transaction> {
    if txs == [] then [] else (if Net(txs[0], a) < 0 then [txs[0]] else []) + Drains(txs[1..], a)
  }

  ghost function Rest(txs: seq<Transaction>, a: string): seq<Transaction> {
    if txs == [] then [] else (if Net(txs[0], a) < 0 then [] else [txs[0]]) + Rest(txs[1..], a)
  }

  lemma {:induction false} DrainsSplit(txs: seq<Transaction>, a: string)
    ensures multiset(Drains(txs, a) + Rest(txs, a)) == multiset(txs)
    ensures forall tx :: tx in Drains(txs, a) ==> Net(tx, a) < 0
    ensures forall tx :: tx in Rest(txs, a) ==> Net(tx, a) >= 0
  {
    if txs != [] {
      DrainsSplit(txs[1..], a);
      assert txs == [txs[0]] + txs[1..];
      assert multiset(Drains(txs, a)) + multiset(Rest(txs, a))
          == multiset{txs[0]} + (multiset(Drains(txs[1..], a)) + multiset(Rest(txs[1..], a)));
    }
  }

  /** The sum of what a block takes is that of the transactions that take. */
  lemma DrainsTakeAll(txs: seq<Transaction>, a: string)
    ensures Sum(Drains(txs, a), NetAt(a)) == -Sum(txs, DrainAt(a))
  {
    var first, rest := Drains(txs, a), Rest(txs, a);
    DrainsSplit(txs, a);
    NetAtLeastDrain(first, a);
    NetAtLeastDrain(rest, a);
    SumConcat(first, rest, DrainAt(a));
    SumPermutation(first + rest, txs, DrainAt(a));
  }

  lemma DrainsAreRegular(l: Accounts, txs: seq<Transaction>, a: string)
    requires AllRegular(l, txs)
    ensures AllRegular(l, Drains(txs, a))
  {
    var order := Drains(txs, a) + Rest(txs, a);
    DrainsSplit(txs, a);
    SameMembers(order, txs);
    forall tx | tx in Drains(txs, a) ensures Regular(l, tx) {
      assert tx in order;
    }
  }

  /** If an account cannot cover what the block takes from it, taking first overdraws it. */
  lemma UncoveredOverdraws(l: Accounts, txs: seq<Transaction>, a: string)
    requires AllRegular(l, txs) && Get(l, a).balance < Sum(txs, DrainAt(a))
    ensures !SafeInEveryOrder(l, txs)
  {
    var first := Drains(txs, a);
    var order := first + Rest(txs, a);
    DrainsSplit(txs, a);
    DrainsAreRegular(l, txs, a);
    BalanceAfter(l, first, a);
    DrainsTakeAll(txs, a);
    assert order[..|first|] == first;
    assert !NonNegative(ApplyAll(l, order[..|first|]));
  }

  /** A block can be applied in every order without overdrawing anyone exactly when every account covers
      what the block takes from it. */
  lemma SafeInEveryOrderIff(l: Accounts, txs: seq<Transaction>)
    requires AllRegular(l, txs)
    ensures SafeInEveryOrder(l, txs) <==> Covered(l, txs)
  {
    if Covered(l, txs) {
      forall order: seq<Transaction>, k | multiset(order) == multiset(txs) && 0 <= k <= |order|
        ensures NonNegative(ApplyAll(l, order[..k]))
      {
        forall a | a in ApplyAll(l, order[..k]) ensures ApplyAll(l, order[..k])[a].balance >= 0 {
          CoveredIsSafe(l, txs, order, k, a);
        }
      }
    } else {
      var a :| Get(l, a).balance < Sum(txs, DrainAt(a));
      UncoveredOverdraws(l, txs, a);
    }
  }

  ghost predicate DistinctSenders(txs: seq<Transaction>) {
    forall i, j :: 0 <= i < j < |txs| ==> txs[i].from != txs[j].from
  }

  ghost predicate NoNegativeAmount(txs: seq<Transaction>) {
    forall tx :: tx in txs ==> tx.amount >= 0
  }

  lemma {:induction false} NoSenderNoDrain(txs: seq<Transaction>, a: string)
    requires NoNegativeAmount(txs) && forall tx :: tx in txs ==> tx.from != a
    ensures Sum(txs, DrainAt(a)) == 0 && Sum(txs, SentBy(a)) == 0
  {
    if txs != [] {
      NoSenderNoDrain(txs[1..], a);
    }
  }

  /** A sender of one validated transaction covers it and sends once; anyone else loses and sends nothing. */
  lemma {:induction false} SingleSenderCovered(l: Accounts, txs: seq<Transaction>, a: string)
    requires NonNegative(l) && DistinctSenders(txs) && NoNegativeAmount(txs)
    requires forall tx :: tx in txs ==> Affordable(l, tx)
    ensures Get(l, a).balance >= Sum(txs, DrainAt(a))
    ensures Sum(txs, SentBy(a)) == if exists tx :: tx in txs && tx.from == a then 1 else 0
  {
    if txs != [] {
      assert txs[0] in txs;
      if txs[0].from == a {
        forall tx | tx in txs[1..] ensures tx.from != a {
          var k :| 0 <= k < |txs[1..]| && txs[1..][k] == tx;
          assert txs[k + 1] == tx;
        }
        NoSenderNoDrain(txs[1..], a);
      } else {
        SingleSenderCovered(l, txs[1..], a);
      }
    }
  }

  /** Checking every transaction against the pre-block state is enough when senders are pairwise distinct and
      amounts are not negative: every order is safe, ends at the same ledger, and moves each sender's nonce by one. */
  lemma SnapshotValidationIsSound(l: Accounts, txs: seq<Transaction>, order: seq<Transaction>)
    requires NonNegative(l) && DistinctSenders(txs) && NoNegativeAmount(txs) && AllRegular(l, txs)
    requires forall tx :: tx in txs ==> Affordable(l, tx)
    requires multiset(order) == multiset(txs)
    ensures SafeInEveryOrder(l, txs)
    ensures ApplyAll(l, order) == ApplyAll(l, txs)
    ensures forall tx :: tx in txs ==> Get(ApplyAll(l, order), tx.from).nonce == Next(tx.nonce)
  {
    forall a ensures Get(l, a).balance >= Sum(txs, DrainAt(a)) {
      SingleSenderCovered(l, txs, a);
    }
    SafeInEveryOrderIff(l, txs);
    OrderIsIrrelevant(l, txs, order);
    forall tx | tx in txs ensures Get(ApplyAll(l, txs), tx.from).nonce == Next(tx.nonce) {
      SingleSenderCovered(l, txs, tx.from);
      NonceAfter(l, txs, tx.from);
      assert Sum(txs, SentBy(tx.from)) == 1;
      assert Advance(tx.nonce, 1) == Next(Advance(tx.nonce, 0));
    }
  }

  /** The proposer does not compare senders: two different payments from one account with one nonce are both
      valid on the block's state and overdraw it together. */
  lemma RepeatedSenderOverdraws(a: string, b: string, id: string, id': string)
    requires a != b && id != id'
    ensures var l := map[a := Funds(10, 0)];
            var tx, tx' := Transaction(id, a, b, 10, 0, 0, []), Transaction(id', a, b, 10, 0, 0, []);
            && (forall keys :: IsValid(l, keys, tx) && IsValid(l, keys, tx'))
            && Get(ApplyAll(l, [tx, tx']), a).balance == -10
  {
    var l := map[a := Funds(10, 0)];
    var tx, tx' := Transaction(id, a, b, 10, 0, 0, []), Transaction(id', a, b, 10, 0, 0, []);
    assert [tx, tx'][..1] == [tx] && [tx][..0] == [];
    assert ApplyAll(l, [tx]) == Apply(l, tx);
    assert ApplyAll(l, [tx, tx']) == Apply(Apply(l, tx), tx');
  }

  /** Nor does it look at the sign of the amount: a valid transaction keeps every ledger non-negative exactly when
      its amount is not negative, or it pays its own sender and charges no fee. */
  lemma AmountSignIff(tx: Transaction)
    ensures (forall l :: NonNegative(l) && Regular(l, tx) && Affordable(l, tx) ==> NonNegative(Apply(l, tx)))
            <==> tx.amount >= 0 || (tx.from == tx.to && tx.fee <= 0)
  {
    if tx.amount < 0 && (tx.from != tx.to || tx.fee > 0) {
      var l: Accounts := map[tx.from := Funds(if Cost(tx) > 0 then Cost(tx) else 0, tx.nonce)];
      assert NonNegative(l) && Regular(l, tx) && Affordable(l, tx);
      assert Apply(l, tx)[tx.to].balance < 0;
      assert !NonNegative(Apply(l, tx));
    }
  }

  // ---- Which transactions are valid ----

  /** The nonce and the balance that a transaction needs, whatever its signature. */
  lemma NonceAndBalanceDecide(l: Accounts, keys: Keyring, tx: Transaction)
    ensures IsValid(l, keys, tx) ==>
              Get(l, tx.from).nonce == tx.nonce && Get(l, tx.from).balance >= tx.amount + tx.fee
    ensures tx.signature == [] ==>
              (IsValid(l, keys, tx) <==>
                 Get(l, tx.from).nonce == tx.nonce && Get(l, tx.from).balance >= tx.amount + tx.fee)
  {
  }

  /** A transaction signed with (r, s), whose lengths fit, under the encoded key (x, y) is valid exactly when the curve
      accepts (r, s) on the digest of the unsigned transaction. */
  lemma SignatureDecides(l: Accounts, keys: Keyring, tx: Transaction, r: nat, s: nat, key: PublicKey)
    requires Get(l, tx.from).nonce == tx.nonce && Get(l, tx.from).balance >= tx.amount + tx.fee
    requires |ToBytes(key.x)| <= 32 && |ToBytes(key.y)| <= 32
    requires tx.from in keys.publicKeys && keys.publicKeys[tx.from] == Padded(key.x) + Padded(key.y)
    requires r > 0 && s > 0 && tx.signature == ToBytes(r) + ToBytes(s)
    requires |tx.signature| >= 32 && 0 <= |ToBytes(s)| - |ToBytes(r)| <= 1
    ensures IsValid(l, keys, tx) <==> keys.curve.verify(key, keys.digest(tx.(signature := [])), r, s)
  {
    KeyRoundTrip(key, keys.curve);
    SplitRecoversIff(r, s);
    assert tx.signature == JoinSignature(r, s);
  }

  /** In general the verdict is the curve's on the two halves of the signature, under the recorded key. */
  lemma HalvesDecide(l: Accounts, keys: Keyring, tx: Transaction)
    requires Get(l, tx.from).nonce == tx.nonce && Get(l, tx.from).balance >= tx.amount + tx.fee
    requires tx.from in keys.publicKeys && |keys.publicKeys[tx.from]| == 64 && |tx.signature| >= 32
    ensures var key, half := keys.publicKeys[tx.from], |tx.signature| / 2;
            IsValid(l, keys, tx)
            <==> keys.curve.verify(PublicKey(FromBytes(key[..32]), FromBytes(key[32..])),
                                   keys.digest(tx.(signature := [])),
                                   FromBytes(tx.signature[..half]), FromBytes(tx.signature[half..]))
  {
  }

  /** A signed transaction of an unregistered sender, of one without a key, or with under 32 bytes is never valid. */
  lemma UnverifiableIsInvalid(l: Accounts, keys: Keyring, tx: Transaction)
    requires tx.signature != []
    requires tx.from !in keys.publicKeys || keys.publicKeys[tx.from] == [] || |tx.signature| < 32
    ensures !IsValid(l, keys, tx)
  {
  }

  /** A nonce counts the transactions sent, modulo 2^64. */
  lemma {:induction false} AdvanceCounts(nonce: Uint64, n: nat)
    ensures Advance(nonce, n) == (nonce + n) % 0x1_0000_0000_0000_0000
    decreases n
  {
    if n > 0 {
      AdvanceCounts(nonce, n - 1);
      WrapNext(nonce + n - 1);
    }
  }

  lemma WrapNext(n: nat)
    ensures (n + 1) % U64 == if n % U64 + 1 < U64 then n % U64 + 1 else 0
  {
  }

  /** So what has been applied cannot be applied again: it is not valid on the ledger it leaves, until the sender has
      gone through all nonces. */
  lemma ReplayIsInvalid(l: Accounts, keys: Keyring, tx: Transaction)
    requires Regular(l, tx) && IsValid(l, keys, tx)
    ensures !IsValid(Apply(l, tx), keys, tx)
    ensures Get(Apply(l, tx), tx.from).nonce == (tx.nonce + 1) % 0x1_0000_0000_0000_0000
  {
  }

  /** A payment to somebody else charges amount and fee to the sender, pays the amount to the recipient, and moves
      nobody else; a payment to oneself costs the fee. */
  lemma PaymentMoves(l: Accounts, tx: Transaction, other: string)
    requires Regular(l, tx) && other != tx.from && other != tx.to
    ensures tx.from != tx.to ==>
              && Get(Apply(l, tx), tx.from).balance == Get(l, tx.from).balance - tx.amount - tx.fee
              && Get(Apply(l, tx), tx.to).balance == Get(l, tx.to).balance + tx.amount
              && Get(Apply(l, tx), tx.to).nonce == Get(l, tx.to).nonce
    ensures tx.from == tx.to ==> Get(Apply(l, tx), tx.from).balance == Get(l, tx.from).balance - tx.fee
    ensures Get(Apply(l, tx), other) == Get(l, other)
  {
  }

  // ---- Supply ----

  ghost function Balances(l: Accounts): map<string, int> {
    map a | a in l :: l[a].balance
  }

  ghost function Supply(l: Accounts): int {
    SumMap(Balances(l))
  }

  lemma SupplyUpdate(l: Accounts, a: string, f: Funds)
    ensures Supply(l[a := f]) == Supply(l) - Get(l, a).balance + f.balance
  {
    assert Balances(l[a := f]) == Balances(l)[a := f.balance];
    SumUpdate(Balances(l), a, f.balance);
  }

  /** A transaction destroys its whole fee. */
  lemma ApplyBurnsFee(l: Accounts, tx: Transaction)
    requires Regular(l, tx)
    ensures Supply(Apply(l, tx)) == Supply(l) - tx.fee
  {
    var sender := Get(l, tx.from);
    var paid := Funds(sender.balance - Cost(tx), Next(sender.nonce));
    if tx.from != tx.to {
      SupplyUpdate(l, tx.from, paid);
      var recipient := Get(l, tx.to);
      SupplyUpdate(l[tx.from := paid], tx.to, recipient.(balance := recipient.balance + tx.amount));
    } else {
      SupplyUpdate(l, tx.from, paid.(balance := paid.balance + tx.amount));
    }
  }

  lemma {:induction false} ApplyAllBurnsFees(l: Accounts, txs: seq<Transaction>)
    requires AllRegular(l, txs)
    ensures Supply(ApplyAll(l, txs)) == Supply(l) - Sum(txs, FeeOf())
    decreases |txs|
  {
    if txs != [] {
      var n := |txs| - 1;
      LastIsRegular(l, txs);
      ApplyAllBurnsFees(l, txs[..n]);
      ApplyBurnsFee(ApplyAll(l, txs[..n]), txs[n]);
      SumSnoc(txs, FeeOf());
    }
  }

  lemma CreditMints(l: Accounts, a: string, amount: int)
    ensures Supply(Credited(l, a, amount)) == Supply(l) + amount
  {
    SupplyUpdate(l, a, Get(l, a).(balance := Get(l, a).balance + amount));
  }
}
