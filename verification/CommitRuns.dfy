/** The steps of a commit, and of a call that ends in one. */
module CommitRuns {
  import opened Sequences
  import opened AtomicMachine

  ghost function ToInstall(addresses: set<string>, ids: set<string>): set<Key> {
    (set a | a in addresses :: AccountKey(a)) + set id | id in ids :: ValidatorKey(id)
  }

  /** What a commit does: the write, and if it succeeded the installing of every key in some order. */
  ghost predicate CommitSteps(steps: seq<Step>, ok: bool) {
    && steps != [] && steps[0] == Write(ok)
    && forall i :: 1 <= i < |steps| ==> steps[i].Install? || steps[i].Finish?
  }

  lemma InstallAccountEffect(n: Node, addresses: set<string>, ids: set<string>, a: string)
    requires n.phase == Installing(ToInstall(addresses, ids)) && a in addresses && a in n.accountCache
    ensures Do(n, Install(AccountKey(a)))
            == n.(accounts := n.accounts[a := n.accountCache[a]], phase := Installing(ToInstall(addresses - {a}, ids)))
  {
    assert ToInstall(addresses, ids) - {AccountKey(a)} == ToInstall(addresses - {a}, ids);
  }

  lemma InstallValidatorEffect(n: Node, ids: set<string>, id: string)
    requires n.phase == Installing(ToInstall({}, ids)) && id in ids && id in n.validatorCache
    ensures Do(n, Install(ValidatorKey(id)))
            == n.(validators := n.validators[id := n.validatorCache[id]],
                  phase := Installing(ToInstall({}, ids - {id})))
  {
    assert ToInstall({}, ids) - {ValidatorKey(id)} == ToInstall({}, ids - {id});
  }

  /** The install steps of the two loops, for the orders in which they range over the caches. */
  ghost function AccountInstalls(order: seq<string>): (steps: seq<Step>)
    ensures forall i :: 0 <= i < |steps| ==> steps[i].Install?
  {
    seq(|order|, i requires 0 <= i < |order| => Install(AccountKey(order[i])))
  }

  ghost function ValidatorInstalls(order: seq<string>): (steps: seq<Step>)
    ensures forall i :: 0 <= i < |steps| ==> steps[i].Install?
  {
    seq(|order|, i requires 0 <= i < |order| => Install(ValidatorKey(order[i])))
  }

  /** The entries of a cache assigned to a map one by one. */
  ghost function Overlay<V>(base: map<string, V>, cache: map<string, V>, order: seq<string>): map<string, V>
    requires Elements(order) <= cache.Keys
  {
    if order == [] then base
    else
      var last := |order| - 1;
      assert forall k :: k in order[..last] ==> k in Elements(order);
      assert order[last] in Elements(order);
      Overlay(base, cache, order[..last])[order[last] := cache[order[last]]]
  }

  lemma {:induction false} OverlayIs<V>(base: map<string, V>, cache: map<string, V>, order: seq<string>, k: string)
    requires Elements(order) <= cache.Keys
    ensures k in Overlay(base, cache, order) <==> k in base || k in order
    ensures k in Overlay(base, cache, order) ==>
              Overlay(base, cache, order)[k] == if k in order then cache[k] else base[k]
    decreases |order|
  {
    if order != [] {
      var last := |order| - 1;
      ElementsNext(order);
      OverlayIs(base, cache, order[..last], k);
      assert k in order <==> k in order[..last] || k == order[last];
      assert k in order ==> k in Elements(order);
    }
  }

  lemma ElementsNext<T>(s: seq<T>)
    requires s != []
    ensures Elements(s) == Elements(s[..|s| - 1]) + {s[|s| - 1]}
  {
    assert s == s[..|s| - 1] + [s[|s| - 1]];
  }

  /** Visiting all of a cache lays it over the map. */
  lemma OverlayAll<V>(base: map<string, V>, cache: map<string, V>, order: seq<string>)
    requires Elements(order) == cache.Keys
    ensures Overlay(base, cache, order) == base + cache
  {
    forall k ensures k in order <==> k in cache {
      assert k in order <==> k in Elements(order);
    }
    forall k ensures k in Overlay(base, cache, order) <==> k in base || k in order {
      OverlayIs(base, cache, order, k);
    }
    forall k | k in Overlay(base, cache, order) ensures Overlay(base, cache, order)[k] == (base + cache)[k] {
      OverlayIs(base, cache, order, k);
    }
  }

  lemma {:induction false} AccountsInstalled(n: Node, ids: set<string>, order: seq<string>)
    requires n.phase == Installing(ToInstall(n.accountCache.Keys, ids))
    requires NoDuplicates(order) && Elements(order) <= n.accountCache.Keys
    ensures DoAll(n, AccountInstalls(order))
            == n.(accounts := Overlay(n.accounts, n.accountCache, order),
                  phase := Installing(ToInstall(n.accountCache.Keys - Elements(order), ids)))
    decreases |order|
  {
    if order == [] {
      assert n.accountCache.Keys - Elements(order) == n.accountCache.Keys;
    } else {
      var last := |order| - 1;
      var front, a := order[..last], order[last];
      ElementsNext(order);
      AccountsInstalled(n, ids, front);
      var todo := n.accountCache.Keys - Elements(front);
      var before := n.(accounts := Overlay(n.accounts, n.accountCache, front),
                       phase := Installing(ToInstall(todo, ids)));
      InstallAccountEffect(before, todo, ids, a);
      DoNext(n, AccountInstalls(front), Install(AccountKey(a)));
      assert AccountInstalls(order) == AccountInstalls(front) + [Install(AccountKey(a))];
      assert todo - {a} == n.accountCache.Keys - Elements(order);
    }
  }

  lemma {:induction false} ValidatorsInstalled(n: Node, order: seq<string>)
    requires n.phase == Installing(ToInstall({}, n.validatorCache.Keys))
    requires NoDuplicates(order) && Elements(order) <= n.validatorCache.Keys
    ensures DoAll(n, ValidatorInstalls(order))
            == n.(validators := Overlay(n.validators, n.validatorCache, order),
                  phase := Installing(ToInstall({}, n.validatorCache.Keys - Elements(order))))
    decreases |order|
  {
    if order == [] {
      assert n.validatorCache.Keys - Elements(order) == n.validatorCache.Keys;
    } else {
      var last := |order| - 1;
      var front, id := order[..last], order[last];
      ElementsNext(order);
      ValidatorsInstalled(n, front);
      var todo := n.validatorCache.Keys - Elements(front);
      var before := n.(validators := Overlay(n.validators, n.validatorCache, front),
                       phase := Installing(ToInstall({}, todo)));
      InstallValidatorEffect(before, todo, id);
      DoNext(n, ValidatorInstalls(front), Install(ValidatorKey(id)));
      assert ValidatorInstalls(order) == ValidatorInstalls(front) + [Install(ValidatorKey(id))];
      assert todo - {id} == n.validatorCache.Keys - Elements(order);
    }
  }

  ghost function CommitRun(accountOrder: seq<string>, validatorOrder: seq<string>): seq<Step> {
    [Write(true)] + AccountInstalls(accountOrder) + ValidatorInstalls(validatorOrder) + [Finish]
  }

  lemma CommitRunIsCommit(accountOrder: seq<string>, validatorOrder: seq<string>)
    ensures CommitSteps(CommitRun(accountOrder, validatorOrder), true)
  {
    var steps := CommitRun(accountOrder, validatorOrder);
    var installs := AccountInstalls(accountOrder) + ValidatorInstalls(validatorOrder);
    assert steps == [Write(true)] + installs + [Finish];
    forall i | 1 <= i < |steps| ensures steps[i].Install? || steps[i].Finish? {
      if i - 1 < |installs| {
        assert steps[i] == installs[i - 1];
      }
    }
  }

  /** A node after a successful commit: the whole batch is on disk, and both caches lie over memory. */
  ghost function AfterCommit(n: Node): Node {
    n.(disk := Replay(n.disk, n.batch), accounts := n.accounts + n.accountCache,
       validators := n.validators + n.validatorCache)
  }

  lemma WriteEffect(n: Node)
    requires n.phase.Open? && Caches(n.batch, n.accountCache, n.validatorCache)
    ensures Do(n, Write(true)) == n.(disk := Replay(n.disk, n.batch),
                                     phase := Installing(ToInstall(n.accountCache.Keys, n.validatorCache.Keys)))
  {
    var todo := ToInstall(n.accountCache.Keys, n.validatorCache.Keys);
    forall k ensures k in Keys(n.batch) <==> k in todo {
      LastPutIffKey(n.batch, k);
      match k
      case AccountKey(a) => assert k in todo <==> a in n.accountCache;
      case ValidatorKey(id) => assert k in todo <==> id in n.validatorCache;
    }
    assert Keys(n.batch) == todo;
  }

  /** In whatever order the loops range over the caches, the steps of a commit end at the same node. */
  lemma CommitRunEffect(n: Node, accountOrder: seq<string>, validatorOrder: seq<string>)
    requires n.phase.Open? && Caches(n.batch, n.accountCache, n.validatorCache)
    requires Enumerates(accountOrder, n.accountCache.Keys) && Enumerates(validatorOrder, n.validatorCache.Keys)
    ensures DoAll(n, CommitRun(accountOrder, validatorOrder)) == AfterCommit(n)
  {
    DoNext(n, [], Write(true));
    assert [] + [Write(true)] == [Write(true)];
    WriteEffect(n);
    var n1 := DoAll(n, [Write(true)]);
    DoAllConcat(n, [Write(true)], AccountInstalls(accountOrder));
    AccountsInstalled(n1, n.validatorCache.Keys, accountOrder);
    OverlayAll(n.accounts, n.accountCache, accountOrder);
    assert n.accountCache.Keys - Elements(accountOrder) == {};
    var n2 := DoAll(n1, AccountInstalls(accountOrder));
    DoAllConcat(n, [Write(true)] + AccountInstalls(accountOrder), ValidatorInstalls(validatorOrder));
    ValidatorsInstalled(n2, validatorOrder);
    OverlayAll(n.validators, n.validatorCache, validatorOrder);
    assert n.validatorCache.Keys - Elements(validatorOrder) == {};
    assert ToInstall({}, {}) == {};
    DoNext(n, [Write(true)] + AccountInstalls(accountOrder) + ValidatorInstalls(validatorOrder), Finish);
  }

  /** Steps of one call: no crash among them, and one database write at most. */
  ghost predicate OneCall(steps: seq<Step>) {
    && (forall i :: 0 <= i < |steps| ==> !steps[i].Crash?)
    && (forall i, j :: 0 <= i < j < |steps| ==> !(steps[i].Write? && steps[j].Write?))
  }

  /** Steps that neither write nor crash. */
  ghost predicate Quiet(steps: seq<Step>) {
    forall i :: 0 <= i < |steps| ==> !steps[i].Write? && !steps[i].Crash?
  }

  lemma OneCallAround(before: seq<Step>, commit: seq<Step>, after: seq<Step>, ok: bool)
    requires Quiet(before) && CommitSteps(commit, ok) && Quiet(after)
    ensures OneCall(before + commit + after)
  {
    var steps := before + commit + after;
    forall i | 0 <= i < |steps| ensures !steps[i].Crash? && (steps[i].Write? ==> i == |before|) {
      if i < |before| {
        assert steps[i] == before[i];
      } else if i < |before| + |commit| {
        assert steps[i] == commit[i - |before|];
      } else {
        assert steps[i] == after[i - |before| - |commit|];
      }
    }
  }

  lemma QuietThenOneCall(before: seq<Step>, call: seq<Step>)
    requires Quiet(before) && OneCall(call)
    ensures OneCall(before + call)
  {
    var steps := before + call;
    forall i | 0 <= i < |steps| ensures !steps[i].Crash? && (steps[i].Write? ==> i >= |before|) {
      if i < |before| {
        assert steps[i] == before[i];
      } else {
        assert steps[i] == call[i - |before|];
      }
    }
    forall i, j | 0 <= i < j < |steps| ensures !(steps[i].Write? && steps[j].Write?) {
      if i >= |before| {
        assert steps[i] == call[i - |before|] && steps[j] == call[j - |before|];
      }
    }
  }

  /** A commit and the end of its transaction. */
  lemma ClosedRun(start: Node, commit: seq<Step>, ok: bool, last: Step, after: Node)
    requires DoAll(start, commit) == after && after.phase.Open? && CommitSteps(commit, ok)
    requires last.Begin? || last.Rollback?
    ensures DoAll(start, commit + [last]) == Cleared(after) && OneCall(commit + [last])
  {
    DoNext(start, commit, last);
    OneCallAround([], commit, [last], ok);
    assert [] + commit == commit;
  }

  /** Quiet steps before a call are part of the call. */
  lemma JoinRuns(start: Node, before: seq<Step>, between: Node, call: seq<Step>, after: Node)
    requires DoAll(start, before) == between && Quiet(before)
    requires DoAll(between, call) == after && OneCall(call)
    ensures DoAll(start, before + call) == after && OneCall(before + call)
  {
    DoAllConcat(start, before, call);
    QuietThenOneCall(before, call);
  }
}
