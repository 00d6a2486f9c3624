/** Block rewards and their fair split over network groups (validator_service.go, network_fairness.go). */
module Rewards {
  import opened Prelude
  import opened Sequences
  import opened MapSums
  import opened Blocks

  const INITIAL_REWARD: int := 100
  const REDUCTION: int := 1
  const REDUCTION_INTERVAL: int := 1_000_000
  const MIN_REWARD: int := 1

  /** Go's int64 conversion of a uint64. */
  function ToInt64(x: Uint64): int {
    if x < U64 / 2 then x else x - U64
  }

  /** calculateBlockReward; big.Int.Div rounds like Dafny's division. */
  function BlockReward(height: Uint64): int {
    var reward := INITIAL_REWARD - (ToInt64(height) / REDUCTION_INTERVAL) * REDUCTION;
    if reward < MIN_REWARD then MIN_REWARD else reward
  }

  /** The reward lies in [1, 100] exactly for heights that fit a signed 64-bit integer. */
  lemma RewardBoundedIff(height: Uint64)
    ensures 1 <= BlockReward(height) <= 100 <==> height < U64 / 2
  {
  }

  /** And over those heights it never grows. */
  lemma RewardNonIncreasing(low: Uint64, high: Uint64)
    requires low <= high < U64 / 2
    ensures BlockReward(high) <= BlockReward(low)
  {
  }

  /** It is 100 for the first million heights, constant inside each million, and one less in each next million until
      it is 1. */
  lemma RewardByMillions(height: Uint64)
    requires height < 0x8000_0000_0000_0000
    ensures height < 1_000_000 ==> BlockReward(height) == 100
    ensures height % 1_000_000 != 0 ==> BlockReward(height) == BlockReward(height - 1)
    ensures height % 1_000_000 == 0 && height > 0 ==>
              BlockReward(height) == if BlockReward(height - 1) > 1 then BlockReward(height - 1) - 1 else 1
    ensures height >= 99_000_000 ==> BlockReward(height) == 1
  {
    if height > 0 {
      MillionsBelow(height);
    }
  }

  lemma MillionsBelow(height: nat)
    requires height > 0
    ensures (height - 1) / 1_000_000
            == if height % 1_000_000 == 0 then height / 1_000_000 - 1 else height / 1_000_000
  {
  }

  function ProposerShare(reward: int): int {
    reward * 80 / 100
  }

  function ContributorShare(reward: int): int {
    reward * 20 / 100
  }

  /** extractASNFromIP: address parsing is foreign. */
  type AddressGroups = string -> string

  function GroupOf(v: ValidatorInfo, byAddress: AddressGroups): string {
    var asn := if v.networkASN == "" then byAddress(v.ipAddress) else v.networkASN;
    if asn == "" then "unknown" else asn
  }

  /** Validator records are keyed by their own ID. */
  predicate KeyedByID(validators: map<string, ValidatorInfo>) {
    forall id :: id in validators ==> validators[id].id == id
  }

  ghost function Members(validators: map<string, ValidatorInfo>, byAddress: AddressGroups, group: string): set<string> {
    set id | id in validators && GroupOf(validators[id], byAddress) == group
  }

  ghost function GroupNames(validators: map<string, ValidatorInfo>, byAddress: AddressGroups): set<string> {
    set id | id in validators :: GroupOf(validators[id], byAddress)
  }

  /** The groups partition the validators into non-empty lists without repeats. */
  ghost predicate Partitions(groups: map<string, seq<string>>, validators: map<string, ValidatorInfo>,
                             byAddress: AddressGroups) {
    && groups.Keys == GroupNames(validators, byAddress)
    && forall g :: g in groups ==>
         groups[g] != [] && Enumerates(groups[g], Members(validators, byAddress, g))
  }

  /** Ranges over the validator map in any order. */
  method GroupValidatorsByNetwork(validators: map<string, ValidatorInfo>, byAddress: AddressGroups)
    returns (groups: map<string, seq<string>>)
    requires KeyedByID(validators)
    ensures Partitions(groups, validators, byAddress)
  {
    groups := map[];
    var todo := validators.Keys;
    ghost var done: map<string, ValidatorInfo> := map[];
    while todo != {}
      invariant todo <= validators.Keys
      invariant done == validators - todo
      invariant Partitions(groups, done, byAddress)
      decreases |todo|
    {
      var key :| key in todo;
      todo := todo - {key};
      var validator := validators[key];
      var asn := validator.networkASN;
      if asn == "" {
        asn := byAddress(validator.ipAddress);
      }
      if asn == "" {
        asn := "unknown";
      }
      ghost var before := groups;
      if asn !in groups {
        groups := groups[asn := []];
      }
      groups := groups[asn := groups[asn] + [validator.id]];
      assert groups == before[asn := (if asn in before then before[asn] else []) + [validator.id]];
      AddToPartition(before, done, validator, byAddress);
      done := done[validator.id := validator];
    }
    assert done == validators;
  }

  lemma AddedMember(done: map<string, ValidatorInfo>, v: ValidatorInfo, byAddress: AddressGroups)
    requires v.id !in done
    ensures var added, asn := done[v.id := v], GroupOf(v, byAddress);
            && GroupNames(added, byAddress) == GroupNames(done, byAddress) + {asn}
            && Members(added, byAddress, asn) == Members(done, byAddress, asn) + {v.id}
            && forall g :: g != asn ==> Members(added, byAddress, g) == Members(done, byAddress, g)
  {
    var added := done[v.id := v];
    forall id | id in done ensures GroupOf(done[id], byAddress) in GroupNames(added, byAddress) {
      assert added[id] == done[id];
    }
    assert added[v.id] == v;
  }

  lemma NoMembers(validators: map<string, ValidatorInfo>, byAddress: AddressGroups, group: string)
    requires group !in GroupNames(validators, byAddress)
    ensures Members(validators, byAddress, group) == {}
  {
    forall id | id in validators ensures GroupOf(validators[id], byAddress) != group {
      assert GroupOf(validators[id], byAddress) in GroupNames(validators, byAddress);
    }
  }

  lemma EnumeratesOneMore(list: seq<string>, ids: set<string>, id: string)
    requires Enumerates(list, ids) && id !in ids
    ensures Enumerates(list + [id], ids + {id})
  {
    assert id !in list by {
      assert id in list ==> id in Elements(list);
    }
  }

  lemma AddToPartition(groups: map<string, seq<string>>, done: map<string, ValidatorInfo>, v: ValidatorInfo,
                       byAddress: AddressGroups)
    requires Partitions(groups, done, byAddress) && v.id !in done
    ensures var asn := GroupOf(v, byAddress);
            var list := if asn in groups then groups[asn] else [];
            Partitions(groups[asn := list + [v.id]], done[v.id := v], byAddress)
  {
    var asn := GroupOf(v, byAddress);
    var list := if asn in groups then groups[asn] else [];
    AddedMember(done, v, byAddress);
    if asn !in groups {
      NoMembers(done, byAddress, asn);
      assert Elements<string>([]) == {};
    }
    EnumeratesOneMore(list, Members(done, byAddress, asn), v.id);
  }

  /** What one validator of a group of the given size is paid. */
  function PerValidator(pobReward: nat, groupCount: nat, size: nat): nat
    requires groupCount > 0 && size > 0
  {
    (pobReward / groupCount) / size
  }

  /** The pay of a validator in the given group, stated without reference to any order. */
  ghost function GroupPay(pobReward: nat, validators: map<string, ValidatorInfo>, byAddress: AddressGroups,
                          group: string): nat {
    var size, count := |Members(validators, byAddress, group)|, |GroupNames(validators, byAddress)|;
    if size > 0 && count > 0 then PerValidator(pobReward, count, size) else 0
  }

  /** Everyone's pay. */
  ghost function Pay(pobReward: nat, validators: map<string, ValidatorInfo>, byAddress: AddressGroups)
    : map<string, int>
  {
    map id | id in validators :: GroupPay(pobReward, validators, byAddress, GroupOf(validators[id], byAddress))
  }

  /** The pay of the members of some of the groups only. */
  ghost function PayWithin(pobReward: nat, validators: map<string, ValidatorInfo>, byAddress: AddressGroups,
                           names: set<string>): map<string, int> {
    map id | id in validators && GroupOf(validators[id], byAddress) in names ::
      GroupPay(pobReward, validators, byAddress, GroupOf(validators[id], byAddress))
  }

  lemma MemberOfGroup(validators: map<string, ValidatorInfo>, byAddress: AddressGroups, id: string)
    requires id in validators
    ensures id in Members(validators, byAddress, GroupOf(validators[id], byAddress))
    ensures GroupOf(validators[id], byAddress) in GroupNames(validators, byAddress)
    ensures |Members(validators, byAddress, GroupOf(validators[id], byAddress))| > 0
    ensures |GroupNames(validators, byAddress)| > 0
  {
  }

  lemma PayWithinAll(pobReward: nat, validators: map<string, ValidatorInfo>, byAddress: AddressGroups)
    ensures PayWithin(pobReward, validators, byAddress, GroupNames(validators, byAddress))
            == Pay(pobReward, validators, byAddress)
  {
    forall id | id in validators
      ensures GroupOf(validators[id], byAddress) in GroupNames(validators, byAddress)
    {
      MemberOfGroup(validators, byAddress, id);
    }
  }

  /** Adds the share to every listed ID in turn, as the inner loop does. */
  ghost function AddAll(rewards: map<string, int>, ids: seq<string>, share: int): map<string, int> {
    if ids == [] then rewards
    else
      var n := |ids| - 1;
      var earlier := AddAll(rewards, ids[..n], share);
      earlier[ids[n] := (if ids[n] in earlier then earlier[ids[n]] else 0) + share]
  }

  lemma {:induction false} AddAllEffect(rewards: map<string, int>, ids: seq<string>, share: int)
    requires NoDuplicates(ids) && forall id :: id in ids ==> id !in rewards
    ensures AddAll(rewards, ids, share).Keys == rewards.Keys + Elements(ids)
    ensures forall id :: id in AddAll(rewards, ids, share) ==>
              AddAll(rewards, ids, share)[id] == if id in rewards then rewards[id] else share
    decreases |ids|
  {
    if ids != [] {
      var n := |ids| - 1;
      AddAllEffect(rewards, ids[..n], share);
      assert ids == ids[..n] + [ids[n]];
      assert Elements(ids) == Elements(ids[..n]) + {ids[n]};
      assert ids[n] !in ids[..n];
    }
  }

  /** One more turn of the inner loop, with its initialization to zero. */
  lemma AddAllStep(rewards: map<string, int>, ids: seq<string>, i: nat, share: int)
    requires i < |ids|
    ensures var earlier := AddAll(rewards, ids[..i], share);
            var ready := if ids[i] in earlier then earlier else earlier[ids[i] := 0];
            AddAll(rewards, ids[..i + 1], share) == ready[ids[i] := ready[ids[i]] + share]
  {
    assert ids[..i + 1][..i] == ids[..i];
  }

  lemma SameMap(m: map<string, int>, n: map<string, int>)
    requires m.Keys == n.Keys && forall id :: id in m ==> m[id] == n[id]
    ensures m == n
  {
  }

  method PayGroup(earlier: map<string, int>, group: seq<string>, share: int) returns (rewards: map<string, int>)
    ensures rewards == AddAll(earlier, group, share)
  {
    rewards := earlier;
    for i := 0 to |group|
      invariant rewards == AddAll(earlier, group[..i], share)
    {
      AddAllStep(earlier, group, i, share);
      if group[i] !in rewards {
        rewards := rewards[group[i] := 0];
      }
      rewards := rewards[group[i] := rewards[group[i]] + share];
    }
    assert group[..|group|] == group;
  }

  /** Ranges over the groups in any order; topCount is not used by the code. */
  method DistributePoBRewardFairly(pobReward: nat, groups: map<string, seq<string>>,
                                   ghost validators: map<string, ValidatorInfo>, ghost byAddress: AddressGroups)
    returns (rewards: map<string, int>)
    requires Partitions(groups, validators, byAddress)
    ensures rewards == Pay(pobReward, validators, byAddress)
  {
    rewards := map[];
    if |groups| == 0 {
      NoGroupsNoValidators(groups, validators, byAddress);
      return;
    }
    var sharePerGroup := pobReward / |groups|;
    var todo := groups.Keys;
    while todo != {}
      invariant todo <= groups.Keys
      invariant rewards == PayWithin(pobReward, validators, byAddress, groups.Keys - todo)
      decreases |todo|
    {
      var name :| name in todo;
      ghost var names := groups.Keys - todo;
      todo := todo - {name};
      assert groups.Keys - todo == names + {name};
      var group := groups[name];
      GroupSize(groups, validators, byAddress, name);
      if |group| == 0 {
        assert false;
      } else {
        var sharePerValidator := sharePerGroup / |group|;
        rewards := PayGroup(rewards, group, sharePerValidator);
        GroupPaid(pobReward, groups, validators, byAddress, names, name);
      }
    }
    PayWithinAll(pobReward, validators, byAddress);
  }

  lemma NoGroupsNoValidators(groups: map<string, seq<string>>, validators: map<string, ValidatorInfo>,
                             byAddress: AddressGroups)
    requires Partitions(groups, validators, byAddress) && |groups| == 0
    ensures validators == map[]
  {
    assert |groups.Keys| == 0;
    if id :| id in validators {
      MemberOfGroup(validators, byAddress, id);
    }
  }

  lemma GroupSize(groups: map<string, seq<string>>, validators: map<string, ValidatorInfo>, byAddress: AddressGroups,
                  name: string)
    requires Partitions(groups, validators, byAddress) && name in groups
    ensures |Members(validators, byAddress, name)| == |groups[name]| > 0
    ensures |GroupNames(validators, byAddress)| == |groups| > 0
    ensures forall id :: id in groups[name] <==> id in validators && GroupOf(validators[id], byAddress) == name
  {
    NoDuplicatesSize(groups[name]);
    assert |groups.Keys| == |groups|;
    forall id ensures id in groups[name] <==> id in validators && GroupOf(validators[id], byAddress) == name {
      assert id in groups[name] <==> id in Elements(groups[name]);
    }
  }

  /** Paying the members of one more group extends the pay to that group. */
  lemma GroupPaid(pobReward: nat, groups: map<string, seq<string>>, validators: map<string, ValidatorInfo>,
                  byAddress: AddressGroups, names: set<string>, name: string)
    requires Partitions(groups, validators, byAddress) && name in groups && name !in names
    requires |groups| > 0 && |groups[name]| > 0
    ensures AddAll(PayWithin(pobReward, validators, byAddress, names), groups[name],
                   (pobReward / |groups|) / |groups[name]|)
            == PayWithin(pobReward, validators, byAddress, names + {name})
  {
    var before, group := PayWithin(pobReward, validators, byAddress, names), groups[name];
    var share := (pobReward / |groups|) / |group|;
    GroupSize(groups, validators, byAddress, name);
    AddAllEffect(before, group, share);
    assert GroupPay(pobReward, validators, byAddress, name) == share;
    var after, goal := AddAll(before, group, share), PayWithin(pobReward, validators, byAddress, names + {name});
    forall id ensures id in after <==> id in goal {
      assert id in Elements(group) <==> id in group;
    }
    SameMap(after, goal);
  }

  lemma OneMoreGroup(pobReward: nat, validators: map<string, ValidatorInfo>, byAddress: AddressGroups,
                     names: set<string>, name: string)
    requires name !in names
    ensures var (one, others) := (PayWithin(pobReward, validators, byAddress, {name}),
                                  PayWithin(pobReward, validators, byAddress, names));
            && PayWithin(pobReward, validators, byAddress, names + {name}) == others + one
            && others.Keys !! one.Keys
            && one == map id | id in Members(validators, byAddress, name) ::
                        GroupPay(pobReward, validators, byAddress, name)
  {
  }

  // ---- Totals ----

  /** Rounding down inside one group loses less than the group's size. */
  lemma GroupDust(share: nat, size: nat)
    requires size > 0
    ensures share - (size - 1) <= size * (share / size) <= share
  {
  }

  /** One group's members together get within size - 1 of the group's share. */
  lemma GroupTotal(pobReward: nat, validators: map<string, ValidatorInfo>, byAddress: AddressGroups, name: string)
    requires name in GroupNames(validators, byAddress)
    ensures |GroupNames(validators, byAddress)| > 0
    ensures var share := pobReward / |GroupNames(validators, byAddress)|;
            var size := |Members(validators, byAddress, name)|;
            var pay := PayWithin(pobReward, validators, byAddress, {name});
            && size > 0 && |pay| == size
            && share - (size - 1) <= SumMap(pay) <= share
  {
    var pay := PayWithin(pobReward, validators, byAddress, {name});
    var id :| id in validators && GroupOf(validators[id], byAddress) == name;
    MemberOfGroup(validators, byAddress, id);
    assert pay.Keys == Members(validators, byAddress, name);
    assert |pay| == |pay.Keys|;
    SumConstant(pay, GroupPay(pobReward, validators, byAddress, name));
    GroupDust(pobReward / |GroupNames(validators, byAddress)|, |pay|);
  }

  lemma TotalsAdd(pobReward: nat, validators: map<string, ValidatorInfo>, byAddress: AddressGroups,
                  rest: set<string>, name: string)
    requires name !in rest
    ensures var one, others, pay := PayWithin(pobReward, validators, byAddress, {name}),
                                    PayWithin(pobReward, validators, byAddress, rest),
                                    PayWithin(pobReward, validators, byAddress, rest + {name});
            SumMap(pay) == SumMap(others) + SumMap(one) && |pay| == |others| + |one|
  {
    OneMoreGroup(pobReward, validators, byAddress, rest, name);
    var one, others := PayWithin(pobReward, validators, byAddress, {name}),
                       PayWithin(pobReward, validators, byAddress, rest);
    SumDisjoint(others, one);
    SizeDisjoint(others, one);
  }

  /** The bounds of one more group added to the bounds of n groups. */
  lemma AddBounds(n: nat, share: int, size: int, total: int, size1: int, total1: int)
    requires n * share - (size - n) <= total <= n * share
    requires share - (size1 - 1) <= total1 <= share
    ensures (n + 1) * share - ((size + size1) - (n + 1)) <= total + total1 <= (n + 1) * share
  {
    assert (n + 1) * share == n * share + share;
  }

  lemma {:induction false} GroupsTotal(pobReward: nat, validators: map<string, ValidatorInfo>, byAddress: AddressGroups,
                                       names: set<string>, share: nat)
    requires names <= GroupNames(validators, byAddress)
    requires |GroupNames(validators, byAddress)| > 0 && share == pobReward / |GroupNames(validators, byAddress)|
    ensures var pay := PayWithin(pobReward, validators, byAddress, names);
            |names| * share - (|pay| - |names|) <= SumMap(pay) <= |names| * share
    decreases |names|
  {
    var pay := PayWithin(pobReward, validators, byAddress, names);
    if names == {} {
      assert pay == map[];
    } else {
      var name :| name in names;
      var rest := names - {name};
      GroupsTotal(pobReward, validators, byAddress, rest, share);
      GroupTotal(pobReward, validators, byAddress, name);
      assert rest + {name} == names && |names| == |rest| + 1;
      TotalsAdd(pobReward, validators, byAddress, rest, name);
      var one, others := PayWithin(pobReward, validators, byAddress, {name}),
                         PayWithin(pobReward, validators, byAddress, rest);
      AddBounds(|rest|, share, |others|, SumMap(others), |one|, SumMap(one));
    }
  }

  /** The split pays at most the pool and loses at most one coin less than there are validators. */
  lemma SplitTotal(pobReward: nat, validators: map<string, ValidatorInfo>, byAddress: AddressGroups)
    requires validators != map[]
    ensures pobReward - (|validators| - 1) <= SumMap(Pay(pobReward, validators, byAddress)) <= pobReward
  {
    var names := GroupNames(validators, byAddress);
    var id :| id in validators;
    MemberOfGroup(validators, byAddress, id);
    GroupsTotal(pobReward, validators, byAddress, names, pobReward / |names|);
    PayWithinAll(pobReward, validators, byAddress);
    var pay := Pay(pobReward, validators, byAddress);
    assert pay.Keys == validators.Keys && |pay| == |pay.Keys| && |validators| == |validators.Keys|;
    GroupDust(pobReward, |names|);
  }

  /** Validators of one group are paid alike. */
  lemma EqualPay(pobReward: nat, validators: map<string, ValidatorInfo>, byAddress: AddressGroups, a: string, b: string)
    requires a in validators && b in validators
    requires GroupOf(validators[a], byAddress) == GroupOf(validators[b], byAddress)
    ensures Pay(pobReward, validators, byAddress)[a] == Pay(pobReward, validators, byAddress)[b]
  {
  }

  /** The network number groups validators; without one the address does, and without either they are one group. */
  lemma SameNetworkIsPaidAlike(pobReward: nat, validators: map<string, ValidatorInfo>, byAddress: AddressGroups,
                               a: string, b: string)
    requires a in validators && b in validators
    requires var v, w := validators[a], validators[b];
             || (v.networkASN == w.networkASN != "")
             || (v.networkASN == w.networkASN == "" && byAddress(v.ipAddress) == byAddress(w.ipAddress))
             || (v.networkASN == "" && byAddress(v.ipAddress) == "" && w.networkASN == "unknown")
    ensures Pay(pobReward, validators, byAddress)[a] == Pay(pobReward, validators, byAddress)[b]
  {
    EqualPay(pobReward, validators, byAddress, a, b);
  }
}
