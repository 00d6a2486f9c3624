/** What finalizing a block does to the chain and to the supply (validator_service.go). */
module Finalization {
  import opened Prelude
  import opened Sequences
  import opened MapSums
  import opened Blocks
  import opened Chain
  import opened Ledger
  import opened Rewards

  /** Active validators with a record that are not suspended: those who share the contributor pool. */
  function Eligible(active: seq<string>, validators: map<string, ValidatorInfo>): map<string, ValidatorInfo> {
    map id | id in validators && id in active && !validators[id].suspended :: validators[id]
  }

  /** Every positive reward added to its account. */
  ghost function Paid(l: Accounts, rewards: map<string, int>): Accounts {
    map a | a in l.Keys + (set id | id in rewards && rewards[id] > 0) ::
      if a in rewards && rewards[a] > 0 then Get(l, a).(balance := Get(l, a).balance + rewards[a]) else Get(l, a)
  }

  lemma PaidNothing(l: Accounts)
    ensures Paid(l, map[]) == l
  {
  }

  /** Paying one more validator. */
  lemma PaidOneMore(l: Accounts, rewards: map<string, int>, a: string, reward: int)
    requires a !in rewards
    ensures Paid(l, rewards[a := reward])
            == if reward > 0 then Credited(Paid(l, rewards), a, reward) else Paid(l, rewards)
  {
    var more := Paid(l, rewards[a := reward]);
    var expected := if reward > 0 then Credited(Paid(l, rewards), a, reward) else Paid(l, rewards);
    assert Get(Paid(l, rewards), a) == Get(l, a);
    SameLedger(more, expected);
  }

  lemma {:induction false} PaidMints(l: Accounts, rewards: map<string, int>)
    requires forall id :: id in rewards ==> rewards[id] >= 0
    ensures Supply(Paid(l, rewards)) == Supply(l) + SumMap(rewards)
    decreases |rewards|
  {
    if rewards == map[] {
      PaidNothing(l);
    } else {
      var a :| a in rewards;
      var rest := rewards - {a};
      SizeWithout(rewards, a);
      PaidMints(l, rest);
      assert rewards == rest[a := rewards[a]];
      PaidOneMore(l, rest, a, rewards[a]);
      SumRemove(rewards, a);
      if rewards[a] > 0 {
        CreditMints(Paid(l, rest), a, rewards[a]);
      }
    }
  }

  /** The ledger after a block: its transactions, the proposer's share, then the contributors' pay. */
  ghost function Finalized(l: Accounts, b: Block, eligible: map<string, ValidatorInfo>, byAddress: AddressGroups)
    : Accounts
  {
    var reward := BlockReward(b.header.height);
    Paid(Credited(ApplyAll(l, b.transactions), b.proposerID, ProposerShare(reward)),
         Pay(ContributorShare(reward), eligible, byAddress))
  }

  class ValidatorService {
    const blockchain: Blockchain
    const state: ChainState

    constructor (blockchain: Blockchain, state: ChainState)
      ensures this.blockchain == blockchain && this.state == state
    {
      this.blockchain, this.state := blockchain, state;
    }

    /** Pays the proposer and the contributors; the reward map is ranged over in any order. */
    method DistributeBlockRewards(b: Block, active: seq<string>, validators: map<string, ValidatorInfo>,
                                  byAddress: AddressGroups)
      requires state.Valid() && KeyedByID(validators)
      modifies state, state.repr
      ensures state.Valid()
      ensures var reward := BlockReward(b.header.height);
              state.ledger == Paid(Credited(old(state.ledger), b.proposerID, ProposerShare(reward)),
                                   Pay(ContributorShare(reward), Eligible(active, validators), byAddress))
      ensures fresh(state.repr - old(state.repr))
    {
      var blockReward := BlockReward(b.header.height);
      var proposerReward := blockReward * 80 / 100;
      var pobReward := blockReward * 20 / 100;
      state.Credit(b.proposerID, proposerReward);
      var infos := EligibleInfos(active, validators);
      var groups := GroupValidatorsByNetwork(infos, byAddress);
      var rewards := DistributePoBRewardFairly(pobReward, groups, infos, byAddress);
      PayContributors(rewards, validators);
    }

    /** Credits every positive reward of a validator that is not suspended, in any order. */
    method PayContributors(rewards: map<string, int>, validators: map<string, ValidatorInfo>)
      requires state.Valid()
      requires forall id :: id in rewards ==> id in validators && !validators[id].suspended
      modifies state, state.repr
      ensures state.Valid() && state.ledger == Paid(old(state.ledger), rewards)
      ensures fresh(state.repr - old(state.repr))
    {
      var todo := rewards.Keys;
      ghost var done: map<string, int> := map[];
      PaidNothing(state.ledger);
      while todo != {}
        invariant todo <= rewards.Keys
        invariant done == rewards - todo
        invariant state.Valid() && state.ledger == Paid(old(state.ledger), done)
        invariant fresh(state.repr - old(state.repr))
        decreases todo
      {
        var id :| id in todo;
        todo := todo - {id};
        var reward := rewards[id];
        PaidOneMore(old(state.ledger), done, id, reward);
        done := done[id := reward];
        if reward > 0 {
          if !validators[id].suspended {
            state.Credit(id, reward);
          }
        }
      }
      assert done == rewards;
    }

    static method EligibleInfos(active: seq<string>, validators: map<string, ValidatorInfo>)
      returns (infos: map<string, ValidatorInfo>)
      ensures infos == Eligible(active, validators)
    {
      infos := map[];
      for i := 0 to |active|
        invariant infos == Eligible(active[..i], validators)
      {
        assert active[..i + 1] == active[..i] + [active[i]];
        if active[i] in validators && !validators[active[i]].suspended {
          infos := infos[active[i] := validators[active[i]]];
        }
      }
      assert active[..|active|] == active;
    }

    /** Stores the block, then applies it; when the store refuses, the ledger is left alone. */
    method FinalizeBlock(b: Block, writes: Writes, active: seq<string>, validators: map<string, ValidatorInfo>,
                         byAddress: AddressGroups) returns (error: Option<ChainError>)
      requires state.Valid() && KeyedByID(validators)
      modifies blockchain, state, state.repr
      ensures state.Valid()
      ensures (blockchain.View(), error) == Add(old(blockchain.View()), b, writes)
      ensures state.ledger == if error.Some? then old(state.ledger)
                              else Finalized(old(state.ledger), b, Eligible(active, validators), byAddress)
    {
      error := blockchain.AddBlock(b, writes);
      if error.Some? {
        return;
      }
      ghost var chain := blockchain.View();
      for i := 0 to |b.transactions|
        invariant state.Valid() && state.ledger == ApplyAll(old(state.ledger), b.transactions[..i])
        invariant fresh(state.repr - old(state.repr)) && blockchain.View() == chain
      {
        assert b.transactions[..i + 1][..i] == b.transactions[..i];
        state.ApplyTransaction(b.transactions[i]);
      }
      assert b.transactions[..|b.transactions|] == b.transactions;
      DistributeBlockRewards(b, active, validators, byAddress);
    }
  }

  lemma PayNonNegative(pobReward: nat, validators: map<string, ValidatorInfo>, byAddress: AddressGroups)
    ensures forall id :: id in Pay(pobReward, validators, byAddress) ==> Pay(pobReward, validators, byAddress)[id] >= 0
  {
  }

  /** Supply accounting: finalizing moves the supply by exactly what was minted minus every fee, no coin of which
      is credited to anyone; what is minted never exceeds the block reward. */
  lemma SupplyChange(l: Accounts, b: Block, eligible: map<string, ValidatorInfo>, byAddress: AddressGroups)
    requires AllRegular(l, b.transactions)
    ensures var reward := BlockReward(b.header.height);
            var minted := ProposerShare(reward) + SumMap(Pay(ContributorShare(reward), eligible, byAddress));
            && Supply(Finalized(l, b, eligible, byAddress)) == Supply(l) + minted - Sum(b.transactions, FeeOf())
            && minted <= reward
            && (eligible != map[] ==> minted >= reward - 1 - (|eligible| - 1))
  {
    var reward := BlockReward(b.header.height);
    var pay := Pay(ContributorShare(reward), eligible, byAddress);
    var applied := ApplyAll(l, b.transactions);
    ApplyAllBurnsFees(l, b.transactions);
    CreditMints(applied, b.proposerID, ProposerShare(reward));
    PayNonNegative(ContributorShare(reward), eligible, byAddress);
    PaidMints(Credited(applied, b.proposerID, ProposerShare(reward)), pay);
    if eligible == map[] {
      assert pay == map[];
    } else {
      SplitTotal(ContributorShare(reward), eligible, byAddress);
    }
  }

  // ---- Who is paid what ----

  /** What finalizing a block without transactions adds to a balance. */
  ghost function Gain(l: Accounts, b: Block, eligible: map<string, ValidatorInfo>, byAddress: AddressGroups, a: string)
    : int
  {
    Get(Finalized(l, b, eligible, byAddress), a).balance - Get(l, a).balance
  }

  lemma GainIs(l: Accounts, b: Block, eligible: map<string, ValidatorInfo>, byAddress: AddressGroups, a: string)
    requires b.transactions == []
    ensures var reward := BlockReward(b.header.height);
            var pay := Pay(ContributorShare(reward), eligible, byAddress);
            Gain(l, b, eligible, byAddress, a)
            == (if a == b.proposerID then ProposerShare(reward) else 0) + if a in eligible then pay[a] else 0
  {
    PayNonNegative(ContributorShare(BlockReward(b.header.height)), eligible, byAddress);
  }

  /** A proposer that is not among the contributors gains the whole number of coins in 80 percent of the reward, and
      whoever is neither proposer nor contributor gains nothing. */
  lemma ProposerGains(l: Accounts, b: Block, eligible: map<string, ValidatorInfo>, byAddress: AddressGroups, a: string)
    requires b.transactions == [] && b.proposerID !in eligible && a !in eligible
    ensures var g := Gain(l, b, eligible, byAddress, a);
            if a == b.proposerID then 100 * g <= 80 * BlockReward(b.header.height) < 100 * (g + 1) else g == 0
  {
    GainIs(l, b, eligible, byAddress, a);
  }

  /** The contributors together gain at most 20 percent of the reward, less than one coin each below it; a single one
      gains exactly the whole number of coins in it. */
  lemma ContributorsGain(l: Accounts, b: Block, eligible: map<string, ValidatorInfo>, byAddress: AddressGroups)
    requires b.transactions == [] && b.proposerID !in eligible && eligible != map[]
    ensures var gains := map id | id in eligible :: Gain(l, b, eligible, byAddress, id);
            var total := SumMap(gains);
            && (forall id :: id in gains ==> gains[id] >= 0)
            && 100 * total <= 20 * BlockReward(b.header.height) < 100 * (total + |eligible|)
  {
    var pool := ContributorShare(BlockReward(b.header.height));
    var gains := map id | id in eligible :: Gain(l, b, eligible, byAddress, id);
    forall id | id in eligible ensures gains[id] == Pay(pool, eligible, byAddress)[id] {
      GainIs(l, b, eligible, byAddress, id);
    }
    assert gains == Pay(pool, eligible, byAddress);
    PayNonNegative(pool, eligible, byAddress);
    SplitTotal(pool, eligible, byAddress);
  }

  lemma SingleContributorGains(l: Accounts, b: Block, id: string, info: ValidatorInfo, byAddress: AddressGroups)
    requires b.transactions == [] && b.proposerID != id
    ensures var g := Gain(l, b, map[id := info], byAddress, id);
            100 * g <= 20 * BlockReward(b.header.height) < 100 * (g + 1)
  {
    var eligible := map[id := info];
    var gains := map v | v in eligible :: Gain(l, b, eligible, byAddress, v);
    assert id in eligible;
    ContributorsGain(l, b, eligible, byAddress);
    SumRemove(gains, id);
    assert gains - {id} == map[];
    assert |eligible| == 1;
  }

  /** Whoever is not active, not recorded or suspended gains nothing, unless it proposed the block. */
  lemma OutsidersGainNothing(l: Accounts, b: Block, active: seq<string>, validators: map<string, ValidatorInfo>,
                             byAddress: AddressGroups, a: string)
    requires b.transactions == [] && a != b.proposerID
    requires a !in active || a !in validators || validators[a].suspended
    ensures Gain(l, b, Eligible(active, validators), byAddress, a) == 0
  {
    GainIs(l, b, Eligible(active, validators), byAddress, a);
  }

  /** With all network numbers known, every contributor gains its network's equal part of the pool, divided by the
      contributors of that network. */
  lemma NetworksShareEqually(l: Accounts, b: Block, eligible: map<string, ValidatorInfo>, byAddress: AddressGroups,
                             id: string)
    requires b.transactions == [] && id in eligible && id != b.proposerID
    requires forall v :: v in eligible ==> eligible[v].networkASN != ""
    ensures var networks := set v | v in eligible :: eligible[v].networkASN;
            var neighbours := set v | v in eligible && eligible[v].networkASN == eligible[id].networkASN;
            && |networks| > 0 && |neighbours| > 0
            && Gain(l, b, eligible, byAddress, id)
               == BlockReward(b.header.height) * 20 / 100 / |networks| / |neighbours|
  {
    GainIs(l, b, eligible, byAddress, id);
    MemberOfGroup(eligible, byAddress, id);
    assert GroupNames(eligible, byAddress) == set v | v in eligible :: eligible[v].networkASN;
    assert Members(eligible, byAddress, GroupOf(eligible[id], byAddress))
        == set v | v in eligible && eligible[v].networkASN == eligible[id].networkASN;
  }
}
