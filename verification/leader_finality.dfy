/**
 * The compute-leader-finality service: once per poll cycle it folds the
 * bank's vote accounts into `(latest tick height, stake)` pairs and a total
 * stake, asks the bank for the timestamp a supermajority has reached, and
 * publishes the finality (how long ago that was).
 *
 * The bank is seen through a `BankView`: its accounts in iteration order,
 * its stake lookup, and its supermajority-timestamp lookup, which is not
 * part of this model and is therefore a parameter.
 */
module LeaderFinality {
  import opened Wrappers
  import opened VoteAccounts

  const U64_MODULUS: nat := 0x1_0000_0000_0000_0000

  /** A `u64` value: milliseconds since the epoch, or a duration. */
  type U64 = x: nat | x < U64_MODULUS

  /** The bank's finality before anything is published: `usize::MAX` on a 64-bit target. */
  const DEFAULT_FINALITY: U64 := U64_MODULUS - 1

  datatype FinalityError = NoValidSupermajority

  /** A voter's most recent tick height and its node's stake. */
  datatype Pair = Pair(tickHeight: nat, stake: nat)

  /** The result of the fold over the vote accounts. */
  datatype Snapshot = Snapshot(ticksAndStakes: seq<Pair>, totalStake: nat)

  datatype BankView = BankView(
    accounts: seq<Account>,
    getStake: Pubkey -> nat,
    getFinalityTimestamp: (seq<Pair>, nat) -> Option<U64>)

  // ---------------------------------------------------------------------
  // The snapshot fold
  // ---------------------------------------------------------------------

  /** An account whose node's stake is counted: a decodable vote account of a node other than the leader. */
  predicate Counted(a: Account, leader: Pubkey)
  {
    IsVoteProgram(a.owner) && a.userdata.state.Some? && a.userdata.state.value.nodeId != leader
  }

  /** Sum of the stakes of `pairs`. */
  function SumStakes(pairs: seq<Pair>): nat
  {
    if |pairs| == 0 then 0 else SumStakes(pairs[..|pairs| - 1]) + pairs[|pairs| - 1].stake
  }

  /** What one account adds to the snapshot. */
  function Contribution(a: Account, leader: Pubkey, getStake: Pubkey -> nat): Snapshot
  {
    if !Counted(a, leader) then Snapshot([], 0)
    else
      var state := a.userdata.state.value;
      var stake := getStake(state.nodeId);
      if |state.votes| == 0 then Snapshot([], stake)
      else Snapshot([Pair(state.votes[|state.votes| - 1].tickHeight, stake)], stake)
  }

  function Merge(x: Snapshot, y: Snapshot): Snapshot
  {
    Snapshot(x.ticksAndStakes + y.ticksAndStakes, x.totalStake + y.totalStake)
  }

  /**
   * The `filter_map` over the bank's accounts, in iteration order. Each
   * pair's stake is also counted in the total, so the pairs never carry
   * more stake than the total.
   */
  function Collect(accounts: seq<Account>, leader: Pubkey, getStake: Pubkey -> nat): (s: Snapshot)
    ensures SumStakes(s.ticksAndStakes) <= s.totalStake
    ensures |s.ticksAndStakes| <= |accounts|
    decreases |accounts|
  {
    if |accounts| == 0 then Snapshot([], 0)
    else
      var init := Collect(accounts[..|accounts| - 1], leader, getStake);
      var c := Contribution(accounts[|accounts| - 1], leader, getStake);
      var s := Merge(init, c);
      assert SumStakes(c.ticksAndStakes) <= c.totalStake by {
        if |c.ticksAndStakes| == 1 {
          assert c.ticksAndStakes[..0] == [];
        }
      }
      assert SumStakes(s.ticksAndStakes) == SumStakes(init.ticksAndStakes) + SumStakes(c.ticksAndStakes) by {
        if |c.ticksAndStakes| == 0 {
          assert s.ticksAndStakes == init.ticksAndStakes;
        } else {
          assert c.ticksAndStakes[..0] == [];
          assert s.ticksAndStakes[..|s.ticksAndStakes| - 1] == init.ticksAndStakes;
        }
      }
      s
  }

  /** The fold is a homomorphism from concatenation to `Merge`. */
  lemma {:induction false} CollectAppend(xs: seq<Account>, ys: seq<Account>, leader: Pubkey, getStake: Pubkey -> nat)
    ensures Collect(xs + ys, leader, getStake) == Merge(Collect(xs, leader, getStake), Collect(ys, leader, getStake))
    decreases |ys|
  {
    if |ys| == 0 {
      assert xs + ys == xs;
    } else {
      var ys' := ys[..|ys| - 1];
      assert (xs + ys)[..|xs + ys| - 1] == xs + ys';
      CollectAppend(xs, ys', leader, getStake);
    }
  }

  /** The snapshot of a single account is its contribution. */
  lemma CollectOne(a: Account, leader: Pubkey, getStake: Pubkey -> nat)
    ensures Collect([a], leader, getStake) == Contribution(a, leader, getStake)
  {
    assert [a][..0] == [];
  }

  /**
   * Accounts not owned by the vote program, accounts whose data does not
   * decode, and the leader's own vote accounts are ignored entirely: they
   * add neither stake nor a pair.
   */
  lemma IgnoredAccount(xs: seq<Account>, a: Account, ys: seq<Account>, leader: Pubkey, getStake: Pubkey -> nat)
    requires !IsVoteProgram(a.owner) || a.userdata.state.None? || a.userdata.state.value.nodeId == leader
    ensures Collect(xs + [a] + ys, leader, getStake) == Collect(xs + ys, leader, getStake)
  {
    SkipUncounted(xs, a, leader, getStake);
    CollectAppend(xs + [a], ys, leader, getStake);
    CollectAppend(xs, ys, leader, getStake);
  }

  /** An uncounted account appended to the table changes nothing. */
  lemma SkipUncounted(xs: seq<Account>, a: Account, leader: Pubkey, getStake: Pubkey -> nat)
    requires !Counted(a, leader)
    ensures Collect(xs + [a], leader, getStake) == Collect(xs, leader, getStake)
  {
    assert (xs + [a])[..|xs|] == xs;
    assert Collect(xs, leader, getStake).ticksAndStakes + [] == Collect(xs, leader, getStake).ticksAndStakes;
  }

  /**
   * Every other vote account adds its node's stake to the total, with or
   * without votes; only one with at least one vote adds a pair, made of its
   * most recent vote's tick height and its node's stake. Stake is counted
   * per account, so a node with several vote accounts counts several times.
   */
  lemma CountedAccount(xs: seq<Account>, a: Account, ys: seq<Account>, leader: Pubkey, getStake: Pubkey -> nat)
    requires IsVoteProgram(a.owner) && a.userdata.state.Some? && a.userdata.state.value.nodeId != leader
    ensures var state := a.userdata.state.value;
      var stake := getStake(state.nodeId);
      var s := Collect(xs + [a] + ys, leader, getStake);
      && s.totalStake == Collect(xs + ys, leader, getStake).totalStake + stake
      && s.ticksAndStakes ==
           Collect(xs, leader, getStake).ticksAndStakes
           + (if |state.votes| == 0 then [] else [Pair(state.votes[|state.votes| - 1].tickHeight, stake)])
           + Collect(ys, leader, getStake).ticksAndStakes
  {
    CollectAppend(xs + [a], ys, leader, getStake);
    CollectAppend(xs, [a], leader, getStake);
    CollectAppend(xs, ys, leader, getStake);
    CollectOne(a, leader, getStake);
  }

  /** Extending the prefix by one account merges in that account's contribution. */
  lemma CollectPrefix(accounts: seq<Account>, i: nat, leader: Pubkey, getStake: Pubkey -> nat)
    requires i < |accounts|
    ensures Collect(accounts[..i + 1], leader, getStake)
         == Merge(Collect(accounts[..i], leader, getStake), Contribution(accounts[i], leader, getStake))
  {
    assert accounts[..i + 1][..i] == accounts[..i];
  }

  /** One pass of the loop body: a counted account adds its stake, and its latest vote if it has one. */
  method VisitAccount(ticksAndStakes: seq<Pair>, totalStake: nat, a: Account, leader: Pubkey, getStake: Pubkey -> nat)
    returns (ticksAndStakes': seq<Pair>, totalStake': nat)
    ensures Snapshot(ticksAndStakes', totalStake') == Merge(Snapshot(ticksAndStakes, totalStake), Contribution(a, leader, getStake))
  {
    ticksAndStakes', totalStake' := ticksAndStakes, totalStake;
    if IsVoteProgram(a.owner) && a.userdata.state.Some? {
      var state := a.userdata.state.value;
      if state.nodeId != leader {
        var stake := getStake(state.nodeId);
        totalStake' := totalStake' + stake;
        if |state.votes| > 0 {
          ticksAndStakes' := ticksAndStakes' + [Pair(state.votes[|state.votes| - 1].tickHeight, stake)];
        } else {
          assert ticksAndStakes' + [] == ticksAndStakes';
        }
      }
    } else {
      assert ticksAndStakes' + [] == ticksAndStakes';
    }
  }

  /**
   * The same fold written as the source's loop: a mutable stake total and
   * a vector of pairs, one account at a time.
   */
  method SnapshotVoteAccounts(accounts: seq<Account>, leader: Pubkey, getStake: Pubkey -> nat)
    returns (ticksAndStakes: seq<Pair>, totalStake: nat)
    ensures Snapshot(ticksAndStakes, totalStake) == Collect(accounts, leader, getStake)
  {
    ticksAndStakes := [];
    totalStake := 0;
    var i := 0;
    while i < |accounts|
      invariant i <= |accounts|
      invariant Snapshot(ticksAndStakes, totalStake) == Collect(accounts[..i], leader, getStake)
    {
      CollectPrefix(accounts, i, leader, getStake);
      ticksAndStakes, totalStake := VisitAccount(ticksAndStakes, totalStake, accounts[i], leader, getStake);
      i := i + 1;
    }
    assert accounts[..i] == accounts;
  }

  // ---------------------------------------------------------------------
  // Threshold, lookup and publication
  // ---------------------------------------------------------------------

  /** `(2 * total_stake) / 3`, without the `u64` overflow of the product. */
  function SupermajorityStake(totalStake: nat): (t: nat)
    ensures t <= totalStake
    ensures 3 * t <= 2 * totalStake < 3 * t + 3
  {
    (2 * totalStake) / 3
  }

  /**
   * `get_last_supermajority_timestamp`: the timestamp the bank reports for
   * the snapshot and its threshold, or `NoValidSupermajority`.
   */
  function GetLastSupermajorityTimestamp(bank: BankView, leader: Pubkey): (r: Result<U64, FinalityError>)
    ensures var s := Collect(bank.accounts, leader, bank.getStake);
      var found := bank.getFinalityTimestamp(s.ticksAndStakes, SupermajorityStake(s.totalStake));
      && (r.Success? <==> found.Some?)
      && (r.Success? ==> found == Some(r.value))
  {
    var s := Collect(bank.accounts, leader, bank.getStake);
    match bank.getFinalityTimestamp(s.ticksAndStakes, SupermajorityStake(s.totalStake))
    case Some(ts) => Success(ts)
    case None => Failure(NoValidSupermajority)
  }

  /**
   * The leader's own vote accounts, foreign accounts and undecodable
   * accounts change nothing about the outcome, wherever they sit in the
   * bank's account table.
   */
  lemma IgnoredAccountsDoNotMatter(bank: BankView, xs: seq<Account>, a: Account, ys: seq<Account>, leader: Pubkey)
    requires bank.accounts == xs + [a] + ys
    requires !IsVoteProgram(a.owner) || a.userdata.state.None? || a.userdata.state.value.nodeId == leader
    ensures GetLastSupermajorityTimestamp(bank, leader) == GetLastSupermajorityTimestamp(bank.(accounts := xs + ys), leader)
  {
    IgnoredAccount(xs, a, ys, leader, bank.getStake);
  }

  /** `a - b` on `u64` with wrap-around. */
  function WrappingSub(a: U64, b: U64): (r: U64)
    ensures b <= a ==> r == a - b
    ensures a < b ==> r + b == a + U64_MODULUS
  {
    (a - b) % U64_MODULUS
  }

  /** The finality-related state: the service's last timestamp and the bank's finality. */
  datatype FinalityState = FinalityState(lastValidTimestamp: U64, finality: U64)

  /**
   * `compute_finality`: on a supermajority timestamp `ts`, remembers `ts`
   * and sets the bank's finality to `now - ts`; otherwise changes nothing.
   */
  function ComputeFinality(bank: BankView, leader: Pubkey, now: U64, st: FinalityState): (r: FinalityState)
    ensures GetLastSupermajorityTimestamp(bank, leader).Failure? ==> r == st
    ensures GetLastSupermajorityTimestamp(bank, leader).Success? ==>
      var ts := GetLastSupermajorityTimestamp(bank, leader).value;
      && r.lastValidTimestamp == ts
      && (ts <= now ==> r.finality + ts == now)
      && (now < ts ==> r.finality + ts == now + U64_MODULUS)
  {
    match GetLastSupermajorityTimestamp(bank, leader)
    case Success(ts) => FinalityState(ts, WrappingSub(now, ts))
    case Failure(_) => st
  }

  // ---------------------------------------------------------------------
  // The service loop
  // ---------------------------------------------------------------------

  /** What one poll cycle observes: the exit flag, the clock, and the bank. */
  datatype PollCycle = PollCycle(exit: bool, now: U64, bank: BankView)

  /** `compute_finality` applied over successive cycles. */
  function ComputeAll(leader: Pubkey, cycles: seq<PollCycle>, st: FinalityState): FinalityState
    decreases |cycles|
  {
    if |cycles| == 0 then st
    else ComputeAll(leader, cycles[1..], ComputeFinality(cycles[0].bank, leader, cycles[0].now, st))
  }

  /**
   * The service thread over the cycles it gets to see: the exit flag is
   * read before each computation, and once it reads true nothing more is
   * computed. `computed` is the number of cycles that ran a computation.
   */
  method RunService(leader: Pubkey, cycles: seq<PollCycle>, bankFinality: U64)
    returns (st: FinalityState, computed: nat)
    ensures computed <= |cycles|
    ensures forall j | 0 <= j < computed :: !cycles[j].exit
    ensures computed < |cycles| ==> cycles[computed].exit
    ensures st == ComputeAll(leader, cycles[..computed], FinalityState(0, bankFinality))
  {
    st := FinalityState(0, bankFinality);
    computed := 0;
    while computed < |cycles|
      invariant computed <= |cycles|
      invariant forall j | 0 <= j < computed :: !cycles[j].exit
      invariant st == ComputeAll(leader, cycles[..computed], FinalityState(0, bankFinality))
      decreases |cycles| - computed
    {
      if cycles[computed].exit {
        break;
      }
      st := ComputeFinality(cycles[computed].bank, leader, cycles[computed].now, st);
      ComputeAllSnoc(leader, cycles[..computed], cycles[computed], FinalityState(0, bankFinality));
      assert cycles[..computed + 1] == cycles[..computed] + [cycles[computed]];
      computed := computed + 1;
    }
  }

  /** Running one more cycle after a run is the same as running them all. */
  lemma {:induction false} ComputeAllSnoc(leader: Pubkey, cycles: seq<PollCycle>, c: PollCycle, st: FinalityState)
    ensures ComputeAll(leader, cycles + [c], st) == ComputeFinality(c.bank, leader, c.now, ComputeAll(leader, cycles, st))
    decreases |cycles|
  {
    if |cycles| == 0 {
      assert cycles + [c] == [c];
    } else {
      assert (cycles + [c])[1..] == cycles[1..] + [c];
      ComputeAllSnoc(leader, cycles[1..], c, ComputeFinality(cycles[0].bank, leader, cycles[0].now, st));
    }
  }
}
