/**
 * A reference for the bank's supermajority-timestamp lookup, which is not
 * part of this model, and the finality scenario the service's own test
 * walks through.
 *
 * The reference confirms the highest tick height T such that the voters
 * whose latest vote is at or above T hold strictly more stake than the
 * threshold, and reports the timestamp the bank recorded for T. The
 * comparison is strict, as the scenario requires: 6 of 10 unit stakes
 * equal the threshold `(2 * 10) / 3` and do not confirm, 7 do.
 */
module FinalityReference {
  import opened Wrappers
  import opened VoteAccounts
  import opened LeaderFinality

  /** Stake of the voters whose latest tick height is at least `t`. */
  function StakeAtOrAbove(pairs: seq<Pair>, t: nat): nat
  {
    if |pairs| == 0 then 0
    else StakeAtOrAbove(pairs[..|pairs| - 1], t) + (if pairs[|pairs| - 1].tickHeight >= t then pairs[|pairs| - 1].stake else 0)
  }

  /** A higher tick height is backed by no more stake than a lower one. */
  lemma {:induction false} StakeAtOrAboveAntitone(pairs: seq<Pair>, t1: nat, t2: nat)
    requires t1 <= t2
    ensures StakeAtOrAbove(pairs, t2) <= StakeAtOrAbove(pairs, t1)
    decreases |pairs|
  {
    if |pairs| > 0 {
      StakeAtOrAboveAntitone(pairs[..|pairs| - 1], t1, t2);
    }
  }

  /** No tick height is backed by more stake than all voters together. */
  lemma {:induction false} StakeAtOrAboveBounded(pairs: seq<Pair>, t: nat)
    ensures StakeAtOrAbove(pairs, t) <= SumStakes(pairs)
    decreases |pairs|
  {
    if |pairs| > 0 {
      StakeAtOrAboveBounded(pairs[..|pairs| - 1], t);
    }
  }

  /**
   * The highest tick height among `candidates` whose at-or-above stake in
   * `pairs` exceeds `threshold`, if there is one.
   */
  function HighestConfirmed(candidates: seq<Pair>, pairs: seq<Pair>, threshold: nat): (r: Option<nat>)
    ensures r.Some? ==> StakeAtOrAbove(pairs, r.value) > threshold
    ensures r.Some? ==> exists i :: 0 <= i < |candidates| && candidates[i].tickHeight == r.value
    ensures forall i | 0 <= i < |candidates| && StakeAtOrAbove(pairs, candidates[i].tickHeight) > threshold ::
      r.Some? && candidates[i].tickHeight <= r.value
    decreases |candidates|
  {
    if |candidates| == 0 then None
    else
      var rest := HighestConfirmed(candidates[1..], pairs, threshold);
      var h := candidates[0].tickHeight;
      if StakeAtOrAbove(pairs, h) > threshold && (rest.None? || rest.value < h) then
        Some(h)
      else
        assert rest.Some? ==> candidates[1..][0] == candidates[1];
        rest
  }

  /** The reference lookup, given the bank's tick-height-to-timestamp record. */
  function ReferenceTimestamp(tickTimestamp: nat -> Option<U64>, pairs: seq<Pair>, threshold: nat): Option<U64>
  {
    match HighestConfirmed(pairs, pairs, threshold)
    case Some(h) => tickTimestamp(h)
    case None => None
  }

  /** The bank view whose lookup is the reference. */
  function ReferenceBank(accounts: seq<Account>, getStake: Pubkey -> nat, tickTimestamp: nat -> Option<U64>): BankView
  {
    BankView(accounts, getStake, (pairs, threshold) => ReferenceTimestamp(tickTimestamp, pairs, threshold))
  }

  /**
   * With the reference lookup, a supermajority timestamp is always the
   * recorded timestamp of a tick height that voters holding strictly more
   * than two thirds of the total stake have reached; and with no stake at
   * all there is never one.
   */
  lemma ReferenceNeedsMoreThanTwoThirds(accounts: seq<Account>, getStake: Pubkey -> nat,
                                        tickTimestamp: nat -> Option<U64>, leader: Pubkey)
    ensures var bank := ReferenceBank(accounts, getStake, tickTimestamp);
      var s := Collect(accounts, leader, getStake);
      GetLastSupermajorityTimestamp(bank, leader).Success? ==>
        exists h: nat :: tickTimestamp(h) == Some(GetLastSupermajorityTimestamp(bank, leader).value)
                   && 3 * StakeAtOrAbove(s.ticksAndStakes, h) > 2 * s.totalStake
    ensures Collect(accounts, leader, getStake).totalStake == 0 ==>
      GetLastSupermajorityTimestamp(ReferenceBank(accounts, getStake, tickTimestamp), leader) == Failure(NoValidSupermajority)
  {
    var bank := ReferenceBank(accounts, getStake, tickTimestamp);
    var s := Collect(accounts, leader, getStake);
    var threshold := SupermajorityStake(s.totalStake);
    var best := HighestConfirmed(s.ticksAndStakes, s.ticksAndStakes, threshold);
    if best.Some? {
      StakeAtOrAboveBounded(s.ticksAndStakes, best.value);
    }
  }

  // ---------------------------------------------------------------------
  // The service's test scenario
  // ---------------------------------------------------------------------

  const TEST_LEADER: Pubkey := 100

  /** Validator `i`'s vote account (node `i + 1`) holding `votes`. */
  function TestVoteAccount(i: nat, votes: seq<Vote>): Account
  {
    Account(1, VOTE_PROGRAM_ID, Userdata(128, Some(VoteState(votes, i + 1))))
  }

  /*
   * The test bank also holds the mint's account and accounts owned by
   * other programs. Neither is a vote account, so neither is counted, and
   * by `LeaderFinality.IgnoredAccountsDoNotMatter` the tables below, which
   * leave them out, yield the same snapshot.
   */

  /** Ten validators of stake 1; the first six voted for tick heights 1 to 6. */
  function SixVoters(): seq<Account>
  {
    [ TestVoteAccount(0, [Vote(1)]), TestVoteAccount(1, [Vote(2)]), TestVoteAccount(2, [Vote(3)]),
      TestVoteAccount(3, [Vote(4)]), TestVoteAccount(4, [Vote(5)]), TestVoteAccount(5, [Vote(6)]),
      TestVoteAccount(6, []), TestVoteAccount(7, []), TestVoteAccount(8, []), TestVoteAccount(9, []) ]
  }

  /** The same, after validator 7 votes for tick height 7. */
  function SevenVoters(): seq<Account>
  {
    [ TestVoteAccount(0, [Vote(1)]), TestVoteAccount(1, [Vote(2)]), TestVoteAccount(2, [Vote(3)]),
      TestVoteAccount(3, [Vote(4)]), TestVoteAccount(4, [Vote(5)]), TestVoteAccount(5, [Vote(6)]),
      TestVoteAccount(6, []), TestVoteAccount(7, [Vote(7)]), TestVoteAccount(8, []), TestVoteAccount(9, []) ]
  }

  /** The second table differs from the first only in validator 7's account. */
  lemma SeventhVoteOnly()
    ensures SevenVoters() == SixVoters()[7 := TestVoteAccount(7, [Vote(7)])]
  {
  }

  /**
   * The latest-vote pairs of test accounts, each of stake 1: the snapshot
   * the test expects, written without the stake lookup and the account
   * filters so that `CollectUnitStakes` compares the fold with an
   * independent value rather than with `Contribution` itself.
   */
  function UnitPairs(accounts: seq<Account>): seq<Pair>
  {
    if |accounts| == 0 then []
    else
      UnitPairs(accounts[..|accounts| - 1]) + UnitPair(accounts[|accounts| - 1])
  }

  /** The latest-vote pair of one test account, if it has voted. */
  function UnitPair(a: Account): seq<Pair>
  {
    var votes := match a.userdata.state case Some(state) => state.votes case None => [];
    if |votes| == 0 then [] else [Pair(votes[|votes| - 1].tickHeight, 1)]
  }

  /** The test bank's stake lookup: every node holds stake 1. */
  function UnitStake(k: Pubkey): nat
  {
    1
  }

  /** The snapshot of counted accounts whose nodes each hold stake 1. */
  lemma {:induction false} CollectUnitStakes(accounts: seq<Account>)
    requires forall i | 0 <= i < |accounts| :: Counted(accounts[i], TEST_LEADER)
    ensures Collect(accounts, TEST_LEADER, UnitStake) == Snapshot(UnitPairs(accounts), |accounts|)
    decreases |accounts|
  {
    if |accounts| > 0 {
      var init := accounts[..|accounts| - 1];
      var last := accounts[|accounts| - 1];
      var head := UnitPair(last);
      assert Collect(init, TEST_LEADER, UnitStake) == Snapshot(UnitPairs(init), |init|) by {
        CollectUnitStakes(init);
      }
      assert Contribution(last, TEST_LEADER, UnitStake) == Snapshot(head, 1);
      assert UnitPairs(accounts) == UnitPairs(init) + head;
    }
  }

  /** Unit stakes add up to their count. */
  lemma {:induction false} SumUnitStakes(pairs: seq<Pair>, t: nat)
    requires forall i | 0 <= i < |pairs| :: pairs[i].stake == 1 && pairs[i].tickHeight >= t
    ensures SumStakes(pairs) == |pairs| == StakeAtOrAbove(pairs, t)
    decreases |pairs|
  {
    if |pairs| > 0 {
      SumUnitStakes(pairs[..|pairs| - 1], t);
    }
  }

  /** Six unit votes among ten unit stakes confirm nothing. */
  lemma SixOfTenConfirmNothing(pairs: seq<Pair>)
    requires pairs == [Pair(1, 1), Pair(2, 1), Pair(3, 1), Pair(4, 1), Pair(5, 1), Pair(6, 1)]
    ensures HighestConfirmed(pairs, pairs, SupermajorityStake(10)) == None
  {
    SumUnitStakes(pairs, 0);
    forall i | 0 <= i < |pairs|
      ensures StakeAtOrAbove(pairs, pairs[i].tickHeight) <= SupermajorityStake(10)
    {
      StakeAtOrAboveBounded(pairs, pairs[i].tickHeight);
    }
  }

  /** Stake at or above `t` is that of the first voter plus that of the rest. */
  lemma {:induction false} StakeAtOrAbovePrepend(p: Pair, rest: seq<Pair>, t: nat)
    ensures StakeAtOrAbove([p] + rest, t) == (if p.tickHeight >= t then p.stake else 0) + StakeAtOrAbove(rest, t)
    decreases |rest|
  {
    if |rest| > 0 {
      var init := rest[..|rest| - 1];
      assert ([p] + rest)[..|rest|] == [p] + init;
      StakeAtOrAbovePrepend(p, init, t);
    } else {
      assert [p] + rest == [p];
    }
  }

  /**
   * A seventh unit vote confirms tick height 1 and nothing higher: all
   * seven voters reached it, while only six reached tick height 2.
   */
  lemma SevenOfTenConfirm(pairs: seq<Pair>)
    requires pairs == [Pair(1, 1), Pair(2, 1), Pair(3, 1), Pair(4, 1), Pair(5, 1), Pair(6, 1), Pair(7, 1)]
    ensures HighestConfirmed(pairs, pairs, SupermajorityStake(10)) == Some(1)
  {
    SumUnitStakes(pairs, 1);
    assert pairs[0].tickHeight == 1;
    var rest := pairs[1..];
    SumUnitStakes(rest, 2);
    assert pairs == [pairs[0]] + rest;
    StakeAtOrAbovePrepend(pairs[0], rest, 2);
    assert StakeAtOrAbove(pairs, 2) == 6;
    var r := HighestConfirmed(pairs, pairs, SupermajorityStake(10));
    var i :| 0 <= i < |pairs| && pairs[i].tickHeight == r.value;
    if r.value >= 2 {
      StakeAtOrAboveAntitone(pairs, 2, r.value);
    }
  }

  /** Extending the accounts by one extends their pairs by its pair. */
  lemma UnitPairsPrefix(accounts: seq<Account>, k: nat)
    requires 0 < k <= |accounts|
    ensures UnitPairs(accounts[..k]) == UnitPairs(accounts[..k - 1]) + UnitPair(accounts[k - 1])
  {
    assert accounts[..k][..k - 1] == accounts[..k - 1];
  }

  /** The pairs of the first table: the six votes in account order. */
  lemma SixPairs()
    ensures UnitPairs(SixVoters()) == [Pair(1, 1), Pair(2, 1), Pair(3, 1), Pair(4, 1), Pair(5, 1), Pair(6, 1)]
  {
    var six := SixVoters();
    VotedPrefix(six);
    SilentSuffix(six, 6, 10, [Pair(1, 1), Pair(2, 1), Pair(3, 1), Pair(4, 1), Pair(5, 1), Pair(6, 1)]);
    assert six[..10] == six;
  }

  /** The pairs of the second table: the seventh vote is appended. */
  lemma SevenPairs()
    ensures UnitPairs(SevenVoters()) == [Pair(1, 1), Pair(2, 1), Pair(3, 1), Pair(4, 1), Pair(5, 1), Pair(6, 1), Pair(7, 1)]
  {
    var seven := SevenVoters();
    var pairs := [Pair(1, 1), Pair(2, 1), Pair(3, 1), Pair(4, 1), Pair(5, 1), Pair(6, 1)];
    assert UnitPairs(seven[..7]) == pairs by {
      VotedPrefix(seven);
      SilentSuffix(seven, 6, 7, pairs);
    }
    assert UnitPairs(seven[..8]) == pairs + [Pair(7, 1)] by {
      UnitPairsPrefix(seven, 8);
    }
    assert UnitPairs(seven[..10]) == pairs + [Pair(7, 1)] by {
      SilentSuffix(seven, 8, 10, pairs + [Pair(7, 1)]);
    }
    assert seven[..10] == seven;
  }

  /** Accounts that have not voted add no pairs. */
  lemma SilentSuffix(accounts: seq<Account>, k: nat, m: nat, pairs: seq<Pair>)
    requires k <= m <= |accounts| && UnitPairs(accounts[..k]) == pairs
    requires forall i | k <= i < m :: UnitPair(accounts[i]) == []
    ensures UnitPairs(accounts[..m]) == pairs
  {
    var j := k;
    while j < m
      invariant k <= j <= m && UnitPairs(accounts[..j]) == pairs
    {
      UnitPairsPrefix(accounts, j + 1);
      j := j + 1;
    }
  }

  /** Both tables open with validators 0 to 5 voting for tick heights 1 to 6. */
  lemma VotedPrefix(accounts: seq<Account>)
    requires |accounts| == 10
    requires forall i | 0 <= i < 6 :: accounts[i] == TestVoteAccount(i, [Vote(i + 1)])
    ensures UnitPairs(accounts[..6]) == [Pair(1, 1), Pair(2, 1), Pair(3, 1), Pair(4, 1), Pair(5, 1), Pair(6, 1)]
  {
    assert accounts[..0] == [];
    UnitPairsPrefix(accounts, 1);
    UnitPairsPrefix(accounts, 2);
    UnitPairsPrefix(accounts, 3);
    UnitPairsPrefix(accounts, 4);
    UnitPairsPrefix(accounts, 5);
    UnitPairsPrefix(accounts, 6);
  }

  /** The snapshot of the first table: six unit pairs, ten units of stake. */
  lemma SixSnapshot()
    ensures Collect(SixVoters(), TEST_LEADER, UnitStake)
         == Snapshot([Pair(1, 1), Pair(2, 1), Pair(3, 1), Pair(4, 1), Pair(5, 1), Pair(6, 1)], 10)
  {
    CollectUnitStakes(SixVoters());
    SixPairs();
  }

  /** The snapshot of the second table: seven unit pairs, ten units of stake. */
  lemma SevenSnapshot()
    ensures Collect(SevenVoters(), TEST_LEADER, UnitStake)
         == Snapshot([Pair(1, 1), Pair(2, 1), Pair(3, 1), Pair(4, 1), Pair(5, 1), Pair(6, 1), Pair(7, 1)], 10)
  {
    CollectUnitStakes(SevenVoters());
    SevenPairs();
  }

  /** The test bank's lookup answers with the reference for the snapshot it collects. */
  lemma TestBankLookup(accounts: seq<Account>, tickTimestamp: nat -> Option<U64>, s: Snapshot)
    requires Collect(accounts, TEST_LEADER, UnitStake) == s
    ensures var ts := ReferenceTimestamp(tickTimestamp, s.ticksAndStakes, SupermajorityStake(s.totalStake));
      GetLastSupermajorityTimestamp(ReferenceBank(accounts, UnitStake, tickTimestamp), TEST_LEADER)
        == if ts.Some? then Success(ts.value) else Failure(NoValidSupermajority)
  {
  }

  /** With six of ten unit stakes voting, `compute_finality` changes nothing. */
  lemma SixVotesLeaveFinality(tickTimestamp: nat -> Option<U64>, now: U64, st: FinalityState)
    ensures ComputeFinality(ReferenceBank(SixVoters(), UnitStake, tickTimestamp), TEST_LEADER, now, st) == st
  {
    var six := [Pair(1, 1), Pair(2, 1), Pair(3, 1), Pair(4, 1), Pair(5, 1), Pair(6, 1)];
    SixSnapshot();
    SixOfTenConfirmNothing(six);
    TestBankLookup(SixVoters(), tickTimestamp, Snapshot(six, 10));
  }

  /**
   * With a seventh vote, `compute_finality` publishes a finality other
   * than the default and remembers the positive timestamp of tick height 1.
   */
  lemma SevenVotesSetFinality(tickTimestamp: nat -> Option<U64>, now: U64, st: FinalityState)
    requires forall h: nat :: 1 <= h <= 10 ==> tickTimestamp(h).Some? && 0 < tickTimestamp(h).value <= now
    ensures var r := ComputeFinality(ReferenceBank(SevenVoters(), UnitStake, tickTimestamp), TEST_LEADER, now, st);
      r.finality != DEFAULT_FINALITY && r.lastValidTimestamp == tickTimestamp(1).value > 0
  {
    var seven := [Pair(1, 1), Pair(2, 1), Pair(3, 1), Pair(4, 1), Pair(5, 1), Pair(6, 1), Pair(7, 1)];
    SevenSnapshot();
    SevenOfTenConfirm(seven);
    TestBankLookup(SevenVoters(), tickTimestamp, Snapshot(seven, 10));
    var best := HighestConfirmed(seven, seven, SupermajorityStake(10));
    assert tickTimestamp(best.value).Some?;
  }

  /**
   * The service's test: six of ten unit stakes leave finality at its
   * default; a seventh vote publishes a finality and a positive
   * supermajority timestamp.
   */
  lemma TestComputeFinality(tickTimestamp: nat -> Option<U64>, now: U64)
    requires forall h: nat :: 1 <= h <= 10 ==> tickTimestamp(h).Some? && 0 < tickTimestamp(h).value <= now
    ensures var st0 := FinalityState(0, DEFAULT_FINALITY);
      var st1 := ComputeFinality(ReferenceBank(SixVoters(), UnitStake, tickTimestamp), TEST_LEADER, now, st0);
      var st2 := ComputeFinality(ReferenceBank(SevenVoters(), UnitStake, tickTimestamp), TEST_LEADER, now, st1);
      && st1.finality == DEFAULT_FINALITY
      && st2.finality != DEFAULT_FINALITY
      && st2.lastValidTimestamp > 0
  {
    var st0 := FinalityState(0, DEFAULT_FINALITY);
    SixVotesLeaveFinality(tickTimestamp, now, st0);
    SevenVotesSetFinality(tickTimestamp, now, st0);
  }
}
