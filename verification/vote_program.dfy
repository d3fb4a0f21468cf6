/**
 * The native vote program: its instruction processor (`entrypoint`) and
 * the bounded vote-history queue it maintains in a vote account.
 *
 * An instruction runs over a list of keyed accounts. All accounts the
 * instruction may write are returned in the `Outcome`; the instruction's
 * data is represented by what it decodes to (`None` when it does not
 * decode as a `VoteInstruction`).
 */
module VoteProgram {
  import opened Wrappers
  import opened VoteAccounts

  datatype VoteInstruction = RegisterAccount | NewVote(vote: Vote)

  /**
   * `InvalidArgument` and `InvalidUserdata` are raised by the entrypoint
   * itself; `StateDecodeFailed` and `UserdataTooSmall` stand for the errors
   * the vote-state codec reports when the stored bytes do not decode, or
   * when the encoding does not fit the account's buffer.
   */
  datatype ProgramError = InvalidArgument | InvalidUserdata | StateDecodeFailed | UserdataTooSmall

  /** How an instruction ended; `Panic` is an out-of-range account index. */
  datatype Status = Ok | Err(error: ProgramError) | Panic

  datatype Outcome = Outcome(accounts: seq<KeyedAccount>, status: Status)

  /** Encoder capability: whether a vote state holding `voteCount` votes fits a buffer of `len` bytes. */
  type Fits = (nat, nat) -> bool

  // ---------------------------------------------------------------------
  // The bounded vote history
  // ---------------------------------------------------------------------

  /** The `MAX_VOTE_HISTORY` most recent votes of `votes`, oldest first. */
  function Recent(votes: seq<Vote>): (r: seq<Vote>)
    ensures |r| <= MAX_VOTE_HISTORY && |r| <= |votes|
    ensures |votes| >= MAX_VOTE_HISTORY ==> |r| == MAX_VOTE_HISTORY
    ensures r == votes[|votes| - |r|..]
  {
    if |votes| <= MAX_VOTE_HISTORY then votes else votes[|votes| - MAX_VOTE_HISTORY..]
  }

  /**
   * Appends a vote, first dropping the oldest one when the queue is
   * exactly at capacity. A queue already longer than the capacity (which a
   * well-formed account never holds) is not trimmed.
   */
  function PushVote(votes: seq<Vote>, vote: Vote): (r: seq<Vote>)
    ensures |r| > 0 && r[|r| - 1] == vote
    ensures |votes| <= MAX_VOTE_HISTORY ==> |r| <= MAX_VOTE_HISTORY
    ensures |votes| == MAX_VOTE_HISTORY ==> r[..|r| - 1] == votes[1..]
    ensures |votes| != MAX_VOTE_HISTORY ==> r[..|r| - 1] == votes
  {
    if |votes| == MAX_VOTE_HISTORY then votes[1..] + [vote] else votes + [vote]
  }

  /** Pushes `incoming` one vote at a time, in order. */
  function PushVotes(votes: seq<Vote>, incoming: seq<Vote>): seq<Vote>
    decreases |incoming|
  {
    if |incoming| == 0 then votes else PushVotes(PushVote(votes, incoming[0]), incoming[1..])
  }

  /** On a queue within capacity, one push keeps exactly the most recent votes. */
  lemma PushVoteKeepsRecent(votes: seq<Vote>, vote: Vote)
    requires |votes| <= MAX_VOTE_HISTORY
    ensures PushVote(votes, vote) == Recent(votes + [vote])
  {
    if |votes| == MAX_VOTE_HISTORY {
      assert (votes + [vote])[1..] == votes[1..] + [vote];
    }
  }

  /** Trimming before appending more votes does not change what survives. */
  lemma RecentOfRecent(a: seq<Vote>, b: seq<Vote>)
    ensures Recent(Recent(a) + b) == Recent(a + b)
  {
    if |a| > MAX_VOTE_HISTORY {
      var k := |a| - MAX_VOTE_HISTORY;
      assert Recent(a) + b == (a + b)[k..];
      var x := (a + b)[k..];
      var m := |x| - |Recent(x)|;
      assert Recent(x) == x[m..] == (a + b)[k + m..];
    }
  }

  lemma SplitFirst(votes: seq<Vote>, incoming: seq<Vote>)
    requires |incoming| > 0
    ensures votes + [incoming[0]] + incoming[1..] == votes + incoming
  {
  }

  /**
   * However many votes arrive, a queue that starts within capacity ends up
   * holding exactly the `MAX_VOTE_HISTORY` most recent ones, in the order
   * they were cast.
   */
  lemma {:induction false} PushVotesKeepsRecent(votes: seq<Vote>, incoming: seq<Vote>)
    requires |votes| <= MAX_VOTE_HISTORY
    ensures PushVotes(votes, incoming) == Recent(votes + incoming)
    decreases |incoming|
  {
    if |incoming| > 0 {
      var vote, rest := incoming[0], incoming[1..];
      var next := PushVote(votes, vote);
      assert next == Recent(votes + [vote]) by {
        PushVoteKeepsRecent(votes, vote);
      }
      assert PushVotes(next, rest) == Recent(next + rest) by {
        PushVotesKeepsRecent(next, rest);
      }
      assert Recent(next + rest) == Recent(votes + incoming) by {
        RecentOfRecent(votes + [vote], rest);
        SplitFirst(votes, incoming);
      }
    }
  }

  /** Casting one vote more than the capacity into an empty queue evicts exactly the first. */
  lemma OverflowEvictsOldest(incoming: seq<Vote>)
    requires |incoming| == MAX_VOTE_HISTORY + 1
    ensures PushVotes([], incoming) == incoming[1..]
  {
    PushVotesKeepsRecent([], incoming);
    assert [] + incoming == incoming;
  }

  // ---------------------------------------------------------------------
  // The instruction processor
  // ---------------------------------------------------------------------

  /** `keyed[i]` with `state` serialized into its account's data. */
  function Written(keyed: seq<KeyedAccount>, i: nat, state: VoteState): seq<KeyedAccount>
    requires i < |keyed|
  {
    keyed[i := keyed[i].(account := StoreState(keyed[i].account, state))]
  }

  /**
   * `entrypoint`: checks that account 0 signed (before looking at the
   * data), decodes the instruction, then registers account 1 or records a
   * vote in account 0. Every error leaves all accounts as they were.
   */
  function Entrypoint(keyed: seq<KeyedAccount>, data: Option<VoteInstruction>, fits: Fits): (o: Outcome)
    // only account data is ever written, and only on success
    ensures |o.accounts| == |keyed|
    ensures o.status != Ok ==> o.accounts == keyed
    ensures forall i | 0 <= i < |keyed| ::
      && o.accounts[i].key == keyed[i].key
      && o.accounts[i].isSigner == keyed[i].isSigner
      && o.accounts[i].account.owner == keyed[i].account.owner
      && o.accounts[i].account.tokens == keyed[i].account.tokens
      && o.accounts[i].account.userdata.len == keyed[i].account.userdata.len
    // the signer check comes first, whatever the data
    ensures |keyed| == 0 ==> o.status == Panic
    ensures |keyed| > 0 && !keyed[0].isSigner ==> o.status == Err(InvalidArgument)
    ensures |keyed| > 0 && keyed[0].isSigner && data.None? ==> o.status == Err(InvalidUserdata)
    ensures o.status == Ok ==> |keyed| > 0 && keyed[0].isSigner && data.Some?
    // only indexing a missing account panics
    ensures o.status == Panic ==> |keyed| == 0 || (data == Some(RegisterAccount) && |keyed| == 1)
    // RegisterAccount
    ensures data == Some(RegisterAccount) && |keyed| == 1 && keyed[0].isSigner ==> o.status == Panic
    ensures data == Some(RegisterAccount) && |keyed| > 1 && keyed[0].isSigner ==>
      (o.status == Ok <==> IsVoteProgram(keyed[1].account.owner) && fits(0, keyed[1].account.userdata.len))
    ensures data == Some(RegisterAccount) && |keyed| > 1 && keyed[0].isSigner && !IsVoteProgram(keyed[1].account.owner) ==>
      o.status == Err(InvalidArgument)
    ensures data == Some(RegisterAccount) && |keyed| > 1 && keyed[0].isSigner && IsVoteProgram(keyed[1].account.owner)
            && !fits(0, keyed[1].account.userdata.len) ==>
      o.status == Err(UserdataTooSmall)
    ensures data == Some(RegisterAccount) && o.status == Ok ==>
      o.accounts == Written(keyed, 1, VoteState([], keyed[0].key))
    // NewVote
    ensures data.Some? && data.value.NewVote? && |keyed| > 0 && keyed[0].isSigner ==>
      (o.status == Ok <==>
        && IsVoteProgram(keyed[0].account.owner)
        && keyed[0].account.userdata.state.Some?
        && fits(|PushVote(keyed[0].account.userdata.state.value.votes, data.value.vote)|, keyed[0].account.userdata.len))
    ensures data.Some? && data.value.NewVote? && |keyed| > 0 && keyed[0].isSigner && !IsVoteProgram(keyed[0].account.owner) ==>
      o.status == Err(InvalidArgument)
    ensures data.Some? && data.value.NewVote? && |keyed| > 0 && keyed[0].isSigner && IsVoteProgram(keyed[0].account.owner)
            && keyed[0].account.userdata.state.None? ==>
      o.status == Err(StateDecodeFailed)
    ensures data.Some? && data.value.NewVote? && |keyed| > 0 && keyed[0].isSigner && IsVoteProgram(keyed[0].account.owner)
            && keyed[0].account.userdata.state.Some?
            && !fits(|PushVote(keyed[0].account.userdata.state.value.votes, data.value.vote)|, keyed[0].account.userdata.len) ==>
      o.status == Err(UserdataTooSmall)
    ensures data.Some? && data.value.NewVote? && o.status == Ok ==>
      var prior := keyed[0].account.userdata.state.value;
      o.accounts == Written(keyed, 0, VoteState(PushVote(prior.votes, data.value.vote), prior.nodeId))
  {
    if |keyed| == 0 then Outcome(keyed, Panic)
    else if keyed[0].SignerKey().None? then Outcome(keyed, Err(InvalidArgument))
    else match data
      case None => Outcome(keyed, Err(InvalidUserdata))
      case Some(RegisterAccount) =>
        if |keyed| < 2 then Outcome(keyed, Panic)
        else if !IsVoteProgram(keyed[1].account.owner) then Outcome(keyed, Err(InvalidArgument))
        else
          // any previous contents of account 1 are overwritten unread
          var state := VoteState([], keyed[0].SignerKey().value);
          if !fits(|state.votes|, keyed[1].account.userdata.len) then Outcome(keyed, Err(UserdataTooSmall))
          else Outcome(Written(keyed, 1, state), Ok)
      case Some(NewVote(vote)) =>
        if !IsVoteProgram(keyed[0].account.owner) then Outcome(keyed, Err(InvalidArgument))
        else match keyed[0].account.userdata.state
          case None => Outcome(keyed, Err(StateDecodeFailed))
          case Some(prior) =>
            var state := VoteState(PushVote(prior.votes, vote), prior.nodeId);
            if !fits(|state.votes|, keyed[0].account.userdata.len) then Outcome(keyed, Err(UserdataTooSmall))
            else Outcome(Written(keyed, 0, state), Ok)
  }

  /**
   * Whether a vote is accepted does not depend on its tick height: there
   * is no check against the votes already stored.
   */
  lemma NewVoteIgnoresTickHeight(keyed: seq<KeyedAccount>, v1: Vote, v2: Vote, fits: Fits)
    ensures Entrypoint(keyed, Some(NewVote(v1)), fits).status == Entrypoint(keyed, Some(NewVote(v2)), fits).status
  {
  }

  /** Sends one `NewVote` per element of `votes`, stopping at the first that fails. */
  function CastVotes(keyed: seq<KeyedAccount>, votes: seq<Vote>, fits: Fits): Outcome
    decreases |votes|
  {
    if |votes| == 0 then Outcome(keyed, Ok)
    else
      var o := Entrypoint(keyed, Some(NewVote(votes[0])), fits);
      if o.status != Ok then o else CastVotes(o.accounts, votes[1..], fits)
  }

  /** A vote account that can take one more vote. */
  predicate AcceptsVotes(keyed: seq<KeyedAccount>, fits: Fits)
  {
    && |keyed| > 0 && keyed[0].isSigner && IsVoteProgram(keyed[0].account.owner)
    && keyed[0].account.userdata.state.Some?
    && |keyed[0].account.userdata.state.value.votes| <= MAX_VOTE_HISTORY
    && forall n :: 0 < n <= MAX_VOTE_HISTORY ==> fits(n, keyed[0].account.userdata.len)
  }

  /** The account `keyed` becomes after accepting `vote`. */
  function AfterVote(keyed: seq<KeyedAccount>, vote: Vote): (r: seq<KeyedAccount>)
    requires |keyed| > 0 && keyed[0].account.userdata.state.Some?
    ensures |r| == |keyed| && forall i | 1 <= i < |keyed| :: r[i] == keyed[i]
    ensures var prior := keyed[0].account.userdata.state.value;
      r[0].account.userdata.state == Some(VoteState(PushVote(prior.votes, vote), prior.nodeId))
  {
    var prior := keyed[0].account.userdata.state.value;
    Written(keyed, 0, VoteState(PushVote(prior.votes, vote), prior.nodeId))
  }

  /** One accepted vote, after which the account can take the next. */
  lemma CastOneVote(keyed: seq<KeyedAccount>, votes: seq<Vote>, fits: Fits)
    requires AcceptsVotes(keyed, fits) && |votes| > 0
    ensures CastVotes(keyed, votes, fits) == CastVotes(AfterVote(keyed, votes[0]), votes[1..], fits)
    ensures AcceptsVotes(AfterVote(keyed, votes[0]), fits)
  {
    var o := Entrypoint(keyed, Some(NewVote(votes[0])), fits);
    assert o.status == Ok;
  }

  /**
   * A registered vote account that signs every vote, and whose buffer can
   * hold a full history, accepts every vote; afterwards it holds exactly the
   * most recent `MAX_VOTE_HISTORY` votes in casting order, under the same
   * node id, and no other account has changed.
   */
  lemma {:induction false} CastVotesKeepsRecent(keyed: seq<KeyedAccount>, votes: seq<Vote>, fits: Fits)
    requires AcceptsVotes(keyed, fits)
    ensures var o := CastVotes(keyed, votes, fits);
      var prior := keyed[0].account.userdata.state.value;
      && o.status == Ok
      && |o.accounts| == |keyed|
      && o.accounts[0].account.userdata.state == Some(VoteState(Recent(prior.votes + votes), prior.nodeId))
      && forall i | 1 <= i < |keyed| :: o.accounts[i] == keyed[i]
    decreases |votes|
  {
    var prior := keyed[0].account.userdata.state.value;
    if |votes| == 0 {
      assert prior.votes + votes == prior.votes;
    } else {
      var vote, rest := votes[0], votes[1..];
      var next := AfterVote(keyed, vote);
      assert CastVotes(keyed, votes, fits) == CastVotes(next, rest, fits) && AcceptsVotes(next, fits) by {
        CastOneVote(keyed, votes, fits);
      }
      var pushed := PushVote(prior.votes, vote);
      assert pushed == Recent(prior.votes + [vote]) by {
        PushVoteKeepsRecent(prior.votes, vote);
      }
      assert Recent(pushed + rest) == Recent(prior.votes + votes) by {
        RecentOfRecent(prior.votes + [vote], rest);
        SplitFirst(prior.votes, votes);
      }
      CastVotesKeepsRecent(next, rest, fits);
    }
  }
}
