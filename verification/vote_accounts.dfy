/**
 * The account-level types that the vote program and the finality service
 * share: public keys, accounts, and the vote state a vote account stores.
 * Their byte encoding (bincode) is not modelled: an account's data is
 * represented by what the decoder makes of it.
 */
module VoteAccounts {
  import opened Wrappers

  /** A public key; only equality between keys matters here. */
  type Pubkey = nat

  /**
   * The owner identity of the vote program. Its 32-byte value lives in the
   * SDK's vote_program.rs, which is not part of this model; only equality
   * with it is ever checked.
   */
  const VOTE_PROGRAM_ID: Pubkey := 0

  /** Capacity of a vote account's history queue (SDK constant). */
  const MAX_VOTE_HISTORY: nat := 32

  /** One vote: the tick height the validator saw. */
  datatype Vote = Vote(tickHeight: nat)

  /** What a vote account stores: oldest vote first, most recent last. */
  datatype VoteState = VoteState(votes: seq<Vote>, nodeId: Pubkey)

  /**
   * An account's data buffer: its length in bytes, and the vote state it
   * decodes to (`None` when the bytes do not decode as a vote state).
   */
  datatype Userdata = Userdata(len: nat, state: Option<VoteState>)

  datatype Account = Account(tokens: nat, owner: Pubkey, userdata: Userdata)

  /** An account as an instruction sees it: its key and whether it signed. */
  datatype KeyedAccount = KeyedAccount(key: Pubkey, isSigner: bool, account: Account)
  {
    /** The key, when the account signed the transaction. */
    function SignerKey(): (r: Option<Pubkey>)
      ensures r.Some? <==> isSigner
      ensures r.Some? ==> r.value == key
    {
      if isSigner then Some(key) else None
    }
  }

  /** `check_id`: whether an owner is the vote program. */
  predicate IsVoteProgram(owner: Pubkey)
  {
    owner == VOTE_PROGRAM_ID
  }

  /**
   * The account with `state` serialized into its data buffer. The buffer
   * keeps its length, and decoding it afterwards yields `state`.
   */
  function StoreState(a: Account, state: VoteState): (r: Account)
    ensures r.userdata.state == Some(state)
    ensures r.userdata.len == a.userdata.len
    ensures r.owner == a.owner && r.tokens == a.tokens
  {
    a.(userdata := a.userdata.(state := Some(state)))
  }
}
