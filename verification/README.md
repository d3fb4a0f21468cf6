# Vote program, leader finality and PoH cadence — a Dafny model

This project models three small, sequential pieces of a Solana validator and
proves properties about them.

- **The native vote program's `entrypoint`** (`VoteProgram`, over the shared
  account types in `VoteAccounts`).
  - It checks that account 0 signed, before it looks at the instruction data.
  - It decodes the instruction.
  - `RegisterAccount` writes an empty vote state into account 1, whose owner
    must be the vote program.
  - `NewVote` appends a vote to account 0's bounded history queue, first
    evicting the oldest vote when the queue holds `MAX_VOTE_HISTORY` votes.
  - Every error leaves every account as it was.
- **The leader-finality computation** (`LeaderFinality`).
  - The snapshot fold over the bank's vote accounts:
    - foreign, undecodable and leader-owned accounts are skipped;
    - every other account adds its node's stake to the total;
    - every voter adds a `(latest tick height, stake)` pair.
  - The threshold `(2 * total) / 3`.
  - `compute_finality`'s update of the last supermajority timestamp and of
    the bank's finality.
  - The service loop, which reads the exit flag before every computation.
- **A reference for the bank's supermajority lookup** (`FinalityReference`).
  - The lookup itself is not part of this model.
  - The reference confirms the highest tick height whose backers hold
    strictly more stake than the threshold.
  - Using it, the model replays the service's own test: six of ten unit
    stakes confirm nothing, and a seventh vote publishes a finality.
- **The PoH service** (`PohService`, over an abstract recorder in
  `PohRecorder`).
  - The `Config` cadence and its default.
  - The `tick_producer` loop, described by the trace of recorder calls it
    makes: `max(n - 1, 0)` hashes for `Tick(n)` (none for `Sleep`), one
    tick, then an exit-flag check.
  - Its immediate return on the first failing call.
  - The thread wrapper that sets the `poh_exit` flag once the producer has
    returned.
  - The hash accounting of one tick period that the service's test checks.

How the outside world is represented:

- **Bank.** Its account table, stake lookup and finality-timestamp lookup are
  parameters (`BankView`).
- **Clock.** The time is an input `now`.
- **Recorder replies.** What the recorder answers to the k-th call is an
  input `replies(k)`.
- **Exit flag.** Its successive readings are an input sequence.
  - A run that uses up the readings without stopping ends as `Running`.
- **Account data.** It is represented by what it decodes to (`None` when it
  does not decode).
- **Encoder.** Whether an encoding fits an account's buffer is an input
  predicate `fits(voteCount, len)`.

Two details of the code shape the model:

- **Supermajority comparison.** The reference lookup compares strictly. The
  service's test (src/compute_leader_finality_service.rs:209-230) requires
  6 of 10 unit stakes, exactly the threshold `(2 * 10) / 3`, not to
  confirm.
- **PoH flag.** One flag, `poh_exit`, is both the exit request the producer
  reads (src/poh_service.rs:81) and the completion signal its thread sets
  (src/poh_service.rs:57).

## Model

| member | source | states |
|---|---|---|
| `VoteProgram.Entrypoint` | programs/native/vote/src/lib.rs:13-81 | On an empty account list, indexing account 0 panics. An unsigned account 0 gives `InvalidArgument` whatever the data. Undecodable data gives `InvalidUserdata`. `RegisterAccount` succeeds iff account 1 is owned by the vote program and an empty state fits its buffer, and then writes exactly account 1 with no votes and node id = the signer's key. It panics with only one account. `NewVote` succeeds iff account 0 is owned, its state decodes and the pushed queue fits, and then writes exactly account 0 with the pushed queue and the same node id. Each failed check gives its own error: a state that does not fit the buffer gives `UserdataTooSmall` for either instruction, and only a missing account 0 or 1 panics. Errors change no account. Keys, signers, owners, tokens and buffer lengths never change. |
| `VoteProgram.PushVote` | programs/native/vote/src/lib.rs:66-71 | The new vote is last. A full queue (exactly `MAX_VOTE_HISTORY`) loses exactly its oldest vote and keeps the order of the rest; otherwise nothing is removed. A queue within capacity stays within capacity. |
| `VoteProgram.PushVoteKeepsRecent` | programs/native/vote/src/lib.rs:66-71 | On a queue within capacity, one push equals the independent reference "the `MAX_VOTE_HISTORY` most recent of the votes plus the new one". |
| `VoteProgram.RecentOfRecent` | programs/native/vote/src/lib.rs:66-71 | Trimming to the most recent votes before more votes arrive does not change which votes survive. |
| `VoteProgram.PushVotesKeepsRecent` | programs/native/vote/src/lib.rs:66-71 | Any number of pushes into a queue within capacity leaves exactly the `MAX_VOTE_HISTORY` most recent votes, oldest first. |
| `VoteProgram.OverflowEvictsOldest` | programs/native/vote/src/lib.rs:66-71 | `MAX_VOTE_HISTORY + 1` votes pushed into an empty queue leave exactly the last `MAX_VOTE_HISTORY`, in order: the first is evicted. |
| `VoteProgram.NewVoteIgnoresTickHeight` | programs/native/vote/src/lib.rs:62-71 | Whether a vote is accepted does not depend on its tick height: there is no ordering check against stored votes. |
| `VoteProgram.CastVotesKeepsRecent` | programs/native/vote/src/lib.rs:48-75 | A signed, owned, decodable vote account whose buffer fits a full history accepts every vote of a sequence. It ends holding exactly the most recent `MAX_VOTE_HISTORY` votes of its prior votes followed by the new ones, with the same node id, and no other account changes. |
| `LeaderFinality.Collect` | src/compute_leader_finality_service.rs:37-70 | The pairs of the snapshot never carry more stake than its total, and there are no more pairs than accounts. |
| `LeaderFinality.CollectAppend` | src/compute_leader_finality_service.rs:45-69 | The snapshot of two concatenated account tables is the merge of their snapshots: pairs in table order, totals added. |
| `LeaderFinality.IgnoredAccount` | src/compute_leader_finality_service.rs:48-67 | An account not owned by the vote program, one whose data does not decode, or one whose node is the leader contributes neither stake nor a pair, wherever it sits. |
| `LeaderFinality.CountedAccount` | src/compute_leader_finality_service.rs:56-63 | Every other vote account adds its node's stake to the total, with or without votes. It adds the pair (most recent vote's tick height, that stake) exactly when it has a vote, at its own position. A node with several accounts is counted once per account. |
| `LeaderFinality.VisitAccount` | src/compute_leader_finality_service.rs:48-68 | One pass of the filter body adds exactly the account's contribution to the running stake total and pair vector. |
| `LeaderFinality.SnapshotVoteAccounts` | src/compute_leader_finality_service.rs:37-70 | The imperative loop with a mutable total and pair vector computes the same snapshot as the fold. |
| `LeaderFinality.SupermajorityStake` | src/compute_leader_finality_service.rs:72 | The threshold is at most the total stake and is the floor of two thirds of it: `3t <= 2·total < 3t + 3`. |
| `LeaderFinality.GetLastSupermajorityTimestamp` | src/compute_leader_finality_service.rs:31-92 | The bank's lookup is asked once, with the snapshot of counted voters and the threshold `(2 * total_stake) / 3`. Its timestamp is returned, and its absence gives `NoValidSupermajority`. What the snapshot holds is pinned by `Collect` and its lemmas. `IgnoredAccountsDoNotMatter` shows that ignored accounts do not affect the result. `FinalityReference.ReferenceNeedsMoreThanTwoThirds` shows that, with the reference lookup, a timestamp needs strictly more than two thirds of the stake. |
| `LeaderFinality.IgnoredAccountsDoNotMatter` | src/compute_leader_finality_service.rs:31-92 | Removing a foreign, undecodable or leader-owned account from the bank's table does not change `get_last_supermajority_timestamp`'s result. |
| `LeaderFinality.WrappingSub` | src/compute_leader_finality_service.rs:106-109 | `u64` subtraction: the exact difference when it does not underflow, otherwise the difference plus 2^64. |
| `LeaderFinality.ComputeFinality` | src/compute_leader_finality_service.rs:94-117 | Without a supermajority timestamp, neither the remembered timestamp nor the bank's finality changes. With one (`ts`), the service remembers `ts`, and the finality is `now - ts` on `u64`: plus `ts` it is `now` when `ts <= now`, and `now + 2^64` when `now < ts`. |
| `LeaderFinality.RunService` | src/compute_leader_finality_service.rs:120-133 | The loop computes only in cycles whose exit reading is false, stops at the first true reading, and its state is `compute_finality` applied over exactly those cycles in order. |
| `FinalityReference.HighestConfirmed` | src/compute_leader_finality_service.rs:74-78 | The reference lookup's confirmed height is backed by strictly more stake than the threshold, is one of the candidate heights, and is at least every candidate height so backed. |
| `FinalityReference.ReferenceNeedsMoreThanTwoThirds` | src/compute_leader_finality_service.rs:72-78 | With the reference lookup, a supermajority timestamp is the recorded timestamp of a tick height reached by voters holding more than two thirds of the total stake. With no stake at all there is none. |
| `FinalityReference.SeventhVoteOnly` | src/compute_leader_finality_service.rs:218-222 | The second test table is the first with only validator 7's account changed, now holding a vote for tick height 7. |
| `FinalityReference.CollectUnitStakes` | src/compute_leader_finality_service.rs:184-205 | A table of counted vote accounts whose nodes all have stake 1 yields a total equal to the number of accounts, and one unit pair per voter in table order. |
| `FinalityReference.SixOfTenConfirmNothing` | src/compute_leader_finality_service.rs:209-216 | Six unit votes against ten units of stake confirm no tick height, because 6 is not above the threshold 6. |
| `FinalityReference.SevenOfTenConfirm` | src/compute_leader_finality_service.rs:218-230 | Seven unit votes confirm tick height 1, which all seven voters reached, and no higher one, since only six reached tick height 2. |
| `FinalityReference.SixVotesLeaveFinality` | src/compute_leader_finality_service.rs:209-216 | With six of the ten test validators voting, `compute_finality` changes neither the finality nor the remembered timestamp. |
| `FinalityReference.SevenVotesSetFinality` | src/compute_leader_finality_service.rs:218-230 | After the seventh vote, `compute_finality` sets a finality other than the default `usize::MAX` and remembers the positive timestamp of tick height 1. |
| `FinalityReference.TestComputeFinality` | src/compute_leader_finality_service.rs:166-231 | The whole test: the first computation leaves the default finality, and the second publishes one and a positive timestamp. |
| `PohService.DefaultConfig` | src/poh_service.rs:12-28 | The default configuration sleeps, one tick's length: `NUM_TICKS_PER_SECOND` sleeps make one second. |
| `PohService.TickProducer` | src/poh_service.rs:68-86 | The loop runs at most one iteration per exit reading. It keeps running only when no reading was true, and it starts at least one iteration before returning. |
| `PohService.ProducerFollowsSchedule` | src/poh_service.rs:68-86 | The calls made are a prefix of the cadence's schedule. The flag is read only after an iteration's tick. A run returning `Ok` made whole iterations and read true last. A run cut off read false every time. A failed run stopped strictly inside its last iteration. |
| `PohService.ProducerStopsAtFailure` | src/poh_service.rs:72-80 | The first failing recorder call is the last call made and its error is the run's error. Every earlier call succeeded. |
| `PohService.IterationCounts` | src/poh_service.rs:70-80 | One iteration of `Tick(n)` makes `max(n - 1, 0)` hash calls and exactly one tick call, the tick last. `Sleep` makes a single tick call. |
| `PohService.ScheduleCounts` | src/poh_service.rs:69-85 | `k` iterations make exactly `k` ticks and `k · max(n - 1, 0)` hashes. |
| `PohService.ExitAlreadySet` | src/poh_service.rs:80-84 | With the flag already set, the producer runs one iteration. It returns `Ok` iff that iteration's calls all succeed, and then it made exactly one tick. |
| `PohService.ExitStopsProducer` | src/poh_service.rs:80-84 | Once the flag reads true, the producer has stopped: no iteration starts after that reading. |
| `PohService.Spawn` | src/poh_service.rs:45-66 | The thread's run is the producer's run from the recorder's first call. Once the producer has returned, with `Ok` or with an error, the `poh_exit` flag is set; while it runs, the flag is still false. A failed producer's error is the thread's result. |
| `PohService.SpawnFinishesAfterExit` | src/poh_service.rs:54-58 | Once an exit reading is true, the thread finishes with its completion flag set, and the producer runs no iteration past that reading. |
| `PohService.TickPeriod` | src/poh_service.rs:142-172 | In one tick period of `Tick(n)`, with other threads' records interleaved: the tick entry carries at most `max(n, 1)` hashes, every record entry at least one, and the tick's hashes plus each record's hashes beyond its first add up to exactly `max(n, 1)`. The counter ends at zero. |
| `PohRecorder.HashAccounting` | src/poh_service.rs:152-171 | No hash is lost or counted twice: the hash and tick calls made equal the counter's growth plus the idle hashes of the entries emitted. |
| `PohRecorder.RecordEntries` | src/poh_service.rs:167-170 | Without tick calls, every emitted entry is a record entry carrying at least one hash. |

## Left out

- Threads, `JoinHandle::join`, `sleep` durations, atomics and memory ordering. Flags are plain booleans read at the points the code reads them; time is an input.
- `PohService::exit`, `close` and `join` (src/poh_service.rs:36-43, 92-94): setting the flag from outside shows up only as a true reading in the exit-reading input, and `join` is `JoinResult` of the run.
- `PohService.TickProducer`: a loop that never reads the flag as true is cut off after the given readings (`Running`) rather than modelled as non-terminating.
- `Config::Sleep`'s duration has no effect in the model beyond selecting the sleep branch (no hash calls).
- Logging (`trace!`, `debug!`, `info!`, `error!`) and `solana_metrics::submit`. This includes the failure-path metric in `get_last_supermajority_timestamp` (lines 80-89) and its `now - last` subtraction.
- Bincode encoding of instructions and vote states. Data is represented by what it decodes to, and serialization by the `fits` predicate. A failed serialization is taken to leave the buffer as it was.
- The codec's own error kinds, which are not part of this model. `StateDecodeFailed` and `UserdataTooSmall` stand for them.
- `VoteAccounts.MAX_VOTE_HISTORY` is 32 and `VOTE_PROGRAM_ID` is an arbitrary key. Both are SDK constants whose definitions are not part of this model; only the capacity's role and equality with the program id matter.
- Bank internals: `get_stake`, `get_finality_timestamp`, `set_finality`, `finality`, `register_tick` and the account-table lock. They are parameters; `FinalityReference` gives one lookup consistent with the service's test.
- `LeaderFinality.SnapshotVoteAccounts`: the account table is a `HashMap` in the source. Its iteration order is taken as the given sequence.
- `LeaderFinality.Collect`: stakes, their running sum `total_stake` (`u64` at src/compute_leader_finality_service.rs:57) and tick heights are unbounded naturals; overflow of the sum is not modelled.
- `LeaderFinality.SupermajorityStake`: `2 * total_stake` is computed on unbounded integers; `u64` overflow of the product is not modelled.
- `LeaderFinality.ComputeFinality`: `now - ts` wraps around as in a release build; the debug-build underflow panic is not modelled. Finality is `u64` (the source's `usize` on a 64-bit target).
- The PoH recorder (src/poh_recorder.rs is not part of this model). It is a hash counter plus an entry log; SHA-256, the entry channel and the recorder's error kinds are not modelled.
- Concurrency between `record` and `tick` is an interleaving of whole calls.
- benches/bank.rs: a benchmark driver with no logic of its own.
