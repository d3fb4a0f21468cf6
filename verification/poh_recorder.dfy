/**
 * An abstract Proof-of-History recorder: a counter of hashes rolled since
 * the last entry, and the log of entries it has emitted. The hash values
 * themselves (SHA-256) are not modelled, only how many hashes each entry
 * accounts for.
 *
 * - `hash` rolls one hash.
 * - `record` rolls one more hash mixing in the transactions and emits an
 *   entry carrying them.
 * - `tick` rolls one more hash and emits an entry with no transactions.
 *
 * Each emitted entry's hash count is the number of hashes rolled since the
 * previous entry, itself included, and the counter restarts at zero.
 */
module PohRecorder {

  datatype Transaction = Transaction(id: nat)

  datatype Entry = Entry(numHashes: nat, transactions: seq<Transaction>)
  {
    /** A tick is an entry without transactions. */
    predicate IsTick()
    {
      |transactions| == 0
    }
  }

  datatype Recorder = Recorder(numHashes: nat, entries: seq<Entry>)

  /** The calls the recorder accepts. */
  datatype Call = HashCall | TickCall | RecordCall(transactions: seq<Transaction>)

  /** One successful call. The log only ever grows. */
  function Step(r: Recorder, c: Call): (r': Recorder)
    ensures |r'.entries| >= |r.entries| && r'.entries[..|r.entries|] == r.entries
    ensures c.HashCall? ==> r'.entries == r.entries && r'.numHashes == r.numHashes + 1
    ensures !c.HashCall? ==> |r'.entries| == |r.entries| + 1 && r'.numHashes == 0
    ensures !c.HashCall? ==> r'.entries[|r.entries|].numHashes == r.numHashes + 1
  {
    match c
    case HashCall => r.(numHashes := r.numHashes + 1)
    case TickCall => Recorder(0, r.entries + [Entry(r.numHashes + 1, [])])
    case RecordCall(transactions) => Recorder(0, r.entries + [Entry(r.numHashes + 1, transactions)])
  }

  /** Successive successful calls, in order. */
  function Apply(r: Recorder, calls: seq<Call>): (r': Recorder)
    ensures |r'.entries| >= |r.entries| && r'.entries[..|r.entries|] == r.entries
    decreases |calls|
  {
    if |calls| == 0 then r
    else
      var next := Step(r, calls[0]);
      var r' := Apply(next, calls[1..]);
      assert r'.entries[..|r.entries|] == r'.entries[..|next.entries|][..|r.entries|];
      r'
  }

  lemma {:induction false} ApplyAppend(r: Recorder, a: seq<Call>, b: seq<Call>)
    ensures Apply(r, a + b) == Apply(Apply(r, a), b)
    decreases |a|
  {
    if |a| == 0 {
      assert a + b == b;
    } else {
      assert (a + b)[1..] == a[1..] + b;
      ApplyAppend(Step(r, a[0]), a[1..], b);
    }
  }

  function HashCallCount(calls: seq<Call>): nat
  {
    if |calls| == 0 then 0 else (if calls[0].HashCall? then 1 else 0) + HashCallCount(calls[1..])
  }

  function TickCallCount(calls: seq<Call>): nat
  {
    if |calls| == 0 then 0 else (if calls[0].TickCall? then 1 else 0) + TickCallCount(calls[1..])
  }

  lemma {:induction false} CountsAppend(a: seq<Call>, b: seq<Call>)
    ensures HashCallCount(a + b) == HashCallCount(a) + HashCallCount(b)
    ensures TickCallCount(a + b) == TickCallCount(a) + TickCallCount(b)
    decreases |a|
  {
    if |a| == 0 {
      assert a + b == b;
    } else {
      assert (a + b)[1..] == a[1..] + b;
      CountsAppend(a[1..], b);
    }
  }

  /** Hashes an entry accounts for beyond the one that mixed in its transactions. */
  function IdleWork(e: Entry): int
  {
    if e.IsTick() then e.numHashes else e.numHashes - 1
  }

  /** Total idle work of a run of entries. */
  function Balance(entries: seq<Entry>): int
  {
    if |entries| == 0 then 0 else IdleWork(entries[0]) + Balance(entries[1..])
  }

  lemma {:induction false} BalanceAppend(a: seq<Entry>, b: seq<Entry>)
    ensures Balance(a + b) == Balance(a) + Balance(b)
    decreases |a|
  {
    if |a| == 0 {
      assert a + b == b;
    } else {
      assert (a + b)[1..] == a[1..] + b;
      BalanceAppend(a[1..], b);
    }
  }

  /** Every `record` call carries at least one transaction. */
  predicate RecordsCarryTransactions(calls: seq<Call>)
  {
    forall i | 0 <= i < |calls| :: calls[i].RecordCall? ==> |calls[i].transactions| > 0
  }

  /**
   * No hash is lost or counted twice: every `hash` and `tick` call is
   * accounted for either by the counter or by the idle work of exactly one
   * emitted entry.
   */
  lemma {:induction false} HashAccounting(r: Recorder, calls: seq<Call>)
    requires RecordsCarryTransactions(calls)
    ensures var r' := Apply(r, calls);
      r'.numHashes + Balance(r'.entries[|r.entries|..]) == r.numHashes + HashCallCount(calls) + TickCallCount(calls)
    decreases |calls|
  {
    if |calls| > 0 {
      var next := Step(r, calls[0]);
      var r' := Apply(next, calls[1..]);
      assert RecordsCarryTransactions(calls[1..]) by {
        forall i | 0 <= i < |calls[1..]| ensures calls[1..][i].RecordCall? ==> |calls[1..][i].transactions| > 0 {
          assert calls[1..][i] == calls[i + 1];
        }
      }
      HashAccounting(next, calls[1..]);
      var emitted := next.entries[|r.entries|..];
      assert r'.entries[|r.entries|..] == emitted + r'.entries[|next.entries|..];
      BalanceAppend(emitted, r'.entries[|next.entries|..]);
      if !calls[0].HashCall? {
        assert emitted == [next.entries[|r.entries|]];
        assert calls[0].RecordCall? ==> |calls[0].transactions| > 0;
      }
    }
  }

  /** Between entries, the counter grows only through `hash` calls. */
  lemma {:induction false} CounterBound(r: Recorder, calls: seq<Call>)
    ensures Apply(r, calls).numHashes <= r.numHashes + HashCallCount(calls)
    decreases |calls|
  {
    if |calls| > 0 {
      CounterBound(Step(r, calls[0]), calls[1..]);
    }
  }

  /** Without `tick` calls, every emitted entry is a `record` entry of at least one hash. */
  lemma {:induction false} RecordEntries(r: Recorder, calls: seq<Call>)
    requires RecordsCarryTransactions(calls) && TickCallCount(calls) == 0
    ensures forall i | |r.entries| <= i < |Apply(r, calls).entries| ::
      !Apply(r, calls).entries[i].IsTick() && Apply(r, calls).entries[i].numHashes >= 1
    decreases |calls|
  {
    if |calls| > 0 {
      var next := Step(r, calls[0]);
      assert RecordsCarryTransactions(calls[1..]) by {
        forall i | 0 <= i < |calls[1..]| ensures calls[1..][i].RecordCall? ==> |calls[1..][i].transactions| > 0 {
          assert calls[1..][i] == calls[i + 1];
        }
      }
      RecordEntries(next, calls[1..]);
      var r' := Apply(next, calls[1..]);
      assert r' == Apply(r, calls);
      assert calls[0].RecordCall? ==> |calls[0].transactions| > 0;
      if !calls[0].HashCall? {
        assert r'.entries[|r.entries|] == next.entries[|r.entries|];
      }
    }
  }
}
