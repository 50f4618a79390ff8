/** Replay of log prefixes, and pages that show exactly a prefix. */
module ReplayLemmas {
  import opened Storage
  import opened LogModel

  lemma ReplayAt(log: Log, i: nat, b: BlockId)
    requires i < |log|
    ensures Replay(log[..i + 1], b) == ApplyRecord(Replay(log[..i], b), log[i], i + 1, b)
  {
    assert Init(log[..i + 1]) == log[..i];
  }

  lemma {:induction false} LsnBounds(log: Log, n: nat, b: BlockId)
    requires n <= |log|
    ensures 0 <= Replay(log[..n], b).lsn <= n
  {
    if n > 0 {
      ReplayAt(log, n - 1, b);
      LsnBounds(log, n - 1, b);
    }
  }

  lemma {:induction false} LsnMonotone(log: Log, m: nat, n: nat, b: BlockId)
    requires m <= n <= |log|
    ensures Replay(log[..m], b).lsn <= Replay(log[..n], b).lsn
    decreases n
  {
    if m < n {
      LsnMonotone(log, m, n - 1, b);
      ReplayAt(log, n - 1, b);
      LsnBounds(log, n - 1, b);
    }
  }

  /** The page LSN is at least the LSN of every record for the block. */
  lemma LsnCoversRecord(log: Log, i: nat, n: nat, b: BlockId)
    requires i < n <= |log| && log[i].Writes(b)
    ensures i + 1 <= Replay(log[..n], b).lsn
  {
    ReplayAt(log, i, b);
    LsnMonotone(log, i + 1, n, b);
  }

  /** A page LSN other than zero is that of a record for the block. */
  lemma {:induction false} LsnIsRecord(log: Log, n: nat, b: BlockId)
    requires n <= |log| && Replay(log[..n], b).lsn > 0
    ensures var m := Replay(log[..n], b).lsn; 1 <= m <= n && log[m - 1].Writes(b)
  {
    ReplayAt(log, n - 1, b);
    if !log[n - 1].Writes(b) { LsnIsRecord(log, n - 1, b); }
  }

  /** Records after the page LSN do not touch the block. */
  lemma {:induction false} ReplayStable(log: Log, m: nat, n: nat, b: BlockId)
    requires m <= n <= |log| && Replay(log[..n], b).lsn <= m
    ensures Replay(log[..n], b) == Replay(log[..m], b)
    decreases n
  {
    if m < n {
      ReplayAt(log, n - 1, b);
      ReplayStable(log, m, n - 1, b);
    }
  }

  lemma PrefixOfPrefix(log: Log, m: nat, n: nat)
    requires m <= n <= |log|
    ensures log[..n][..m] == log[..m]
  {
  }
}
