/** Histories of block reads and writes, and strict two-phase locking. */
module Serializability {
  import opened Storage

  type TxId = nat

  datatype Mode = S | X

  /** A field of a block is read, seeing `val`, or set to `val`. */
  datatype Op = Get(tx: TxId, blk: BlockId, fld: Field, val: Value) | Set(tx: TxId, blk: BlockId, fld: Field, val: Value)

  type History = seq<Op>

  type Db = map<(BlockId, Field), Value>

  function Front(h: History): History
    requires h != []
  {
    h[..|h| - 1]
  }

  function Back(h: History): Op
    requires h != []
  {
    h[|h| - 1]
  }

  predicate Conflict(a: Op, b: Op) { a.tx != b.tx && a.blk == b.blk && (a.Set? || b.Set?) }

  // ---------------------------------------------------------------- meaning

  function Lookup(db: Db, b: BlockId, f: Field): Value {
    if (b, f) in db then db[(b, f)] else ZeroOf(f.kind)
  }

  function Apply(db: Db, o: Op): Db {
    if o.Set? then db[(o.blk, o.fld) := o.val] else db
  }

  predicate Sees(db: Db, o: Op) { o.Get? ==> Lookup(db, o.blk, o.fld) == o.val }

  /** The database after the operations. */
  function Final(db: Db, h: History): Db {
    if h == [] then db else Apply(Final(db, Front(h)), Back(h))
  }

  /** Every read sees the value last written. */
  predicate Legal(db: Db, h: History) {
    h == [] || (Legal(db, Front(h)) && Sees(Final(db, Front(h)), Back(h)))
  }

  /** Databases that read the same. */
  ghost predicate Same(d: Db, e: Db) {
    forall b, f :: Lookup(d, b, f) == Lookup(e, b, f)
  }

  predicate Sets(o: Op, b: BlockId, f: Field) { o.Set? && o.blk == b && o.fld == f }

  /** Operation `j` is the last of the first `n` that sets the field. */
  ghost predicate LastSet(h: History, n: nat, b: BlockId, f: Field, j: int)
    requires n <= |h|
  {
    0 <= j < n && Sets(h[j], b, f) && forall k | j < k < n :: !Sets(h[k], b, f)
  }

  /** The value last set by the first `n` operations, or the zero nobody has set. */
  ghost predicate LastWritten(h: History, n: nat, b: BlockId, f: Field, v: Value)
    requires n <= |h|
  {
    || (exists j :: LastSet(h, n, b, f, j) && h[j].val == v)
    || ((forall k | 0 <= k < n :: !Sets(h[k], b, f)) && v == ZeroOf(f.kind))
  }

  lemma {:induction false} FinalIsLastWritten(h: History, n: nat, b: BlockId, f: Field)
    requires n <= |h|
    ensures LastWritten(h, n, b, f, Lookup(Final(map[], h[..n]), b, f))
    decreases n
  {
    if n > 0 {
      assert Front(h[..n]) == h[..n - 1];
      FinalIsLastWritten(h, n - 1, b, f);
      if Sets(h[n - 1], b, f) {
        assert LastSet(h, n, b, f, n - 1);
      } else {
        forall j | LastSet(h, n - 1, b, f, j) ensures LastSet(h, n, b, f, j) {
        }
      }
    }
  }

  /** In a legal history every read sees the value last written. */
  lemma {:induction false} LegalSeesLastWrite(h: History, i: nat)
    requires Legal(map[], h) && i < |h| && h[i].Get?
    ensures LastWritten(h, i, h[i].blk, h[i].fld, h[i].val)
    decreases |h|
  {
    if i < |h| - 1 {
      var g := Front(h);
      LegalSeesLastWrite(g, i);
      LastWrittenLonger(g, h, i, h[i].blk, h[i].fld, h[i].val);
    } else {
      FinalIsLastWritten(h, i, h[i].blk, h[i].fld);
    }
  }

  lemma LastWrittenLonger(g: History, h: History, n: nat, b: BlockId, f: Field, v: Value)
    requires n <= |g| <= |h| && h[..|g|] == g && LastWritten(g, n, b, f, v)
    ensures LastWritten(h, n, b, f, v)
  {
    forall k | 0 <= k < n ensures h[k] == g[k] { assert h[..|g|][k] == h[k]; }
    if j :| LastSet(g, n, b, f, j) && g[j].val == v { assert LastSet(h, n, b, f, j) && h[j].val == v; }
  }

  // ---------------------------------------------------------------- serial order

  /** Put `x` behind all operations of transactions ranked no higher. */
  function Insert(h: History, x: Op, rank: TxId -> nat): History {
    if h != [] && rank(Back(h).tx) > rank(x.tx) then Insert(Front(h), x, rank) + [Back(h)] else h + [x]
  }

  /** The operations of each transaction together, transactions in the order of their rank. */
  function Serial(h: History, rank: TxId -> nat): History {
    if h == [] then [] else Insert(Serial(Front(h), rank), Back(h), rank)
  }

  /** Conflicting operations come in the order of the ranks. */
  ghost predicate RespectsRank(h: History, rank: TxId -> nat) {
    forall i, j | 0 <= i < j < |h| && Conflict(h[i], h[j]) :: rank(h[i].tx) < rank(h[j].tx)
  }

  lemma Snoc(h: History, x: Op)
    ensures Front(h + [x]) == h && Back(h + [x]) == x
    ensures forall db :: Final(db, h + [x]) == Apply(Final(db, h), x)
    ensures forall db :: Legal(db, h + [x]) <==> Legal(db, h) && Sees(Final(db, h), x)
  {
    assert Front(h + [x]) == h;
  }

  /** Neighbours that do not conflict, of different transactions, can change places. */
  lemma Swap(db: Db, h: History, y: Op, x: Op)
    requires !Conflict(y, x) && y.tx != x.tx
    requires Legal(db, h + [y] + [x])
    ensures Legal(db, h + [x] + [y]) && Same(Final(db, h + [x] + [y]), Final(db, h + [y] + [x]))
  {
    Snoc(h, y);
    Snoc(h + [y], x);
    Snoc(h, x);
    Snoc(h + [x], y);
  }

  lemma SameExtends(d: Db, e: Db, o: Op)
    requires Same(d, e)
    ensures Same(Apply(d, o), Apply(e, o)) && (Sees(d, o) <==> Sees(e, o))
  {
    assert Lookup(d, o.blk, o.fld) == Lookup(e, o.blk, o.fld);
    forall b, f ensures Lookup(Apply(d, o), b, f) == Lookup(Apply(e, o), b, f) {
      assert Lookup(d, b, f) == Lookup(e, b, f);
    }
  }

  lemma {:induction false} InsertMeans(db: Db, h: History, x: Op, rank: TxId -> nat)
    requires Legal(db, h + [x])
    requires forall i | 0 <= i < |h| && rank(h[i].tx) > rank(x.tx) :: !Conflict(h[i], x)
    ensures Legal(db, Insert(h, x, rank)) && Same(Final(db, Insert(h, x, rank)), Final(db, h + [x]))
  {
    if h != [] && rank(Back(h).tx) > rank(x.tx) {
      var g, y := Front(h), Back(h);
      assert h == g + [y];
      assert y == h[|h| - 1];
      Swap(db, g, y, x);
      Snoc(g + [x], y);
      Snoc(g, x);
      InsertMeans(db, g, x, rank);
      Snoc(Insert(g, x, rank), y);
      SameExtends(Final(db, Insert(g, x, rank)), Final(db, g + [x]), y);
    }
  }

  lemma {:induction false} InsertMembers(h: History, x: Op, rank: TxId -> nat)
    ensures multiset(Insert(h, x, rank)) == multiset(h) + multiset{x}
  {
    if h != [] && rank(Back(h).tx) > rank(x.tx) {
      InsertMembers(Front(h), x, rank);
      assert h == Front(h) + [Back(h)];
    }
  }

  lemma {:induction false} SerialMembers(h: History, rank: TxId -> nat)
    ensures multiset(Serial(h, rank)) == multiset(h)
  {
    if h != [] {
      var g, x := Front(h), Back(h);
      SerialMembers(g, rank);
      InsertMembers(Serial(g, rank), x, rank);
      MembersSnoc(g, x);
      assert h == g + [x];
    }
  }

  lemma MembersSnoc(g: History, x: Op)
    ensures multiset(g + [x]) == multiset(g) + multiset{x}
  {
  }

  lemma MemberOf(h: History, g: History, i: nat) returns (j: nat)
    requires multiset(h) == multiset(g) && i < |h|
    ensures j < |g| && g[j] == h[i]
  {
    assert h[i] in multiset(h);
    assert h[i] in g;
    j :| 0 <= j < |g| && g[j] == h[i];
  }

  /** A history that respects the ranks means the same as its serial order: every read sees the same value
      and the database ends up the same. */
  lemma {:induction false} SerialMeans(db: Db, h: History, rank: TxId -> nat)
    requires Legal(db, h) && RespectsRank(h, rank)
    ensures Legal(db, Serial(h, rank)) && Same(Final(db, Serial(h, rank)), Final(db, h))
  {
    if h != [] {
      var g, x := Front(h), Back(h);
      assert h == g + [x];
      SerialMeans(db, g, rank);
      var s := Serial(g, rank);
      SerialMembers(g, rank);
      forall i | 0 <= i < |s| && rank(s[i].tx) > rank(x.tx) ensures !Conflict(s[i], x) {
        var j := MemberOf(s, g, i);
        assert h[j] == g[j] && h[|h| - 1] == x;
      }
      Snoc(g, x);
      Snoc(s, x);
      SameExtends(Final(db, s), Final(db, g), x);
      InsertMeans(db, s, x, rank);
    }
  }

  // ---------------------------------------------------------------- the serial order is one

  /** Ranks never fall. */
  ghost predicate Sorted(h: History, rank: TxId -> nat) {
    forall i, j | 0 <= i < j < |h| :: rank(h[i].tx) <= rank(h[j].tx)
  }

  function Project(h: History, t: TxId): History {
    if h == [] then [] else if Back(h).tx == t then Project(Front(h), t) + [Back(h)] else Project(Front(h), t)
  }

  lemma ProjectSnoc(h: History, x: Op, t: TxId)
    ensures Project(h + [x], t) == if x.tx == t then Project(h, t) + [x] else Project(h, t)
  {
    assert Front(h + [x]) == h;
  }

  lemma {:induction false} InsertSorted(h: History, x: Op, rank: TxId -> nat)
    requires Sorted(h, rank)
    ensures Sorted(Insert(h, x, rank), rank)
    ensures forall i | 0 <= i < |Insert(h, x, rank)| :: Insert(h, x, rank)[i] in h || Insert(h, x, rank)[i] == x
  {
    if h != [] && rank(Back(h).tx) > rank(x.tx) {
      InsertSorted(Front(h), x, rank);
      var g := Insert(Front(h), x, rank);
      forall i | 0 <= i < |g| ensures rank(g[i].tx) <= rank(Back(h).tx) {
        if g[i] != x {
          var k :| 0 <= k < |Front(h)| && Front(h)[k] == g[i];
          assert h[k] == g[i] && h[|h| - 1] == Back(h);
        }
      }
    }
  }

  lemma {:induction false} InsertKeepsOrder(h: History, x: Op, rank: TxId -> nat, t: TxId)
    ensures Project(Insert(h, x, rank), t) == Project(h + [x], t)
  {
    ProjectSnoc(h, x, t);
    if h != [] && rank(Back(h).tx) > rank(x.tx) {
      InsertKeepsOrder(Front(h), x, rank, t);
      ProjectSnoc(Front(h), x, t);
      ProjectSnoc(Insert(Front(h), x, rank), Back(h), t);
    }
  }

  /** The serial order lists the ranks in order and keeps every transaction's own operations in theirs. */
  lemma {:induction false} SerialIsSerial(h: History, rank: TxId -> nat, t: TxId)
    ensures Sorted(Serial(h, rank), rank) && Project(Serial(h, rank), t) == Project(h, t)
  {
    if h != [] {
      SerialIsSerial(Front(h), rank, t);
      InsertSorted(Serial(Front(h), rank), Back(h), rank);
      InsertKeepsOrder(Serial(Front(h), rank), Back(h), rank, t);
      ProjectSnoc(Serial(Front(h), rank), Back(h), t);
    }
  }

  // ---------------------------------------------------------------- strict two-phase locking

  type Grants = map<(TxId, BlockId), Mode>

  /** `order`: the transactions that have begun to release their locks, in that order. */
  datatype State = State(db: Db, grants: Grants, order: seq<TxId>, history: History)

  const EMPTY := State(map[], map[], [], [])

  /** No other transaction holds a lock that excludes this one. */
  ghost predicate Compatible(grants: Grants, t: TxId, b: BlockId, m: Mode) {
    forall u | u != t && (u, b) in grants :: m == S && grants[(u, b)] == S
  }

  predicate Holds(grants: Grants, t: TxId, b: BlockId, m: Mode) {
    (t, b) in grants && (m == X ==> grants[(t, b)] == X)
  }

  datatype Action =
    | Lock(t: TxId, b: BlockId, m: Mode)
    | Read(t: TxId, b: BlockId, f: Field)
    | Write(t: TxId, b: BlockId, f: Field, v: Value)
    | BeginRelease(t: TxId)
    | Unlock(t: TxId, b: BlockId)

  ghost predicate Enabled(s: State, a: Action) {
    match a
    case Lock(t, b, m) => t !in s.order && Compatible(s.grants, t, b, m) && !Holds(s.grants, t, b, m)
    case Read(t, b, f) => t !in s.order && Holds(s.grants, t, b, S)
    case Write(t, b, f, v) => t !in s.order && Holds(s.grants, t, b, X)
    case BeginRelease(t) => t !in s.order
    case Unlock(t, b) => t in s.order && (t, b) in s.grants
  }

  ghost function Do(s: State, a: Action): State
    requires Enabled(s, a)
  {
    match a
    case Lock(t, b, m) => s.(grants := s.grants[(t, b) := m])
    case Read(t, b, f) => s.(history := s.history + [Get(t, b, f, Lookup(s.db, b, f))])
    case Write(t, b, f, v) => s.(history := s.history + [Set(t, b, f, v)], db := s.db[(b, f) := v])
    case BeginRelease(t) => s.(order := s.order + [t])
    case Unlock(t, b) => s.(grants := s.grants - {(t, b)})
  }

  /** Position in the release order; transactions that still hold all their locks come behind. */
  function Rank(order: seq<TxId>, t: TxId): nat {
    if order == [] then t else if order[0] == t then 0 else 1 + Rank(order[1..], t)
  }

  lemma {:induction false} RankIn(order: seq<TxId>, t: TxId)
    requires t in order
    ensures Rank(order, t) < |order|
  {
    if order[0] != t { RankIn(order[1..], t); }
  }

  lemma {:induction false} RankOut(order: seq<TxId>, t: TxId)
    requires t !in order
    ensures Rank(order, t) == |order| + t
  {
    if order != [] { RankOut(order[1..], t); }
  }

  lemma {:induction false} RankSnoc(order: seq<TxId>, u: TxId, t: TxId)
    requires u !in order
    ensures t in order ==> Rank(order + [u], t) == Rank(order, t)
    ensures t == u ==> Rank(order + [u], t) == |order|
    ensures t !in order && t != u ==> Rank(order + [u], t) == |order| + 1 + t
  {
    if order == [] {
    } else {
      assert (order + [u])[1..] == order[1..] + [u];
      if order[0] != t { RankSnoc(order[1..], u, t); }
    }
  }

  /** What an operation in the history still means for the locks: its transaction holds the lock, or has
      begun to release. */
  predicate Covered(s: State, o: Op) {
    o.tx in s.order || Holds(s.grants, o.tx, o.blk, if o.Set? then X else S)
  }

  ghost predicate Exclusive(grants: Grants) {
    forall t, b | (t, b) in grants :: Compatible(grants, t, b, grants[(t, b)])
  }

  /** Earlier conflicting operations belong to transactions released earlier. */
  predicate InOrder(order: seq<TxId>, a: Op, b: Op) {
    Conflict(a, b) ==> a.tx in order && Rank(order, a.tx) < Rank(order, b.tx)
  }

  ghost predicate Inv(s: State) {
    && Exclusive(s.grants)
    && (forall i | 0 <= i < |s.history| :: Covered(s, s.history[i]))
    && (forall i, j | 0 <= i < j < |s.history| :: InOrder(s.order, s.history[i], s.history[j]))
    && Legal(map[], s.history) && s.db == Final(map[], s.history)
  }

  lemma LockKeepsInv(s: State, a: Action)
    requires Inv(s) && Enabled(s, a) && a.Lock?
    ensures Inv(Do(s, a))
  {
    var s' := Do(s, a);
    forall i | 0 <= i < |s.history| ensures Covered(s', s.history[i]) { assert Covered(s, s.history[i]); }
    forall t, b | (t, b) in s'.grants ensures Compatible(s'.grants, t, b, s'.grants[(t, b)]) {
      if (t, b) in s.grants { assert Compatible(s.grants, t, b, s.grants[(t, b)]); }
    }
  }

  /** Whoever did a conflicting operation earlier has begun to release. */
  lemma EarlierReleased(s: State, o: Op, x: Op)
    requires Exclusive(s.grants) && Covered(s, o) && Conflict(o, x)
    requires x.tx !in s.order && Holds(s.grants, x.tx, x.blk, if x.Set? then X else S)
    ensures InOrder(s.order, o, x)
  {
    assert Compatible(s.grants, x.tx, x.blk, s.grants[(x.tx, x.blk)]);
    assert o.tx in s.order;
    RankIn(s.order, o.tx);
    RankOut(s.order, x.tx);
  }

  lemma OpKeepsInv(s: State, a: Action, x: Op)
    requires Inv(s) && Enabled(s, a) && (a.Read? || a.Write?)
    requires x == if a.Read? then Get(a.t, a.b, a.f, Lookup(s.db, a.b, a.f)) else Set(a.t, a.b, a.f, a.v)
    ensures Inv(Do(s, a))
  {
    var s' := Do(s, a);
    Snoc(s.history, x);
    forall i | 0 <= i < |s'.history| ensures Covered(s', s'.history[i]) {
      if i < |s.history| { assert Covered(s, s.history[i]); }
    }
    forall i, j | 0 <= i < j < |s'.history| ensures InOrder(s'.order, s'.history[i], s'.history[j]) {
      if j < |s.history| {
        assert InOrder(s.order, s.history[i], s.history[j]);
      } else if Conflict(s'.history[i], x) {
        EarlierReleased(s, s.history[i], x);
      }
    }
  }

  lemma BeginReleaseKeepsInv(s: State, a: Action)
    requires Inv(s) && Enabled(s, a) && a.BeginRelease?
    ensures Inv(Do(s, a))
  {
    var s' := Do(s, a);
    forall i | 0 <= i < |s.history| ensures Covered(s', s.history[i]) { assert Covered(s, s.history[i]); }
    forall i, j | 0 <= i < j < |s.history| ensures InOrder(s'.order, s.history[i], s.history[j]) {
      assert InOrder(s.order, s.history[i], s.history[j]);
      var x, y := s.history[i].tx, s.history[j].tx;
      if Conflict(s.history[i], s.history[j]) {
        RankSnoc(s.order, a.t, x);
        RankSnoc(s.order, a.t, y);
        RankIn(s.order, x);
      }
    }
  }

  lemma UnlockKeepsInv(s: State, a: Action)
    requires Inv(s) && Enabled(s, a) && a.Unlock?
    ensures Inv(Do(s, a))
  {
    var s' := Do(s, a);
    forall i | 0 <= i < |s.history| ensures Covered(s', s.history[i]) { assert Covered(s, s.history[i]); }
    forall t, b | (t, b) in s'.grants ensures Compatible(s'.grants, t, b, s'.grants[(t, b)]) {
      assert Compatible(s.grants, t, b, s.grants[(t, b)]);
    }
  }

  lemma StepKeepsInv(s: State, a: Action)
    requires Inv(s) && Enabled(s, a)
    ensures Inv(Do(s, a))
  {
    match a
    case Lock(_, _, _) => LockKeepsInv(s, a);
    case Read(t, b, f) => OpKeepsInv(s, a, Get(t, b, f, Lookup(s.db, b, f)));
    case Write(t, b, f, v) => OpKeepsInv(s, a, Set(t, b, f, v));
    case BeginRelease(_) => BeginReleaseKeepsInv(s, a);
    case Unlock(_, _) => UnlockKeepsInv(s, a);
  }

  ghost predicate CanRun(s: State, acts: seq<Action>)
    decreases |acts|
  {
    acts == [] || (Enabled(s, acts[0]) && CanRun(Do(s, acts[0]), acts[1..]))
  }

  ghost function Run(s: State, acts: seq<Action>): State
    requires CanRun(s, acts)
    decreases |acts|
  {
    if acts == [] then s else Run(Do(s, acts[0]), acts[1..])
  }

  lemma {:induction false} RunKeepsInv(s: State, acts: seq<Action>)
    requires Inv(s) && CanRun(s, acts)
    ensures Inv(Run(s, acts))
    decreases |acts|
  {
    if acts != [] {
      StepKeepsInv(s, acts[0]);
      RunKeepsInv(Do(s, acts[0]), acts[1..]);
    }
  }

  function RankIn2PL(order: seq<TxId>): TxId -> nat { (t: TxId) => Rank(order, t) }

  /** Between two operations of one transaction there is none of another. */
  ghost predicate OneAtATime(h: History) {
    forall i, j, k | 0 <= i <= j <= k < |h| && h[i].tx == h[k].tx :: h[j].tx == h[i].tx
  }

  /** The history means the same as running the transactions one after the other by rank: conflicting
      operations keep their order, every read sees the same value, the database ends the same, and each
      transaction does its own operations in its own order. */
  ghost predicate SerialEquivalent(h: History, rank: TxId -> nat, db: Db) {
    && RespectsRank(h, rank)
    && Legal(map[], Serial(h, rank)) && Same(Final(map[], Serial(h, rank)), db)
    && (forall t, u | t != u :: rank(t) != rank(u))
    && Sorted(Serial(h, rank), rank) && OneAtATime(Serial(h, rank))
    && multiset(Serial(h, rank)) == multiset(h)
    && forall t :: Project(Serial(h, rank), t) == Project(h, t)
  }

  lemma HistoryRespectsRank(s: State)
    requires Inv(s)
    ensures RespectsRank(s.history, RankIn2PL(s.order))
  {
    var h := s.history;
    forall i, j | 0 <= i < j < |h| && Conflict(h[i], h[j])
      ensures RankIn2PL(s.order)(h[i].tx) < RankIn2PL(s.order)(h[j].tx)
    {
      assert InOrder(s.order, h[i], h[j]);
    }
  }

  /** Different transactions have different ranks, so a sorted history runs them one at a time. */
  lemma {:induction false} RanksDiffer(order: seq<TxId>, t: TxId, u: TxId)
    requires t != u
    ensures Rank(order, t) != Rank(order, u)
  {
    if order != [] && order[0] != t && order[0] != u { RanksDiffer(order[1..], t, u); }
  }

  lemma SortedIsOneAtATime(h: History, rank: TxId -> nat)
    requires Sorted(h, rank) && forall t, u | t != u :: rank(t) != rank(u)
    ensures OneAtATime(h)
  {
    forall i, j, k | 0 <= i <= j <= k < |h| && h[i].tx == h[k].tx ensures h[j].tx == h[i].tx {
      assert rank(h[i].tx) <= rank(h[j].tx) <= rank(h[k].tx);
    }
  }

  lemma RespectingIsSerialEquivalent(h: History, rank: TxId -> nat)
    requires RespectsRank(h, rank) && Legal(map[], h) && forall t, u | t != u :: rank(t) != rank(u)
    ensures SerialEquivalent(h, rank, Final(map[], h))
  {
    SerialMeans(map[], h, rank);
    SerialMembers(h, rank);
    SerialIsSerial(h, rank, 0);
    SortedIsOneAtATime(Serial(h, rank), rank);
    forall t ensures Project(Serial(h, rank), t) == Project(h, t) { SerialIsSerial(h, rank, t); }
  }

  /** Serializability: every interleaving that strict two-phase locking admits is equivalent to running the
      transactions in the order in which they began to release their locks. */
  lemma Strict2PLIsSerializable(acts: seq<Action>)
    requires CanRun(EMPTY, acts)
    ensures var s := Run(EMPTY, acts); SerialEquivalent(s.history, RankIn2PL(s.order), s.db)
  {
    RunKeepsInv(EMPTY, acts);
    var s := Run(EMPTY, acts);
    HistoryRespectsRank(s);
    forall t, u | t != u ensures RankIn2PL(s.order)(t) != RankIn2PL(s.order)(u) { RanksDiffer(s.order, t, u); }
    RespectingIsSerialEquivalent(s.history, RankIn2PL(s.order));
  }

  /** Every read of the history sees the value last written before it. */
  ghost predicate ReadsLastWritten(h: History) {
    forall i: nat | i < |h| && h[i].Get? :: LastWritten(h, i, h[i].blk, h[i].fld, h[i].val)
  }

  lemma LegalReadsLastWritten(h: History)
    requires Legal(map[], h)
    ensures ReadsLastWritten(h)
  {
    forall i: nat | i < |h| && h[i].Get? ensures LastWritten(h, i, h[i].blk, h[i].fld, h[i].val) {
      LegalSeesLastWrite(h, i);
    }
  }

  /** Under strict two-phase locking every read sees the value last written before it, in the interleaved history
      and in the serial one, and the database holds the values last written. */
  lemma ReadsSeeLastWrite(acts: seq<Action>, b: BlockId, f: Field)
    requires CanRun(EMPTY, acts)
    ensures var s := Run(EMPTY, acts);
            && ReadsLastWritten(s.history) && ReadsLastWritten(Serial(s.history, RankIn2PL(s.order)))
            && LastWritten(s.history, |s.history|, b, f, Lookup(s.db, b, f))
  {
    RunKeepsInv(EMPTY, acts);
    Strict2PLIsSerializable(acts);
    var s := Run(EMPTY, acts);
    LegalReadsLastWritten(s.history);
    LegalReadsLastWritten(Serial(s.history, RankIn2PL(s.order)));
    assert s.history[..|s.history|] == s.history;
    FinalIsLastWritten(s.history, |s.history|, b, f);
  }
}
