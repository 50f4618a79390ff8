/** Log records, the meaning of a log, and what makes a log well formed.

    The LSN of a record is its 1-based position in the log; -1 stands for "none". */
module LogModel {
  import opened Storage

  type TxNum = int
  type LSN = int

  const NO_LSN: LSN := -1

  datatype Status = Running | Committed | Aborting

  datatype AttEntry = AttEntry(status: Status, lastLSN: LSN)

  type Att = map<TxNum, AttEntry>
  type Dpt = map<BlockId, LSN>

  lemma SomeMember(ts: set<TxNum>)
    requires ts != {}
    ensures exists t :: t in ts
  {
    if forall t :: t !in ts { assert false; }
  }

  datatype Record =
    | CheckpointBegin
    | CheckpointEnd(beginLSN: LSN, att: Att, dpt: Dpt)
    | Start(txnum: TxNum)
    | End(txnum: TxNum, prevLSN: LSN)
    | Commit(txnum: TxNum, prevLSN: LSN)
    | Abort(txnum: TxNum, prevLSN: LSN)
    | Update(txnum: TxNum, prevLSN: LSN, blk: BlockId, fld: Field, oldVal: Value, newVal: Value)
    | Compensation(txnum: TxNum, prevLSN: LSN, blk: BlockId, fld: Field, oldVal: Value, newVal: Value,
                   undoNextLSN: LSN)
  {
    predicate Dirties() { Update? || Compensation? }

    predicate Writes(b: BlockId) { Dirties() && blk == b }

    predicate OfTx(t: TxNum) { !CheckpointBegin? && !CheckpointEnd? && txnum == t }
  }

  type Log = seq<Record>

  function Init(log: Log): Log
    requires log != []
  {
    log[..|log| - 1]
  }

  function Last(log: Log): Record
    requires log != []
  {
    log[|log| - 1]
  }

  // ---------------------------------------------------------------- replay

  function ApplyRecord(p: PageImage, r: Record, lsn: LSN, b: BlockId): PageImage {
    if r.Writes(b) then p.Put(r.fld, r.newVal, lsn) else p
  }

  /** Block `b` after every update and compensation record of the log has been applied in order. */
  function Replay(log: Log, b: BlockId): PageImage {
    if log == [] then BlankPage else ApplyRecord(Replay(Init(log), b), Last(log), |log|, b)
  }

  // ---------------------------------------------------------------- transactions

  /** What a log says about a transaction that has not ended: its status, the LSNs of its START and
      of its last record, and the LSNs of its updates that are neither committed nor compensated. */
  datatype TxInfo = TxInfo(status: Status, start: LSN, last: LSN, pending: seq<LSN>) {
    function Top(): LSN { if pending == [] then start else pending[|pending| - 1] }
  }

  type TxView = map<TxNum, TxInfo>

  function ViewStep(v: TxView, r: Record, lsn: LSN): TxView {
    match r
    case Start(t) => v[t := TxInfo(Running, lsn, lsn, [])]
    case Update(t, _, _, _, _, _) =>
      if t in v then v[t := v[t].(last := lsn, pending := v[t].pending + [lsn])] else v
    case Compensation(t, _, _, _, _, _, _) =>
      if t in v && v[t].pending != []
      then v[t := v[t].(last := lsn, pending := v[t].pending[..|v[t].pending| - 1])]
      else v
    case Commit(t, _) => if t in v then v[t := v[t].(status := Committed, last := lsn, pending := [])] else v
    case Abort(t, _) => if t in v then v[t := v[t].(status := Aborting, last := lsn)] else v
    case End(t, _) => v - {t}
    case _ => v
  }

  function Views(log: Log): TxView {
    if log == [] then map[] else ViewStep(Views(Init(log)), Last(log), |log|)
  }

  function AttOf(v: TxView): Att {
    map t | t in v :: AttEntry(v[t].status, v[t].last)
  }

  // ---------------------------------------------------------------- well-formed logs

  /** No transaction other than `t` has an outstanding update on block `b`. */
  ghost predicate SoleWriter(log: Log, t: TxNum, b: BlockId) {
    var v := Views(log);
    forall u, p | u in v && u != t && p in v[u].pending && 1 <= p <= |log| :: !log[p - 1].Writes(b)
  }

  /** `r` may follow `log`: records of one transaction are chained by prevLSN, an update logs the
      value it overwrites and is the only outstanding writer of its block, a compensation record
      reverses the newest outstanding update of an aborting transaction, and a CHECKPOINT-END
      follows its CHECKPOINT-BEGIN and carries the transaction table at that point. */
  ghost predicate OkAppend(log: Log, r: Record) {
    var v := Views(log);
    match r
    case CheckpointBegin => true
    case CheckpointEnd(begin, att, dpt) =>
      && log != [] && begin == |log| && Last(log).CheckpointBegin?
      && att == AttOf(v)
      && forall b | b in dpt :: 1 <= dpt[b] <= |log|
    case Start(t) => t >= 0 && t !in v
    case End(t, prev) =>
      && t in v && prev == v[t].last
      && (v[t].status == Committed || (v[t].status == Aborting && v[t].pending == []))
    case Commit(t, prev) => t in v && v[t].status == Running && prev == v[t].last
    case Abort(t, prev) => t in v && v[t].status == Running && prev == v[t].last
    case Update(t, prev, b, f, was, _) =>
      && t in v && v[t].status == Running && prev == v[t].last
      && was == Replay(log, b).Get(f)
      && SoleWriter(log, t, b)
    case Compensation(t, prev, b, f, was, now, undoNext) =>
      && t in v && v[t].status == Aborting && prev == v[t].last && v[t].pending != []
      && 1 <= v[t].Top() <= |log|
      && var u := log[v[t].Top() - 1];
      && u.Update? && u.blk == b && u.fld == f && u.oldVal == now && u.newVal == was && u.prevLSN == undoNext
  }

  ghost predicate WfLog(log: Log) {
    log == [] || (WfLog(Init(log)) && OkAppend(Init(log), Last(log)))
  }

  // ---------------------------------------------------------------- committed values

  /** From position `i` on, transaction `t` commits before its number is given to a new transaction. */
  predicate CommitsFrom(log: Log, i: nat, t: TxNum)
    requires i <= |log|
    decreases |log| - i
  {
    if i == |log| then false
    else if log[i].Commit? && log[i].txnum == t then true
    else if log[i].Start? && log[i].txnum == t then false
    else CommitsFrom(log, i + 1, t)
  }

  /** The update at position `i` belongs to a transaction whose COMMIT record is in the log. */
  predicate Winner(log: Log, i: nat)
    requires i < |log|
  {
    log[i].Update? && CommitsFrom(log, i + 1, log[i].txnum)
  }

  /** Field `f` of block `b` after replaying, in log order and from zero, only those of the first `n`
      records that are updates of transactions committed in `log`. */
  function CommittedVal(log: Log, n: nat, b: BlockId, f: Field): Value
    requires n <= |log|
  {
    if n == 0 then ZeroOf(f.kind)
    else if log[n - 1].Writes(b) && log[n - 1].fld == f && Winner(log, n - 1) then log[n - 1].newVal
    else CommittedVal(log, n - 1, b, f)
  }

  /** The value field `f` of block `b` must have once every unfinished transaction is undone. */
  function CommittedValue(log: Log, b: BlockId, f: Field): Value {
    CommittedVal(log, |log|, b, f)
  }
}
