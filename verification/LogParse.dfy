/** Reading logical records out of a sequence of physical ones. */
module LogParse {
  import opened Storage
  import opened ByteCodec
  import opened LogFormat

  function TypeOf(rec: Bytes): int
    requires |rec| >= 4
  {
    ToI32(rec[..4])
  }

  function FlagsOf(rec: Bytes): int
    requires |rec| >= 8
  {
    ToI32(rec[4..8])
  }

  function TotalOf(rec: Bytes): int
    requires |rec| >= 12
  {
    ToI32(rec[8..12])
  }

  predicate IsFragment(rec: Bytes) { |rec| >= 8 && TypeOf(rec) == FRAGMENT }

  predicate IsNormal(rec: Bytes) { |rec| >= 4 && TypeOf(rec) == NORMAL }

  predicate IsFirst(rec: Bytes) { IsFragment(rec) && FlagsOf(rec) == FRAG_FIRST && |rec| >= 12 && TotalOf(rec) > 0 }

  /** Following a chain of fragments: reassembled, or broken off, reading to go on at `next`; or the
      physical records ran out. */
  datatype Chain = Complete(payload: Bytes, next: nat) | Broken(next: nat) | RanOut

  function Follow(recs: seq<Bytes>, i: nat, total: nat, buf: Bytes): (c: Chain)
    ensures c.Complete? ==> i < c.next <= |recs|
    ensures c.Broken? && i <= |recs| ==> i <= c.next <= |recs|
    decreases |recs| - i
  {
    if |buf| >= total then Broken(i)
    else if i >= |recs| then RanOut
    else if !IsFragment(recs[i]) then Broken(i)
    else if FlagsOf(recs[i]) == FRAG_FIRST then Broken(i + 1)
    else if FlagsOf(recs[i]) == FRAG_CONT then Follow(recs, i + 1, total, buf + recs[i][8..])
    else if FlagsOf(recs[i]) == FRAG_LAST then
      if |buf| + |recs[i][8..]| == total then Complete(buf + recs[i][8..], i + 1)
      else Follow(recs, i + 1, total, buf + recs[i][8..])
    else Follow(recs, i + 1, total, buf)
  }

  /** The next logical record at or after physical record `i`: where it starts, its payload, and where to
      go on. */
  datatype Found = Found(start: nat, payload: Bytes, next: nat) | Nothing

  function NextEntry(recs: seq<Bytes>, i: nat): (f: Found)
    ensures f.Found? ==> i <= f.start < f.next <= |recs|
    decreases |recs| - i
  {
    if i >= |recs| then Nothing
    else if IsFirst(recs[i]) then
      match Follow(recs, i + 1, TotalOf(recs[i]), recs[i][12..])
      case Complete(payload, next) => Found(i, payload, next)
      case Broken(next) => NextEntry(recs, next)
      case RanOut => Nothing
    else if IsNormal(recs[i]) then Found(i, recs[i][4..], i + 1)
    else NextEntry(recs, i + 1)
  }

  // ---------------------------------------------------------------- reading back what was written

  lemma ReadNormal(payload: Bytes)
    ensures IsNormal(NormalRec(payload)) && !IsFragment(NormalRec(payload)) && NormalRec(payload)[4..] == payload
  {
    I32RoundTrip(NORMAL);
    assert NormalRec(payload)[..4] == I32(NORMAL);
  }

  lemma ReadFirst(total: int, chunk: Bytes)
    requires IsInt32(total)
    ensures var r := FirstRec(total, chunk);
            IsFragment(r) && FlagsOf(r) == FRAG_FIRST && |r| >= 12 && TotalOf(r) == total && r[12..] == chunk
  {
    I32RoundTrip(FRAGMENT);
    I32RoundTrip(FRAG_FIRST);
    I32RoundTrip(total);
    var r := FirstRec(total, chunk);
    assert r[..4] == I32(FRAGMENT) && r[4..8] == I32(FRAG_FIRST) && r[8..12] == I32(total);
  }

  lemma ReadCont(chunk: Bytes)
    ensures var r := ContRec(chunk); IsFragment(r) && FlagsOf(r) == FRAG_CONT && r[8..] == chunk
  {
    I32RoundTrip(FRAGMENT);
    I32RoundTrip(FRAG_CONT);
    var r := ContRec(chunk);
    assert r[..4] == I32(FRAGMENT) && r[4..8] == I32(FRAG_CONT);
  }

  lemma ReadLast(chunk: Bytes)
    ensures var r := LastRec(chunk); IsFragment(r) && FlagsOf(r) == FRAG_LAST && r[8..] == chunk
  {
    I32RoundTrip(FRAGMENT);
    I32RoundTrip(FRAG_LAST);
    var r := LastRec(chunk);
    assert r[..4] == I32(FRAGMENT) && r[4..8] == I32(FRAG_LAST);
  }

  /** The pieces the entry has kept lie in `recs` at its start. */
  ghost predicate Carries(recs: seq<Bytes>, e: Entry) {
    e.Ok() && e.start + e.kept <= |recs| && forall i | 0 <= i < e.kept :: recs[e.start + i] == e.Piece(i)
  }

  lemma CutOrder(e: Entry, i: nat)
    requires e.Ok() && e.Count() > 1 && i < e.Count()
    ensures e.cuts[i] < e.cuts[i + 1] <= |e.payload|
  {
    assert e.cuts[i] < e.cuts[i + 1];
    if i + 1 < |e.cuts| - 1 { assert e.cuts[i + 1] < e.cuts[|e.cuts| - 1]; }
  }

  /** The FIRST fragment of an entry. */
  lemma HeadOfChain(recs: seq<Bytes>, e: Entry)
    requires Carries(recs, e) && e.Count() > 1
    ensures e.cuts[1] <= |e.payload|
    ensures var r := recs[e.start];
            IsFirst(r) && !IsNormal(r) && TotalOf(r) == |e.payload| && r[12..] == e.payload[..e.cuts[1]]
  {
    assert recs[e.start + 0] == e.Piece(0);
    CutOrder(e, 0);
    ReadFirst(|e.payload|, e.payload[..e.cuts[1]]);
  }

  /** From any fragment on, following the chain reassembles the whole payload. */
  lemma {:induction false} FollowEntry(recs: seq<Bytes>, e: Entry, i: nat)
    requires Carries(recs, e) && e.Whole() && e.Count() > 1 && 1 <= i < e.Count()
    ensures e.cuts[i] <= |e.payload|
    ensures Follow(recs, e.start + i, |e.payload|, e.payload[..e.cuts[i]]) == Complete(e.payload, e.start + e.Count())
    decreases e.Count() - i
  {
    CutOrder(e, i);
    var buf := e.payload[..e.cuts[i]];
    assert recs[e.start + i] == e.Piece(i);
    if i == e.Count() - 1 {
      ReadLast(e.payload[e.cuts[i]..]);
      assert buf + e.payload[e.cuts[i]..] == e.payload;
    } else {
      var chunk := e.payload[e.cuts[i]..e.cuts[i + 1]];
      ReadCont(chunk);
      assert buf + chunk == e.payload[..e.cuts[i + 1]];
      FollowEntry(recs, e, i + 1);
    }
  }

  /** Reading at the start of a whole entry yields its payload and ends behind it. */
  lemma ReadEntry(recs: seq<Bytes>, e: Entry)
    requires Carries(recs, e) && e.Whole()
    ensures NextEntry(recs, e.start) == Found(e.start, e.payload, e.start + e.kept)
  {
    if e.Count() == 1 {
      assert recs[e.start + 0] == e.Piece(0);
      ReadNormal(e.payload);
    } else {
      HeadOfChain(recs, e);
      FollowEntry(recs, e, 1);
    }
  }

  // ---------------------------------------------------------------- torn chains

  /** What comes behind a torn chain, if anything, ends it. */
  ghost predicate EndsChain(recs: seq<Bytes>, i: nat) {
    i < |recs| && IsFragment(recs[i]) ==> FlagsOf(recs[i]) == FRAG_FIRST
  }

  /** Following a torn chain ends at the record after it, or runs out at the end of the log. */
  lemma {:induction false} FollowTorn(recs: seq<Bytes>, e: Entry, i: nat)
    requires Carries(recs, e) && !e.Whole() && 1 <= i <= e.kept && EndsChain(recs, e.start + e.kept)
    ensures e.cuts[i] <= |e.payload|
    ensures var n := e.start + e.kept;
            Follow(recs, e.start + i, |e.payload|, e.payload[..e.cuts[i]]) ==
            if n == |recs| then RanOut else Broken(if IsFragment(recs[n]) then n + 1 else n)
    decreases e.kept - i
  {
    CutOrder(e, i);
    if i < e.kept {
      assert recs[e.start + i] == e.Piece(i);
      var chunk := e.payload[e.cuts[i]..e.cuts[i + 1]];
      ReadCont(chunk);
      assert e.payload[..e.cuts[i]] + chunk == e.payload[..e.cuts[i + 1]];
      FollowTorn(recs, e, i + 1);
    }
  }

  /** Reading at a torn chain goes on at the record after it, but behind it if that starts a chain itself;
      at the end of the log nothing is found. */
  lemma TornSkipped(recs: seq<Bytes>, e: Entry)
    requires Carries(recs, e) && !e.Whole() && EndsChain(recs, e.start + e.kept)
    ensures var n := e.start + e.kept;
            NextEntry(recs, e.start) ==
            if n == |recs| then Nothing else NextEntry(recs, if IsFragment(recs[n]) then n + 1 else n)
  {
    HeadOfChain(recs, e);
    FollowTorn(recs, e, 1);
  }

  /** Fragments without their FIRST are passed over. */
  lemma {:induction false} OrphansSkipped(recs: seq<Bytes>, e: Entry, i: nat)
    requires Carries(recs, e) && e.Count() > 1 && 1 <= i <= e.kept
    ensures NextEntry(recs, e.start + i) == NextEntry(recs, e.start + e.kept)
    decreases e.kept - i
  {
    if i < e.kept {
      CutOrder(e, i);
      assert recs[e.start + i] == e.Piece(i);
      I32RoundTrip(FRAGMENT);
      if i == e.Count() - 1 { ReadLast(e.payload[e.cuts[i]..]); } else { ReadCont(e.payload[e.cuts[i]..e.cuts[i + 1]]); }
      OrphansSkipped(recs, e, i + 1);
    }
  }

  /** How an entry begins. */
  lemma BeginsWith(recs: seq<Bytes>, e: Entry)
    requires Carries(recs, e)
    ensures EndsChain(recs, e.start) && (IsFragment(recs[e.start]) <==> e.Count() > 1)
  {
    if e.Count() == 1 {
      assert recs[e.start + 0] == e.Piece(0);
      ReadNormal(e.payload);
    } else {
      HeadOfChain(recs, e);
    }
  }

  /** A record appended behind a torn one is read back exactly when it fits in one block: a fragmented
      one, whole or torn itself, loses its FIRST to the broken chain, and reading goes on behind it. */
  lemma RecordBehindTornChain(recs: seq<Bytes>, e: Entry, next: Entry)
    requires Carries(recs, e) && !e.Whole() && next.start == e.start + e.kept && Carries(recs, next)
    ensures NextEntry(recs, e.start) ==
            if next.Count() == 1 then Found(next.start, next.payload, next.start + 1)
            else NextEntry(recs, next.start + next.kept)
  {
    BeginsWith(recs, next);
    TornSkipped(recs, e);
    if next.Count() == 1 { ReadEntry(recs, next); } else { OrphansSkipped(recs, next, 1); }
  }

  // ---------------------------------------------------------------- reading a log with torn chains

  /** Which entry reading from entry `k` on finds; none if it is the number of entries. */
  function NextWhole(entries: seq<Entry>, k: nat): (j: nat)
    requires k <= |entries|
    ensures k <= j <= |entries| && (j < |entries| ==> entries[j].Whole())
    decreases |entries| - k
  {
    if k == |entries| || entries[k].Whole() then k
    else if k + 1 == |entries| then k + 1
    else if entries[k + 1].Whole() && entries[k + 1].Count() == 1 then k + 1
    else NextWhole(entries, k + 2)
  }

  /** Where entry `k` starts, or where the log ends. */
  function StartOf(recs: seq<Bytes>, entries: seq<Entry>, k: nat): nat {
    if k < |entries| then entries[k].start else |recs|
  }

  /** Entry `k` lies in `recs`, directly before the next one. */
  ghost predicate InPlace(recs: seq<Bytes>, entries: seq<Entry>, k: nat)
    requires k < |entries|
  {
    Carries(recs, entries[k]) && entries[k].start + entries[k].kept == StartOf(recs, entries, k + 1)
  }

  /** The entries lie in `recs` one behind the other up to its end. */
  ghost predicate InLine(recs: seq<Bytes>, entries: seq<Entry>) {
    forall k: nat | k < |entries| :: InPlace(recs, entries, k)
  }

  /** Reading from any entry on finds exactly the next readable one, and nothing when there is none. */
  lemma {:induction false} ReadFrom(recs: seq<Bytes>, entries: seq<Entry>, k: nat)
    requires InLine(recs, entries) && k <= |entries|
    ensures var j := NextWhole(entries, k);
            NextEntry(recs, StartOf(recs, entries, k)) ==
            if j == |entries| then Nothing
            else Found(entries[j].start, entries[j].payload, entries[j].start + entries[j].kept)
    decreases |entries| - k
  {
    if k < |entries| {
      var e := entries[k];
      assert InPlace(recs, entries, k);
      if e.Whole() {
        ReadEntry(recs, e);
      } else if k + 1 == |entries| {
        TornSkipped(recs, e);
      } else {
        assert InPlace(recs, entries, k + 1);
        RecordBehindTornChain(recs, e, entries[k + 1]);
        if entries[k + 1].Count() > 1 { ReadFrom(recs, entries, k + 2); }
      }
    }
  }
}
