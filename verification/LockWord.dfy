/** The lock word of a shard: one 32-bit word with a writer bit, an upgrade bit and a 30-bit reader count,
    changed by compare-and-swap, atomic add and one plain store.

    A client is a transaction's lock on one block of the shard.  A step is one access to the word together
    with the local computation up to the next access, so steps of different clients interleave freely.
    Waiting in a queue is a pause between two accesses and not a step of its own. */
module LockWord {
  const TWO_30 := 0x4000_0000
  const TWO_31 := 0x8000_0000

  // ---------------------------------------------------------------- bits of the word

  predicate WLocked(word: int) { word < 0 }

  /** The word without its sign bit. */
  function Low(word: int): int { if word < 0 then word + TWO_31 else word }

  predicate UpgradeBit(word: int) { Low(word) >= TWO_30 }

  function Readers(word: int): int { if UpgradeBit(word) then Low(word) - TWO_30 else Low(word) }

  function SetW(word: int): int { if WLocked(word) then word else word - TWO_31 }

  function ClearW(word: int): int { Low(word) }

  function SetU(word: int): int { if UpgradeBit(word) then word else word + TWO_30 }

  function ClearU(word: int): int { if UpgradeBit(word) then word - TWO_30 else word }

  // ---------------------------------------------------------------- clients

  datatype Grant = NoGrant | Shared | Exclusive

  /** Where a client is between two accesses to the word. */
  datatype Pc =
    | Idle
    | SpinS
    | CasS(seen: int)
    | SpinX
    | CasReserve(seen: int)
    | CasX(seen: int)
    | ClearOnTimeout
    | CasClearOnTimeout(cur: int)
    | Release(seen: int)
    | ClearOnUnlock
    | CasClearOnUnlock(cur: int)

  /** `upgrade`: the client asks for X while it holds S; `upgraded`: it has set the upgrade bit. */
  datatype Client = Client(pc: Pc, grant: Grant, upgrade: bool, upgraded: bool)

  type Clients = map<nat, Client>

  datatype Shard = Shard(word: int, clients: Clients)

  datatype Event = BeginS | BeginX | BeginUnlock | Access | TimeOut

  // ---------------------------------------------------------------- steps of one client

  /** The loop of XLock after the reservation: what to do with the word value `seen`. */
  function AfterReserve(seen: int, cl: Client): Client {
    if WLocked(seen) then cl.(pc := SpinX)
    else if cl.upgrade && Readers(seen) != 1 then cl.(pc := SpinX)
    else if !cl.upgrade && Readers(seen) > 0 then cl.(pc := SpinX)
    else cl.(pc := CasX(seen))
  }

  /** The word XLock wants to install. */
  function XWord(seen: int, cl: Client): int {
    if cl.upgrade && cl.upgraded then ClearU(SetW(seen) - 1) else SetW(seen)
  }

  function LoadX(word: int, cl: Client): Client {
    if cl.upgrade && !cl.upgraded then
      if UpgradeBit(word) then cl else cl.(pc := CasReserve(word))
    else
      AfterReserve(word, cl)
  }

  /** A client's access to the word: the new word and client. */
  function AccessWord(word: int, cl: Client): (int, Client) {
    match cl.pc
    case Idle => (word, cl)
    case SpinS =>
      if WLocked(word) || UpgradeBit(word) then (word, cl) else (word, cl.(pc := CasS(word)))
    case CasS(seen) =>
      if word == seen then (seen + 1, cl.(pc := Idle, grant := Shared)) else (word, cl.(pc := SpinS))
    case SpinX => (word, LoadX(word, cl))
    case CasReserve(seen) =>
      if word == seen then (SetU(seen), AfterReserve(seen, cl.(upgraded := true))) else (word, cl.(pc := SpinX))
    case CasX(seen) =>
      if word == seen then (XWord(seen, cl), cl.(pc := Idle, grant := Exclusive)) else (word, cl.(pc := SpinX))
    case ClearOnTimeout =>
      if UpgradeBit(word) then (word, cl.(pc := CasClearOnTimeout(word)))
      else (word, cl.(pc := Idle, upgrade := false, upgraded := false))
    case CasClearOnTimeout(cur) =>
      if word == cur then (ClearU(cur), cl.(pc := Idle, upgrade := false, upgraded := false))
      else (word, cl.(pc := ClearOnTimeout))
    case Release(seen) =>
      // a plain store of what was loaded when the writer bit was seen, else an atomic add
      var updated := if WLocked(seen) then ClearW(seen) else word - 1;
      if !WLocked(updated) && cl.upgrade && cl.upgraded then (updated, cl.(pc := ClearOnUnlock, grant := NoGrant))
      else (updated, Client(Idle, NoGrant, false, false))
    case ClearOnUnlock =>
      if UpgradeBit(word) then (word, cl.(pc := CasClearOnUnlock(word)))
      else (word, Client(Idle, NoGrant, false, false))
    case CasClearOnUnlock(cur) =>
      if word == cur then (ClearU(cur), Client(Idle, NoGrant, false, false)) else (word, cl.(pc := ClearOnUnlock))
  }

  /** A transaction asks for S or X only if it lacks it, and for X as an upgrade exactly if it holds S; it
      unlocks what it holds; the deadline is checked in the spinning loops. */
  predicate Enabled(s: Shard, c: nat, e: Event) {
    && c in s.clients
    && var cl := s.clients[c];
    match e
    case BeginS => cl.pc.Idle? && cl.grant.NoGrant?
    case BeginX => cl.pc.Idle? && !cl.grant.Exclusive?
    case BeginUnlock => cl.pc.Idle? && !cl.grant.NoGrant?
    case Access => !cl.pc.Idle?
    case TimeOut => cl.pc.SpinS? || cl.pc.SpinX?
  }

  function Step(s: Shard, c: nat, e: Event): Shard
    requires Enabled(s, c, e)
  {
    var cl := s.clients[c];
    match e
    case BeginS => s.(clients := s.clients[c := cl.(pc := SpinS)])
    case BeginX => s.(clients := s.clients[c := Client(SpinX, cl.grant, cl.grant.Shared?, false)])
    case BeginUnlock => s.(clients := s.clients[c := cl.(pc := Release(s.word))])
    case Access =>
      var (word, cl') := AccessWord(s.word, cl);
      Shard(word, s.clients[c := cl'])
    case TimeOut =>
      if cl.pc.SpinX? && cl.upgrade && cl.upgraded then s.(clients := s.clients[c := cl.(pc := ClearOnTimeout)])
      else s.(clients := s.clients[c := cl.(pc := Idle, upgrade := false, upgraded := false)])
  }

  // ---------------------------------------------------------------- what every state satisfies

  function Holders(clients: Clients, g: Grant): set<nat> {
    set c | c in clients && clients[c].grant == g
  }

  /** The client has set the upgrade bit and is still trying to upgrade. */
  predicate Reserving(cl: Client) {
    && cl.grant.Shared? && cl.upgrade && cl.upgraded
    && (cl.pc.SpinX? || cl.pc.CasX? || cl.pc.ClearOnTimeout? || cl.pc.CasClearOnTimeout?)
  }

  predicate ClientOk(cl: Client) {
    && (cl.upgraded ==> cl.upgrade)
    && match cl.pc
       case Idle => (cl.upgrade ==> cl.grant.Exclusive? && cl.upgraded)
       case SpinS => cl.grant.NoGrant? && !cl.upgrade
       case CasS(seen) => cl.grant.NoGrant? && !cl.upgrade && !WLocked(seen) && !UpgradeBit(seen)
       case SpinX => cl.grant == if cl.upgrade then Shared else NoGrant
       case CasReserve(seen) => cl.grant.Shared? && cl.upgrade && !cl.upgraded && !UpgradeBit(seen)
       case CasX(seen) =>
         && !WLocked(seen)
         && (if cl.upgrade then cl.grant.Shared? && cl.upgraded && Readers(seen) == 1
             else cl.grant.NoGrant? && Readers(seen) <= 0)
       case ClearOnTimeout => cl.grant.Shared? && cl.upgraded
       case CasClearOnTimeout(cur) => cl.grant.Shared? && cl.upgraded && UpgradeBit(cur)
       case Release(seen) =>
         && !cl.grant.NoGrant? && (cl.upgrade ==> cl.grant.Exclusive? && cl.upgraded)
         && (cl.grant.Exclusive? ==> seen == -TWO_31) && (cl.grant.Shared? ==> !WLocked(seen))
       case ClearOnUnlock => cl.grant.NoGrant?
       case CasClearOnUnlock(cur) => cl.grant.NoGrant? && UpgradeBit(cur)
  }

  ghost predicate AllClientsOk(clients: Clients) {
    forall c | c in clients :: ClientOk(clients[c])
  }

  ghost predicate SomeoneReserving(clients: Clients) {
    exists c :: c in clients && Reserving(clients[c])
  }

  /** The word says exactly who holds what: its reader count is the number of S grants, its writer bit is
      set exactly when there is an X grant, which then is the only grant; the upgrade bit belongs to a
      client that is upgrading. */
  ghost predicate Safe(s: Shard) {
    && -TWO_31 <= s.word < TWO_31
    && Readers(s.word) == |Holders(s.clients, Shared)|
    && |Holders(s.clients, Exclusive)| == (if WLocked(s.word) then 1 else 0)
    && (WLocked(s.word) ==> Holders(s.clients, Shared) == {})
  }

  ghost predicate Inv(s: Shard) {
    && Safe(s) && AllClientsOk(s.clients) && |s.clients| < TWO_30
    && (UpgradeBit(s.word) ==> SomeoneReserving(s.clients))
  }

  // ---------------------------------------------------------------- grants

  lemma HoldersUpdate(clients: Clients, c: nat, cl: Client, g: Grant)
    requires c in clients
    ensures var h, h' := Holders(clients, g), Holders(clients[c := cl], g);
            && h' == (if cl.grant == g then h + {c} else h - {c})
            && (c in h <==> clients[c].grant == g)
            && |h'| == |h| + (if cl.grant == g then 1 else 0) - (if clients[c].grant == g then 1 else 0)
  {
    var h, h' := Holders(clients, g), Holders(clients[c := cl], g);
    assert h' == if cl.grant == g then h + {c} else h - {c};
  }

  lemma HoldersBound(clients: Clients, c: nat, g: Grant)
    requires c in clients && clients[c].grant != g
    ensures |Holders(clients, g)| < |clients|
  {
    var h := Holders(clients, g);
    assert h <= clients.Keys - {c};
    Smaller(h, clients.Keys - {c});
  }

  lemma {:induction false} Smaller(a: set<nat>, b: set<nat>)
    requires a <= b
    ensures |a| <= |b|
  {
    assert b == a + (b - a);
  }

  lemma OneHolder(s: Shard, c: nat)
    requires Safe(s) && c in s.clients
    ensures s.clients[c].grant.Shared? ==> Readers(s.word) >= 1 && !WLocked(s.word)
    ensures s.clients[c].grant.Exclusive? ==> WLocked(s.word)
  {
    if s.clients[c].grant.Shared? {
      assert c in Holders(s.clients, Shared);
      Smaller({c}, Holders(s.clients, Shared));
    }
    if s.clients[c].grant.Exclusive? {
      assert c in Holders(s.clients, Exclusive);
      Smaller({c}, Holders(s.clients, Exclusive));
    }
  }

  /** While a client holds X the word is the writer bit and nothing else. */
  lemma OnlyWriterBit(s: Shard)
    requires Inv(s) && WLocked(s.word)
    ensures s.word == -TWO_31
  {
    forall c | c in s.clients ensures !Reserving(s.clients[c]) { OneHolder(s, c); }
  }

  lemma SoleSharer(s: Shard, c: nat)
    requires Safe(s) && c in s.clients && s.clients[c].grant.Shared? && Readers(s.word) == 1
    ensures Holders(s.clients, Shared) == {c}
  {
    assert c in Holders(s.clients, Shared);
    var rest := Holders(s.clients, Shared) - {c};
    assert Holders(s.clients, Shared) == rest + {c};
  }

  // ---------------------------------------------------------------- every step keeps it

  lemma SomeoneElse(clients: Clients, c: nat, cl: Client)
    requires c in clients && SomeoneReserving(clients)
    requires !Reserving(clients[c]) || Reserving(cl)
    ensures SomeoneReserving(clients[c := cl])
  {
    var d :| d in clients && Reserving(clients[d]);
    if d == c { assert Reserving(clients[c := cl][c]); } else { assert clients[c := cl][d] == clients[d]; }
  }

  /** A client changes without changing its grant. */
  lemma SameGrants(clients: Clients, c: nat, cl: Client)
    requires c in clients && cl.grant == clients[c].grant
    ensures Holders(clients[c := cl], Shared) == Holders(clients, Shared)
    ensures Holders(clients[c := cl], Exclusive) == Holders(clients, Exclusive)
    ensures |clients[c := cl]| == |clients|
  {
    assert clients[c := cl].Keys == clients.Keys;
  }

  lemma ClientsStayOk(clients: Clients, c: nat, cl: Client)
    requires AllClientsOk(clients) && ClientOk(cl)
    ensures AllClientsOk(clients[c := cl])
  {
  }

  /** A step that changes neither the word nor a grant. */
  lemma LocalStep(s: Shard, c: nat, cl: Client)
    requires Inv(s) && c in s.clients && ClientOk(cl) && cl.grant == s.clients[c].grant
    requires !UpgradeBit(s.word) || !Reserving(s.clients[c]) || Reserving(cl)
    ensures Inv(s.(clients := s.clients[c := cl]))
  {
    SameGrants(s.clients, c, cl);
    ClientsStayOk(s.clients, c, cl);
    if UpgradeBit(s.word) { SomeoneElse(s.clients, c, cl); }
  }

  /** The upgrade bit says nothing about grants. */
  lemma BitsApart(word: int)
    requires -TWO_31 <= word < TWO_31
    ensures var u := ClearU(word);
            -TWO_31 <= u < TWO_31 && !UpgradeBit(u) && Readers(u) == Readers(word) && (WLocked(u) <==> WLocked(word))
    ensures var u := SetU(word);
            -TWO_31 <= u < TWO_31 && UpgradeBit(u) && Readers(u) == Readers(word) && (WLocked(u) <==> WLocked(word))
  {
  }

  /** A step that changes only the upgrade bit. */
  lemma BitStep(s: Shard, c: nat, word: int, cl: Client)
    requires Inv(s) && c in s.clients && ClientOk(cl) && cl.grant == s.clients[c].grant
    requires (word == ClearU(s.word)) || (word == SetU(s.word) && Reserving(cl))
    ensures Inv(Shard(word, s.clients[c := cl]))
  {
    SameGrants(s.clients, c, cl);
    ClientsStayOk(s.clients, c, cl);
    BitsApart(s.word);
    if Reserving(cl) { assert Reserving(s.clients[c := cl][c]); }
  }

  lemma GrantShared(s: Shard, c: nat, cl: Client)
    requires Inv(s) && c in s.clients && ClientOk(cl) && cl.grant.Shared? && s.clients[c].grant.NoGrant?
    requires !WLocked(s.word) && !UpgradeBit(s.word)
    ensures Inv(Shard(s.word + 1, s.clients[c := cl]))
  {
    HoldersUpdate(s.clients, c, cl, Shared);
    HoldersUpdate(s.clients, c, cl, Exclusive);
    HoldersBound(s.clients, c, Shared);
    assert s.clients[c := cl].Keys == s.clients.Keys;
  }

  /** X for a client without a grant: there is no other grant at all. */
  lemma GrantExclusive(s: Shard, c: nat, cl: Client)
    requires Inv(s) && c in s.clients && ClientOk(cl) && cl.grant.Exclusive? && s.clients[c].grant.NoGrant?
    requires !WLocked(s.word) && Readers(s.word) <= 0
    ensures Inv(Shard(SetW(s.word), s.clients[c := cl]))
  {
    HoldersUpdate(s.clients, c, cl, Shared);
    HoldersUpdate(s.clients, c, cl, Exclusive);
    assert s.clients[c := cl].Keys == s.clients.Keys;
    forall d | d in s.clients ensures !Reserving(s.clients[d]) { OneHolder(s, d); }
  }

  /** X for the only reader: its S grant turns into X, and the upgrade bit goes. */
  lemma GrantUpgrade(s: Shard, c: nat, cl: Client)
    requires Inv(s) && c in s.clients && ClientOk(cl) && cl.grant.Exclusive? && s.clients[c].grant.Shared?
    requires !WLocked(s.word) && Readers(s.word) == 1
    ensures Inv(Shard(ClearU(SetW(s.word) - 1), s.clients[c := cl]))
  {
    HoldersUpdate(s.clients, c, cl, Shared);
    HoldersUpdate(s.clients, c, cl, Exclusive);
    SoleSharer(s, c);
    assert s.clients[c := cl].Keys == s.clients.Keys;
  }

  lemma ReleaseExclusive(s: Shard, c: nat, cl: Client)
    requires Inv(s) && c in s.clients && ClientOk(cl) && cl.grant.NoGrant? && s.clients[c].grant.Exclusive?
    ensures s.word == -TWO_31 && Inv(Shard(0, s.clients[c := cl]))
  {
    OneHolder(s, c);
    OnlyWriterBit(s);
    HoldersUpdate(s.clients, c, cl, Shared);
    HoldersUpdate(s.clients, c, cl, Exclusive);
    assert s.clients[c := cl].Keys == s.clients.Keys;
  }

  lemma ReleaseShared(s: Shard, c: nat, cl: Client)
    requires Inv(s) && c in s.clients && ClientOk(cl) && cl.grant.NoGrant? && s.clients[c].grant.Shared?
    requires !Reserving(s.clients[c])
    ensures Inv(Shard(s.word - 1, s.clients[c := cl]))
  {
    OneHolder(s, c);
    HoldersUpdate(s.clients, c, cl, Shared);
    HoldersUpdate(s.clients, c, cl, Exclusive);
    assert s.clients[c := cl].Keys == s.clients.Keys;
    if UpgradeBit(s.word - 1) { SomeoneElse(s.clients, c, cl); }
  }

  lemma ReserveStep(s: Shard, c: nat)
    requires Inv(s) && c in s.clients && s.clients[c].pc == CasReserve(s.word)
    ensures Inv(Step(s, c, Access))
  {
    var cl := s.clients[c];
    assert ClientOk(cl);
    OneHolder(s, c);
    var cl' := AfterReserve(s.word, cl.(upgraded := true));
    BitStep(s, c, SetU(s.word), cl');
  }

  lemma AcquireStep(s: Shard, c: nat)
    requires Inv(s) && c in s.clients && s.clients[c].pc == CasX(s.word)
    ensures Inv(Step(s, c, Access))
  {
    var cl := s.clients[c];
    assert ClientOk(cl);
    var cl' := cl.(pc := Idle, grant := Exclusive);
    if cl.upgrade { GrantUpgrade(s, c, cl'); } else { GrantExclusive(s, c, cl'); }
  }

  lemma ReleaseStep(s: Shard, c: nat)
    requires Inv(s) && c in s.clients && s.clients[c].pc.Release?
    ensures Inv(Step(s, c, Access))
  {
    var cl := s.clients[c];
    assert ClientOk(cl);
    var cl' := AccessWord(s.word, cl).1;
    if cl.grant.Exclusive? {
      ReleaseExclusive(s, c, cl');
    } else {
      OneHolder(s, c);
      ReleaseShared(s, c, cl');
    }
  }

  lemma AccessKeepsInv(s: Shard, c: nat)
    requires Inv(s) && Enabled(s, c, Access)
    ensures Inv(Step(s, c, Access))
  {
    var cl := s.clients[c];
    assert ClientOk(cl);
    var (word, cl') := AccessWord(s.word, cl);
    match cl.pc
    case CasS(seen) =>
      if s.word == seen { GrantShared(s, c, cl'); } else { LocalStep(s, c, cl'); }
    case CasReserve(seen) =>
      if s.word == seen { ReserveStep(s, c); } else { LocalStep(s, c, cl'); }
    case CasX(seen) =>
      if s.word == seen { AcquireStep(s, c); } else { LocalStep(s, c, cl'); }
    case CasClearOnTimeout(cur) =>
      if s.word == cur { BitStep(s, c, word, cl'); } else { LocalStep(s, c, cl'); }
    case CasClearOnUnlock(cur) =>
      if s.word == cur { BitStep(s, c, word, cl'); } else { LocalStep(s, c, cl'); }
    case Release(_) => ReleaseStep(s, c);
    case SpinX =>
      if cl.grant.Shared? { OneHolder(s, c); }
      LocalStep(s, c, cl');
    case _ => LocalStep(s, c, cl');
  }

  lemma StepKeepsInv(s: Shard, c: nat, e: Event)
    requires Inv(s) && Enabled(s, c, e)
    ensures Inv(Step(s, c, e))
  {
    var cl := s.clients[c];
    assert ClientOk(cl);
    match e
    case Access => AccessKeepsInv(s, c);
    case BeginUnlock =>
      OneHolder(s, c);
      if cl.grant.Exclusive? { OnlyWriterBit(s); }
      LocalStep(s, c, cl.(pc := Release(s.word)));
    case BeginS => LocalStep(s, c, cl.(pc := SpinS));
    case BeginX => LocalStep(s, c, Client(SpinX, cl.grant, cl.grant.Shared?, false));
    case TimeOut =>
      LocalStep(s, c, Step(s, c, e).clients[c]);
  }

  // ---------------------------------------------------------------- whole runs

  datatype Move = Move(client: nat, event: Event)

  predicate CanRun(s: Shard, moves: seq<Move>)
    decreases |moves|
  {
    moves == [] || (Enabled(s, moves[0].client, moves[0].event)
                    && CanRun(Step(s, moves[0].client, moves[0].event), moves[1..]))
  }

  function Run(s: Shard, moves: seq<Move>): Shard
    requires CanRun(s, moves)
    decreases |moves|
  {
    if moves == [] then s else Run(Step(s, moves[0].client, moves[0].event), moves[1..])
  }

  function FreshClients(n: nat): Clients {
    if n == 0 then map[] else FreshClients(n - 1)[n - 1 := Client(Idle, NoGrant, false, false)]
  }

  /** A shard nobody has used, for `n` clients. */
  function Fresh(n: nat): Shard { Shard(0, FreshClients(n)) }

  lemma {:induction false} FreshMembers(n: nat)
    ensures forall c :: c in FreshClients(n) ==> c < n && FreshClients(n)[c] == Client(Idle, NoGrant, false, false)
  {
    if n > 0 { FreshMembers(n - 1); }
  }

  lemma {:induction false} FreshCount(n: nat)
    ensures |FreshClients(n)| == n
  {
    if n > 0 {
      FreshCount(n - 1);
      FreshMembers(n - 1);
      Extended(FreshClients(n - 1), n - 1, Client(Idle, NoGrant, false, false));
    }
  }

  lemma Extended(clients: Clients, c: nat, cl: Client)
    requires c !in clients
    ensures |clients[c := cl]| == |clients| + 1
  {
    assert clients[c := cl].Keys == clients.Keys + {c};
  }

  lemma FreshInv(n: nat)
    requires n < TWO_30
    ensures Inv(Fresh(n))
  {
    FreshMembers(n);
    FreshCount(n);
    assert Holders(Fresh(n).clients, Shared) == {} && Holders(Fresh(n).clients, Exclusive) == {};
  }

  lemma {:induction false} RunKeepsInv(s: Shard, moves: seq<Move>)
    requires Inv(s) && CanRun(s, moves)
    ensures Inv(Run(s, moves))
    decreases |moves|
  {
    if moves != [] {
      StepKeepsInv(s, moves[0].client, moves[0].event);
      RunKeepsInv(Step(s, moves[0].client, moves[0].event), moves[1..]);
    }
  }

  /** Lock word safety: whatever fewer than 2^30 clients do, in any interleaving, with upgrades and
      timeouts, the word agrees with the grants, X excludes every other grant, and there is at most one X. */
  lemma LockWordSafe(n: nat, moves: seq<Move>)
    requires n < TWO_30 && CanRun(Fresh(n), moves)
    ensures var s := Run(Fresh(n), moves);
            && Readers(s.word) == |Holders(s.clients, Shared)|
            && (WLocked(s.word) <==> Holders(s.clients, Exclusive) != {})
            && |Holders(s.clients, Exclusive)| <= 1
            && (Holders(s.clients, Shared) == {} || Holders(s.clients, Exclusive) == {})
  {
    FreshInv(n);
    RunKeepsInv(Fresh(n), moves);
  }

  // ---------------------------------------------------------------- who gets on, and when

  /** The word tells who holds what. */
  lemma WordTells(s: Shard)
    requires Safe(s)
    ensures WLocked(s.word) <==> Holders(s.clients, Exclusive) != {}
    ensures Readers(s.word) <= 0 <==> Holders(s.clients, Shared) == {}
  {
  }

  /** A client asking for S goes on to take it exactly if nobody holds X and no upgrade is reserved; until then it
      stays where it is. */
  lemma ReadGoesOnIff(s: Shard, c: nat)
    requires Inv(s) && c in s.clients && s.clients[c].pc.SpinS?
    ensures var s' := Step(s, c, Access);
            && (s'.clients[c].pc == CasS(s.word) <==> Holders(s.clients, Exclusive) == {} && !UpgradeBit(s.word))
            && (s'.clients[c].pc != CasS(s.word) ==> s' == s)
  {
    WordTells(s);
    assert s.clients[c := s.clients[c]] == s.clients;
  }

  /** A client asking for X without holding S goes on to take it exactly if nobody holds anything. */
  lemma WriteGoesOnIff(s: Shard, c: nat)
    requires Inv(s) && c in s.clients && s.clients[c].pc.SpinX? && !s.clients[c].upgrade
    ensures var s' := Step(s, c, Access);
            && (s'.clients[c].pc == CasX(s.word) <==>
                  Holders(s.clients, Exclusive) == {} && Holders(s.clients, Shared) == {})
            && (s'.clients[c].pc != CasX(s.word) ==> s' == s)
  {
    WordTells(s);
    assert s.clients[c := s.clients[c]] == s.clients;
  }

  /** A client that wants to upgrade first reserves, exactly if no upgrade is reserved; once it has, it goes on to
      take X exactly if it is the only reader. */
  lemma UpgradeGoesOnIff(s: Shard, c: nat)
    requires Inv(s) && c in s.clients && s.clients[c].pc.SpinX? && s.clients[c].upgrade
    ensures var s', cl := Step(s, c, Access), s.clients[c];
            && (!cl.upgraded ==> (s'.clients[c].pc == CasReserve(s.word) <==> !UpgradeBit(s.word)))
            && (cl.upgraded ==> (s'.clients[c].pc == CasX(s.word) <==> Holders(s.clients, Shared) == {c}))
            && (s'.clients[c].pc.SpinX? ==> s' == s)
  {
    var cl := s.clients[c];
    assert ClientOk(cl);
    assert s.clients[c := cl] == s.clients;
    OneHolder(s, c);
    if Readers(s.word) == 1 { SoleSharer(s, c); }
  }

  /** What a client wrote down before its compare-and-swap. */
  function SeenBy(pc: Pc): int
    requires pc.CasS? || pc.CasX? || pc.CasReserve?
  {
    match pc
    case CasS(seen) => seen
    case CasX(seen) => seen
    case CasReserve(seen) => seen
  }

  /** A compare-and-swap takes the lock, or the reservation, exactly if nobody changed the word meanwhile; else
      the client starts over and nothing else changes. */
  lemma SwapTakesIff(s: Shard, c: nat)
    requires Inv(s) && c in s.clients
    requires var pc := s.clients[c].pc; pc.CasS? || pc.CasX? || pc.CasReserve?
    ensures var s', cl := Step(s, c, Access), s.clients[c];
            var cl' := s'.clients[c];
            && (cl.pc.CasS? ==> (cl'.grant.Shared? <==> s.word == SeenBy(cl.pc)))
            && (cl.pc.CasX? ==> (cl'.grant.Exclusive? <==> s.word == SeenBy(cl.pc)))
            && (cl.pc.CasReserve? ==> (cl'.upgraded <==> s.word == SeenBy(cl.pc)) && cl'.grant.Shared?)
            && (cl'.grant != cl.grant ==> cl'.pc.Idle?)
            && (s.word != SeenBy(cl.pc) ==>
                  s' == s.(clients := s.clients[c := cl.(pc := if cl.pc.CasS? then SpinS else SpinX)]))
  {
    assert ClientOk(s.clients[c]);
  }

  /** A client that lets go holds nothing after its next access, whatever the others do. */
  lemma ReleaseLetsGo(s: Shard, c: nat)
    requires Inv(s) && c in s.clients && s.clients[c].pc.Release?
    ensures Step(s, c, Access).clients[c].grant.NoGrant?
    ensures s.clients[c].grant.Shared? ==> Step(s, c, Access).word == s.word - 1
    ensures s.clients[c].grant.Exclusive? ==> Step(s, c, Access).word == 0
  {
    assert ClientOk(s.clients[c]);
    OneHolder(s, c);
  }

  /** Giving up at the deadline never changes what a client holds, and leaves only a reservation to be cleared. */
  lemma TimeOutKeepsGrant(s: Shard, c: nat)
    requires Inv(s) && Enabled(s, c, TimeOut)
    ensures var cl' := Step(s, c, TimeOut).clients[c];
            && Step(s, c, TimeOut).word == s.word && cl'.grant == s.clients[c].grant
            && (cl'.pc.ClearOnTimeout? <==> s.clients[c].upgraded) && (cl'.pc.ClearOnTimeout? || cl'.pc.Idle?)
  {
    assert ClientOk(s.clients[c]);
  }

  function Alone(c: nat, n: nat): seq<Move> {
    if n == 0 then [] else [Move(c, Access)] + Alone(c, n - 1)
  }

  /** Undisturbed, a client asking for S has it after two accesses if nobody holds X and no upgrade is reserved. */
  lemma ReadGranted(s: Shard, c: nat)
    requires Inv(s) && c in s.clients && s.clients[c].pc.SpinS?
    requires Holders(s.clients, Exclusive) == {} && !UpgradeBit(s.word)
    ensures CanRun(s, Alone(c, 2))
    ensures Run(s, Alone(c, 2)) == Shard(s.word + 1, s.clients[c := s.clients[c].(pc := Idle, grant := Shared)])
  {
    WordTells(s);
    TwoAccesses(s, c);
    assert s.clients[c := s.clients[c].(pc := CasS(s.word))][c := s.clients[c].(pc := Idle, grant := Shared)]
        == s.clients[c := s.clients[c].(pc := Idle, grant := Shared)];
  }

  /** Undisturbed, a client asking for X has it after two accesses if nobody holds anything. */
  lemma WriteGranted(s: Shard, c: nat)
    requires Inv(s) && c in s.clients && s.clients[c].pc.SpinX? && !s.clients[c].upgrade
    requires Holders(s.clients, Exclusive) == {} && Holders(s.clients, Shared) == {}
    ensures CanRun(s, Alone(c, 2))
    ensures Run(s, Alone(c, 2)) == Shard(-TWO_31, s.clients[c := s.clients[c].(pc := Idle, grant := Exclusive)])
  {
    WordTells(s);
    TwoAccesses(s, c);
    NoReaderNoBit(s);
    assert s.clients[c := s.clients[c].(pc := CasX(s.word))][c := s.clients[c].(pc := Idle, grant := Exclusive)]
        == s.clients[c := s.clients[c].(pc := Idle, grant := Exclusive)];
  }

  lemma NoReaderNoBit(s: Shard)
    requires Inv(s) && Holders(s.clients, Exclusive) == {} && Holders(s.clients, Shared) == {}
    ensures s.word == 0
  {
    WordTells(s);
    forall d | d in s.clients ensures !Reserving(s.clients[d]) {
      assert d !in Holders(s.clients, Shared);
    }
  }

  /** Undisturbed, the only reader upgrades in five accesses if no upgrade is reserved: the reservation changes the
      word, so its first compare-and-swap for X fails. */
  lemma UpgradeGranted(s: Shard, c: nat)
    requires Inv(s) && c in s.clients && s.clients[c] == ASKING
    requires Holders(s.clients, Shared) == {c} && !UpgradeBit(s.word)
    ensures CanRun(s, Alone(c, 5))
    ensures Run(s, Alone(c, 5)) == Shard(-TWO_31, s.clients[c := WRITER])
  {
    OneHolder(s, c);
    assert s.word == 1;
    var bit, cs := 1 + TWO_30, s.clients;
    var s0, s1 := Shard(bit, cs[c := RESERVED]), Shard(bit, cs[c := RESERVED.(pc := CasX(bit))]);
    AccessThenAlone(s1, c, Shard(-TWO_31, cs[c := WRITER]), 0);
    AccessThenAlone(Shard(bit, cs[c := RESERVED.(pc := SpinX)]), c, s1, 1);
    AccessThenAlone(s0, c, Shard(bit, cs[c := RESERVED.(pc := SpinX)]), 2);
    AccessThenAlone(Shard(1, cs[c := ASKING.(pc := CasReserve(1))]), c, s0, 3);
    AccessThenAlone(s, c, Shard(1, cs[c := ASKING.(pc := CasReserve(1))]), 4);
  }

  /** One access, then `n` more. */
  lemma AccessThenAlone(s: Shard, c: nat, s': Shard, n: nat)
    requires Enabled(s, c, Access) && Step(s, c, Access) == s' && CanRun(s', Alone(c, n))
    ensures CanRun(s, Alone(c, n + 1)) && Run(s, Alone(c, n + 1)) == Run(s', Alone(c, n))
  {
    assert Alone(c, n + 1)[1..] == Alone(c, n);
  }

  /** Clearing an upgrade bit, in Unlock or after a timeout, ends when there is no bit or when its
      compare-and-swap finds the word unchanged; the swap removes the bit and nothing else. */
  lemma ClearingEndsIff(s: Shard, c: nat)
    requires Inv(s) && c in s.clients
    requires var pc := s.clients[c].pc;
             pc.ClearOnUnlock? || pc.ClearOnTimeout? || pc.CasClearOnUnlock? || pc.CasClearOnTimeout?
    ensures var s', pc := Step(s, c, Access), s.clients[c].pc;
            && (pc.ClearOnUnlock? || pc.ClearOnTimeout? ==>
                  s'.word == s.word && (s'.clients[c].pc.Idle? <==> !UpgradeBit(s.word)))
            && (pc.CasClearOnUnlock? || pc.CasClearOnTimeout? ==>
                  (s'.clients[c].pc.Idle? <==> s.word == pc.cur)
                  && s'.word == if s.word == pc.cur then s.word - TWO_30 else s.word)
            && s'.clients[c].grant == s.clients[c].grant
  {
    assert ClientOk(s.clients[c]);
  }

  lemma TwoAccesses(s: Shard, c: nat)
    requires Enabled(s, c, Access) && Enabled(Step(s, c, Access), c, Access)
    ensures CanRun(s, Alone(c, 2)) && Run(s, Alone(c, 2)) == Step(Step(s, c, Access), c, Access)
  {
    var s1 := Step(s, c, Access);
    var s2 := Step(s1, c, Access);
    assert Alone(c, 2)[1..] == Alone(c, 1) && Alone(c, 1)[1..] == [];
    assert CanRun(s2, []) && Run(s2, []) == s2;
    assert CanRun(s1, Alone(c, 1)) && Run(s1, Alone(c, 1)) == s2;
  }

  // ---------------------------------------------------------------- whose reservation is cleared

  /** When Unlock clears an upgrade bit it is never the unlocking client's own: that bit went when its
      upgrade was granted.  The bit it finds belongs to another client still waiting to upgrade. */
  lemma UnlockClearsForeignReservation(n: nat, moves: seq<Move>, c: nat)
    requires n < TWO_30 && CanRun(Fresh(n), moves)
    requires var s := Run(Fresh(n), moves);
             c in s.clients && s.clients[c].pc.CasClearOnUnlock? && s.word == s.clients[c].pc.cur
    ensures var s := Run(Fresh(n), moves);
            exists d :: d != c && d in s.clients && Reserving(s.clients[d])
  {
    FreshInv(n);
    RunKeepsInv(Fresh(n), moves);
    var s := Run(Fresh(n), moves);
    assert ClientOk(s.clients[c]);
    var d :| d in s.clients && Reserving(s.clients[d]);
    assert d != c;
  }

  /** A client that reserved its upgrade loses the bit to another client exactly in two places: when that
      client clears what it takes for its own bit, in Unlock after an upgrade, or after a timeout. */
  lemma ReservationLostIff(s: Shard, c: nat, e: Event, d: nat)
    requires Inv(s) && Enabled(s, c, e) && UpgradeBit(s.word)
    requires d != c && d in s.clients && Reserving(s.clients[d])
    ensures !UpgradeBit(Step(s, c, e).word) <==>
              && e.Access?
              && (s.clients[c].pc == CasClearOnUnlock(s.word) || s.clients[c].pc == CasClearOnTimeout(s.word))
  {
    assert ClientOk(s.clients[c]) && ClientOk(s.clients[d]);
    BitsApart(s.word);
    OneHolder(s, c);
    OneHolder(s, d);
    assert d in Holders(s.clients, Shared);
    if s.clients[c].grant.Shared? && Readers(s.word) == 1 { SoleSharer(s, c); }
    OthersKeepTheBit(s, c, e);
  }

  /** Besides those two places only granting an upgrade removes the bit. */
  lemma OthersKeepTheBit(s: Shard, c: nat, e: Event)
    requires Inv(s) && Enabled(s, c, e) && UpgradeBit(s.word) && !WLocked(s.word)
    ensures !UpgradeBit(Step(s, c, e).word) <==>
              && e.Access?
              && var cl := s.clients[c];
                 || cl.pc == CasClearOnUnlock(s.word) || cl.pc == CasClearOnTimeout(s.word)
                 || (cl.pc == CasX(s.word) && cl.upgrade)
  {
    var cl := s.clients[c];
    assert ClientOk(cl);
    BitsApart(s.word);
    OneHolder(s, c);
    if e.Access? { assert Step(s, c, e).word == AccessWord(s.word, cl).0; }
  }

  /** Unlock goes on to clear an upgrade bit exactly for a lock obtained by an upgrade. */
  lemma ClearsAfterUpgradeOnly(s: Shard, c: nat)
    requires Inv(s) && Enabled(s, c, Access) && s.clients[c].pc.Release?
    ensures Step(s, c, Access).clients[c].pc.ClearOnUnlock? <==> s.clients[c].upgrade
  {
    var cl := s.clients[c];
    assert ClientOk(cl);
    OneHolder(s, c);
    assert cl.grant.Exclusive? ==> AccessWord(s.word, cl).0 == 0;
  }

  ghost predicate Leads(s: Shard, s': Shard) {
    exists moves :: CanRun(s, moves) && Run(s, moves) == s'
  }

  lemma LeadsNowhere(s: Shard)
    ensures Leads(s, s)
  {
    assert CanRun(s, []) && Run(s, []) == s;
  }

  lemma {:induction false} RunSnoc(s: Shard, moves: seq<Move>, m: Move)
    requires CanRun(s, moves) && Enabled(Run(s, moves), m.client, m.event)
    ensures CanRun(s, moves + [m]) && Run(s, moves + [m]) == Step(Run(s, moves), m.client, m.event)
    decreases |moves|
  {
    if moves == [] {
      assert moves + [m] == [m];
      var s' := Step(s, m.client, m.event);
      assert CanRun(s', [m][1..]) && Run(s', [m][1..]) == s';
    } else {
      assert (moves + [m])[1..] == moves[1..] + [m];
      RunSnoc(Step(s, moves[0].client, moves[0].event), moves[1..], m);
    }
  }

  lemma LeadsStep(s: Shard, s': Shard, c: nat, e: Event)
    requires Leads(s, s') && Enabled(s', c, e)
    ensures Leads(s, Step(s', c, e))
  {
    var moves :| CanRun(s, moves) && Run(s, moves) == s';
    RunSnoc(s, moves, Move(c, e));
  }

  function Two(word: int, c0: Client, c1: Client): Shard { Shard(word, map[0 := c0, 1 := c1]) }

  /** Client 0, respectively client 1, makes its next access. */
  lemma Access0(start: Shard, word: int, c0: Client, c1: Client, word': int, c0': Client)
    requires Leads(start, Two(word, c0, c1)) && !c0.pc.Idle? && AccessWord(word, c0) == (word', c0')
    ensures Leads(start, Two(word', c0', c1))
  {
    LeadsStep(start, Two(word, c0, c1), 0, Access);
    assert Step(Two(word, c0, c1), 0, Access) == Two(word', c0', c1);
  }

  lemma Access1(start: Shard, word: int, c0: Client, c1: Client, word': int, c1': Client)
    requires Leads(start, Two(word, c0, c1)) && !c1.pc.Idle? && AccessWord(word, c1) == (word', c1')
    ensures Leads(start, Two(word', c0, c1'))
  {
    LeadsStep(start, Two(word, c0, c1), 1, Access);
    assert Step(Two(word, c0, c1), 1, Access) == Two(word', c0, c1');
  }

  const FREE := Client(Idle, NoGrant, false, false)
  const READER := Client(Idle, Shared, false, false)
  const WRITER := Client(Idle, Exclusive, true, true)
  const ASKING := Client(SpinX, Shared, true, false)
  const CLEARING := Client(ClearOnUnlock, NoGrant, true, true)
  const RESERVED := Client(CasX(1), Shared, true, true)
  const START := Two(0, FREE, FREE)

  lemma ReaderReads()
    ensures Leads(START, Two(1, READER, FREE))
  {
    LeadsNowhere(START);
    LeadsStep(START, START, 0, BeginS);
    assert Step(START, 0, BeginS) == Two(0, FREE.(pc := SpinS), FREE);
    Access0(START, 0, FREE.(pc := SpinS), FREE, 0, FREE.(pc := CasS(0)));
    Access0(START, 0, FREE.(pc := CasS(0)), FREE, 1, READER);
  }

  /** A shard nobody uses: client 0 asks for X and has it after two accesses. */
  lemma FreeShardGrantsX()
    ensures Leads(START, Two(-TWO_31, FREE.(grant := Exclusive), FREE))
  {
    LeadsNowhere(START);
    LeadsStep(START, START, 0, BeginX);
    assert Step(START, 0, BeginX) == Two(0, FREE.(pc := SpinX), FREE);
    Access0(START, 0, FREE.(pc := SpinX), FREE, 0, FREE.(pc := CasX(0)));
    Access0(START, 0, FREE.(pc := CasX(0)), FREE, -TWO_31, FREE.(grant := Exclusive));
  }

  /** Client 0 reads and upgrades. */
  lemma ReaderUpgrades()
    ensures Leads(START, Two(-TWO_31, WRITER, FREE))
  {
    ReaderReads();
    LeadsStep(START, Two(1, READER, FREE), 0, BeginX);
    assert Step(Two(1, READER, FREE), 0, BeginX) == Two(1, ASKING, FREE);
    Access0(START, 1, ASKING, FREE, 1, ASKING.(pc := CasReserve(1)));
    Access0(START, 1, ASKING.(pc := CasReserve(1)), FREE, TWO_30 + 1, RESERVED);
    Access0(START, TWO_30 + 1, RESERVED, FREE, TWO_30 + 1, RESERVED.(pc := SpinX));
    Access0(START, TWO_30 + 1, RESERVED.(pc := SpinX), FREE, TWO_30 + 1, RESERVED.(pc := CasX(TWO_30 + 1)));
    Access0(START, TWO_30 + 1, RESERVED.(pc := CasX(TWO_30 + 1)), FREE, -TWO_31, WRITER);
  }

  lemma WriterLetsGo()
    ensures Leads(START, Two(0, CLEARING, FREE))
  {
    ReaderUpgrades();
    LeadsStep(START, Two(-TWO_31, WRITER, FREE), 0, BeginUnlock);
    assert Step(Two(-TWO_31, WRITER, FREE), 0, BeginUnlock) == Two(-TWO_31, WRITER.(pc := Release(-TWO_31)), FREE);
    Access0(START, -TWO_31, WRITER.(pc := Release(-TWO_31)), FREE, 0, CLEARING);
  }

  /** Before client 0 looks at the upgrade bit client 1 reads and reserves its own upgrade. */
  lemma ReservationOverlaps()
    ensures Leads(START, Two(TWO_30 + 1, CLEARING, RESERVED))
  {
    WriterLetsGo();
    LeadsStep(START, Two(0, CLEARING, FREE), 1, BeginS);
    assert Step(Two(0, CLEARING, FREE), 1, BeginS) == Two(0, CLEARING, FREE.(pc := SpinS));
    Access1(START, 0, CLEARING, FREE.(pc := SpinS), 0, FREE.(pc := CasS(0)));
    Access1(START, 0, CLEARING, FREE.(pc := CasS(0)), 1, READER);
    LeadsStep(START, Two(1, CLEARING, READER), 1, BeginX);
    assert Step(Two(1, CLEARING, READER), 1, BeginX) == Two(1, CLEARING, ASKING);
    Access1(START, 1, CLEARING, ASKING, 1, ASKING.(pc := CasReserve(1)));
    Access1(START, 1, CLEARING, ASKING.(pc := CasReserve(1)), TWO_30 + 1, RESERVED);
  }

  /** Client 0 clears the bit client 1 has set. */
  lemma ReservationGone()
    ensures Leads(START, Two(1, FREE, RESERVED))
  {
    ReservationOverlaps();
    Access0(START, TWO_30 + 1, CLEARING, RESERVED, TWO_30 + 1, CLEARING.(pc := CasClearOnUnlock(TWO_30 + 1)));
    Access0(START, TWO_30 + 1, CLEARING.(pc := CasClearOnUnlock(TWO_30 + 1)), RESERVED, 1, FREE);
  }

  /** The case of UnlockClearsForeignReservation does occur: client 1 ends up without the bit it set. */
  lemma ReservationCanBeLost()
    ensures exists s :: Leads(START, s) && 1 in s.clients && Reserving(s.clients[1]) && !UpgradeBit(s.word)
  {
    ReservationGone();
    var s := Two(1, FREE, RESERVED);
    assert Leads(START, s) && Reserving(s.clients[1]) && !UpgradeBit(s.word);
  }

  lemma ReadsAgain()
    ensures Leads(START, Two(2, READER, RESERVED))
  {
    ReservationGone();
    LeadsStep(START, Two(1, FREE, RESERVED), 0, BeginS);
    assert Step(Two(1, FREE, RESERVED), 0, BeginS) == Two(1, FREE.(pc := SpinS), RESERVED);
    Access0(START, 1, FREE.(pc := SpinS), RESERVED, 1, FREE.(pc := CasS(1)));
    Access0(START, 1, FREE.(pc := CasS(1)), RESERVED, 2, READER);
  }

  /** After that client 0 reserves in turn, and client 1, which still takes the bit for its own, gives up and
      is about to clear it. */
  lemma TimedOutClientTakesReservation()
    ensures exists s :: Leads(START, s) && s.clients.Keys == {0, 1} && Reserving(s.clients[0]) && UpgradeBit(s.word)
                        && s.clients[1].pc == CasClearOnTimeout(s.word)
  {
    ReadsAgain();
    var waiting := RESERVED.(pc := SpinX);
    LeadsStep(START, Two(2, READER, RESERVED), 0, BeginX);
    assert Step(Two(2, READER, RESERVED), 0, BeginX) == Two(2, ASKING, RESERVED);
    Access0(START, 2, ASKING, RESERVED, 2, ASKING.(pc := CasReserve(2)));
    Access0(START, 2, ASKING.(pc := CasReserve(2)), RESERVED, TWO_30 + 2, waiting);
    Access1(START, TWO_30 + 2, waiting, RESERVED, TWO_30 + 2, waiting);
    GivesUp();
  }

  lemma GivesUp()
    requires Leads(START, Two(TWO_30 + 2, RESERVED.(pc := SpinX), RESERVED.(pc := SpinX)))
    ensures exists s :: Leads(START, s) && s.clients.Keys == {0, 1} && Reserving(s.clients[0]) && UpgradeBit(s.word)
                        && s.clients[1].pc == CasClearOnTimeout(s.word)
  {
    var word, waiting := TWO_30 + 2, RESERVED.(pc := SpinX);
    var clearing := RESERVED.(pc := ClearOnTimeout);
    LeadsStep(START, Two(word, waiting, waiting), 1, TimeOut);
    assert Step(Two(word, waiting, waiting), 1, TimeOut) == Two(word, waiting, clearing);
    Access1(START, word, waiting, clearing, word, clearing.(pc := CasClearOnTimeout(word)));
    var s := Two(word, waiting, clearing.(pc := CasClearOnTimeout(word)));
    assert Leads(START, s) && Reserving(s.clients[0]) && UpgradeBit(s.word);
  }
}
