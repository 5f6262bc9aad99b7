// Sessions of an FCP target port (ft_sess.c): a hashed, reference-counted table with login,
// logout, lookup, disable and release.
module FcpSession {

  // A session's address; 0 is the null pointer.  An address names one session for ever.
  type Ptr = nat

  datatype LoginResult = Ack | Conf | Res

  const HASH_BITS := 6
  const HASH_SIZE := 64

  // hash_32: multiply modulo 2^32 and keep the top six bits.
  function Hash(port: nat): (h: nat)
    ensures h < HASH_SIZE
  {
    (port * 0x9e370001) % 0x1_0000_0000 / 0x400_0000
  }

  // ---------------------------------------------------------------------------------------------
  // What the table means: a map from port id to session, a count for each session, and the
  // sessions SCST has been told are gone.

  datatype Core = Core(table: map<nat, Ptr>, kref: map<Ptr, nat>, enabled: bool, gone: multiset<Ptr>)

  // kref_put: the last reference unregisters the session.  (ft_sess_put stops the machine on a
  // count that is not positive; CountsStayPositive shows that never happens.)
  function Put(c: Core, p: Ptr): Core {
    if p !in c.kref || c.kref[p] == 0 then c
    else c.(kref := c.kref[p := c.kref[p] - 1], gone := if c.kref[p] == 1 then c.gone + multiset{p} else c.gone)
  }

  function Login(c: Core, port: nat, p: Ptr): Core {
    if !c.enabled || port in c.table then c else c.(table := c.table[port := p], kref := c.kref[p := 1])
  }

  function Logout(c: Core, port: nat): Core {
    c.(table := c.table - {port})
  }

  // Drop the table and the reference it holds on each of its sessions.
  ghost function Release(c: Core): Core {
    Core(map[],
         map p | p in c.kref :: if p in c.table.Values && c.kref[p] > 0 then c.kref[p] - 1 else c.kref[p],
         false,
         c.gone + multiset(set p | p in c.table.Values && p in c.kref && c.kref[p] == 1))
  }

  // Sessions in the table are counted at least once, and no session is there under two ports.
  ghost predicate Sound(c: Core) {
    && (forall port :: port in c.table ==> c.table[port] in c.kref && c.kref[c.table[port]] > 0)
    && (forall x, y :: x in c.table && y in c.table && c.table[x] == c.table[y] ==> x == y)
  }

  // ---------------------------------------------------------------------------------------------
  // Every run: steps under ft_lport_lock, lock-free lookups and reference drops, interleaved

  // Where ft_tgt_release is: not running, about to take the next session, or about to read the
  // successor of the session it just closed.
  datatype Walk = Resting | AtNext | Closing(p: Ptr)

  datatype World = World(
    core: Core,
    held: multiset<Ptr>,     // references callers hold
    found: multiset<Ptr>,    // lookups that found a session but hold no reference yet
    used: set<Ptr>,          // every address ever given to a session
    walk: Walk)

  datatype Step =
    | LoginStep(port: nat, p: Ptr)      // a PRLI that passes its checks; p is the allocation
    | LogoutStep(port: nat)             // the locked part of PRLO; the put comes later
    | PutStep(p: Ptr)
    | FindStep(port: nat)
    | GetStep(p: Ptr)                   // kref_get_unless_zero
    | ReclaimStep(p: Ptr)               // the memory is freed once no lookup can see it
    | ReleaseStep                       // ft_tgt_release begins
    | CloseStep(port: nat)              // ft_sess_close of one session of the walk
    | AdvanceStep                       // the walk reads that session's successor
    | ReleasedStep                      // the walk has come to the end
    | EnableStep

  ghost predicate Init(w: World) {
    && w.core == Core(map[], map[], false, multiset{}) && w.held == multiset{} && w.found == multiset{} && w.used == {}
    && w.walk == Resting
  }

  // Login, logout, enable and release hold ft_lport_lock; release holds it for its whole walk.
  ghost predicate Enabled(w: World, s: Step) {
    match s
    case LoginStep(_, p) => p !in w.used && w.walk == Resting
    case LogoutStep(_) => w.walk == Resting
    case EnableStep => w.walk == Resting
    case ReleaseStep => w.walk == Resting
    case CloseStep(port) => w.walk == AtNext && port in w.core.table
    case AdvanceStep => w.walk.Closing? && w.walk.p in w.core.kref
    case ReleasedStep => w.walk == AtNext && w.core.table == map[]
    case PutStep(p) => p in w.held
    case GetStep(p) => p in w.found
    case ReclaimStep(p) => p in w.core.kref && w.core.kref[p] == 0 && p !in w.found
    case FindStep(_) => true
  }

  ghost predicate Inv(w: World) {
    && Sound(w.core)
    && (forall p :: PtrInv(w, p))
    && (w.walk.Resting? && !w.core.enabled ==> w.core.table == map[])
    && (!w.walk.Resting? ==> !w.core.enabled)
    && (w.walk.Closing? ==> w.walk.p in w.used && w.walk.p !in w.core.table.Values)
  }

  // What holds of every address: the count is the table's reference plus those held, no lookup
  // looks at freed memory, and a session is reported gone exactly once, when its last reference
  // has been dropped.
  ghost predicate PtrInv(w: World, p: Ptr) {
    var c := w.core;
    if p in c.kref then
      && p in w.used && c.kref[p] == w.held[p] + (if p in c.table.Values then 1 else 0)
      && c.gone[p] == (if c.kref[p] == 0 then 1 else 0)
    else
      w.held[p] == 0 && w.found[p] == 0 && c.gone[p] == if p in w.used then 1 else 0
  }

  ghost function Next(w: World, s: Step): World
  {
    var c := w.core;
    match s
    case LoginStep(port, p) =>
      w.(core := Login(c, port, p), used := if !c.enabled || port in c.table then w.used else w.used + {p})
    case LogoutStep(port) =>
      if port in c.table then w.(core := Logout(c, port), held := w.held + multiset{c.table[port]}) else w
    case PutStep(p) => w.(core := Put(c, p), held := w.held - multiset{p})
    case FindStep(port) => if port in c.table then w.(found := w.found + multiset{c.table[port]}) else w
    case GetStep(p) =>
      if p !in c.kref || c.kref[p] == 0 then w.(found := w.found - multiset{p})
      else w.(core := c.(kref := c.kref[p := c.kref[p] + 1]), held := w.held + multiset{p},
        found := w.found - multiset{p})
    case ReclaimStep(p) => w.(core := c.(kref := c.kref - {p}))
    case ReleaseStep => w.(core := c.(enabled := false), walk := AtNext)
    case CloseStep(port) =>
      if port in c.table then w.(core := Put(Logout(c, port), c.table[port]), walk := Closing(c.table[port])) else w
    case AdvanceStep => w.(walk := AtNext)
    case ReleasedStep => w.(walk := Resting)
    case EnableStep => w.(core := c.(enabled := true))
  }

  lemma ValuesOfUpdate(t: map<nat, Ptr>, port: nat, p: Ptr)
    requires port !in t
    ensures t[port := p].Values == t.Values + {p}
  {
    var t' := t[port := p];
    assert t'[port] == p;
    forall q | q in t.Values
      ensures q in t'.Values
    {
      var x :| x in t && t[x] == q;
      assert t'[x] == q;
    }
  }

  lemma ValuesOfRemoval(t: map<nat, Ptr>, port: nat)
    requires port in t && forall x, y :: x in t && y in t && t[x] == t[y] ==> x == y
    ensures (t - {port}).Values == t.Values - {t[port]}
  {
    var t' := t - {port};
    forall q | q in t.Values && q != t[port]
      ensures q in t'.Values
    {
      var x :| x in t && t[x] == q;
      assert t'[x] == q;
    }
  }

  lemma LoginKeepsInv(w: World, port: nat, p: Ptr)
    requires Inv(w) && Enabled(w, LoginStep(port, p))
    ensures Inv(Next(w, LoginStep(port, p)))
  {
    var c, w' := w.core, Next(w, LoginStep(port, p));
    assert PtrInv(w, p);
    if c.enabled && port !in c.table {
      ValuesOfUpdate(c.table, port, p);
      forall q
        ensures PtrInv(w', q)
      {
        assert PtrInv(w, q);
      }
    }
  }

  lemma LogoutKeepsInv(w: World, port: nat)
    requires Inv(w) && Enabled(w, LogoutStep(port))
    ensures Inv(Next(w, LogoutStep(port)))
  {
    if port in w.core.table {
      ValuesOfRemoval(w.core.table, port);
      forall q
        ensures PtrInv(Next(w, LogoutStep(port)), q)
      {
        assert PtrInv(w, q);
      }
    }
  }

  lemma PutKeepsInv(w: World, p: Ptr)
    requires Inv(w) && p in w.held
    ensures Inv(Next(w, PutStep(p)))
  {
    assert PtrInv(w, p);
    forall q
      ensures PtrInv(Next(w, PutStep(p)), q)
    {
      assert PtrInv(w, q);
    }
  }

  lemma GetKeepsInv(w: World, p: Ptr)
    requires Inv(w) && p in w.found
    ensures Inv(Next(w, GetStep(p)))
  {
    assert PtrInv(w, p);
    forall q
      ensures PtrInv(Next(w, GetStep(p)), q)
    {
      assert PtrInv(w, q);
    }
  }

  lemma ReclaimKeepsInv(w: World, p: Ptr)
    requires Inv(w) && Enabled(w, ReclaimStep(p))
    ensures Inv(Next(w, ReclaimStep(p)))
  {
    assert PtrInv(w, p);
    forall q
      ensures PtrInv(Next(w, ReclaimStep(p)), q)
    {
      assert PtrInv(w, q);
    }
  }

  // Steps that leave counts and table alone.
  lemma OtherKeepsInv(w: World, s: Step)
    requires Inv(w) && Enabled(w, s)
    requires s.FindStep? || s.EnableStep? || s.ReleaseStep? || s.AdvanceStep? || s.ReleasedStep?
    ensures Inv(Next(w, s))
  {
    forall q
      ensures PtrInv(Next(w, s), q)
    {
      assert PtrInv(w, q);
    }
  }

  lemma CloseKeepsInv(w: World, port: nat)
    requires Inv(w) && Enabled(w, CloseStep(port))
    ensures Inv(Next(w, CloseStep(port)))
  {
    var p, w' := w.core.table[port], Next(w, CloseStep(port));
    ValuesOfRemoval(w.core.table, port);
    assert PtrInv(w, p);
    forall q
      ensures PtrInv(w', q)
    {
      assert PtrInv(w, q);
    }
  }

  lemma NextKeepsInv(w: World, s: Step)
    requires Inv(w) && Enabled(w, s)
    ensures Inv(Next(w, s))
  {
    hide Inv, Next;
    match s
    case LoginStep(port, p) => LoginKeepsInv(w, port, p);
    case LogoutStep(port) => LogoutKeepsInv(w, port);
    case PutStep(p) => PutKeepsInv(w, p);
    case GetStep(p) => GetKeepsInv(w, p);
    case ReclaimStep(p) => ReclaimKeepsInv(w, p);
    case CloseStep(port) => CloseKeepsInv(w, port);
    case _ => OtherKeepsInv(w, s);
  }

  ghost predicate Run(ws: seq<World>, steps: seq<Step>) {
    && |ws| == |steps| + 1 && Init(ws[0])
    && forall i :: 0 <= i < |steps| ==> Enabled(ws[i], steps[i]) && ws[i + 1] == Next(ws[i], steps[i])
  }

  lemma {:induction false} RunKeepsInv(ws: seq<World>, steps: seq<Step>, i: nat)
    requires Run(ws, steps) && i <= |steps|
    ensures Inv(ws[i])
  {
    hide Next, Enabled, Inv, Init;
    if i > 0 {
      RunKeepsInv(ws, steps, i - 1);
      NextKeepsInv(ws[i - 1], steps[i - 1]);
    } else {
      InitHasInv(ws[0]);
    }
  }

  lemma InitHasInv(w: World)
    requires Init(w)
    ensures Inv(w)
  {
  }

  // In every reachable state: a session someone can still use (it is in the table or a reference
  // is held) has a positive count and has not been reported gone; nothing is reported gone twice;
  // no lookup looks at freed memory; and a disabled port has no sessions, except while it is being
  // released.
  lemma CountsStayPositive(ws: seq<World>, steps: seq<Step>, i: nat, p: Ptr)
    requires Run(ws, steps) && i <= |steps|
    ensures var w := ws[i];
            && (p in w.held || p in w.core.table.Values ==>
              p in w.core.kref && w.core.kref[p] > 0 && w.core.gone[p] == 0)
            && (p in w.found ==> p in w.core.kref)
            && w.core.gone[p] <= 1
            && (!w.core.enabled && w.walk == Resting ==> w.core.table == map[])
  {
    hide Next, Enabled, Init;
    RunKeepsInv(ws, steps, i);
    assert PtrInv(ws[i], p);
    if p in ws[i].core.table.Values {
      var port :| port in ws[i].core.table && ws[i].core.table[port] == p;
    }
  }

  // Step k enters p under port, and no later step before i takes that port out.
  ghost predicate Entered(ws: seq<World>, steps: seq<Step>, i: nat, port: nat, p: Ptr)
    requires |ws| == |steps| + 1 && i <= |steps|
  {
    exists k :: 0 <= k < i && EnteredAt(ws, steps, k, i, port, p)
  }

  ghost predicate EnteredAt(ws: seq<World>, steps: seq<Step>, k: nat, i: nat, port: nat, p: Ptr)
    requires |ws| == |steps| + 1 && k < i <= |steps|
  {
    && steps[k] == LoginStep(port, p) && ws[k].core.enabled && port !in ws[k].core.table
    && forall j :: k < j < i ==> steps[j] != LogoutStep(port) && steps[j] != CloseStep(port)
  }

  // In every run the table holds exactly the sessions of logins that were accepted while the port was
  // enabled and not logged in, until they log out or are closed.
  lemma {:induction false} TableFromHistory(ws: seq<World>, steps: seq<Step>, i: nat, port: nat, p: Ptr)
    requires Run(ws, steps) && i <= |steps|
    ensures port in ws[i].core.table && ws[i].core.table[port] == p <==> Entered(ws, steps, i, port, p)
  {
    hide Init;
    if i == 0 {
      InitIsEmpty(ws[0]);
    } else {
      TableFromHistory(ws, steps, i - 1, port, p);
      assert Enabled(ws[i - 1], steps[i - 1]) && ws[i] == Next(ws[i - 1], steps[i - 1]);
      TableStep(ws[i - 1], steps[i - 1], port, p);
      hide Next, Enabled;
      EnteredStep(ws, steps, i, port, p);
    }
  }

  lemma InitIsEmpty(w: World)
    requires Init(w)
    ensures w.core.table == map[]
  {
  }

  lemma TableStep(w: World, s: Step, port: nat, p: Ptr)
    ensures var t, t' := w.core.table, Next(w, s).core.table;
            port in t' && t'[port] == p <==>
              || (port in t && t[port] == p && s != LogoutStep(port) && s != CloseStep(port))
              || (s == LoginStep(port, p) && w.core.enabled && port !in t)
  {
    hide Put;
    match s {
      case PutStep(q) => PutKeepsTable(w.core, q);
      case CloseStep(x) =>
        if x in w.core.table {
          PutKeepsTable(Logout(w.core, x), w.core.table[x]);
        }
      case _ =>
    }
  }

  lemma PutKeepsTable(c: Core, p: Ptr)
    ensures Put(c, p).table == c.table
  {
  }

  lemma EnteredStep(ws: seq<World>, steps: seq<Step>, i: nat, port: nat, p: Ptr)
    requires |ws| == |steps| + 1 && 0 < i <= |steps|
    ensures Entered(ws, steps, i, port, p) <==>
              || (&& Entered(ws, steps, i - 1, port, p)
                  && steps[i - 1] != LogoutStep(port) && steps[i - 1] != CloseStep(port))
              || (steps[i - 1] == LoginStep(port, p) && ws[i - 1].core.enabled && port !in ws[i - 1].core.table)
  {
    if Entered(ws, steps, i - 1, port, p) && steps[i - 1] != LogoutStep(port) && steps[i - 1] != CloseStep(port) {
      var k :| 0 <= k < i - 1 && EnteredAt(ws, steps, k, i - 1, port, p);
      assert EnteredAt(ws, steps, k, i, port, p);
    }
    if steps[i - 1] == LoginStep(port, p) && ws[i - 1].core.enabled && port !in ws[i - 1].core.table {
      assert EnteredAt(ws, steps, i - 1, i, port, p);
    }
    if Entered(ws, steps, i, port, p) {
      var k :| 0 <= k < i && EnteredAt(ws, steps, k, i, port, p);
      assert k < i - 1 ==> EnteredAt(ws, steps, k, i - 1, port, p);
    }
  }

  // ---------------------------------------------------------------------------------------------
  // The walk of a release reads the successor of a session it has closed

  // That session's memory has been freed.
  ghost predicate ReadsFreed(w: World) {
    w.walk.Closing? && w.walk.p !in w.core.kref
  }

  // At any moment between the close and the read, in every run, the session can be freed exactly
  // when nobody holds a reference to it any more and no lookup is looking at it: the walk itself is
  // no reader in the sense of RCU.
  lemma CanBeFreedExactly(ws: seq<World>, steps: seq<Step>, i: nat)
    requires Run(ws, steps) && i <= |steps| && ws[i].walk.Closing? && !ReadsFreed(ws[i])
    ensures var w, p := ws[i], ws[i].walk.p;
      && (Enabled(w, ReclaimStep(p)) <==> p !in w.held && p !in w.found)
      && (Enabled(w, ReclaimStep(p)) ==> ReadsFreed(Next(w, ReclaimStep(p))))
  {
    hide Init;
    RunKeepsInv(ws, steps, i);
    assert PtrInv(ws[i], ws[i].walk.p);
  }

  // So the walk is never out of danger: whoever still uses the session can finish with it, and its
  // memory be freed, before the walk reads on.
  lemma {:induction false} AlwaysInDanger(ws: seq<World>, steps: seq<Step>) returns (ws': seq<World>, steps': seq<Step>)
    requires Run(ws, steps) && ws[|steps|].walk.Closing? && !ReadsFreed(ws[|steps|])
    ensures Run(ws', steps') && ws <= ws' && steps <= steps' && ReadsFreed(ws'[|steps'|])
    ensures forall k :: |steps| <= k < |steps'| ==> steps'[k].GetStep? || steps'[k].PutStep? || steps'[k].ReclaimStep?
    decreases 2 * ws[|steps|].found[ws[|steps|].walk.p] + ws[|steps|].held[ws[|steps|].walk.p]
  {
    hide Init;
    var w, p := ws[|steps|], ws[|steps|].walk.p;
    CanBeFreedExactly(ws, steps, |steps|);
    var s := if p in w.found then GetStep(p) else if p in w.held then PutStep(p) else ReclaimStep(p);
    ws', steps' := Extend(ws, steps, s);
    if s != ReclaimStep(p) {
      OthersFinish(w, s);
      var ws1, steps1 := ws', steps';
      ws', steps' := AlwaysInDanger(ws1, steps1);
      assert steps <= steps1 <= steps' && ws <= ws1 <= ws';
      forall k | |steps| <= k < |steps'| ensures steps'[k].GetStep? || steps'[k].PutStep? || steps'[k].ReclaimStep? {
        assert k == |steps| ==> steps'[k] == steps1[k] == s;
      }
    }
  }

  lemma OthersFinish(w: World, s: Step)
    requires w.walk.Closing? && w.walk.p in w.core.kref && Enabled(w, s)
    requires s == GetStep(w.walk.p) || (s == PutStep(w.walk.p) && w.walk.p !in w.found)
    ensures var p, w' := w.walk.p, Next(w, s);
      w'.walk == w.walk && !ReadsFreed(w') && 2 * w'.found[p] + w'.held[p] < 2 * w.found[p] + w.held[p]
  {
  }

  // In every run, the walk reads freed memory only after the last reference to the session is gone
  // and SCST has been told so.  A reference held by anyone, or a lookup that found the session (as
  // a walk under rcu_read_lock would be), prevents it.
  lemma FreedOnlyAfterLastPut(ws: seq<World>, steps: seq<Step>, i: nat)
    requires Run(ws, steps) && i <= |steps| && ReadsFreed(ws[i])
    ensures var w, p := ws[i], ws[i].walk.p; p !in w.held && p !in w.found && w.core.gone[p] == 1
  {
    hide Next, Enabled, Init, Sound;
    RunKeepsInv(ws, steps, i);
    assert PtrInv(ws[i], ws[i].walk.p);
  }

  lemma Extend(ws: seq<World>, steps: seq<Step>, s: Step) returns (ws': seq<World>, steps': seq<Step>)
    requires Run(ws, steps) && Enabled(ws[|steps|], s)
    ensures ws' == ws + [Next(ws[|steps|], s)] && steps' == steps + [s] && Run(ws', steps')
  {
    hide Next, Enabled, Init;
    ws', steps' := ws + [Next(ws[|steps|], s)], steps + [s];
    forall k | 0 <= k < |steps'|
      ensures Enabled(ws'[k], steps'[k]) && ws'[k + 1] == Next(ws'[k], steps'[k])
    {
      assert k < |steps| ==> ws'[k] == ws[k] && steps'[k] == steps[k] && ws'[k + 1] == ws[k + 1];
    }
  }

  // It does happen: one session with no reference but the table's.
  lemma ReleaseReadsFreed(port: nat, p: Ptr) returns (ws: seq<World>, steps: seq<Step>)
    ensures Run(ws, steps) && ReadsFreed(ws[|steps|])
    ensures steps == [EnableStep, LoginStep(port, p), ReleaseStep, CloseStep(port), ReclaimStep(p)]
  {
    ws, steps := LoggedIn(port, p);
    hide Init;
    ws, steps := Extend(ws, steps, ReleaseStep);
    ws, steps := Extend(ws, steps, CloseStep(port));
    assert ws[|steps|] == World(Core(map[], map[p := 0], false, multiset{p}), multiset{}, multiset{}, {p},
      Closing(p)) by {
      assert map[port := p] - {port} == map[] && map[p := 1][p := 0] == map[p := 0];
    }
    ws, steps := Extend(ws, steps, ReclaimStep(p));
  }

  // Another reference at the close does not help: it may be dropped before the read.
  lemma ReleaseReadsFreedLater(port: nat, p: Ptr) returns (ws: seq<World>, steps: seq<Step>)
    ensures steps == [EnableStep, LoginStep(port, p), FindStep(port), GetStep(p), ReleaseStep, CloseStep(port),
                      PutStep(p), ReclaimStep(p)]
    ensures Run(ws, steps) && ReadsFreed(ws[|steps|]) && ws[5].core.kref == map[p := 2]
  {
    ws, steps := LoggedIn(port, p);
    hide Next, Enabled, Init;
    SoloLookup(port, p);
    ws, steps := Extend(ws, steps, FindStep(port));
    ws, steps := Extend(ws, steps, GetStep(p));
    SoloRelease(port, p);
    ws, steps := Extend(ws, steps, ReleaseStep);
    ws, steps := Extend(ws, steps, CloseStep(port));
    SoloFreed(port, p);
    ws, steps := Extend(ws, steps, PutStep(p));
    ws, steps := Extend(ws, steps, ReclaimStep(p));
  }

  // A world with one session, counted n times.
  ghost function Solo(table: map<nat, Ptr>, p: Ptr, n: nat, enabled: bool, held: multiset<Ptr>, found: multiset<Ptr>,
                      walk: Walk): World {
    World(Core(table, map[p := n], enabled, if n == 0 then multiset{p} else multiset{}), held, found, {p}, walk)
  }

  lemma LoggedIn(port: nat, p: Ptr) returns (ws: seq<World>, steps: seq<Step>)
    ensures Run(ws, steps) && steps == [EnableStep, LoginStep(port, p)]
    ensures ws[2] == Solo(map[port := p], p, 1, true, multiset{}, multiset{}, Resting)
  {
    ws, steps := [World(Core(map[], map[], false, multiset{}), multiset{}, multiset{}, {}, Resting)], [];
    ws, steps := Extend(ws, steps, EnableStep);
    ws, steps := Extend(ws, steps, LoginStep(port, p));
  }

  lemma SoloLookup(port: nat, p: Ptr)
    ensures var t := map[port := p];
      var a, b, c := Solo(t, p, 1, true, multiset{}, multiset{}, Resting),
        Solo(t, p, 1, true, multiset{}, multiset{p}, Resting),
                     Solo(t, p, 2, true, multiset{p}, multiset{}, Resting);
      Enabled(a, FindStep(port)) && Next(a, FindStep(port)) == b && Enabled(b, GetStep(p)) && Next(b, GetStep(p)) == c
  {
    assert map[p := 1][p := 2] == map[p := 2] && multiset{} + multiset{p} == multiset{p};
  }

  lemma SoloRelease(port: nat, p: Ptr)
    ensures var t := map[port := p];
      var a, b, c := Solo(t, p, 2, true, multiset{p}, multiset{}, Resting),
        Solo(t, p, 2, false, multiset{p}, multiset{}, AtNext),
                     Solo(map[], p, 1, false, multiset{p}, multiset{}, Closing(p));
      Enabled(a, ReleaseStep) && Next(a, ReleaseStep) == b && Enabled(b, CloseStep(port)) &&
        Next(b, CloseStep(port)) == c
  {
    assert map[port := p] - {port} == map[] && map[p := 2][p := 1] == map[p := 1];
  }

  lemma SoloFreed(port: nat, p: Ptr)
    ensures var a, b := Solo(map[], p, 1, false, multiset{p}, multiset{}, Closing(p)),
      Solo(map[], p, 0, false, multiset{}, multiset{}, Closing(p));
      Enabled(a, PutStep(p)) && Next(a, PutStep(p)) == b && Enabled(b, ReclaimStep(p)) &&
        ReadsFreed(Next(b, ReclaimStep(p)))
  {
    assert map[p := 1][p := 0] == map[p := 0] && multiset{} + multiset{p} == multiset{p};
  }

  // ---------------------------------------------------------------------------------------------
  // The hash table itself: buckets are doubly linked lists through the sessions

  datatype Link = HeadOf(bucket: nat) | NextOf(p: Ptr)
  datatype Sess = Sess(port: int, params: nat, kref: nat, next: Ptr, pprev: Link)
  type Memory = map<Ptr, Sess>

  function At(chain: seq<Ptr>, i: nat): Ptr {
    if i < |chain| then chain[i] else 0
  }

  // The list that starts at `head` visits the sessions of `chain` in order, each in its bucket.
  ghost predicate Chained(head: Ptr, b: nat, chain: seq<Ptr>, mem: Memory) {
    && head == At(chain, 0)
    && (forall i :: 0 <= i < |chain| ==> NodeAt(b, chain, i, mem))
    && (forall i, j :: 0 <= i < j < |chain| ==> chain[i] != chain[j])
  }

  ghost predicate NodeAt(b: nat, chain: seq<Ptr>, i: nat, mem: Memory)
    requires i < |chain|
  {
    && chain[i] != 0 && chain[i] in mem
    && mem[chain[i]].next == At(chain, i + 1)
    && mem[chain[i]].pprev == (if i == 0 then HeadOf(b) else NextOf(chain[i - 1]))
    && mem[chain[i]].port >= 0 && Hash(mem[chain[i]].port) == b
  }

  // hlist_del_rcu and the clearing of the port id: the neighbours skip p, p keeps its own next.
  function Unlinked(mem: Memory, p: Ptr): Memory
    requires p in mem
  {
    var rec := mem[p];
    var m1 := if rec.pprev.NextOf? && rec.pprev.p in mem
      then mem[rec.pprev.p := mem[rec.pprev.p].(next := rec.next)] else mem;
    var m2 := if rec.next in m1 then m1[rec.next := m1[rec.next].(pprev := rec.pprev)] else m1;
    m2[p := m2[p].(port := -1, params := 0)]
  }

  lemma UnlinkedChain(head: Ptr, b: nat, chain: seq<Ptr>, mem: Memory, k: nat)
    requires Chained(head, b, chain, mem) && k < |chain| && 0 !in mem && chain[k] in mem
    ensures var head' := if k == 0 then At(chain, 1) else head;
            Chained(head', b, chain[..k] + chain[k + 1..], Unlinked(mem, chain[k]))
  {
    var p, mem' := chain[k], Unlinked(mem, chain[k]);
    var chain' := chain[..k] + chain[k + 1..];
    assert NodeAt(b, chain, k, mem);
    forall i | 0 <= i < |chain'|
      ensures NodeAt(b, chain', i, mem')
    {
      var o := if i < k then i else i + 1;
      assert chain'[i] == chain[o] && NodeAt(b, chain, o, mem);
    }
  }

  lemma SameNodesSameChain(head: Ptr, b: nat, chain: seq<Ptr>, mem: Memory, mem': Memory)
    requires Chained(head, b, chain, mem)
    requires forall i :: 0 <= i < |chain| ==> chain[i] in mem' && (chain[i] in mem ==> mem'[chain[i]] == mem[chain[i]])
    ensures Chained(head, b, chain, mem')
  {
    forall i | 0 <= i < |chain|
      ensures NodeAt(b, chain, i, mem')
    {
      assert NodeAt(b, chain, i, mem);
    }
  }

  // The buckets hold exactly the sessions of `table`, each under its own port id.
  ghost predicate Holds(hash: seq<Ptr>, chains: seq<seq<Ptr>>, mem: Memory, table: map<nat, Ptr>) {
    && |hash| == |chains| == HASH_SIZE && 0 !in mem
    && (forall b :: 0 <= b < HASH_SIZE ==> Chained(hash[b], b, chains[b], mem) && Listed(chains[b], mem, table))
    && (forall port :: port in table ==> Indexed(chains, mem, table, port))
  }

  ghost predicate Listed(chain: seq<Ptr>, mem: Memory, table: map<nat, Ptr>) {
    forall i :: 0 <= i < |chain| ==> ListedAt(chain[i], mem, table)
  }

  ghost predicate ListedAt(p: Ptr, mem: Memory, table: map<nat, Ptr>) {
    p in mem && mem[p].port >= 0 && mem[p].port in table && table[mem[p].port] == p
  }

  ghost predicate Indexed(chains: seq<seq<Ptr>>, mem: Memory, table: map<nat, Ptr>, port: nat)
    requires |chains| == HASH_SIZE && port in table
  {
    table[port] in chains[Hash(port)] && table[port] in mem && mem[table[port]].port == port
  }

  lemma BucketOf(hash: seq<Ptr>, chains: seq<seq<Ptr>>, mem: Memory, table: map<nat, Ptr>, b: nat, i: nat)
    requires Holds(hash, chains, mem, table) && b < HASH_SIZE && i < |chains[b]|
    ensures chains[b][i] in mem && mem[chains[b][i]].port >= 0 && Hash(mem[chains[b][i]].port) == b
  {
    assert NodeAt(b, chains[b], i, mem);
  }

  lemma UnlinkElsewhere(hash: seq<Ptr>, chains: seq<seq<Ptr>>, mem: Memory, table: map<nat, Ptr>, b: nat, k: nat,
                        x: Ptr)
    requires Holds(hash, chains, mem, table) && b < HASH_SIZE && k < |chains[b]| && chains[b][k] in mem
    requires x in mem && x !in chains[b]
    ensures Unlinked(mem, chains[b][k])[x] == mem[x]
  {
    assert NodeAt(b, chains[b], k, mem);
  }

  // Unlinking p touches only the links of its neighbours.
  lemma UnlinkedKeeps(mem: Memory, p: Ptr, x: Ptr)
    requires p in mem && x in mem
    ensures Unlinked(mem, p).Keys == mem.Keys
    ensures Unlinked(mem, p)[x].kref == mem[x].kref
    ensures Unlinked(mem, p)[x].port == if x == p then -1 else mem[x].port
  {
  }

  lemma UnlinkListed(mem: Memory, table: map<nat, Ptr>, p: Ptr, x: Ptr)
    requires ListedAt(p, mem, table) && ListedAt(x, mem, table) && x != p
    ensures ListedAt(x, Unlinked(mem, p), table - {mem[p].port})
  {
    UnlinkedKeeps(mem, p, x);
    hide Unlinked;
  }

  lemma UnlinkSameBucket(hash: seq<Ptr>, chains: seq<seq<Ptr>>, mem: Memory, table: map<nat, Ptr>, b: nat, k: nat)
    requires Holds(hash, chains, mem, table) && b < HASH_SIZE && k < |chains[b]| && ListedAt(chains[b][k], mem, table)
    ensures var p := chains[b][k];
            var chain' := chains[b][..k] + chains[b][k + 1..];
            && Chained(if k == 0 then At(chains[b], 1) else hash[b], b, chain', Unlinked(mem, p))
            && Listed(chain', Unlinked(mem, p), table - {mem[p].port})
  {
    hide Unlinked, ListedAt, NodeAt;
    var p, chain := chains[b][k], chains[b];
    var chain' := chain[..k] + chain[k + 1..];
    ListedIn(p, mem, table);
    UnlinkedChain(hash[b], b, chain, mem, k);
    forall i | 0 <= i < |chain'|
      ensures ListedAt(chain'[i], Unlinked(mem, p), table - {mem[p].port})
    {
      var o := if i < k then i else i + 1;
      assert chain'[i] == chain[o] && ListedAt(chain[o], mem, table) && chain[o] != p;
      UnlinkListed(mem, table, p, chain[o]);
    }
  }

  lemma ListedIn(p: Ptr, mem: Memory, table: map<nat, Ptr>)
    requires ListedAt(p, mem, table)
    ensures p in mem && mem[p].port >= 0 && mem[p].port in table && table[mem[p].port] == p
  {
  }

  // Sessions of different buckets are different.
  lemma OtherBucket(hash: seq<Ptr>, chains: seq<seq<Ptr>>, mem: Memory, table: map<nat, Ptr>, b: nat, b2: nat, i: nat)
    requires Holds(hash, chains, mem, table) && b < HASH_SIZE && b2 < HASH_SIZE && b != b2 && i < |chains[b2]|
    ensures chains[b2][i] !in chains[b]
  {
    hide Chained, Listed, NodeAt, Hash, Indexed;
    BucketOf(hash, chains, mem, table, b2, i);
    forall j | 0 <= j < |chains[b]|
      ensures chains[b][j] != chains[b2][i]
    {
      BucketOf(hash, chains, mem, table, b, j);
    }
  }

  lemma UnlinkOtherBucket(hash: seq<Ptr>, chains: seq<seq<Ptr>>, mem: Memory, table: map<nat, Ptr>, b: nat, k: nat,
                          b2: nat)
    requires Holds(hash, chains, mem, table) && b < HASH_SIZE && k < |chains[b]| && ListedAt(chains[b][k], mem, table)
    requires b2 < HASH_SIZE && b2 != b
    ensures var p := chains[b][k];
            Chained(hash[b2], b2, chains[b2], Unlinked(mem, p)) &&
              Listed(chains[b2], Unlinked(mem, p), table - {mem[p].port})
  {
    hide Unlinked, ListedAt, NodeAt, Chained;
    var p, chain := chains[b][k], chains[b2];
    ListedIn(p, mem, table);
    forall i | 0 <= i < |chain|
      ensures chain[i] in Unlinked(mem, p) && chain[i] in mem && Unlinked(mem, p)[chain[i]] == mem[chain[i]]
      ensures ListedAt(chain[i], Unlinked(mem, p), table - {mem[p].port})
    {
      assert ListedAt(chain[i], mem, table);
      ListedIn(chain[i], mem, table);
      OtherBucket(hash, chains, mem, table, b, b2, i);
      UnlinkElsewhere(hash, chains, mem, table, b, k, chain[i]);
      UnlinkedKeeps(mem, p, chain[i]);
      UnlinkListed(mem, table, p, chain[i]);
    }
    SameNodesSameChain(hash[b2], b2, chain, mem, Unlinked(mem, p));
  }

  lemma UnlinkHolds(hash: seq<Ptr>, chains: seq<seq<Ptr>>, mem: Memory, table: map<nat, Ptr>, b: nat, k: nat)
    requires Holds(hash, chains, mem, table) && b < HASH_SIZE && k < |chains[b]|
    ensures ListedAt(chains[b][k], mem, table)
    ensures var p := chains[b][k];
            Holds(if k == 0 then hash[b := At(chains[b], 1)] else hash,
                  chains[b := chains[b][..k] + chains[b][k + 1..]], Unlinked(mem, p), table - {mem[p].port})
  {
    hide Unlinked, ListedAt, Chained;
    var p := chains[b][k];
    assert Listed(chains[b], mem, table) && ListedAt(p, mem, table);
    ListedIn(p, mem, table);
    UnlinkSameBucket(hash, chains, mem, table, b, k);
    UnlinkedKeeps(mem, p, p);
    var chains' := chains[b := chains[b][..k] + chains[b][k + 1..]];
    forall b2 | 0 <= b2 < HASH_SIZE && b2 != b
      ensures Chained(hash[b2], b2, chains[b2], Unlinked(mem, p))
      ensures Listed(chains[b2], Unlinked(mem, p), table - {mem[p].port})
    {
      UnlinkOtherBucket(hash, chains, mem, table, b, k, b2);
    }
    forall port | port in table && port != mem[p].port
      ensures Indexed(chains', Unlinked(mem, p), table - {mem[p].port}, port)
    {
      assert Indexed(chains, mem, table, port);
      UnlinkedKeeps(mem, p, table[port]);
      if Hash(port) == b {
        KeptInRest(chains[b], k, table[port]);
      }
    }
  }

  lemma KeptInRest(chain: seq<Ptr>, k: nat, x: Ptr)
    requires k < |chain| && x in chain && x != chain[k]
    ensures x in chain[..k] + chain[k + 1..]
  {
    var i :| 0 <= i < |chain| && chain[i] == x;
    var rest := chain[..k] + chain[k + 1..];
    assert rest[if i < k then i else i - 1] == x;
  }

  // hlist_add_head_rcu of a new session.
  function Linked(mem: Memory, p: Ptr, port: nat, params: nat, b: nat, head: Ptr): Memory {
    var m1 := mem[p := Sess(port, params, 1, head, HeadOf(b))];
    if head in mem then m1[head := m1[head].(pprev := NextOf(p))] else m1
  }

  lemma LinkedChain(head: Ptr, b: nat, chain: seq<Ptr>, mem: Memory, p: Ptr, port: nat, params: nat)
    requires Chained(head, b, chain, mem) && 0 !in mem && p !in mem && p != 0 && b == Hash(port)
    ensures Chained(p, b, [p] + chain, Linked(mem, p, port, params, b, head))
  {
    hide Hash;
    var mem', chain' := Linked(mem, p, port, params, b, head), [p] + chain;
    forall i | 0 <= i < |chain'|
      ensures NodeAt(b, chain', i, mem') && (i > 0 ==> chain'[i] != p)
    {
      if i > 0 {
        assert chain'[i] == chain[i - 1] && NodeAt(b, chain, i - 1, mem);
      }
      if i > 1 {
        assert chain'[i - 1] == chain[i - 2] && chain[i - 1] != chain[0] == head;
      }
    }
  }

  lemma LinkedKeeps(mem: Memory, p: Ptr, port: nat, params: nat, b: nat, head: Ptr, x: Ptr)
    requires x in mem && p !in mem
    ensures Linked(mem, p, port, params, b, head).Keys == mem.Keys + {p}
    ensures Linked(mem, p, port, params, b, head)[p].port == port && Linked(mem, p, port, params, b, head)[p].kref == 1
    ensures Linked(mem, p, port, params, b, head)[x].port == mem[x].port
    ensures Linked(mem, p, port, params, b, head)[x].kref == mem[x].kref
    ensures x != head ==> Linked(mem, p, port, params, b, head)[x] == mem[x]
  {
  }

  lemma LinkListed(mem: Memory, table: map<nat, Ptr>, p: Ptr, port: nat, params: nat, b: nat, head: Ptr, x: Ptr)
    requires ListedAt(x, mem, table) && p !in mem && port !in table
    ensures ListedAt(x, Linked(mem, p, port, params, b, head), table[port := p])
  {
    LinkedKeeps(mem, p, port, params, b, head, x);
    hide Linked;
  }

  lemma LinkOtherBucket(hash: seq<Ptr>, chains: seq<seq<Ptr>>, mem: Memory, table: map<nat, Ptr>,
                        p: Ptr, port: nat, params: nat, b2: nat)
    requires Holds(hash, chains, mem, table) && p !in mem && p != 0 && port !in table && b2 < HASH_SIZE
    requires b2 != Hash(port)
    ensures var mem' := Linked(mem, p, port, params, Hash(port), hash[Hash(port)]);
            Chained(hash[b2], b2, chains[b2], mem') && Listed(chains[b2], mem', table[port := p])
  {
    hide Linked, ListedAt, NodeAt, Hash, Indexed, Chained;
    var b := Hash(port);
    var mem', chain := Linked(mem, p, port, params, b, hash[b]), chains[b2];
    HeadInChain(hash[b], b, chains[b], mem);
    forall i | 0 <= i < |chain|
      ensures chain[i] in mem' && chain[i] in mem && mem'[chain[i]] == mem[chain[i]]
      ensures ListedAt(chain[i], mem', table[port := p])
    {
      assert ListedAt(chain[i], mem, table);
      ListedIn(chain[i], mem, table);
      OtherBucket(hash, chains, mem, table, b, b2, i);
      LinkedKeeps(mem, p, port, params, b, hash[b], chain[i]);
      LinkListed(mem, table, p, port, params, b, hash[b], chain[i]);
    }
    SameNodesSameChain(hash[b2], b2, chain, mem, mem');
  }

  lemma HeadInChain(head: Ptr, b: nat, chain: seq<Ptr>, mem: Memory)
    requires Chained(head, b, chain, mem) && 0 !in mem
    ensures head in mem ==> head in chain
  {
  }

  lemma LinkSameBucket(hash: seq<Ptr>, chains: seq<seq<Ptr>>, mem: Memory, table: map<nat, Ptr>, p: Ptr, port: nat,
                       params: nat)
    requires Holds(hash, chains, mem, table) && p !in mem && p != 0 && port !in table
    ensures var b := Hash(port);
            var mem' := Linked(mem, p, port, params, b, hash[b]);
            Chained(p, b, [p] + chains[b], mem') && Listed([p] + chains[b], mem', table[port := p])
  {
    hide Linked, ListedAt, NodeAt, Hash, Indexed;
    var b := Hash(port);
    var mem', chain' := Linked(mem, p, port, params, b, hash[b]), [p] + chains[b];
    LinkedChain(hash[b], b, chains[b], mem, p, port, params);
    forall i | 0 <= i < |chain'|
      ensures ListedAt(chain'[i], mem', table[port := p])
    {
      if i > 0 {
        assert chain'[i] == chains[b][i - 1];
        LinkListed(mem, table, p, port, params, b, hash[b], chains[b][i - 1]);
      } else {
        LinkedFirst(mem, table, p, port, params, b, hash[b]);
      }
    }
  }

  lemma LinkedFirst(mem: Memory, table: map<nat, Ptr>, p: Ptr, port: nat, params: nat, b: nat, head: Ptr)
    requires p !in mem
    ensures ListedAt(p, Linked(mem, p, port, params, b, head), table[port := p])
  {
  }

  lemma LinkHolds(hash: seq<Ptr>, chains: seq<seq<Ptr>>, mem: Memory, table: map<nat, Ptr>, p: Ptr, port: nat,
                  params: nat)
    requires Holds(hash, chains, mem, table) && p !in mem && p != 0 && port !in table
    ensures var b := Hash(port);
            Holds(hash[b := p], chains[b := [p] + chains[b]], Linked(mem, p, port, params, b, hash[b]),
              table[port := p])
  {
    hide Linked, ListedAt, Chained, Hash, NodeAt;
    var b := Hash(port);
    var mem', chains', table' := Linked(mem, p, port, params, b, hash[b]), chains[b := [p] + chains[b]],
      table[port := p];
    LinkSameBucket(hash, chains, mem, table, p, port, params);
    LinkedFirst(mem, table, p, port, params, b, hash[b]);
    ListedIn(p, mem', table');
    forall b2 | 0 <= b2 < HASH_SIZE && b2 != b
      ensures Chained(hash[b2], b2, chains[b2], mem') && Listed(chains[b2], mem', table')
    {
      LinkOtherBucket(hash, chains, mem, table, p, port, params, b2);
    }
    forall x | x in table
      ensures Indexed(chains', mem', table', x)
    {
      assert Indexed(chains, mem, table, x);
      LinkedKeeps(mem, p, port, params, b, hash[b], table[x]);
    }
    LinkedNoNull(mem, p, port, params, b, hash[b]);
  }

  lemma LinkedNoNull(mem: Memory, p: Ptr, port: nat, params: nat, b: nat, head: Ptr)
    requires 0 !in mem && p != 0
    ensures 0 !in Linked(mem, p, port, params, b, head)
  {
  }

  // ---------------------------------------------------------------------------------------------
  // The target port object

  function Krefs(mem: Memory): map<Ptr, nat> {
    map p | p in mem :: mem[p].kref
  }

  // Drop one reference on each of a set of sessions; those whose last it was.
  ghost function DropEach(kref: map<Ptr, nat>, ps: set<Ptr>): map<Ptr, nat> {
    map p | p in kref :: if p in ps && kref[p] > 0 then kref[p] - 1 else kref[p]
  }

  ghost function LastOf(kref: map<Ptr, nat>, ps: set<Ptr>): set<Ptr> {
    set p | p in ps && p in kref && kref[p] == 1
  }

  ghost function SessionsOf(c: Core, ports: set<nat>): set<Ptr> {
    set port | port in ports && port in c.table :: c.table[port]
  }

  // The core after the sessions of some of its ports were closed.
  ghost function ClosedCore(c: Core, ports: set<nat>): Core {
    var ps := SessionsOf(c, ports);
    Core(c.table - ports, DropEach(c.kref, ps), c.enabled, c.gone + multiset(LastOf(c.kref, ps)))
  }

  lemma ClosedNone(c: Core)
    ensures ClosedCore(c, {}) == c
  {
    assert SessionsOf(c, {}) == {} && LastOf(c.kref, {}) == {};
    assert DropEach(c.kref, {}) == c.kref;
  }

  lemma SessionsGrow(c: Core, ports: set<nat>, port: nat)
    requires Sound(c) && port in c.table && port !in ports
    ensures SessionsOf(c, ports + {port}) == SessionsOf(c, ports) + {c.table[port]}
    ensures c.table[port] !in SessionsOf(c, ports)
  {
  }

  lemma DropOneMore(kref: map<Ptr, nat>, ps: set<Ptr>, p: Ptr)
    requires p in kref && kref[p] > 0 && p !in ps
    ensures DropEach(kref, ps + {p}) == DropEach(kref, ps)[p := kref[p] - 1]
    ensures multiset(LastOf(kref, ps + {p})) == multiset(LastOf(kref, ps))
      + if kref[p] == 1 then multiset{p} else multiset{}
  {
    assert LastOf(kref, ps + {p}) == if kref[p] == 1 then LastOf(kref, ps) + {p} else LastOf(kref, ps);
  }

  lemma ClosedOne(c: Core, ports: set<nat>, port: nat)
    requires Sound(c) && port in c.table && port !in ports
    ensures Put(Logout(ClosedCore(c, ports), port), c.table[port]) == ClosedCore(c, ports + {port})
  {
    SessionsGrow(c, ports, port);
    var p, ps := c.table[port], SessionsOf(c, ports);
    DropOneMore(c.kref, ps, p);
    assert DropEach(c.kref, ps)[p] == c.kref[p];
    hide DropEach, LastOf, SessionsOf, Sound;
    assert c.table - ports - {port} == c.table - (ports + {port});
  }

  lemma ClosedTable(c: Core, ports: set<nat>, port: nat)
    requires port in ClosedCore(c, ports).table
    ensures port in c.table && port !in ports && ClosedCore(c, ports).table[port] == c.table[port]
  {
  }

  lemma ClosedAllIsRelease(c: Core)
    ensures ClosedCore(c, c.table.Keys).(enabled := false) == Release(c)
  {
    assert SessionsOf(c, c.table.Keys) == c.table.Values;
    assert c.table - c.table.Keys == map[];
  }

  lemma VisitNode(hash: seq<Ptr>, chains: seq<seq<Ptr>>, mem: Memory, table: map<nat, Ptr>, b: nat, k: nat)
    requires Holds(hash, chains, mem, table) && b < HASH_SIZE && k < |chains[b]|
    ensures chains[b][k] != 0 && ListedAt(chains[b][k], mem, table) && mem[chains[b][k]].next == At(chains[b], k + 1)
  {
    assert NodeAt(b, chains[b], k, mem) && Listed(chains[b], mem, table);
  }

  lemma BucketHead(hash: seq<Ptr>, chains: seq<seq<Ptr>>, mem: Memory, table: map<nat, Ptr>, b: nat)
    requires Holds(hash, chains, mem, table) && b < HASH_SIZE
    ensures |hash| == |chains| == HASH_SIZE && 0 !in mem && hash[b] == At(chains[b], 0)
    ensures hash[b] != 0 ==> hash[b] in mem
  {
    assert Chained(hash[b], b, chains[b], mem);
    assert chains[b] != [] ==> NodeAt(b, chains[b], 0, mem);
  }

  lemma MissedPort(hash: seq<Ptr>, chains: seq<seq<Ptr>>, mem: Memory, table: map<nat, Ptr>, port: nat)
    requires Holds(hash, chains, mem, table)
    requires forall i :: 0 <= i < |chains[Hash(port)]| ==>
      chains[Hash(port)][i] in mem && mem[chains[Hash(port)][i]].port != port
    ensures port !in table
  {
    forall x | x in table
      ensures x != port
    {
      assert Indexed(chains, mem, table, x);
    }
  }

  lemma UnlinkSound(c: Core, port: nat)
    requires Sound(c) && port in c.table
    ensures Sound(Logout(c, port)) && |Logout(c, port).table| == |c.table| - 1
    ensures c.table[port] !in Logout(c, port).table.Values
  {
    assert Logout(c, port).table.Keys == c.table.Keys - {port};
  }

  lemma UnlinkedKrefs(mem: Memory, p: Ptr)
    requires p in mem
    ensures Krefs(Unlinked(mem, p)) == Krefs(mem) && p in Unlinked(mem, p)
    ensures Unlinked(mem, p)[p].kref == mem[p].kref
    ensures p != mem[p].next && mem[p].pprev != NextOf(p) ==> Unlinked(mem, p)[p].next == mem[p].next
  {
    forall x | x in mem
      ensures x in Unlinked(mem, p) && Unlinked(mem, p)[x].kref == mem[x].kref
    {
      UnlinkedKeeps(mem, p, x);
    }
    UnlinkedKeeps(mem, p, p);
  }

  lemma UnlinkedInSteps(mem: Memory, p: Ptr, m1: Memory, m2: Memory)
    requires p in mem && 0 !in mem && p in m2
    requires m1 == match mem[p].pprev
                   case HeadOf(_) => mem
                   case NextOf(q) => if q in mem then mem[q := mem[q].(next := mem[p].next)] else mem
    requires mem[p].next != 0 ==> mem[p].next in m1
    requires m2 == if mem[p].next == 0 then m1 else m1[mem[p].next := m1[mem[p].next].(pprev := mem[p].pprev)]
    ensures Unlinked(mem, p) == m2[p := m2[p].(port := -1, params := 0)]
  {
  }

  lemma NodeLinks(hash: seq<Ptr>, chains: seq<seq<Ptr>>, mem: Memory, table: map<nat, Ptr>, b: nat, k: nat)
    requires Holds(hash, chains, mem, table) && b < HASH_SIZE && k < |chains[b]| && chains[b][k] in mem
    ensures var p := chains[b][k];
            && mem[p].port >= 0 && Hash(mem[p].port) == b && p != mem[p].next && mem[p].pprev != NextOf(p) &&
              mem[p].next == At(chains[b], k + 1)
            && mem[p].pprev == (if k == 0 then HeadOf(b) else NextOf(chains[b][k - 1]))
            && (k > 0 ==> chains[b][k - 1] in mem) && 0 !in mem && (mem[p].next != 0 ==> mem[p].next in mem)
  {
    assert Chained(hash[b], b, chains[b], mem) && NodeAt(b, chains[b], k, mem);
    if k > 0 {
      assert NodeAt(b, chains[b], k - 1, mem);
    }
    if k + 1 < |chains[b]| {
      assert NodeAt(b, chains[b], k + 1, mem);
      assert chains[b][k] != chains[b][k + 1];
    }
  }

  lemma LinkSound(c: Core, port: nat, p: Ptr)
    requires Sound(c) && c.enabled && port !in c.table && p !in c.kref
    ensures Sound(Login(c, port, p)) && |Login(c, port, p).table| == |c.table| + 1
  {
  }

  lemma LinkedKrefs(mem: Memory, p: Ptr, port: nat, params: nat, b: nat, head: Ptr)
    requires p !in mem
    ensures Krefs(Linked(mem, p, port, params, b, head)) == Krefs(mem)[p := 1]
  {
  }

  // Changes of count or parameters leave the lists alone.
  ghost predicate SameLinks(mem: Memory, mem': Memory) {
    && mem'.Keys == mem.Keys
    && forall x :: x in mem ==>
         mem'[x].port == mem[x].port && mem'[x].next == mem[x].next && mem'[x].pprev == mem[x].pprev
  }

  lemma SameLinksBucket(head: Ptr, b: nat, chain: seq<Ptr>, mem: Memory, mem': Memory, table: map<nat, Ptr>)
    requires Chained(head, b, chain, mem) && Listed(chain, mem, table) && SameLinks(mem, mem')
    ensures Chained(head, b, chain, mem') && Listed(chain, mem', table)
  {
    forall i | 0 <= i < |chain|
      ensures NodeAt(b, chain, i, mem') && ListedAt(chain[i], mem', table)
    {
      assert NodeAt(b, chain, i, mem) && ListedAt(chain[i], mem, table);
    }
  }

  lemma SameLinksHolds(hash: seq<Ptr>, chains: seq<seq<Ptr>>, mem: Memory, mem': Memory, table: map<nat, Ptr>)
    requires Holds(hash, chains, mem, table) && SameLinks(mem, mem')
    ensures Holds(hash, chains, mem', table)
  {
    hide Chained, Listed, Hash;
    forall b | 0 <= b < HASH_SIZE
      ensures Chained(hash[b], b, chains[b], mem') && Listed(chains[b], mem', table)
    {
      SameLinksBucket(hash[b], b, chains[b], mem, mem', table);
    }
    forall port | port in table
      ensures Indexed(chains, mem', table, port)
    {
      assert Indexed(chains, mem, table, port);
    }
  }

  lemma RecountHolds(hash: seq<Ptr>, chains: seq<seq<Ptr>>, mem: Memory, table: map<nat, Ptr>, p: Ptr, n: nat)
    requires Holds(hash, chains, mem, table) && p in mem
    ensures Holds(hash, chains, mem[p := mem[p].(kref := n)], table)
    ensures Krefs(mem[p := mem[p].(kref := n)]) == Krefs(mem)[p := n]
  {
    SameLinksHolds(hash, chains, mem, mem[p := mem[p].(kref := n)], table);
  }

  lemma ReparamHolds(hash: seq<Ptr>, chains: seq<seq<Ptr>>, mem: Memory, table: map<nat, Ptr>, p: Ptr, n: nat)
    requires Holds(hash, chains, mem, table) && p in mem
    ensures Holds(hash, chains, mem[p := mem[p].(params := n)], table)
    ensures Krefs(mem[p := mem[p].(params := n)]) == Krefs(mem)
  {
    SameLinksHolds(hash, chains, mem, mem[p := mem[p].(params := n)], table);
  }

  lemma PutSound(c: Core, p: Ptr)
    requires Sound(c) && p in c.kref && c.kref[p] > 0 && (p in c.table.Values ==> c.kref[p] > 1)
    ensures Sound(Put(c, p))
  {
  }

  lemma UniquePort(hash: seq<Ptr>, chains: seq<seq<Ptr>>, mem: Memory, table: map<nat, Ptr>, b: nat, k: nat)
    requires Holds(hash, chains, mem, table) && b < HASH_SIZE && k < |chains[b]| && chains[b][k] in mem
    ensures forall port :: port in table && table[port] == chains[b][k] ==> mem[chains[b][k]].port == port
  {
    forall port | port in table && table[port] == chains[b][k]
      ensures mem[chains[b][k]].port == port
    {
      assert Indexed(chains, mem, table, port);
    }
  }

  lemma LinkedOthers(mem: Memory, p: Ptr, port: nat, params: nat, b: nat, head: Ptr)
    requires p !in mem
    ensures var m := Linked(mem, p, port, params, b, head);
            forall q :: q in mem ==> q in m && m[q].params == mem[q].params && m[q].kref == mem[q].kref
  {
  }

  lemma LinkedParams(mem: Memory, p: Ptr, port: nat, params: nat, b: nat, head: Ptr)
    requires p !in mem
    ensures var mem' := Linked(mem, p, port, params, b, head);
            p in mem' && mem'[p].params == params
  {
  }

  lemma DisabledSound(c: Core)
    requires Sound(c)
    ensures Sound(c.(enabled := false)) && Release(c.(enabled := false)) == Release(c)
  {
  }

  lemma NoneListed(hash: seq<Ptr>, chains: seq<seq<Ptr>>, mem: Memory, table: map<nat, Ptr>)
    requires Holds(hash, chains, mem, table) && forall i :: 0 <= i < HASH_SIZE ==> chains[i] == []
    ensures table == map[]
  {
    if table != map[] {
      var port :| port in table;
      IndexedBucket(hash, chains, mem, table, port);
      assert false;
    }
  }

  lemma IndexedBucket(hash: seq<Ptr>, chains: seq<seq<Ptr>>, mem: Memory, table: map<nat, Ptr>, port: nat)
    requires Holds(hash, chains, mem, table) && port in table
    ensures chains[Hash(port)] != []
  {
    assert Indexed(chains, mem, table, port);
  }

  lemma AllClosed(c: Core, ports: set<nat>)
    requires ClosedCore(c, ports).table == map[] && ports <= c.table.Keys && !c.enabled
    ensures ClosedCore(c, ports) == Release(c)
  {
    assert forall port :: port in c.table && port !in ports ==> port in c.table - ports;
    assert ports == c.table.Keys;
    ClosedAllIsRelease(c);
  }

  // The table's reference is the last one.
  ghost predicate LastRef(c: Core, p: Ptr) { p in c.kref && c.kref[p] == 1 }

  ghost predicate Hit(due: (nat, nat) -> bool, c: Core, chain: seq<Ptr>, b: nat, k: nat)
    requires k < |chain|
  {
    due(b, k) && LastRef(c, chain[k])
  }

  lemma HitWhenDisabled(due: (nat, nat) -> bool, c: Core, chain: seq<Ptr>, b: nat, k: nat)
    requires k < |chain|
    ensures Hit(due, c.(enabled := false), chain, b, k) <==> Hit(due, c, chain, b, k)
  {
  }

  lemma ClosedKref(c: Core, ports: set<nat>, port: nat)
    requires Sound(c) && port in ClosedCore(c, ports).table
    ensures port in c.table && c.table[port] in c.kref && c.table[port] in ClosedCore(c, ports).kref
    ensures ClosedCore(c, ports).kref[c.table[port]] == c.kref[c.table[port]] > 0
  {
  }

  lemma TableCount(c: Core, mem: Memory, port: nat)
    requires Sound(c) && c.kref == Krefs(mem) && port in c.table
    ensures c.table[port] in mem && mem[c.table[port]].kref > 0
  {
  }

  lemma KrefAt(mem: Memory, p: Ptr)
    requires p in mem
    ensures p in Krefs(mem) && Krefs(mem)[p] == mem[p].kref
  {
  }

  // Freeing a session that is in no list.
  lemma FreedBucket(head: Ptr, b: nat, chain: seq<Ptr>, mem: Memory, table: map<nat, Ptr>, p: Ptr)
    requires Chained(head, b, chain, mem) && Listed(chain, mem, table) && p in mem && mem[p].port == -1
    ensures Chained(head, b, chain, mem - {p}) && Listed(chain, mem - {p}, table)
  {
    forall i | 0 <= i < |chain|
      ensures chain[i] != p && ListedAt(chain[i], mem - {p}, table) && NodeAt(b, chain, i, mem - {p})
    {
      assert ListedAt(chain[i], mem, table) && NodeAt(b, chain, i, mem);
    }
  }

  lemma FreedHolds(hash: seq<Ptr>, chains: seq<seq<Ptr>>, mem: Memory, table: map<nat, Ptr>, p: Ptr)
    requires Holds(hash, chains, mem, table) && p in mem && mem[p].port == -1
    ensures Holds(hash, chains, mem - {p}, table)
    ensures p !in table.Values
  {
    forall b | 0 <= b < HASH_SIZE
      ensures Chained(hash[b], b, chains[b], mem - {p}) && Listed(chains[b], mem - {p}, table)
    {
      FreedBucket(hash[b], b, chains[b], mem, table, p);
    }
    forall port | port in table ensures Indexed(chains, mem - {p}, table, port) && table[port] != p {
      assert Indexed(chains, mem, table, port);
    }
  }

  lemma FreedSound(c: Core, c': Core, p: Ptr, mem: Memory)
    requires Sound(c) && p !in c.table.Values && c.kref == Krefs(mem) && c' == c.(kref := Krefs(mem - {p}))
    ensures Sound(c')
  {
  }

  class FtTport {
    const hash: array<Ptr>
    var mem: Memory
    var sessCount: nat
    var enabled: bool
    var gone: multiset<Ptr>              // calls of scst_unregister_session
    ghost var chains: seq<seq<Ptr>>
    ghost var table: map<nat, Ptr>

    ghost predicate Valid()
      reads this, hash
    {
      Holds(hash[..], chains, mem, table) && sessCount == |table| && Sound(View())
    }

    ghost function View(): Core
      reads this
    {
      Core(table, Krefs(mem), enabled, gone)
    }

    constructor ()
      ensures Valid() && View() == Core(map[], map[], false, multiset{})
    {
      hash := new Ptr[HASH_SIZE](_ => 0);
      mem, sessCount, enabled, gone := map[], 0, false, multiset{};
      chains, table := seq(HASH_SIZE, _ => []), map[];
    }

    // The walk of one bucket shared by lookup, login and logout.
    method Find(port: nat) returns (p: Ptr, ghost k: nat)
      requires Valid()
      ensures p == if port in table then table[port] else 0
      ensures |chains| == HASH_SIZE
      ensures port in table ==> k < |chains[Hash(port)]| && chains[Hash(port)][k] == p && p in mem && p != 0
    {
      hide Holds, Hash, Sound;
      var b := Hash(port);
      BucketHead(hash[..], chains, mem, table, b);
      ghost var chain := chains[b];
      p, k := hash[b], 0;
      while p != 0
        invariant k <= |chain| && p == At(chain, k)
        invariant forall i :: 0 <= i < k ==> chain[i] in mem && mem[chain[i]].port != port
        decreases |chain| - k
      {
        VisitNode(hash[..], chains, mem, table, b, k);
        if mem[p].port == port {
          return;
        }
        p := mem[p].next;
        k := k + 1;
      }
      if k < |chain| {
        VisitNode(hash[..], chains, mem, table, b, k);
      }
      MissedPort(hash[..], chains, mem, table, port);
    }

    method SessPut(p: Ptr)
      requires Valid() && p in mem && mem[p].kref > 0 && (p in table.Values ==> mem[p].kref > 1)
      modifies this
      ensures Valid() && View() == Put(old(View()), p)
      ensures mem == old(mem)[p := old(mem)[p].(kref := old(mem)[p].kref - 1)]
      ensures chains == old(chains) && sessCount == old(sessCount)
    {
      hide Holds, Sound;
      RecountHolds(hash[..], chains, mem, table, p, mem[p].kref - 1);
      PutSound(View(), p);
      mem := mem[p := mem[p].(kref := mem[p].kref - 1)];
      if mem[p].kref == 0 {
        gone := gone + multiset{p};
      }
    }

    method KrefGetUnlessZero(p: Ptr) returns (ok: bool)
      requires Valid() && p in mem
      modifies this
      ensures Valid() && (ok <==> old(mem)[p].kref > 0)
      ensures mem == if ok then old(mem)[p := old(mem)[p].(kref := old(mem)[p].kref + 1)] else old(mem)
      ensures View() == if ok then old(View()).(kref := old(View()).kref[p := old(View()).kref[p] + 1]) else old(View())
    {
      hide Holds, Hash;
      ok := mem[p].kref > 0;
      if ok {
        RecountHolds(hash[..], chains, mem, table, p, mem[p].kref + 1);
        mem := mem[p := mem[p].(kref := mem[p].kref + 1)];
      }
    }

    // hlist_del_rcu: the neighbours skip p; p's own link to its successor stays for readers.
    method HlistDel(p: Ptr)
      requires p in mem && 0 !in mem && (mem[p].next != 0 ==> mem[p].next in mem) && p != mem[p].next
      requires match mem[p].pprev case HeadOf(bucket) => bucket < hash.Length case NextOf(q) => q in mem && q != p
      modifies this`mem, hash
      ensures p in mem && mem[p := mem[p].(port := -1, params := 0)] == Unlinked(old(mem), p)
      ensures hash[..] == match old(mem)[p].pprev
                          case HeadOf(bucket) => old(hash[..])[bucket := old(mem)[p].next]
                          case NextOf(_) => old(hash[..])
    {
      hide Unlinked;
      var rec := mem[p];
      ghost var before := mem;
      match rec.pprev {
        case HeadOf(bucket) => hash[bucket] := rec.next;
        case NextOf(q) => mem := mem[q := mem[q].(next := rec.next)];
      }
      ghost var m1 := mem;
      if rec.next != 0 {
        mem := mem[rec.next := mem[rec.next].(pprev := rec.pprev)];
      }
      UnlinkedInSteps(before, p, m1, mem);
    }

    // ft_sess_unhash: take a session out of its list and clear its port id.
    method Unhash(p: Ptr, ghost b: nat, ghost k: nat)
      requires Valid() && |chains| == HASH_SIZE && b < HASH_SIZE && k < |chains[b]| && chains[b][k] == p && p in mem
      modifies this, hash
      ensures old(mem)[p].port >= 0 && old(mem)[p].port in old(table) && old(table)[old(mem)[p].port] == p
      ensures Valid() && View() == Logout(old(View()), old(mem)[p].port)
      ensures chains == old(chains)[b := old(chains)[b][..k] + old(chains)[b][k + 1..]]
      ensures p in mem && mem[p].next == old(mem)[p].next && mem[p].kref == old(mem)[p].kref > 0 && p !in table.Values
      ensures mem[p].port == -1
    {
      hide Holds, Hash, Unlinked, Krefs, Sound;
      UnlinkHolds(hash[..], chains, mem, table, b, k);
      NodeLinks(hash[..], chains, mem, table, b, k);
      UnlinkSound(View(), mem[p].port);
      TableCount(View(), mem, mem[p].port);
      UnlinkedKrefs(mem, p);
      BucketHead(hash[..], chains, mem, table, b);
      HlistDel(p);
      sessCount := sessCount - 1;
      table := table - {old(mem)[p].port};
      chains := chains[b := chains[b][..k] + chains[b][k + 1..]];
      mem := mem[p := mem[p].(port := -1, params := 0)];
    }

    // ft_sess_delete; the caller then owns the table's reference.
    method SessDelete(port: nat) returns (p: Ptr)
      requires Valid()
      modifies this, hash
      ensures Valid() && p == (if port in old(table) then old(table)[port] else 0)
      ensures View() == Logout(old(View()), port)
      ensures p != 0 ==> p in mem && mem[p].kref > 0 && p !in table.Values
    {
      hide Holds, Hash, Sound;
      ghost var k;
      p, k := Find(port);
      if p != 0 {
        UniquePort(hash[..], chains, mem, table, Hash(port), k);
        Unhash(p, Hash(port), k);
      } else {
        assert table - {port} == table;
      }
    }

    // The locked part of PRLI that establishes a session: ft_prli_locked from the enabled test on,
    // and ft_sess_create.  `p` is the address kzalloc returns, 0 when it fails.
    method SessCreate(port: nat, params: nat, maxframe: nat, p: Ptr, registered: bool) returns (r: LoginResult)
      requires Valid() && p !in mem
      modifies this, hash
      ensures Valid()
      ensures r == if !enabled || maxframe == 0 then Conf
                   else if port in old(table) then Ack
                   else if p == 0 || !registered then Res else Ack
      ensures View() == if r == Ack then Login(old(View()), port, p) else old(View())
      ensures r == Ack ==> port in table && mem[table[port]].params == params
      ensures forall q :: q in old(mem) && !(r == Ack && q == table[port]) ==>
        q in mem && mem[q].params == old(mem)[q].params && mem[q].kref == old(mem)[q].kref
    {
      hide Holds, Hash, Linked, Sound;
      if !enabled || maxframe == 0 {
        return Conf;
      }
      var q, k := Find(port);
      var b := Hash(port);
      if q != 0 {
        ReparamHolds(hash[..], chains, mem, table, q, params);
        mem := mem[q := mem[q].(params := params)];
        return Ack;
      }
      if p == 0 || !registered {
        return Res;
      }
      BucketHead(hash[..], chains, mem, table, b);
      LinkHolds(hash[..], chains, mem, table, p, port, params);
      LinkedKrefs(mem, p, port, params, b, hash[b]);
      LinkSound(View(), port, p);
      LinkedParams(mem, p, port, params, b, hash[b]);
      LinkedOthers(mem, p, port, params, b, hash[b]);
      LinkInPlace(p, port, params, b);
      sessCount := sessCount + 1;
      table := table[port := p];
      chains := chains[b := [p] + chains[b]];
      r := Ack;
    }

    // hlist_add_head_rcu
    method LinkInPlace(p: Ptr, port: nat, params: nat, b: nat)
      requires b < hash.Length && p !in mem && 0 !in mem && (hash[b] != 0 ==> hash[b] in mem)
      modifies this`mem, hash
      ensures mem == Linked(old(mem), p, port, params, b, old(hash[b]))
      ensures hash[..] == old(hash[..])[b := p]
    {
      mem := mem[p := Sess(port, params, 1, hash[b], HeadOf(b))];
      if hash[b] != 0 {
        mem := mem[hash[b] := mem[hash[b]].(pprev := NextOf(p))];
      }
      hash[b] := p;
    }

    // ft_sess_close; b and k say where p is listed, if it is.
    method SessClose(p: Ptr, ghost b: nat, ghost k: nat)
      requires Valid() && p in mem && |chains| == HASH_SIZE
      requires mem[p].port != -1 ==> b < HASH_SIZE && k < |chains[b]| && chains[b][k] == p
      modifies this, hash
      ensures Valid() && p in mem && mem[p].next == old(mem)[p].next && mem[p].port == -1
      ensures old(mem)[p].port != -1 ==> mem[p].kref == old(mem)[p].kref - 1
      ensures old(mem)[p].port == -1 ==> View() == old(View()) && chains == old(chains)
      ensures old(mem)[p].port != -1 ==>
        && old(mem)[p].port >= 0 && old(mem)[p].port in old(table) && old(table)[old(mem)[p].port] == p
        && View() == Put(Logout(old(View()), old(mem)[p].port), p)
        && chains == old(chains)[b := old(chains)[b][..k] + old(chains)[b][k + 1..]]
    {
      if mem[p].port == -1 {
        return;
      }
      hide Holds, Sound, Krefs, Hash;
      Unhash(p, b, k);
      SessPut(p);
    }

    // The end of a grace period, if it is due: the memory of a session without references goes.
    method Grace(p: Ptr, due: bool) returns (freed: bool)
      requires Valid() && p in mem && mem[p].port == -1
      modifies this`mem
      ensures freed <==> due && old(mem)[p].kref == 0
      ensures Valid() && (!freed ==> mem == old(mem)) && (freed ==> p !in mem)
    {
      hide Holds, Sound, Krefs, Hash;
      freed := due && mem[p].kref == 0;
      if freed {
        FreedHolds(hash[..], chains, mem, table, p);
        FreedSound(View(), Core(table, Krefs(mem - {p}), enabled, gone), p, mem);
        mem := mem - {p};
      }
    }

    // One turn of the walk: close the session and read its successor.
    method CloseAndAdvance(p: Ptr, ghost b: nat, due: bool, ghost c0: Core, ghost closed: set<nat>)
      returns (next: Ptr, freed: bool, ghost port: nat)
      requires Valid() && |chains| == HASH_SIZE && b < HASH_SIZE && chains[b] != [] && p == chains[b][0] && p in mem
      requires Sound(c0) && View() == ClosedCore(c0, closed) && closed <= c0.table.Keys
      modifies this, hash
      ensures Valid() && (freed <==> due && LastRef(c0, p))
      ensures !freed ==>
        |chains| == HASH_SIZE && chains == old(chains)[b := old(chains)[b][1..]] && next == At(chains[b], 0)
      ensures !freed ==> port in c0.table && View() == ClosedCore(c0, closed + {port})
    {
      hide Holds, Hash, Sound, Krefs, Put, ClosedCore, Logout;
      VisitNode(hash[..], chains, mem, table, b, 0);
      ghost var rest := chains[b][1..];
      port := mem[p].port;
      ClosedTable(c0, closed, port);
      ClosedOne(c0, closed, port);
      ClosedKref(c0, closed, port);
      KrefAt(mem, p);
      assert chains[b][..0] + rest == rest;
      SessClose(p, b, 0);
      freed := Grace(p, due);
      next := 0;
      if !freed {
        next := mem[p].next;
      }
    }

    // The inner loop of ft_tgt_release: hlist_for_each_entry_rcu reads a session's successor after
    // the session has been taken out of the list.  due(b, k) is whether a grace period ends
    // between the close of the k-th session and that read; if it frees the session, the walk has gone
    // astray.
    method CloseBucket(b: nat, due: (nat, nat) -> bool, ghost c0: Core, ghost closed0: set<nat>)
      returns (astray: bool, ghost closed: set<nat>)
      requires Valid() && |chains| == HASH_SIZE && b < HASH_SIZE
      requires Sound(c0) && View() == ClosedCore(c0, closed0) && closed0 <= c0.table.Keys
      modifies this, hash
      ensures Valid() && (astray <==> exists k :: 0 <= k < |old(chains)[b]| && Hit(due, c0, old(chains)[b], b, k))
      ensures !astray ==> |chains| == HASH_SIZE && View() == ClosedCore(c0, closed) && closed <= c0.table.Keys
      ensures !astray ==> chains == old(chains)[b := []]
    {
      hide Holds, Hash, Sound, Krefs, Put, ClosedCore, LastRef;
      astray, closed := false, closed0;
      ghost var chain := chains[b];
      BucketHead(hash[..], chains, mem, table, b);
      var p, k: nat := hash[b], 0;
      while p != 0
        invariant Valid() && |chains| == HASH_SIZE && View() == ClosedCore(c0, closed) && closed <= c0.table.Keys
        invariant k <= |chain| && chains == old(chains)[b := chain[k..]] && p == At(chain[k..], 0)
        invariant forall j :: 0 <= j < k ==> !Hit(due, c0, chain, b, j)
        decreases |chain| - k
      {
        VisitNode(hash[..], chains, mem, table, b, 0);
        ghost var port;
        p, astray, port := CloseAndAdvance(p, b, due(b, k), c0, closed);
        assert chain[k..][1..] == chain[k + 1..] && chain[k..][0] == chain[k];
        assert astray <==> Hit(due, c0, chain, b, k);
        if astray {
          return;
        }
        closed, k := closed + {port}, k + 1;
      }
      if k < |chain| {
        VisitNode(hash[..], chains, mem, table, b, 0);
      }
    }

    // ft_tgt_release: close every session while walking the lists they are taken from.  The walk
    // goes astray exactly when a grace period ends right after it dropped a session's last reference.
    method TgtRelease(due: (nat, nat) -> bool) returns (astray: bool)
      requires Valid()
      modifies this, hash
      ensures Valid() && |old(chains)| == HASH_SIZE
      ensures astray <==> exists b, k ::
        0 <= b < HASH_SIZE && 0 <= k < |old(chains)[b]| && Hit(due, old(View()), old(chains)[b], b, k)
      ensures !astray ==> View() == Release(old(View())) && sessCount == 0
    {
      hide Holds, Hash, ClosedCore, Sound, Krefs, Put, Release, Hit;
      BucketHead(hash[..], chains, mem, table, 0);
      DisabledSound(View());
      ghost var c := View();
      enabled := false;
      astray := false;
      ghost var c0, closed := View(), {};
      ClosedNone(c0);
      var b := 0;
      while b < HASH_SIZE
        invariant 0 <= b <= HASH_SIZE && Valid() && |chains| == HASH_SIZE
        invariant View() == ClosedCore(c0, closed) && closed <= c0.table.Keys
        invariant forall i :: 0 <= i < HASH_SIZE ==> chains[i] == if i < b then [] else old(chains)[i]
        invariant forall i, k :: 0 <= i < b && 0 <= k < |old(chains)[i]| ==> !Hit(due, c, old(chains)[i], i, k)
      {
        forall k | 0 <= k < |chains[b]| ensures Hit(due, c0, chains[b], b, k) <==> Hit(due, c, chains[b], b, k) {
          HitWhenDisabled(due, c, chains[b], b, k);
        }
        astray, closed := CloseBucket(b, due, c0, closed);
        if astray {
          return;
        }
        b := b + 1;
      }
      NoneListed(hash[..], chains, mem, table);
      AllClosed(c0, closed);
    }

    // ft_tgt_enable; a target that has no port yet cannot be enabled.
    method TgtEnable(enable: bool, hasPort: bool, due: (nat, nat) -> bool) returns (ok: bool, astray: bool)
      requires Valid()
      modifies this, hash
      ensures Valid() && (ok <==> !enable || hasPort)
      ensures enable ==> !astray && View() == if hasPort then old(View()).(enabled := true) else old(View())
      ensures !enable && !astray ==> View() == Release(old(View()))
      ensures (forall b, k :: !due(b, k)) ==> !astray
    {
      hide Holds, Release;
      ok, astray := true, false;
      if enable {
        ok := hasPort;
        if hasPort {
          enabled := true;
        }
      } else {
        astray := TgtRelease(due);
      }
    }
  }
}
