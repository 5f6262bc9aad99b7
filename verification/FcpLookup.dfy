// A session lookup without the lock (ft_sess_get): the bucket is walked node by node while others
// add sessions, take them out, change their counts and free them after a grace period.
module FcpLookup {
  import opened Basics
  import opened FcpSession

  // The hash table, with what its buckets hold and what it means.
  datatype Buckets = Buckets(hash: seq<Ptr>, chains: seq<seq<Ptr>>, mem: Memory, table: map<nat, Ptr>)

  // The lookup of a port id: the node it is at, and what it found.  `seen` is every session that was
  // in the table since the lookup began.
  datatype Reader = Reader(port: nat, cursor: Ptr, found: Option<Ptr>, seen: set<Ptr>)

  datatype Scene = Scene(t: Buckets, r: Reader)

  datatype Event =
    | Link(p: Ptr, port: nat, params: nat)   // a session is entered at the head of its bucket
    | Unlink(b: nat, k: nat)                 // the k-th session of bucket b is taken out
    | Recount(p: Ptr, n: nat)                // a reference is taken or dropped
    | Free(p: Ptr)                           // the end of a grace period
    | Look                                   // the lookup compares one node and moves on

  ghost predicate Sane(t: Buckets) { Holds(t.hash, t.chains, t.mem, t.table) }

  // The lookup begins at the head of the bucket.
  ghost predicate Begins(s: Scene, port: nat) {
    Sane(s.t) && s.r == Reader(port, s.t.hash[Hash(port)], None, s.t.table.Values)
  }

  // A grace period ends only after every lookup that may have seen the session.
  ghost predicate Possible(s: Scene, e: Event) {
    match e
    case Link(p, port, _) => p !in s.t.mem && p != 0 && port !in s.t.table
    case Unlink(b, k) => b < |s.t.chains| && k < |s.t.chains[b]| && b < |s.t.hash| && s.t.chains[b][k] in s.t.mem
    case Recount(p, _) => p in s.t.mem
    case Free(p) => p in s.t.mem && s.t.mem[p].port == -1 && p !in s.r.seen
    case Look => s.r.found == None && s.r.cursor != 0 && s.r.cursor in s.t.mem
  }

  ghost function Moved(t: Buckets, e: Event): Buckets
    requires match e
      case Link(p, port, _) => Hash(port) < |t.hash| && Hash(port) < |t.chains|
      case Unlink(b, k) => b < |t.chains| && k < |t.chains[b]| && b < |t.hash| && t.chains[b][k] in t.mem
      case Recount(p, _) => p in t.mem
      case _ => true
  {
    match e
    case Link(p, port, params) =>
      var b := Hash(port);
      Buckets(t.hash[b := p], t.chains[b := [p] + t.chains[b]], Linked(t.mem, p, port, params, b, t.hash[b]),
        t.table[port := p])
    case Unlink(b, k) =>
      var p, chain := t.chains[b][k], t.chains[b];
      Buckets(if k == 0 then t.hash[b := At(chain, 1)] else t.hash, t.chains[b := chain[..k] + chain[k + 1..]],
        Unlinked(t.mem, p), if t.mem[p].port >= 0 then t.table - {t.mem[p].port} else t.table)
    case Recount(p, n) => t.(mem := t.mem[p := t.mem[p].(kref := n)])
    case Free(p) => t.(mem := t.mem - {p})
    case Look => t
  }

  ghost function Looked(mem: Memory, r: Reader): Reader
    requires r.cursor in mem
  {
    if mem[r.cursor].port == r.port then r.(found := Some(r.cursor)) else r.(cursor := mem[r.cursor].next)
  }

  ghost function Then(s: Scene, e: Event): Scene
    requires Sane(s.t) && Possible(s, e)
  {
    var r := match e
      case Look => Looked(s.t.mem, s.r)
      case Link(p, _, _) => s.r.(seen := s.r.seen + {p})
      case _ => s.r;
    Scene(Moved(s.t, e), r)
  }

  // ---------------------------------------------------------------------------------------------
  // What the lookup can see stays in memory

  // A session the lookup may be looking at is in memory, leads to another such session or to the
  // end, and still has a port id only if it is in the table under it.
  ghost predicate Seen(t: Buckets, seen: set<Ptr>, z: Ptr) {
    && z in t.mem && z != 0 && (t.mem[z].next == 0 || t.mem[z].next in seen)
    && (t.mem[z].port == -1 || (t.mem[z].port >= 0 && t.mem[z].port in t.table && t.table[t.mem[z].port] == z))
  }

  ghost predicate AllSeen(t: Buckets, seen: set<Ptr>) {
    && (forall z :: z in seen ==> Seen(t, seen, z))
    && (forall port :: port in t.table ==> t.table[port] in seen)
  }

  ghost predicate Safe(s: Scene) {
    Sane(s.t) && AllSeen(s.t, s.r.seen) && (s.r.cursor == 0 || s.r.cursor in s.r.seen)
  }

  lemma HeadSeen(t: Buckets, seen: set<Ptr>, b: nat)
    requires Sane(t) && AllSeen(t, seen) && b < HASH_SIZE
    ensures |t.hash| == |t.chains| == HASH_SIZE && (t.hash[b] == 0 || t.hash[b] in seen) && 0 !in t.mem
  {
    hide Holds, Seen;
    BucketHead(t.hash, t.chains, t.mem, t.table, b);
    if t.chains[b] != [] {
      VisitNode(t.hash, t.chains, t.mem, t.table, b, 0);
    }
  }

  lemma BeginsSafe(s: Scene, port: nat)
    requires |s.t.hash| == HASH_SIZE && Begins(s, port)
    ensures Safe(s)
  {
    hide Holds;
    var t, seen := s.t, s.t.table.Values;
    forall z | z in seen ensures Seen(t, seen, z) {
      var x :| x in t.table && t.table[x] == z;
      TableNode(t, x);
    }
    assert forall x :: x in t.table ==> t.table[x] in t.table.Values;
    HeadSeen(t, seen, Hash(port));
  }

  // A session of the table: where it is, and that it leads on in its bucket.
  lemma TableNode(t: Buckets, port: nat)
    requires Sane(t) && port in t.table
    ensures var z := t.table[port];
      && z in t.mem && z != 0 && t.mem[z].port == port
      && (t.mem[z].next == 0 || t.mem[z].next in t.table.Values)
  {
    var z, b := t.table[port], Hash(port);
    assert Indexed(t.chains, t.mem, t.table, port);
    var i :| 0 <= i < |t.chains[b]| && t.chains[b][i] == z;
    hide Holds, Hash;
    VisitNode(t.hash, t.chains, t.mem, t.table, b, i);
    if i + 1 < |t.chains[b]| {
      VisitNode(t.hash, t.chains, t.mem, t.table, b, i + 1);
      var y := t.chains[b][i + 1];
      assert t.table[t.mem[y].port] == y;
    }
  }

  lemma LinkSafe(t: Buckets, seen: set<Ptr>, e: Event)
    requires Sane(t) && AllSeen(t, seen) && e.Link? && e.p !in t.mem && e.p != 0 && e.port !in t.table
    ensures Hash(e.port) < |t.hash| && Hash(e.port) < |t.chains|
    ensures Sane(Moved(t, e)) && AllSeen(Moved(t, e), seen + {e.p})
  {
    hide Holds, Hash, Linked;
    var b := Hash(e.port);
    HeadSeen(t, seen, b);
    LinkHolds(t.hash, t.chains, t.mem, t.table, e.p, e.port, e.params);
    var t' := Moved(t, e);
    LinkedNode(t.mem, e.p, e.port, e.params, b, t.hash[b]);
    forall z | z in seen + {e.p} ensures Seen(t', seen + {e.p}, z) {
      if z != e.p {
        assert Seen(t, seen, z);
        LinkedNext(t.mem, e.p, e.port, e.params, b, t.hash[b], z);
      }
    }
  }

  lemma LinkedNode(mem: Memory, p: Ptr, port: nat, params: nat, b: nat, head: Ptr)
    requires p !in mem
    ensures var m := Linked(mem, p, port, params, b, head); p in m && m[p].port == port && m[p].next == head
  {
  }

  lemma LinkedNext(mem: Memory, p: Ptr, port: nat, params: nat, b: nat, head: Ptr, z: Ptr)
    requires z in mem && p !in mem
    ensures var m := Linked(mem, p, port, params, b, head);
      z in m && m[z].port == mem[z].port && m[z].next == mem[z].next
  {
  }

  // What taking y out does to the links: its predecessor skips it, every other node leads where it led.
  lemma UnlinkedNext(mem: Memory, y: Ptr, z: Ptr)
    requires y in mem && z in mem && y != mem[y].next && mem[y].pprev != NextOf(y)
    ensures var m := Unlinked(mem, y);
      && z in m && m[z].port == (if z == y then -1 else mem[z].port)
      && m[z].next == if mem[y].pprev == NextOf(z) then mem[y].next else mem[z].next
  {
  }

  lemma UnlinkSafe(t: Buckets, seen: set<Ptr>, e: Event)
    requires Sane(t) && AllSeen(t, seen) && e.Unlink? && e.b < |t.chains| && e.k < |t.chains[e.b]| && e.b < |t.hash|
    requires t.chains[e.b][e.k] in t.mem
    ensures Sane(Moved(t, e)) && AllSeen(Moved(t, e), seen)
  {
    hide Holds, Hash, Unlinked;
    var y := t.chains[e.b][e.k];
    SizeOf(t);
    UnlinkHolds(t.hash, t.chains, t.mem, t.table, e.b, e.k);
    NodeLinks(t.hash, t.chains, t.mem, t.table, e.b, e.k);
    assert Seen(t, seen, y);
    var t' := Moved(t, e);
    forall z | z in seen ensures Seen(t', seen, z) {
      assert Seen(t, seen, z);
      UnlinkedNext(t.mem, y, z);
    }
  }

  lemma SizeOf(t: Buckets)
    requires Sane(t)
    ensures |t.hash| == |t.chains| == HASH_SIZE && 0 !in t.mem
  {
  }

  lemma RestSafe(t: Buckets, seen: set<Ptr>, e: Event)
    requires Sane(t) && AllSeen(t, seen)
    requires match e
      case Recount(p, _) => p in t.mem
      case Free(p) => p in t.mem && t.mem[p].port == -1 && p !in seen
      case _ => e.Look?
    ensures Sane(Moved(t, e)) && AllSeen(Moved(t, e), seen)
  {
    hide Holds;
    if e.Recount? {
      RecountHolds(t.hash, t.chains, t.mem, t.table, e.p, e.n);
    } else if e.Free? {
      FreedHolds(t.hash, t.chains, t.mem, t.table, e.p);
    }
    forall z | z in seen ensures Seen(Moved(t, e), seen, z) { assert Seen(t, seen, z); }
  }

  lemma ThenSafe(s: Scene, e: Event)
    requires Safe(s) && Possible(s, e)
    ensures Safe(Then(s, e))
  {
    hide Holds, AllSeen, Moved;
    match e {
      case Link(p, port, params) => LinkSafe(s.t, s.r.seen, e);
      case Unlink(b, k) => UnlinkSafe(s.t, s.r.seen, e);
      case _ =>
        RestSafe(s.t, s.r.seen, e);
        if e.Look? {
          NextSeen(s);
        }
    }
  }

  lemma NextSeen(s: Scene)
    requires Safe(s) && s.r.cursor != 0
    ensures s.r.cursor in s.t.mem && (s.t.mem[s.r.cursor].next == 0 || s.t.mem[s.r.cursor].next in s.r.seen)
  {
    assert Seen(s.t, s.r.seen, s.r.cursor);
  }

  ghost predicate History(ss: seq<Scene>, es: seq<Event>, port: nat) {
    && |ss| == |es| + 1 && |ss[0].t.hash| == HASH_SIZE && Begins(ss[0], port)
    && forall i :: 0 <= i < |es| ==> Sane(ss[i].t) && Possible(ss[i], es[i]) && ss[i + 1] == Then(ss[i], es[i])
  }

  lemma {:induction false} HistorySafe(ss: seq<Scene>, es: seq<Event>, port: nat, i: nat)
    requires History(ss, es, port) && i <= |es|
    ensures Safe(ss[i]) && ss[i].r.port == port
  {
    hide Safe, Possible, Sane, Moved, Looked;
    if i == 0 {
      BeginsSafe(ss[0], port);
    } else {
      HistorySafe(ss, es, port, i - 1);
      ThenSafe(ss[i - 1], es[i - 1]);
      ThenPort(ss[i - 1], es[i - 1]);
    }
  }

  lemma ThenPort(s: Scene, e: Event)
    requires Sane(s.t) && Possible(s, e)
    ensures Then(s, e).r.port == s.r.port
  {
    hide Moved;
  }

  // Whatever the others do, the lookup never reads a freed session.
  lemma NeverReadsFreed(ss: seq<Scene>, es: seq<Event>, port: nat, i: nat)
    requires History(ss, es, port) && i <= |es| && ss[i].r.cursor != 0
    ensures ss[i].r.cursor in ss[i].t.mem
  {
    hide Safe, Begins, Possible, Sane, Then;
    HistorySafe(ss, es, port, i);
    NextSeen(ss[i]);
  }

  // What it finds is in the table under that port id at that moment.
  lemma FoundIsHashed(ss: seq<Scene>, es: seq<Event>, port: nat, i: nat)
    requires History(ss, es, port) && i < |es| && ss[i].r.found == None && ss[i + 1].r.found.Some?
    ensures port in ss[i].t.table && ss[i + 1].r.found == Some(ss[i].t.table[port])
  {
    hide Moved, Holds;
    HistorySafe(ss, es, port, i);
    assert Seen(ss[i].t, ss[i].r.seen, ss[i].r.cursor);
  }

  // ---------------------------------------------------------------------------------------------
  // A session that stays in the table is found

  // Following n links from p leads to x.
  ghost predicate Leads(mem: Memory, p: Ptr, x: Ptr, n: nat)
    decreases n
  {
    if n == 0 then p == x else p != x && p in mem && Leads(mem, mem[p].next, x, n - 1)
  }

  lemma {:induction false} ChainLeads(b: nat, chain: seq<Ptr>, mem: Memory, i: nat, k: nat)
    requires Chained(At(chain, 0), b, chain, mem) && i <= k < |chain|
    ensures Leads(mem, chain[i], chain[k], k - i)
    decreases k - i
  {
    hide Hash;
    if i < k {
      assert NodeAt(b, chain, i, mem);
      ChainLeads(b, chain, mem, i + 1, k);
    }
  }

  // Taking another session out can only shorten the way.
  lemma {:induction false} UnlinkLeads(mem: Memory, y: Ptr, p: Ptr, x: Ptr, n: nat) returns (m: nat)
    requires y in mem && y != x && y != mem[y].next && mem[y].pprev != NextOf(y) && Leads(mem, p, x, n)
    requires forall q :: q in mem && mem[y].pprev == NextOf(q) ==> mem[q].next == y
    ensures m <= n && Leads(Unlinked(mem, y), p, x, m)
    decreases n
  {
    hide Unlinked;
    m := 0;
    if n > 0 {
      UnlinkedNext(mem, y, p);
      if mem[y].pprev == NextOf(p) {
        m := UnlinkLeads(mem, y, mem[y].next, x, n - 2);
      } else {
        m := UnlinkLeads(mem, y, mem[p].next, x, n - 1);
      }
      m := m + 1;
    }
  }

  // Where links stay, so do ways.
  lemma {:induction false} SameLeads(mem: Memory, m: Memory, seen: set<Ptr>, p: Ptr, x: Ptr, n: nat)
    requires Leads(mem, p, x, n) && (p == 0 || p in seen) && 0 !in mem
    requires forall z :: z in seen ==>
      z in mem && z in m && m[z].next == mem[z].next && (mem[z].next == 0 || mem[z].next in seen)
    ensures Leads(m, p, x, n)
    decreases n
  {
    if n > 0 {
      SameLeads(mem, m, seen, mem[p].next, x, n - 1);
    }
  }

  // The lookup has found x, or is on a way of at most n links to it.
  ghost predicate OnTheWay(s: Scene, x: Ptr, n: nat) {
    match s.r.found
    case Some(q) => q == x
    case None => exists m: nat :: m <= n && Leads(s.t.mem, s.r.cursor, x, m)
  }

  lemma BeginsOnTheWay(s: Scene, port: nat) returns (n: nat)
    requires |s.t.hash| == HASH_SIZE && Begins(s, port) && port in s.t.table
    ensures OnTheWay(s, s.t.table[port], n) && |s.t.chains| == HASH_SIZE && n < |s.t.chains[Hash(port)]|
  {
    var t, b := s.t, Hash(port);
    assert Indexed(t.chains, t.mem, t.table, port);
    n :| 0 <= n < |t.chains[b]| && t.chains[b][n] == t.table[port];
    assert Chained(t.hash[b], b, t.chains[b], t.mem);
    ChainLeads(b, t.chains[b], t.mem, 0, n);
  }

  lemma UnlinkOnTheWay(s: Scene, e: Event, x: Ptr, n: nat)
    requires Safe(s) && e.Unlink? && Possible(s, e) && s.t.chains[e.b][e.k] != x && s.r.found == None
    requires OnTheWay(s, x, n)
    ensures OnTheWay(Then(s, e), x, n)
  {
    hide Holds, Unlinked, Leads, Hash, AllSeen;
    var t, y := s.t, s.t.chains[e.b][e.k];
    SizeOf(t);
    NodeLinks(t.hash, t.chains, t.mem, t.table, e.b, e.k);
    if e.k > 0 {
      VisitNode(t.hash, t.chains, t.mem, t.table, e.b, e.k - 1);
    }
    var m: nat :| m <= n && Leads(t.mem, s.r.cursor, x, m);
    var l := UnlinkLeads(t.mem, y, s.r.cursor, x, m);
  }

  lemma OthersOnTheWay(s: Scene, e: Event, x: Ptr, n: nat)
    requires Safe(s) && Possible(s, e) && (e.Link? || e.Recount? || e.Free?) && s.r.found == None && OnTheWay(s, x, n)
    ensures OnTheWay(Then(s, e), x, n)
  {
    hide Holds, Linked, Leads, Hash;
    SizeOf(s.t);
    var m: nat :| m <= n && Leads(s.t.mem, s.r.cursor, x, m);
    var mem' := Then(s, e).t.mem;
    forall z | z in s.r.seen
      ensures z in s.t.mem && z in mem' && mem'[z].next == s.t.mem[z].next
      ensures s.t.mem[z].next == 0 || s.t.mem[z].next in s.r.seen
    {
      assert Seen(s.t, s.r.seen, z);
      if e.Link? {
        LinkedNext(s.t.mem, e.p, e.port, e.params, Hash(e.port), s.t.hash[Hash(e.port)], z);
      }
    }
    SameLeads(s.t.mem, mem', s.r.seen, s.r.cursor, x, m);
  }

  lemma LookOnTheWay(s: Scene, x: Ptr, n: nat)
    requires Safe(s) && Possible(s, Look) && OnTheWay(s, x, n) && s.r.port in s.t.table && s.t.table[s.r.port] == x
    ensures Then(s, Look).r.found == Some(x) || (n > 0 && OnTheWay(Then(s, Look), x, n - 1))
  {
    hide Holds, Moved;
    var c := s.r.cursor;
    assert Seen(s.t, s.r.seen, c);
    TableNode(s.t, s.r.port);
    var m: nat :| m <= n && Leads(s.t.mem, c, x, m);
    LookMoves(s);
    if s.t.mem[c].port != s.r.port {
      assert m > 0 && Leads(s.t.mem, s.t.mem[c].next, x, m - 1);
    }
  }

  lemma LookMoves(s: Scene)
    requires Sane(s.t) && Possible(s, Look)
    ensures Then(s, Look).t == s.t && Then(s, Look).r == Looked(s.t.mem, s.r)
  {
    hide Holds;
  }

  function Looks(es: seq<Event>): nat {
    if es == [] then 0 else Looks(es[..|es| - 1]) + if es[|es| - 1].Look? then 1 else 0
  }

  // One session has the port id throughout.
  ghost predicate Stays(ss: seq<Scene>, port: nat, x: Ptr) {
    forall i :: 0 <= i < |ss| ==> port in ss[i].t.table && ss[i].t.table[port] == x
  }

  lemma {:induction false} WayShortens(ss: seq<Scene>, es: seq<Event>, port: nat, x: Ptr, n: nat, i: nat)
    requires History(ss, es, port) && Stays(ss, port, x) && i <= |es| && OnTheWay(ss[0], x, n)
    ensures ss[i].r.found == Some(x) || (Looks(es[..i]) <= n && OnTheWay(ss[i], x, n - Looks(es[..i])))
  {
    hide Safe, OnTheWay, Possible, Sane, Then;
    if i == 0 {
      assert es[..0] == [];
      FoundNothing(ss[0], port);
    } else {
      WayShortens(ss, es, port, x, n, i - 1);
      assert es[..i][..i - 1] == es[..i - 1];
      assert Sane(ss[i - 1].t) && Possible(ss[i - 1], es[i - 1]) && ss[i] == Then(ss[i - 1], es[i - 1]);
      HistorySafe(ss, es, port, i - 1);
      StepShortens(ss[i - 1], es[i - 1], port, x, n - Looks(es[..i - 1]));
    }
  }

  lemma FoundNothing(s: Scene, port: nat)
    requires |s.t.hash| == HASH_SIZE && Begins(s, port)
    ensures s.r.found == None
  {
  }

  lemma StepShortens(s: Scene, e: Event, port: nat, x: Ptr, n: int)
    requires Safe(s) && Possible(s, e) && s.r.port == port
    requires port in s.t.table && s.t.table[port] == x && port in Then(s, e).t.table && Then(s, e).t.table[port] == x
    requires s.r.found == Some(x) || (n >= 0 && OnTheWay(s, x, n))
    ensures Then(s, e).r.found == Some(x) ||
            (n >= (if e.Look? then 1 else 0) && OnTheWay(Then(s, e), x, n - if e.Look? then 1 else 0))
  {
    hide AllSeen, OnTheWay, Holds, Possible, Then;
    if s.r.found.Some? {
      OnlyFinds(s, x, n);
      StaysFound(s, e);
    } else {
      match e {
        case Look => LookOnTheWay(s, x, n);
        case Unlink(b, k) =>
          KeepsItsPlace(s, e, port, x);
          UnlinkOnTheWay(s, e, x, n);
        case _ => OthersOnTheWay(s, e, x, n);
      }
    }
  }

  lemma OnlyFinds(s: Scene, x: Ptr, n: int)
    requires s.r.found == Some(x) || (n >= 0 && OnTheWay(s, x, n))
    ensures s.r.found == None || s.r.found == Some(x)
  {
  }

  lemma StaysFound(s: Scene, e: Event)
    requires Sane(s.t) && Possible(s, e) && s.r.found.Some?
    ensures Then(s, e).r.found == s.r.found
  {
    hide Moved;
  }

  // A session that keeps its port id was not the one taken out.
  lemma KeepsItsPlace(s: Scene, e: Event, port: nat, x: Ptr)
    requires Safe(s) && e.Unlink? && Possible(s, e) && port in s.t.table && s.t.table[port] == x
    requires port in Then(s, e).t.table
    ensures s.t.chains[e.b][e.k] != x
  {
    hide Holds, Unlinked, Hash, AllSeen;
    TableNode(s.t, port);
  }

  // A lookup of a port id that one session has throughout finds that session, at the latest with as
  // many nodes compared as the bucket had sessions when it began.
  lemma StaysIsFound(ss: seq<Scene>, es: seq<Event>, port: nat, x: Ptr)
    requires History(ss, es, port) && Stays(ss, port, x)
    ensures |ss[0].t.chains| == HASH_SIZE
    ensures ss[|es|].r.found == None || ss[|es|].r.found == Some(x)
    ensures ss[|es|].r.found == None ==> ss[|es|].r.cursor != 0 && Looks(es) < |ss[0].t.chains[Hash(port)]|
  {
    hide OnTheWay, Holds, Possible, Then, Hash, Safe;
    var n := BeginsOnTheWay(ss[0], port);
    WayShortens(ss, es, port, x, n, |es|);
    assert es[..|es|] == es;
    if ss[|es|].r.found != Some(x) {
      HistorySafe(ss, es, port, |es|);
      WayIsOpen(ss[|es|], port, x, n - Looks(es));
    }
  }

  lemma WayIsOpen(s: Scene, port: nat, x: Ptr, n: nat)
    requires Safe(s) && OnTheWay(s, x, n) && port in s.t.table && s.t.table[port] == x && s.r.found != Some(x)
    ensures s.r.found == None && s.r.cursor != 0
  {
    hide Holds, AllSeen;
    TableNode(s.t, port);
    SizeOf(s.t);
    var m: nat :| m <= n && Leads(s.t.mem, s.r.cursor, x, m);
  }

  // ---------------------------------------------------------------------------------------------
  // A miss was true at some moment

  // One step puts no second session under a port id that is taken.
  lemma SameSession(s: Scene, e: Event, port: nat)
    requires Sane(s.t) && Possible(s, e) && port in s.t.table && port in Then(s, e).t.table
    ensures Then(s, e).t.table[port] == s.t.table[port]
  {
    hide Holds, Unlinked, Linked, Hash;
  }

  lemma {:induction false} StaysSame(ss: seq<Scene>, es: seq<Event>, port: nat, i: nat)
    requires History(ss, es, port) && i <= |es| && forall j :: 0 <= j < |ss| ==> port in ss[j].t.table
    ensures ss[i].t.table[port] == ss[0].t.table[port]
  {
    hide Sane, Possible, Begins, Then;
    if i > 0 {
      StaysSame(ss, es, port, i - 1);
      assert Sane(ss[i - 1].t) && Possible(ss[i - 1], es[i - 1]) && ss[i] == Then(ss[i - 1], es[i - 1]);
      assert port in ss[i].t.table;
      SameSession(ss[i - 1], es[i - 1], port);
    }
  }

  // A lookup that comes to the end of its list without a match began, went on or ended while no
  // session had the port id.
  lemma MissWasTrue(ss: seq<Scene>, es: seq<Event>, port: nat)
    requires History(ss, es, port) && ss[|es|].r.found == None && ss[|es|].r.cursor == 0
    ensures exists i :: 0 <= i < |ss| && port !in ss[i].t.table
  {
    hide Sane, Possible, Begins, Then;
    if forall i :: 0 <= i < |ss| ==> port in ss[i].t.table {
      forall i | 0 <= i < |ss| ensures port in ss[i].t.table && ss[i].t.table[port] == ss[0].t.table[port] {
        StaysSame(ss, es, port, i);
      }
      StaysIsFound(ss, es, port, ss[0].t.table[port]);
    }
  }
}
