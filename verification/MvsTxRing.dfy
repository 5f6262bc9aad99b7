// The delivery ring of the Marvell SAS driver: each queued task's tag is written at tx_prod, and
// the hardware fetches entries behind it.
module MvsTxRing {
  import opened Basics
  import opened MvsSlots
  import opened MvsRegSets

  // `issued` is every tag ever written, in order; the hardware has fetched the first `delivered`.
  datatype Tx = Tx(ring: seq<nat>, prod: nat, issued: seq<nat>, delivered: nat)

  function Push(x: Tx, tag: nat): Tx
    requires x.prod < |x.ring|
  {
    Tx(x.ring[x.prod := tag], (x.prod + 1) % |x.ring|, x.issued + [tag], x.delivered)
  }

  // The next entry to be written is one the hardware has not fetched.
  ghost predicate WouldOverwrite(x: Tx)
    requires |x.ring| > 0
  {
    exists k :: x.delivered <= k < |x.issued| && k % |x.ring| == x.prod
  }

  // An undelivered entry is still in the ring and its tag is allocated.
  ghost predicate EntryInv(s: State, x: Tx, k: nat)
    requires |x.ring| > 0 && k < |x.issued|
  {
    && x.issued[k] < |s.tags| && s.tags[x.issued[k]]
    && x.ring[k % |x.ring|] == x.issued[k]
  }

  ghost predicate Inv(s: State, x: Tx) {
    && |x.ring| > 0 && |s.tags| <= |x.ring|
    && x.prod == |x.issued| % |x.ring| && x.delivered <= |x.issued|
    && (forall k :: x.delivered <= k < |x.issued| ==> EntryInv(s, x, k))
    && Distinct(x.issued[x.delivered..])
  }

  lemma ModDistinct(a: nat, b: nat, n: nat)
    requires a < b < a + n
    ensures a % n != b % n
  {
    var q, r := a / n, a % n;
    if r + (b - a) < n {
      DivIs(b, n, q, r + (b - a));
    } else {
      Distributes(q, 1, n);
      DivIs(b, n, q + 1, r + (b - a) - n);
    }
  }

  // The ring position of an entry and of the one a lap later are the same.
  lemma ModLap(a: nat, n: nat)
    requires n > 0
    ensures (a + n) % n == a % n
  {
    Distributes(a / n, 1, n);
    DivIs(a + n, n, a / n + 1, a % n);
  }

  lemma ModNext(a: nat, n: nat)
    requires n > 0
    ensures (a % n + 1) % n == (a + 1) % n
  {
    var q, r := a / n, a % n;
    if r + 1 < n {
      DivIs(a + 1, n, q, r + 1);
      DivIs(r + 1, n, 0, r + 1);
    } else {
      Distributes(q, 1, n);
      DivIs(a + 1, n, q + 1, 0);
      DivIs(n, n, 1, 0);
    }
  }

  // A submission would overwrite an undelivered entry exactly when a full ring is undelivered.
  lemma OverwritesIffFull(x: Tx)
    requires |x.ring| > 0 && x.prod == |x.issued| % |x.ring| && x.delivered <= |x.issued|
    ensures WouldOverwrite(x) <==> |x.issued| - x.delivered >= |x.ring|
  {
    var n, total := |x.ring|, |x.issued|;
    if total - x.delivered >= n {
      ModLap(total - n, n);
    } else {
      forall k | x.delivered <= k < total
        ensures k % n != x.prod
      {
        ModDistinct(k, total, n);
      }
    }
  }

  lemma {:induction false} DistinctBelow(tags: seq<nat>, n: nat, free: nat)
    requires Distinct(tags) && free < n && free !in tags && forall k :: 0 <= k < |tags| ==> tags[k] < n
    ensures |tags| < n
  {
    var all := Range(n);
    RangeSize(n);
    DistinctSize(tags);
    SubsetSize(Members(tags), all - {free});
  }

  ghost function Range(n: nat): (r: set<nat>)
    ensures forall i: nat :: i in r <==> i < n
  {
    if n == 0 then {} else Range(n - 1) + {n - 1}
  }

  lemma {:induction false} RangeSize(n: nat)
    ensures |Range(n)| == n
  {
    if n > 0 {
      RangeSize(n - 1);
    }
  }

  ghost function Members(tags: seq<nat>): set<nat> { set t | t in tags }

  lemma {:induction false} DistinctSize(tags: seq<nat>)
    requires Distinct(tags)
    ensures |Members(tags)| == |tags|
  {
    if tags != [] {
      var front, last := tags[..|tags| - 1], tags[|tags| - 1];
      DistinctSize(front);
      assert Members(tags) == Members(front) + {last};
      assert last !in front;
    }
  }

  // With a free tag there is room: the undelivered entries carry distinct tags that are in use.
  lemma RoomForOne(s: State, x: Tx, t: nat)
    requires Inv(s, x) && t < |s.tags| && !s.tags[t]
    ensures |x.issued| - x.delivered < |s.tags| && !WouldOverwrite(x)
    ensures t !in x.issued[x.delivered..]
  {
    var window := x.issued[x.delivered..];
    forall k | 0 <= k < |window|
      ensures window[k] < |s.tags| && window[k] != t
    {
      assert window[k] == x.issued[x.delivered + k] && EntryInv(s, x, x.delivered + k);
    }
    DistinctBelow(window, |s.tags|, t);
    OverwritesIffFull(x);
  }

  lemma PushKeepsInv(s: State, s': State, x: Tx, t: nat)
    requires Inv(s, x) && t < |s.tags| && !s.tags[t] && s'.tags == s.tags[t := true]
    ensures Inv(s', Push(x, t))
  {
    RoomForOne(s, x, t);
    var n, x' := |x.ring|, Push(x, t);
    ModNext(|x.issued|, n);
    forall k | x'.delivered <= k < |x'.issued|
      ensures EntryInv(s', x', k)
    {
      if k < |x.issued| {
        assert EntryInv(s, x, k);
        ModDistinct(k, |x.issued|, n);
      }
    }
    assert x'.issued[x'.delivered..] == x.issued[x.delivered..] + [t];
  }

  lemma DeliverKeepsInv(s: State, x: Tx)
    requires Inv(s, x) && x.delivered < |x.issued|
    ensures Inv(s, x.(delivered := x.delivered + 1))
  {
    var x' := x.(delivered := x.delivered + 1);
    forall k | x'.delivered <= k < |x'.issued| ensures EntryInv(s, x', k) { assert EntryInv(s, x, k); }
    assert x'.issued[x'.delivered..] == x.issued[x.delivered..][1..];
  }

  // Freeing a tag whose entry has been fetched.
  lemma CompleteKeepsTx(s: State, s': State, x: Tx, i: nat)
    requires Inv(s, x) && i < |s.tags| && s'.tags == s.tags[i := false] && i !in x.issued[x.delivered..]
    ensures Inv(s', x)
  {
    forall k | x.delivered <= k < |x.issued|
      ensures EntryInv(s', x, k)
    {
      assert EntryInv(s, x, k);
      assert x.issued[x.delivered..][k - x.delivered] == x.issued[k];
    }
  }

  // ---------------------------------------------------------------------------------------------
  // Every run

  datatype World = World(s: State, x: Tx)
  datatype Event = Driver(t: Step) | Deliver

  ghost predicate Allows(w: World, e: Event) {
    match e
    case Driver(t) => Allowed(w.s, t) && w.x.prod < |w.x.ring|
    case Deliver => w.x.delivered < |w.x.issued|
  }

  ghost predicate Pushes(w: World, e: Event, srs: nat)
    requires Allows(w, e)
  {
    e.Driver? && e.t.SubmitStep? && Submit(w.s, e.t.r, srs).1 == Queued
  }

  ghost function After(w: World, e: Event, srs: nat): World
    requires Allows(w, e)
  {
    match e
    case Deliver => w.(x := w.x.(delivered := w.x.delivered + 1))
    case Driver(t) => World(Next(w.s, t, srs), if Pushes(w, e, srs) then Push(w.x, FirstClear(w.s.tags)) else w.x)
  }

  // A busy slot is completed only after its entry was fetched.
  ghost predicate FetchedFirst(w: World, e: Event) {
    e.Driver? && e.t.CompleteStep? && w.x.delivered <= |w.x.issued| ==> e.t.slot !in w.x.issued[w.x.delivered..]
  }

  ghost predicate Good(w: World, srs: nat) {
    MvsSlots.Inv(w.s, srs) && srs <= 32 && Inv(w.s, w.x)
  }

  lemma SubmitTags(s: State, r: Req, srs: nat)
    requires |s.tags| == |s.slots| && r.port < |s.lists| && r.task.dev in s.devs
    ensures var (s', o) := Submit(s, r, srs);
            if o == Queued then FirstClear(s.tags) < |s.tags| && s'.tags == s.tags[FirstClear(s.tags) := true]
            else s' == s
  {
  }

  lemma TxIgnoresRest(s: State, s': State, x: Tx)
    requires Inv(s, x) && s'.tags == s.tags
    ensures Inv(s', x)
  {
    forall k | x.delivered <= k < |x.issued| ensures EntryInv(s', x, k) { assert EntryInv(s, x, k); }
  }

  lemma AfterKeepsGood(w: World, e: Event, srs: nat)
    requires Good(w, srs) && Allows(w, e) && FetchedFirst(w, e)
    ensures Good(After(w, e, srs), srs)
    ensures Pushes(w, e, srs) ==> !WouldOverwrite(w.x)
  {
    hide Inv, MvsSlots.Inv, WouldOverwrite;
    match e
    case Deliver => DeliverKeepsInv(w.s, w.x);
    case Driver(t) =>
      NextKeepsInv(w.s, t, srs);
      match t
      case SubmitStep(r) =>
        SubmitTags(w.s, r, srs);
        if Pushes(w, e, srs) {
          RoomForOne(w.s, w.x, FirstClear(w.s.tags));
          PushKeepsInv(w.s, Next(w.s, t, srs), w.x, FirstClear(w.s.tags));
        }
      case CompleteStep(i, aborted) =>
        if w.s.slots[i].Some? {
          DeliveredBound(w.s, w.x);
          CompleteKeepsTx(w.s, Next(w.s, t, srs), w.x, i);
        }
      case RemoveStep(d) =>
        TxIgnoresRest(w.s, Next(w.s, t, srs), w.x);
  }

  lemma DeliveredBound(s: State, x: Tx)
    requires Inv(s, x)
    ensures x.delivered <= |x.issued|
  {
  }

  ghost predicate Run(ws: seq<World>, es: seq<Event>, srs: nat) {
    && |ws| == |es| + 1 && srs <= 32 && Init(ws[0].s)
    && |ws[0].s.tags| <= |ws[0].x.ring| && |ws[0].x.ring| > 0
    && ws[0].x.prod == 0 && ws[0].x.issued == [] && ws[0].x.delivered == 0
    && forall k :: 0 <= k < |es| ==> Allows(ws[k], es[k]) && ws[k + 1] == After(ws[k], es[k], srs)
  }

  lemma StartIsGood(w: World, srs: nat)
    requires Init(w.s) && srs <= 32 && |w.s.tags| <= |w.x.ring| && |w.x.ring| > 0
    requires w.x.prod == 0 && w.x.issued == [] && w.x.delivered == 0
    ensures Good(w, srs)
  {
    InitHasInv(w.s, srs);
    hide MvsSlots.Inv;
  }

  // As long as busy slots are completed only after their entries were fetched, no submission ever
  // overwrites an undelivered entry.
  lemma {:induction false} NeverOverwritten(ws: seq<World>, es: seq<Event>, srs: nat, k: nat)
    requires Run(ws, es, srs) && k <= |es| && forall j :: 0 <= j < |es| ==> FetchedFirst(ws[j], es[j])
    ensures Good(ws[k], srs)
    ensures k < |es| && Pushes(ws[k], es[k], srs) ==> !WouldOverwrite(ws[k].x)
  {
    hide Good, Allows, After, FetchedFirst, Init, Pushes, WouldOverwrite;
    if k == 0 {
      StartIsGood(ws[0], srs);
    } else {
      NeverOverwritten(ws, es, srs, k - 1);
      AfterKeepsGood(ws[k - 1], es[k - 1], srs);
    }
    if k < |es| {
      AfterKeepsGood(ws[k], es[k], srs);
    }
  }

  // In every run, with or without that condition: where tx_prod stands.
  ghost predicate Placed(x: Tx, n: nat) {
    |x.ring| == n > 0 && x.prod == |x.issued| % n && x.delivered <= |x.issued|
  }

  lemma AfterKeepsPlaced(w: World, e: Event, srs: nat)
    requires Allows(w, e) && Placed(w.x, |w.x.ring|)
    ensures Placed(After(w, e, srs).x, |w.x.ring|)
  {
    hide Next, Submit;
    ModNext(|w.x.issued|, |w.x.ring|);
  }

  lemma {:induction false} RunKeepsPlaced(ws: seq<World>, es: seq<Event>, srs: nat, k: nat)
    requires Run(ws, es, srs) && k <= |es|
    ensures Placed(ws[k].x, |ws[0].x.ring|)
  {
    hide Allows, After, Init;
    if k > 0 {
      RunKeepsPlaced(ws, es, srs, k - 1);
      AfterKeepsPlaced(ws[k - 1], es[k - 1], srs);
    } else {
      SmallMod(0, |ws[0].x.ring|);
    }
  }

  // So in every run a submission overwrites an unfetched entry exactly when a full ring of entries
  // is unfetched.
  lemma OverwritesExactlyWhenFull(ws: seq<World>, es: seq<Event>, srs: nat, k: nat)
    requires Run(ws, es, srs) && k <= |es|
    ensures |ws[k].x.ring| == |ws[0].x.ring| > 0
    ensures WouldOverwrite(ws[k].x) <==> |ws[k].x.issued| - ws[k].x.delivered >= |ws[0].x.ring|
  {
    hide Allows, After, Init, WouldOverwrite;
    RunKeepsPlaced(ws, es, srs, k);
    OverwritesIffFull(ws[k].x);
  }

  // Without the condition it does happen: a driver with one tag and one device, whose task is
  // submitted and released again and again while the hardware fetches nothing.
  const PLAIN := Req(Task(0, 0, false), false, 0, true, true, true)

  ghost predicate Unused(s: State) {
    && s.tags == [false] && s.slots == [None] && s.lists == [[]] && s.lldd == map[]
    && s.devs == map[0 := Device(0, NOT_MAPPED)]
  }

  lemma SubmitAndRelease(s: State)
    requires Unused(s)
    ensures Allowed(s, SubmitStep(PLAIN)) && Submit(s, PLAIN, 0).1 == Queued && FirstClear(s.tags) == 0
    ensures var b := Next(s, SubmitStep(PLAIN), 0);
            Allowed(b, CompleteStep(0, false)) && Unused(Next(b, CompleteStep(0, false), 0))
  {
    assert FirstClear([false]) == 0;
    var b := Submit(s, PLAIN, 0).0;
    assert b == Claim(s, 0, PLAIN.task, 0);
    assert s.lists[0] + [0] == [0];
    assert b.slots[0].value == Busy(PLAIN.task, 0) && b.lists == [[0]];
    assert Without([0], 0) == [] by { assert [0][1..] == []; }
    var c := Complete(b, 0, false);
    assert c.tags == [false] && c.slots == [None] && c.lists == [[]] && c.lldd == map[];
    assert c.devs == map[0 := Device(0, NOT_MAPPED)];
  }

  lemma RunExtends(ws: seq<World>, es: seq<Event>, srs: nat, e: Event)
    requires Run(ws, es, srs) && Allows(ws[|es|], e)
    ensures Run(ws + [After(ws[|es|], e, srs)], es + [e], srs)
  {
    hide After, Allows, Init;
    var ws', es' := ws + [After(ws[|es|], e, srs)], es + [e];
    forall k | 0 <= k < |es'|
      ensures Allows(ws'[k], es'[k]) && ws'[k + 1] == After(ws'[k], es'[k], srs)
    {
    }
  }

  lemma {:induction false} ReleasesUnfetched(regs: Regs, n: nat, k: nat) returns (ws: seq<World>, es: seq<Event>)
    requires n > 0
    ensures Run(ws, es, 0) && |ws[0].x.ring| == n
    ensures var w := ws[|es|];
            Unused(w.s) && |w.x.ring| == n && |w.x.issued| == k && w.x.delivered == 0 && w.x.prod == k % n
  {
    if k == 0 {
      var s := State([false], [None], [[]], map[], map[0 := Device(0, NOT_MAPPED)], regs, multiset{}, multiset{},
        multiset{});
      var x := Tx(seq(n, _ => 0), 0, [], 0);
      ws, es := [World(s, x)], [];
    } else {
      ws, es := ReleasesUnfetched(regs, n, k - 1);
      var w, submit, release := ws[|es|], Driver(SubmitStep(PLAIN)), Driver(CompleteStep(0, false));
      SubmitAndRelease(w.s);
      ModNext(k - 1, n);
      RunExtends(ws, es, 0, submit);
      ws, es := ws + [After(w, submit, 0)], es + [submit];
      RunExtends(ws, es, 0, release);
      ws, es := ws + [After(ws[|es|], release, 0)], es + [release];
    }
  }

  lemma ReleaseOverwrites(regs: Regs, n: nat) returns (ws: seq<World>, es: seq<Event>)
    requires n > 0
    ensures Run(ws, es, 0) && |ws[0].x.ring| == n
    ensures Allows(ws[|es|], Driver(SubmitStep(PLAIN))) && Pushes(ws[|es|], Driver(SubmitStep(PLAIN)), 0)
    ensures WouldOverwrite(ws[|es|].x)
  {
    ws, es := ReleasesUnfetched(regs, n, n);
    SubmitAndRelease(ws[|es|].s);
    OverwritesIffFull(ws[|es|].x);
  }
}
