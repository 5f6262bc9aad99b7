// The state of an FCP command (ft_cmd.c): who reports the arrival of write data to SCST when
// transfer-ready, data frames, abort, timeout and the response race.
module FcpCommand {
  import opened Basics
  import opened FcpWrite

  datatype CmdState = New | NeedData | DataIn | CmdRspSent | Mgmt | MgmtRspSent | Done
  datatype RxStatus = RxSuccess | RxErrorFatal

  // ---------------------------------------------------------------------------------------------
  // The regions that run under the command's spin lock

  function AfterSet(s: CmdState, new_: CmdState): CmdState {
    if s == Done then Done else new_
  }

  function AfterAbort(s: CmdState): CmdState {
    match s
    case NeedData => DataIn
    case MgmtRspSent => Done
    case _ => s
  }

  function AfterAllData(s: CmdState): CmdState {
    if s == NeedData then DataIn else s
  }

  class FtCmd {
    var state: CmdState

    method SetCmdState(new_: CmdState) returns (previous: CmdState)
      modifies this
      ensures previous == old(state) && state == AfterSet(old(state), new_)
    {
      previous := state;
      if previous != Done {
        state := new_;
      }
    }

    method TestAndSetCmdState(old_: CmdState, new_: CmdState) returns (ok: bool)
      modifies this
      ensures ok <==> old(state) == old_
      ensures state == if ok then new_ else old(state)
    {
      var previous := state;
      if previous == old_ {
        state := new_;
      }
      ok := previous == old_;
    }

    method AbortCmd() returns (rx: Option<RxStatus>)
      modifies this
      ensures state == AfterAbort(old(state))
      ensures rx == if old(state) == NeedData then Some(RxErrorFatal) else None
    {
      rx := None;
      match state {
        case New | DataIn | Mgmt =>
        case NeedData =>
          state := DataIn;
          rx := Some(RxErrorFatal);
        case CmdRspSent =>
        case MgmtRspSent | Done =>
          state := Done;
      }
    }

    // The end of ft_recv_write_data, reached when write_data_len equals the buffer length.
    method AllDataArrived() returns (rx: Option<RxStatus>)
      modifies this
      ensures state == AfterAllData(old(state))
      ensures rx == if old(state) == NeedData then Some(RxSuccess) else None
    {
      rx := None;
      if state == NeedData {
        state := DataIn;
        rx := Some(RxSuccess);
      }
    }
  }

  // ---------------------------------------------------------------------------------------------
  // All interleavings

  // The command and the calls in progress on it.  The callers have no identity that matters, so
  // they are counted: transfer-ready calls between changing the state and learning the send result,
  // and responses with the state they will restore on error.
  datatype Cmd = Cmd(
    state: CmdState,
    xfers: nat,
    responses: multiset<CmdState>,
    // history
    entered: nat,            // times transfer-ready moved the command to NEED_DATA
    rx: seq<Report>)         // calls of scst_rx_data

  // A call of scst_rx_data: success with the number of frames counted when write_data_len was
  // compared, or a fatal error.
  datatype Report = AllData(counted: nat) | Failed

  // Its data: frames copied but not yet compared with the buffer length, and frames that found the
  // buffer full, with the number of frames counted then.
  datatype Transfer = Transfer(
    bufflen: nat,
    written: u32,
    copied: nat,
    full: multiset<nat>,
    // history
    frames: seq<Frame>)      // frames copied, in order

  datatype World = World(cmd: Cmd, data: Transfer)

  datatype Step =
    | XferStart
    | XferEnd(ok: bool)
    | Abort
    | Copy(f: Frame)
    | Compare
    | Arrived(counted: nat)
    | ResponseStart
    | ResponseEnd(previous: CmdState, ok: bool)
    | MgmtStart
    | MgmtDone

  const FRESH := Cmd(New, 0, multiset{}, 0, [])

  ghost predicate Init(w: World) {
    w.cmd == FRESH && w.data == Transfer(w.data.bufflen, 0, 0, multiset{}, [])
  }

  ghost predicate Allows(c: Cmd, s: Step) {
    match s
    case XferEnd(_) => c.xfers > 0
    case ResponseEnd(previous, _) => previous in c.responses
    case _ => true
  }

  ghost predicate Holds(d: Transfer, s: Step) {
    match s
    case Copy(f) => f.hasOffset && f.payload != [] && f.relOff < d.bufflen   // others are dropped
    case Compare => d.copied > 0
    case Arrived(k) => k in d.full
    case _ => true
  }

  ghost predicate Enabled(w: World, s: Step) { Allows(w.cmd, s) && Holds(w.data, s) }

  ghost function NextCmd(c: Cmd, s: Step): Cmd
    requires Allows(c, s)
  {
    match s
    case XferStart =>
      if c.state == New then c.(state := NeedData, xfers := c.xfers + 1, entered := c.entered + 1)
      else c.(xfers := c.xfers + 1)
    case XferEnd(ok) =>
      c.(xfers := c.xfers - 1, state := if ok then c.state else AfterSet(c.state, New))
    case Abort =>
      c.(state := AfterAbort(c.state), rx := if c.state == NeedData then c.rx + [Failed] else c.rx)
    case Arrived(k) =>
      c.(state := AfterAllData(c.state), rx := if c.state == NeedData then c.rx + [AllData(k)] else c.rx)
    case ResponseStart =>
      c.(state := AfterSet(c.state, CmdRspSent), responses := c.responses + multiset{c.state})
    case ResponseEnd(previous, ok) =>
      c.(responses := c.responses - multiset{previous}, state := if ok then c.state else AfterSet(c.state, previous))
    case MgmtStart => c.(state := AfterSet(c.state, Mgmt))
    case MgmtDone => c.(state := AfterSet(c.state, MgmtRspSent))
    case _ => c
  }

  ghost function NextData(d: Transfer, s: Step): Transfer
    requires Holds(d, s)
  {
    match s
    case Copy(f) =>
      d.(written := Wrap(d.written + Stored(d.bufflen, d.bufflen, f)), copied := d.copied + 1, frames := d.frames + [f])
    case Compare =>
      if d.written == d.bufflen then d.(copied := d.copied - 1, full := d.full + multiset{|d.frames|})
      else d.(copied := d.copied - 1)
    case Arrived(k) => d.(full := d.full - multiset{k})
    case _ => d
  }

  ghost function Next(w: World, s: Step): World
    requires Enabled(w, s)
  {
    World(NextCmd(w.cmd, s), NextData(w.data, s))
  }

  ghost predicate Run(ws: seq<World>, steps: seq<Step>) {
    && |ws| == |steps| + 1 && Init(ws[0])
    && forall i :: 0 <= i < |steps| ==> Enabled(ws[i], steps[i]) && ws[i + 1] == Next(ws[i], steps[i])
  }

  // ---------------------------------------------------------------------------------------------
  // What every interleaving keeps

  // Entries into NEED_DATA that scst_rx_data has not yet answered are either the current state or
  // waiting to be restored by a failing response.
  ghost function Unanswered(c: Cmd): nat {
    (if c.state == NeedData then 1 else 0) + c.responses[NeedData]
  }

  // The first k frames counted to bufflen.
  ghost predicate CountedAt(d: Transfer, k: nat) {
    k <= |d.frames| && Wrap(Count(d.bufflen, d.frames[..k])) == d.bufflen
  }

  // write_data_len is the wrapped count of the frames, and was bufflen wherever it was seen to be.
  ghost predicate CountInv(d: Transfer) {
    && d.written == Wrap(Count(d.bufflen, d.frames))
    && forall k: nat :: k in d.full ==> CountedAt(d, k)
  }

  ghost predicate ReportInv(d: Transfer, rx: seq<Report>) {
    forall j :: 0 <= j < |rx| && rx[j].AllData? ==> CountedAt(d, rx[j].counted)
  }

  ghost predicate Inv(w: World) {
    |w.cmd.rx| + Unanswered(w.cmd) <= w.cmd.entered && CountInv(w.data) && ReportInv(w.data, w.cmd.rx)
  }

  lemma CountedStays(d: Transfer, s: Step, k: nat)
    requires Holds(d, s) && CountedAt(d, k)
    ensures CountedAt(NextData(d, s), k)
  {
    hide Wrap, Stored, Count;
    assert s.Copy? ==> (d.frames + [s.f])[..k] == d.frames[..k];
  }

  lemma NextKeepsCount(d: Transfer, s: Step)
    requires CountInv(d) && Holds(d, s)
    ensures CountInv(NextData(d, s))
  {
    hide Wrap, Stored, Count, CountedAt;
    if s.Copy? {
      CountGrows(d.bufflen, d.frames, s.f);
      WrapAdd(Count(d.bufflen, d.frames), Stored(d.bufflen, d.bufflen, s.f));
    }
    forall k: nat | k in NextData(d, s).full ensures CountedAt(NextData(d, s), k) {
      if k in d.full {
        CountedStays(d, s, k);
      } else {
        AllCounted(d);
      }
    }
  }

  lemma AllCounted(d: Transfer)
    requires d.written == d.bufflen && d.written == Wrap(Count(d.bufflen, d.frames)) && Holds(d, Compare)
    ensures CountedAt(NextData(d, Compare), |d.frames|)
  {
    hide Wrap, Count;
    assert d.frames[..|d.frames|] == d.frames;
  }

  lemma NextKeepsReports(w: World, s: Step)
    requires CountInv(w.data) && ReportInv(w.data, w.cmd.rx) && Enabled(w, s)
    ensures ReportInv(NextData(w.data, s), NextCmd(w.cmd, s).rx)
  {
    hide Wrap, Stored, Count, CountedAt;
    var rx' := NextCmd(w.cmd, s).rx;
    forall j | 0 <= j < |rx'| && rx'[j].AllData? ensures CountedAt(NextData(w.data, s), rx'[j].counted) {
      if j < |w.cmd.rx| {
        assert rx'[j] == w.cmd.rx[j];
      }
      CountedStays(w.data, s, rx'[j].counted);
    }
  }

  lemma NextKeepsAnswers(c: Cmd, s: Step)
    requires |c.rx| + Unanswered(c) <= c.entered && Allows(c, s)
    ensures |NextCmd(c, s).rx| + Unanswered(NextCmd(c, s)) <= NextCmd(c, s).entered
  {
  }

  lemma NextKeepsInv(w: World, s: Step)
    requires Inv(w) && Enabled(w, s)
    ensures Inv(Next(w, s))
  {
    hide NextCmd, NextData, CountInv, ReportInv, Unanswered, Allows, Holds;
    NextKeepsCount(w.data, s);
    NextKeepsReports(w, s);
    NextKeepsAnswers(w.cmd, s);
  }

  // scst_rx_data is called only when the step itself takes the command from NEED_DATA to DATA_IN,
  // and a finished command stays finished.
  lemma NextReports(c: Cmd, s: Step)
    requires Allows(c, s)
    ensures c.state == Done ==> NextCmd(c, s).state == Done
    ensures NextCmd(c, s).rx == c.rx || (|NextCmd(c, s).rx| == |c.rx| + 1 && c.rx < NextCmd(c, s).rx)
    ensures NextCmd(c, s).rx != c.rx ==> c.state == NeedData && NextCmd(c, s).state == DataIn
    ensures c.state == NeedData && (s.Abort? || s.Arrived?) ==> NextCmd(c, s).rx != c.rx
  {
  }

  lemma InitHasInv(w: World)
    requires Init(w)
    ensures Inv(w)
  {
  }

  lemma {:induction false} RunKeepsInv(ws: seq<World>, steps: seq<Step>, i: nat)
    requires Run(ws, steps) && i <= |steps|
    ensures Inv(ws[i])
  {
    hide Next, Enabled, Inv, Init;
    if i > 0 {
      RunKeepsInv(ws, steps, i - 1);
      NextKeepsInv(ws[i - 1], steps[i - 1]);
    } else {
      InitHasInv(ws[0]);
    }
  }

  // In every interleaving scst_rx_data is called at most as often as NEED_DATA was entered, and
  // reports success only after the full length was counted.
  lemma RxBounded(ws: seq<World>, steps: seq<Step>, i: nat)
    requires Run(ws, steps) && i <= |steps|
    ensures |ws[i].cmd.rx| <= ws[i].cmd.entered
    ensures forall j :: 0 <= j < |ws[i].cmd.rx| && ws[i].cmd.rx[j].AllData? ==>
      CountedAt(ws[i].data, ws[i].cmd.rx[j].counted)
  {
    hide Next, Enabled, Init, CountedAt;
    RunKeepsInv(ws, steps, i);
  }

  // What a success report is worth.  Frames that do not overlap have then delivered all of the
  // initiator's data.
  lemma SuccessMeansComplete(ws: seq<World>, steps: seq<Step>, i: nat, j: nat, data: seq<byte>)
    requires Run(ws, steps) && i <= |steps| && j < |ws[i].cmd.rx| && ws[i].cmd.rx[j].AllData?
    requires |data| == ws[i].data.bufflen < U32 && CutFrom(data, ws[i].data.frames)
    requires NoOverlap(|data|, ws[i].data.frames)
    ensures Complete(data, ws[i].data.frames)
  {
    hide Next, Enabled, Init, Count, Wrap, Complete, Range, Matches;
    RunKeepsInv(ws, steps, i);
    var fs, k := ws[i].data.frames, ws[i].cmd.rx[j].counted;
    assert CountedAt(ws[i].data, k);
    CompleteExactlyWhenCounted(data, fs[..k]);
    StaysComplete(data, fs, k);
  }

  // At the count that led to the report, that is the exact condition: the frames counted do not
  // overlap iff they delivered the data and the counter did not wrap around.
  lemma SuccessExactly(ws: seq<World>, steps: seq<Step>, i: nat, j: nat, data: seq<byte>)
    requires Run(ws, steps) && i <= |steps| && j < |ws[i].cmd.rx| && ws[i].cmd.rx[j].AllData?
    requires |data| == ws[i].data.bufflen < U32 && CutFrom(data, ws[i].data.frames)
    ensures ws[i].cmd.rx[j].counted <= |ws[i].data.frames|
    ensures var fs := ws[i].data.frames[..ws[i].cmd.rx[j].counted];
      NoOverlap(|data|, fs) <==> Complete(data, fs) && Count(|data|, fs) < U32
  {
    hide Next, Enabled, Init, Count, Wrap, Complete, NoOverlap, Matches;
    RunKeepsInv(ws, steps, i);
    assert CountedAt(ws[i].data, ws[i].cmd.rx[j].counted);
    CountedIsCompleteIffNoOverlap(data, ws[i].data.frames[..ws[i].cmd.rx[j].counted]);
  }

  lemma {:induction false} DoneForever(ws: seq<World>, steps: seq<Step>, i: nat, j: nat)
    requires Run(ws, steps) && i <= j <= |steps| && ws[i].cmd.state == Done
    ensures ws[j].cmd.state == Done && ws[j].cmd.rx == ws[i].cmd.rx
  {
    hide NextCmd, NextData, Allows, Holds, Init;
    if i < j {
      DoneForever(ws, steps, i, j - 1);
      NextReports(ws[j - 1].cmd, steps[j - 1]);
    }
  }

  // ---------------------------------------------------------------------------------------------
  // At most one report per command

  // How SCST drives a write command: no task management on it, and responses one at a time and
  // never while data is awaited.
  ghost predicate Driven(c: Cmd, s: Step) {
    && s != MgmtStart && s != MgmtDone
    && (s == ResponseStart ==> c.state != NeedData && c.responses == multiset{})
  }

  // A failed transfer-ready that does no harm: one that leaves NEED_DATA or NEW, or one that comes
  // when nothing has been reported and no response is going to restore NEW.
  ghost predicate Harmless(c: Cmd, s: Step) {
    s == XferEnd(false) ==> c.state == NeedData || c.state == New || (c.rx == [] && New !in c.responses)
  }

  ghost predicate AllDriven(ws: seq<World>, steps: seq<Step>)
    requires |ws| == |steps| + 1
  {
    forall k :: 0 <= k < |steps| ==> Driven(ws[k].cmd, steps[k])
  }

  ghost predicate AllHarmless(ws: seq<World>, steps: seq<Step>)
    requires |ws| == |steps| + 1
  {
    forall k :: 0 <= k < |steps| ==> Harmless(ws[k].cmd, steps[k])
  }

  // At most one response is in progress, and not one that will restore NEED_DATA.
  ghost predicate OneResponse(rs: multiset<CmdState>) {
    rs == multiset{} || rs == multiset{New} || rs == multiset{DataIn} || rs == multiset{CmdRspSent}
  }

  ghost predicate OnceInv(c: Cmd) {
    && |c.rx| <= 1
    && (c.state.New? || c.state.NeedData? || c.state.DataIn? || c.state.CmdRspSent?)
    && (|c.rx| == 1 ==> (c.state == DataIn || c.state == CmdRspSent) && New !in c.responses)
    && (New in c.responses ==> c.state == CmdRspSent)
    && (c.state == DataIn || DataIn in c.responses ==> |c.rx| == 1)
    && OneResponse(c.responses)
  }

  lemma OneResponseEnds(rs: multiset<CmdState>, previous: CmdState)
    requires OneResponse(rs) && previous in rs
    ensures rs - multiset{previous} == multiset{} && (previous.New? || previous.DataIn? || previous.CmdRspSent?)
  {
  }

  lemma OneResponseStarts(s: CmdState)
    requires s.New? || s.DataIn? || s.CmdRspSent?
    ensures OneResponse(multiset{} + multiset{s}) && multiset{} + multiset{s} == multiset{s}
  {
    assert multiset{} + multiset{s} == multiset{s};
  }

  lemma NoResponse()
    ensures OneResponse(multiset{})
  {
  }

  lemma OnceAtStart(c: Cmd)
    requires OnceInv(c) && Driven(c, ResponseStart)
    ensures OnceInv(NextCmd(c, ResponseStart))
  {
    hide OneResponse;
    OneResponseStarts(c.state);
  }

  lemma OnceAtEnd(c: Cmd, previous: CmdState, ok: bool)
    requires OnceInv(c) && previous in c.responses
    ensures OnceInv(NextCmd(c, ResponseEnd(previous, ok)))
    ensures NextCmd(c, ResponseEnd(previous, ok)).responses == multiset{}
  {
    hide OneResponse;
    OneResponseEnds(c.responses, previous);
    NoResponse();
  }

  lemma OnceElsewhere(c: Cmd, s: Step)
    requires OnceInv(c) && Allows(c, s) && Driven(c, s) && Harmless(c, s) && !s.ResponseStart? && !s.ResponseEnd?
    ensures OnceInv(NextCmd(c, s))
  {
    hide OneResponse;
    assert NextCmd(c, s).responses == c.responses;
  }

  lemma OnceStep(c: Cmd, s: Step)
    requires OnceInv(c) && Allows(c, s) && Driven(c, s) && Harmless(c, s)
    ensures OnceInv(NextCmd(c, s))
  {
    hide OnceInv, NextCmd, Harmless, Driven;
    match s {
      case ResponseStart => OnceAtStart(c);
      case ResponseEnd(previous, ok) => OnceAtEnd(c, previous, ok);
      case _ => OnceElsewhere(c, s);
    }
  }

  lemma OnceStarts()
    ensures OnceInv(FRESH)
  {
  }

  // If every failed transfer-ready is harmless, SCST is told at most once.
  lemma {:induction false} ToldAtMostOnce(ws: seq<World>, steps: seq<Step>, i: nat)
    requires Run(ws, steps) && i <= |steps| && AllDriven(ws, steps) && AllHarmless(ws, steps)
    ensures OnceInv(ws[i].cmd) && |ws[i].cmd.rx| <= 1
  {
    hide NextCmd, NextData, Allows, Holds, Driven, Harmless, OneResponse;
    if i > 0 {
      ToldAtMostOnce(ws, steps, i - 1);
      OnceStep(ws[i - 1].cmd, steps[i - 1]);
    } else {
      OnceStarts();
    }
  }

  // The run goes on with a failed transfer-ready, and with no further one.
  ghost predicate GoesOn(ws: seq<World>, steps: seq<Step>, ws': seq<World>, steps': seq<Step>) {
    && Run(ws', steps') && AllDriven(ws', steps') && ws <= ws' && steps + [XferEnd(false)] <= steps'
    && (forall k :: |steps| < k < |steps'| ==> steps'[k] != XferEnd(false))
  }

  ghost predicate ToldTwice(ws: seq<World>) { |ws| > 0 && |ws[|ws| - 1].cmd.rx| >= 2 }

  // And that is the exact condition: after any run in which it was kept, one more failed
  // transfer-ready leaves a way to be told twice if and only if it is not harmless.
  lemma HarmExactly(ws: seq<World>, steps: seq<Step>)
    requires Run(ws, steps) && AllDriven(ws, steps) && AllHarmless(ws, steps) && ws[|steps|].cmd.xfers > 0
    ensures (exists ws', steps' :: GoesOn(ws, steps, ws', steps') && ToldTwice(ws')) <==>
            !Harmless(ws[|steps|].cmd, XferEnd(false))
  {
    hide GoesOn, ToldTwice, AllDriven, AllHarmless, Harmless, Init, Enabled, Next;
    if Harmless(ws[|steps|].cmd, XferEnd(false)) {
      forall ws', steps' | GoesOn(ws, steps, ws', steps') ensures !ToldTwice(ws') {
        HarmlessStaysOnce(ws, steps, ws', steps');
      }
    } else {
      var ws', steps' := HarmTellsTwice(ws, steps);
    }
  }

  lemma HarmlessStaysOnce(ws: seq<World>, steps: seq<Step>, ws': seq<World>, steps': seq<Step>)
    requires Run(ws, steps) && AllHarmless(ws, steps) && Harmless(ws[|steps|].cmd, XferEnd(false))
    requires GoesOn(ws, steps, ws', steps')
    ensures !ToldTwice(ws')
  {
    hide NextCmd, NextData, Allows, Holds, Driven, Init;
    forall k | 0 <= k < |steps'| ensures Harmless(ws'[k].cmd, steps'[k]) {
      if k < |steps| {
        assert ws'[k] == ws[k] && steps'[k] == (steps + [XferEnd(false)])[k] == steps[k];
      } else if k == |steps| {
        assert ws'[k] == ws[k] && steps'[k] == (steps + [XferEnd(false)])[k];
      }
    }
    ToldAtMostOnce(ws', steps', |steps'|);
  }

  lemma HarmTellsTwice(ws: seq<World>, steps: seq<Step>) returns (ws': seq<World>, steps': seq<Step>)
    requires Run(ws, steps) && AllDriven(ws, steps) && AllHarmless(ws, steps) && ws[|steps|].cmd.xfers > 0
    requires !Harmless(ws[|steps|].cmd, XferEnd(false))
    ensures GoesOn(ws, steps, ws', steps') && ToldTwice(ws')
  {
    hide Init, Driven, AllDriven, OneResponse, NextCmd, NextData;
    ToldAtMostOnce(ws, steps, |steps|);
    var c := ws[|steps|].cmd;
    ws', steps' := Extend(ws, steps, XferEnd(false));
    BackToNew(c);
    ws', steps' := Retold(ws', steps');
    if c.rx == [] {
      var d := ws'[|steps'|].cmd;
      ws', steps' := Extend(ws', steps', ResponseEnd(New, false));
      NewAgain(d);
      ws', steps' := Retold(ws', steps');
    }
  }

  lemma BackToNew(c: Cmd)
    requires c.xfers > 0 && c.state != Done
    ensures var d := NextCmd(c, XferEnd(false)); d.state == New && d.rx == c.rx && d.responses == c.responses
  {
  }

  lemma NewAgain(c: Cmd)
    requires New in c.responses && c.state != Done
    ensures var d := NextCmd(c, ResponseEnd(New, false)); d.state == New && d.rx == c.rx
  {
  }

  // A transfer-ready and an abort: one report more.
  lemma Retold(ws: seq<World>, steps: seq<Step>) returns (ws': seq<World>, steps': seq<Step>)
    requires Run(ws, steps) && AllDriven(ws, steps) && ws[|steps|].cmd.state == New
    ensures Run(ws', steps') && AllDriven(ws', steps') && ws <= ws' && steps' == steps + [XferStart, Abort]
    ensures var c, c' := ws[|steps|].cmd, ws'[|steps'|].cmd;
      c'.state == DataIn && c'.xfers == c.xfers + 1 && c'.responses == c.responses && c'.rx == c.rx + [Failed]
  {
    hide Init, Driven, AllDriven;
    ws', steps' := Extend(ws, steps, XferStart);
    ws', steps' := Extend(ws', steps', Abort);
  }

  lemma Extend(ws: seq<World>, steps: seq<Step>, s: Step) returns (ws': seq<World>, steps': seq<Step>)
    requires Run(ws, steps) && AllDriven(ws, steps) && Enabled(ws[|steps|], s)
    requires !s.MgmtStart? && !s.MgmtDone? && !s.ResponseStart?
    ensures ws' == ws + [Next(ws[|steps|], s)] && steps' == steps + [s] && Run(ws', steps') && AllDriven(ws', steps')
  {
    hide Next, Enabled, Init;
    ws', steps' := ws + [Next(ws[|steps|], s)], steps + [s];
    forall k | 0 <= k < |steps'|
      ensures Enabled(ws'[k], steps'[k]) && ws'[k + 1] == Next(ws'[k], steps'[k]) && Driven(ws'[k].cmd, steps'[k])
    {
      assert k < |steps| ==> ws'[k] == ws[k] && steps'[k] == steps[k] && ws'[k + 1] == ws[k + 1];
    }
  }

  // Such a failure does come: abort while the transfer-ready is being sent.
  lemma AnsweredTwice(bufflen: nat) returns (ws: seq<World>, steps: seq<Step>)
    ensures Run(ws, steps) && AllDriven(ws, steps) && ws[0].data.bufflen == bufflen
    ensures steps == [XferStart, Abort, XferEnd(false), XferStart, Abort] && ws[|steps|].cmd.rx == [Failed, Failed]
  {
    hide AllDriven, Driven;
    ws, steps := Beginning(bufflen);
    ws, steps := Retold(ws, steps);
    ws, steps := Extend(ws, steps, XferEnd(false));
    ws, steps := Retold(ws, steps);
  }

  lemma Beginning(bufflen: nat) returns (ws: seq<World>, steps: seq<Step>)
    ensures ws == [World(FRESH, Transfer(bufflen, 0, 0, multiset{}, []))] && steps == []
    ensures Run(ws, steps) && AllDriven(ws, steps)
  {
    ws, steps := [World(FRESH, Transfer(bufflen, 0, 0, multiset{}, []))], [];
  }

  // Without any failed transfer-ready a command waits for data at most once, and SCST is told
  // exactly once when it stops waiting.
  ghost predicate WaitedOnce(c: Cmd) { OnceInv(c) && Waits(c) }

  ghost predicate Waits(c: Cmd) {
    && (c.responses != multiset{} ==> c.state == CmdRspSent)
    && c.entered == |c.rx| + if c.state == NeedData then 1 else 0
  }

  lemma WaitedAtEnd(c: Cmd, previous: CmdState, ok: bool)
    requires WaitedOnce(c) && previous in c.responses
    ensures WaitedOnce(NextCmd(c, ResponseEnd(previous, ok)))
  {
    hide OneResponse;
    OnceAtEnd(c, previous, ok);
    OneResponseEnds(c.responses, previous);
  }

  lemma WaitedElsewhere(c: Cmd, s: Step)
    requires WaitedOnce(c) && Allows(c, s) && Driven(c, s) && s != XferEnd(false) && !s.ResponseEnd?
    ensures WaitedOnce(NextCmd(c, s))
  {
    hide OnceInv, Waits, NextCmd, Driven;
    OnceStates(c);
    OnceStep(c, s);
    WaitsElsewhere(c, s);
  }

  lemma WaitsElsewhere(c: Cmd, s: Step)
    requires Waits(c) && Allows(c, s) && Driven(c, s) && s != XferEnd(false) && !s.ResponseEnd?
    requires c.state.New? || c.state.NeedData? || c.state.DataIn? || c.state.CmdRspSent?
    ensures Waits(NextCmd(c, s))
  {
  }

  lemma OnceStates(c: Cmd)
    requires OnceInv(c)
    ensures c.state.New? || c.state.NeedData? || c.state.DataIn? || c.state.CmdRspSent?
  {
  }

  lemma WaitedOnceStep(c: Cmd, s: Step)
    requires WaitedOnce(c) && Allows(c, s) && Driven(c, s) && s != XferEnd(false)
    ensures WaitedOnce(NextCmd(c, s))
  {
    hide WaitedOnce, NextCmd, Driven;
    if s.ResponseEnd? {
      WaitedAtEnd(c, s.previous, s.ok);
    } else {
      WaitedElsewhere(c, s);
    }
  }

  lemma {:induction false} ToldExactlyOnce(ws: seq<World>, steps: seq<Step>, i: nat)
    requires Run(ws, steps) && i <= |steps| && AllDriven(ws, steps)
    requires forall k :: 0 <= k < |steps| ==> steps[k] != XferEnd(false)
    ensures WaitedOnce(ws[i].cmd)
    ensures ws[i].cmd.entered <= 1 && |ws[i].cmd.rx| == ws[i].cmd.entered - if ws[i].cmd.state == NeedData then 1 else 0
  {
    hide NextCmd, NextData, Allows, Holds, Driven, OneResponse;
    if i > 0 {
      ToldExactlyOnce(ws, steps, i - 1);
      WaitedOnceStep(ws[i - 1].cmd, steps[i - 1]);
    } else {
      OnceStarts();
    }
  }

  // ---------------------------------------------------------------------------------------------
  // Where a command stands, read off the steps so far

  // Some step that ends the wait for data comes after a transfer-ready.
  ghost predicate Answered(steps: seq<Step>) {
    exists j, k :: 0 <= j < k < |steps| && steps[j] == XferStart && (steps[k].Abort? || steps[k].Arrived?)
  }

  // An abort comes after the management response.
  ghost predicate AbortedLate(steps: seq<Step>) {
    exists j, k :: 0 <= j < k < |steps| && steps[j] == MgmtDone && steps[k] == Abort
  }

  lemma AnsweredGrows(steps: seq<Step>, s: Step)
    ensures Answered(steps + [s]) <==> Answered(steps) || (XferStart in steps && (s.Abort? || s.Arrived?))
  {
    var t := steps + [s];
    if Answered(steps) {
      var j, k :| 0 <= j < k < |steps| && steps[j] == XferStart && (steps[k].Abort? || steps[k].Arrived?);
      assert t[j] == XferStart && t[k] == steps[k];
    }
    if XferStart in steps && (s.Abort? || s.Arrived?) {
      var j :| 0 <= j < |steps| && steps[j] == XferStart;
      assert t[j] == XferStart && t[|steps|] == s;
    }
  }

  lemma AbortedLateGrows(steps: seq<Step>, s: Step)
    ensures AbortedLate(steps + [s]) <==> AbortedLate(steps) || (MgmtDone in steps && s == Abort)
  {
    var t := steps + [s];
    if AbortedLate(steps) {
      var j, k :| 0 <= j < k < |steps| && steps[j] == MgmtDone && steps[k] == Abort;
      assert t[j] == MgmtDone && t[k] == Abort;
    }
    if MgmtDone in steps && s == Abort {
      var j :| 0 <= j < |steps| && steps[j] == MgmtDone;
      assert t[j] == MgmtDone && t[|steps|] == s;
    }
  }

  // A command none of whose sends fails: the response decides, before it the data, before that the
  // transfer-ready.
  ghost predicate Stands(c: CmdState, steps: seq<Step>) {
    && (c == CmdRspSent <==> ResponseStart in steps)
    && (c == DataIn <==> ResponseStart !in steps && Answered(steps))
    && (c == NeedData <==> ResponseStart !in steps && XferStart in steps && !Answered(steps))
    && (c == New <==> ResponseStart !in steps && XferStart !in steps)
  }

  ghost predicate Plain(s: Step) {
    s != XferEnd(false) && !(s.ResponseEnd? && !s.ok) && !s.MgmtStart? && !s.MgmtDone?
  }

  lemma StandsOn(c: Cmd, steps: seq<Step>, s: Step)
    requires Stands(c.state, steps) && Allows(c, s) && Plain(s)
    ensures Stands(NextCmd(c, s).state, steps + [s])
  {
    AnsweredGrows(steps, s);
    hide Answered;
  }

  lemma {:induction false} PlainState(ws: seq<World>, steps: seq<Step>, i: nat)
    requires Run(ws, steps) && i <= |steps| && forall k :: 0 <= k < |steps| ==> Plain(steps[k])
    ensures Stands(ws[i].cmd.state, steps[..i])
  {
    hide NextCmd, NextData, Allows, Holds, Stands, Plain;
    if i == 0 {
      StandsAtFirst();
      assert steps[..0] == [];
    } else {
      PlainState(ws, steps, i - 1);
      StandsOn(ws[i - 1].cmd, steps[..i - 1], steps[i - 1]);
      assert steps[..i] == steps[..i - 1] + [steps[i - 1]];
    }
  }

  lemma StandsAtFirst()
    ensures Stands(New, [])
  {
  }

  predicate Ordinary(c: CmdState) { c in {New, NeedData, DataIn, CmdRspSent} }

  // Some response before step i began in state p.
  ghost predicate Began(ws: seq<World>, steps: seq<Step>, i: nat, p: CmdState)
    requires i <= |steps| && |ws| == |steps| + 1
  {
    exists k :: 0 <= k < i && steps[k] == ResponseStart && ws[k].cmd.state == p
  }

  lemma OrdinaryStep(c: Cmd, s: Step)
    requires Ordinary(c.state) && (forall p :: p in c.responses ==> Ordinary(p))
    requires Allows(c, s) && !s.MgmtStart? && !s.MgmtDone?
    ensures var c' := NextCmd(c, s);
            && Ordinary(c'.state)
            && (forall p :: p in c'.responses ==> p in c.responses || (s == ResponseStart && p == c.state))
            && (s == XferEnd(false) ==> c'.state == New)
            && (s.ResponseEnd? && !s.ok ==> c'.state == s.previous)
  {
  }

  // A command that is no management function is never DONE or in a management state, and every send
  // that fails puts it where the code means to: a failed response back to the state it found, which
  // was the command's state when that response began, a failed transfer-ready back to NEW.
  lemma {:induction false} FailureRestores(ws: seq<World>, steps: seq<Step>, i: nat)
    requires Run(ws, steps) && i <= |steps|
    requires forall k :: 0 <= k < |steps| ==> !steps[k].MgmtStart? && !steps[k].MgmtDone?
    ensures Ordinary(ws[i].cmd.state)
    ensures forall p :: p in ws[i].cmd.responses ==> Ordinary(p) && Began(ws, steps, i, p)
    ensures i > 0 && steps[i - 1] == XferEnd(false) ==> ws[i].cmd.state == New
    ensures i > 0 && steps[i - 1].ResponseEnd? && !steps[i - 1].ok ==> ws[i].cmd.state == steps[i - 1].previous
  {
    hide NextCmd, NextData, Allows, Holds, Ordinary, Began;
    if i == 0 {
      FreshIsOrdinary();
    } else {
      FailureRestores(ws, steps, i - 1);
      OrdinaryStep(ws[i - 1].cmd, steps[i - 1]);
      forall p | p in ws[i].cmd.responses ensures Began(ws, steps, i, p) { BeganStays(ws, steps, i, p); }
    }
  }

  lemma FreshIsOrdinary()
    ensures Ordinary(FRESH.state) && FRESH.responses == multiset{}
  {
  }

  lemma BeganStays(ws: seq<World>, steps: seq<Step>, i: nat, p: CmdState)
    requires 0 < i <= |steps| && |ws| == |steps| + 1
    requires Began(ws, steps, i - 1, p) || (steps[i - 1] == ResponseStart && ws[i - 1].cmd.state == p)
    ensures Began(ws, steps, i, p)
  {
  }

  ghost predicate MgmtStands(c: Cmd, steps: seq<Step>) {
    && c.rx == []
    && (c.state == Done <==> AbortedLate(steps))
    && (c.state == Mgmt <==> MgmtDone !in steps)
    && (c.state == MgmtRspSent <==> MgmtDone in steps && !AbortedLate(steps))
  }

  lemma MgmtStandsOn(c: Cmd, steps: seq<Step>, s: Step)
    requires MgmtStands(c, steps) && (s == MgmtDone || s == Abort)
    ensures MgmtStands(NextCmd(c, s), steps + [s])
  {
    AbortedLateGrows(steps, s);
    LateNeedsDone(steps);
    hide AbortedLate;
  }

  lemma LateNeedsDone(steps: seq<Step>)
    ensures AbortedLate(steps) ==> MgmtDone in steps
  {
  }

  // A management function never reports data; it is in MGMT until its response, then in
  // MGMT_RSP_SENT, and DONE exactly when an abort comes after the response.
  lemma {:induction false} ManagementState(ws: seq<World>, steps: seq<Step>, i: nat)
    requires Run(ws, steps) && 0 < i <= |steps| && steps[0] == MgmtStart
    requires forall k :: 0 < k < |steps| ==> steps[k] == MgmtDone || steps[k] == Abort
    ensures MgmtStands(ws[i].cmd, steps[..i])
  {
    hide NextCmd, NextData, Holds, MgmtStands;
    assert Enabled(ws[i - 1], steps[i - 1]) && ws[i] == Next(ws[i - 1], steps[i - 1]);
    if i == 1 {
      assert steps[..1] == [MgmtStart];
      MgmtBegins();
    } else {
      ManagementState(ws, steps, i - 1);
      MgmtStandsOn(ws[i - 1].cmd, steps[..i - 1], steps[i - 1]);
      assert steps[..i] == steps[..i - 1] + [steps[i - 1]];
    }
  }

  lemma MgmtBegins()
    ensures MgmtStands(NextCmd(FRESH, MgmtStart), [MgmtStart])
  {
  }

  // In every run: once the frames copied count to bufflen while the command waits for data, comparing
  // finds it so and the command is reported complete.
  lemma CountedIsReported(ws: seq<World>, steps: seq<Step>, i: nat)
    requires Run(ws, steps) && i <= |steps| && ws[i].cmd.state == NeedData && ws[i].data.copied > 0
    requires Wrap(Count(ws[i].data.bufflen, ws[i].data.frames)) == ws[i].data.bufflen
    ensures Enabled(ws[i], Compare)
    ensures var w, n := Next(ws[i], Compare), |ws[i].data.frames|;
            && Enabled(w, Arrived(n)) && Next(w, Arrived(n)).cmd.state == DataIn
            && Next(w, Arrived(n)).cmd.rx == ws[i].cmd.rx + [AllData(n)]
  {
    hide Wrap, Count, Init;
    RunKeepsInv(ws, steps, i);
  }
}
