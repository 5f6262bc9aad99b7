// Cached sense data of the MPT target driver on a parallel SCSI bus: when status and sense could
// not be sent together, the next REQUEST SENSE from that initiator is answered by the driver.
module MptSense {
  import opened Basics

  const NUM_SCSI_DEVICES := 16
  const SENSE_BUFFERSIZE := 96
  const REQUEST_SENSE: byte := 0x03

  datatype Pending = Idle | Attempt | NotSent | HandleRq

  // What the driver keeps for one initiator.
  datatype Cell = Cell(pending: Pending, buffer: seq<byte>)

  // Who is told that a command is finished: SCST, or nobody because the driver made it up.
  datatype Finish = ScstDone | LocalFreed

  // ---------------------------------------------------------------------------------------------
  // The handlers, for one initiator

  // A new command is answered from the cache.
  predicate Serves(c: Cell, requestSense: bool, allocOk: bool) {
    c.pending == HandleRq && requestSense && allocOk
  }

  function Arrived(c: Cell, requestSense: bool, allocOk: bool): Cell {
    if Serves(c, requestSense, allocOk) then c else c.(pending := Idle)
  }

  // The answer: the smallest of the requested length, the buffer, and the length the sense data
  // gives in its eighth byte.
  function Answer(c: Cell, allocLen: byte): (a: seq<byte>)
    requires |c.buffer| == SENSE_BUFFERSIZE
  {
    c.buffer[..Min(Min(allocLen as int, SENSE_BUFFERSIZE), c.buffer[7] as int + 8)]
  }

  // memcpy of the sense data over the front of the buffer.
  function Cached(buffer: seq<byte>, sense: seq<byte>): (r: seq<byte>)
    requires |buffer| == SENSE_BUFFERSIZE
    ensures |r| == SENSE_BUFFERSIZE
    ensures forall k :: 0 <= k < Min(|sense|, SENSE_BUFFERSIZE) ==> r[k] == sense[k]
  {
    var n := Min(|sense|, SENSE_BUFFERSIZE);
    sense[..n] + buffer[n..]
  }

  function StatusSent(c: Cell, sense: Option<seq<byte>>): Cell
    requires |c.buffer| == SENSE_BUFFERSIZE
  {
    match sense
    case None => c
    case Some(s) => Cell(Attempt, Cached(c.buffer, s))
  }

  function Replied(c: Cell, notSent: bool): Cell {
    var p := if notSent && c.pending == Attempt then NotSent else c.pending;
    c.(pending := if p == NotSent then HandleRq else Idle)
  }

  function Finished(c: Cell): Finish {
    if c.pending == HandleRq then LocalFreed else ScstDone
  }

  class Priv {
    const pending: array<Pending>
    const buffer: array<seq<byte>>

    ghost predicate Valid()
      reads buffer
    {
      && pending.Length == buffer.Length == NUM_SCSI_DEVICES
      && forall i :: 0 <= i < NUM_SCSI_DEVICES ==> |buffer[i]| == SENSE_BUFFERSIZE
    }

    ghost function At(i: nat): Cell
      requires i < pending.Length && i < buffer.Length
      reads pending, buffer
    {
      Cell(pending[i], buffer[i])
    }

    // Every initiator but i keeps its state.
    twostate predicate OnlyChanged(i: nat)
      requires pending.Length == buffer.Length
      reads pending, buffer
    {
      forall k :: 0 <= k < pending.Length && k != i ==> pending[k] == old(pending[k]) && buffer[k] == old(buffer[k])
    }

    // stmapp_pending_sense
    method PendingSense(i: nat, cdb0: byte, cdb4: byte, allocOk: bool) returns (answer: Option<seq<byte>>)
      requires Valid() && i < NUM_SCSI_DEVICES
      modifies pending
      ensures Valid() && OnlyChanged(i)
      ensures At(i) == Arrived(old(At(i)), cdb0 == 0x03, allocOk)
      ensures answer == if Serves(old(At(i)), cdb0 == 0x03, allocOk)
                        then Some(Answer(old(At(i)), cdb4)) else None
    {
      answer := None;
      if pending[i] == HandleRq {
        if cdb0 == REQUEST_SENSE {
          if allocOk {
            var bufflen := Min(cdb4 as int, SENSE_BUFFERSIZE);
            bufflen := Min(bufflen, buffer[i][7] as int + 8);
            answer := Some(buffer[i][..bufflen]);
          } else {
            pending[i] := Idle;
          }
        } else {
          pending[i] := Idle;
        }
      } else {
        pending[i] := Idle;
      }
    }

    // The part of stm_send_target_status that concerns sense data.
    method SendTargetStatus(i: nat, sense: Option<seq<byte>>)
      requires Valid() && i < NUM_SCSI_DEVICES && pending as object != buffer
      modifies pending, buffer
      ensures Valid() && OnlyChanged(i)
      ensures At(i) == StatusSent(old(At(i)), sense)
    {
      if sense.Some? {
        var size := Min(|sense.value|, SENSE_BUFFERSIZE);
        buffer[i] := sense.value[..size] + buffer[i][size..];
        pending[i] := Attempt;
      }
    }

    // stmapp_target_error for STS_DATA_NOT_SENT, or a plain reply; then stm_tgt_reply.
    method Reply(i: nat, notSent: bool) returns (finish: Finish)
      requires Valid() && i < NUM_SCSI_DEVICES
      modifies pending
      ensures Valid() && OnlyChanged(i)
      ensures At(i) == Replied(old(At(i)), notSent)
      ensures finish == Finished(old(At(i)))
    {
      if notSent && pending[i] == Attempt {
        pending[i] := NotSent;
      }
      finish := ScstDone;
      match pending[i] {
        case Attempt => pending[i] := Idle;
        case NotSent => pending[i] := HandleRq;
        case HandleRq =>
          pending[i] := Idle;
          finish := LocalFreed;
        case Idle =>
      }
    }

    // MPI_EVENT_EXT_BUS_RESET
    method ExtBusReset()
      requires Valid()
      modifies pending
      ensures Valid() && forall i :: 0 <= i < NUM_SCSI_DEVICES ==> At(i) == old(At(i)).(pending := Idle)
    {
      for i := 0 to NUM_SCSI_DEVICES
        invariant Valid()
        invariant forall k :: 0 <= k < NUM_SCSI_DEVICES ==> pending[k] == if k < i then Idle else old(pending[k])
      {
        pending[i] := Idle;
      }
    }
  }

  // ---------------------------------------------------------------------------------------------
  // Every run, for one initiator

  // What can happen to an initiator.  Events of other initiators do not touch its cell.
  datatype Event =
    | Arrive(requestSense: bool, allocLen: byte, allocOk: bool)
    | SendStatus(sense: Option<seq<byte>>)
    | Reply(notSent: bool)
    | BusReset

  // Where its one outstanding command is.
  datatype Phase = Free | AtScst | StatusOut | Local

  datatype State = State(cell: Cell, phase: Phase)

  ghost predicate Enabled(s: State, e: Event) {
    match e
    case Arrive(_, _, _) => s.phase == Free
    case SendStatus(_) => s.phase == AtScst
    case Reply(_) => s.phase == StatusOut || s.phase == Local
    case BusReset => true
  }

  function Next(s: State, e: Event): (r: State)
    requires |s.cell.buffer| == SENSE_BUFFERSIZE
    ensures |r.cell.buffer| == SENSE_BUFFERSIZE
  {
    match e
    case Arrive(rs, _, ok) => State(Arrived(s.cell, rs, ok), if Serves(s.cell, rs, ok) then Local else AtScst)
    case SendStatus(sense) => State(StatusSent(s.cell, sense), StatusOut)
    case Reply(notSent) => State(Replied(s.cell, notSent), Free)
    case BusReset => s.(cell := s.cell.(pending := Idle))
  }

  // The state after a history of events, starting idle.
  function After(h: seq<Event>, buffer: seq<byte>): (s: State)
    requires |buffer| == SENSE_BUFFERSIZE
    ensures |s.cell.buffer| == SENSE_BUFFERSIZE
  {
    if h == [] then State(Cell(Idle, buffer), Free) else Next(After(h[..|h| - 1], buffer), h[|h| - 1])
  }

  ghost predicate Possible(h: seq<Event>, buffer: seq<byte>)
    requires |buffer| == SENSE_BUFFERSIZE
  {
    forall k :: 0 <= k < |h| ==> Enabled(After(h[..k], buffer), h[k])
  }

  // The sense data that the next REQUEST SENSE must be answered with: the last two events are a
  // status with sense and the report that it was not sent.
  function Unsent(h: seq<Event>): Option<seq<byte>> {
    var n := |h|;
    if n >= 2 && h[n - 1] == Reply(true) && h[n - 2].SendStatus? then h[n - 2].sense else None
  }

  // What holds of the cell, in terms of the history alone.
  ghost predicate Explained(h: seq<Event>, s: State) {
    match s.phase
    case Free =>
      && (s.cell.pending == HandleRq || s.cell.pending == Idle)
      && (s.cell.pending == HandleRq <==> Unsent(h).Some?)
      && (s.cell.pending == HandleRq ==> Holds(s.cell.buffer, Unsent(h).value))
    case AtScst => s.cell.pending == Idle
    case StatusOut =>
      && h != [] && (s.cell.pending == Attempt || s.cell.pending == Idle)
      && (s.cell.pending == Attempt <==> h[|h| - 1].SendStatus? && h[|h| - 1].sense.Some?)
      && (s.cell.pending == Attempt ==> Holds(s.cell.buffer, h[|h| - 1].sense.value))
    case Local =>
      && h != [] && (h[|h| - 1].Arrive? || h[|h| - 1] == BusReset)
      && s.cell.pending == if h[|h| - 1] == BusReset then Idle else HandleRq
  }

  ghost predicate Holds(buffer: seq<byte>, sense: seq<byte>) {
    forall k :: 0 <= k < |sense| && k < |buffer| ==> buffer[k] == sense[k]
  }

  lemma {:induction false} HistoryExplains(h: seq<Event>, buffer: seq<byte>)
    requires |buffer| == SENSE_BUFFERSIZE && Possible(h, buffer)
    ensures Explained(h, After(h, buffer))
  {
    if h != [] {
      var front, e := h[..|h| - 1], h[|h| - 1];
      assert forall k :: 0 <= k < |front| ==> front[k] == h[k] && front[..k] == h[..k];
      assert Possible(front, buffer);
      HistoryExplains(front, buffer);
      assert Enabled(After(h[..|front|], buffer), h[|front|]);
      StepExplains(front, After(front, buffer), e);
    }
  }

  lemma StepExplains(h: seq<Event>, s: State, e: Event)
    requires |s.cell.buffer| == SENSE_BUFFERSIZE && Explained(h, s) && Enabled(s, e)
    ensures Explained(h + [e], Next(s, e))
  {
  }

  // A REQUEST SENSE is answered from the cache exactly when this initiator's preceding command had
  // its status-with-sense reported not sent, with no bus reset since, and the allocation succeeds.
  lemma ServedExactlyWhenUnsent(h: seq<Event>, buffer: seq<byte>, e: Event)
    requires |buffer| == SENSE_BUFFERSIZE && Possible(h, buffer) && e.Arrive? && Enabled(After(h, buffer), e)
    ensures Next(After(h, buffer), e).phase == Local <==> Unsent(h).Some? && e.requestSense && e.allocOk
  {
    HistoryExplains(h, buffer);
  }

  // The answer is that command's sense data as far as that goes, cut to the requested length, the
  // buffer and the length the sense data gives of itself.
  lemma ServedSenseIsThatCommands(h: seq<Event>, buffer: seq<byte>, e: Event)
    requires |buffer| == SENSE_BUFFERSIZE && Possible(h, buffer) && e.Arrive? && Enabled(After(h, buffer), e)
    requires Next(After(h, buffer), e).phase == Local
    ensures Unsent(h).Some?
    ensures var sense, answer := Unsent(h).value, Answer(After(h, buffer).cell, e.allocLen);
      && (|sense| >= 8 ==> |answer| == Min(Min(e.allocLen as int, SENSE_BUFFERSIZE), sense[7] as int + 8))
      && (forall k :: 0 <= k < |sense| && k < |answer| ==> answer[k] == sense[k])
      && (|answer| <= |sense| ==> answer == sense[..|answer|])
  {
    HistoryExplains(h, buffer);
    hide Possible, After, Unsent;
    var sense, cell := Unsent(h).value, After(h, buffer).cell;
    assert Holds(cell.buffer, sense);
    var answer := Answer(cell, e.allocLen);
    assert forall k :: 0 <= k < |answer| ==> answer[k] == cell.buffer[k];
  }

  // Byte k of the cache: that of the last status whose sense data reaches so far.
  function ByteFrom(h: seq<Event>, buffer: seq<byte>, k: nat): byte
    requires k < |buffer|
  {
    if h == [] then buffer[k]
    else
      match h[|h| - 1]
      case SendStatus(Some(s)) => if k < |s| then s[k] else ByteFrom(h[..|h| - 1], buffer, k)
      case _ => ByteFrom(h[..|h| - 1], buffer, k)
  }

  lemma {:induction false} CacheIs(h: seq<Event>, buffer: seq<byte>, k: nat)
    requires |buffer| == SENSE_BUFFERSIZE && k < SENSE_BUFFERSIZE
    ensures After(h, buffer).cell.buffer[k] == ByteFrom(h, buffer, k)
  {
    if h != [] {
      CacheIs(h[..|h| - 1], buffer, k);
    }
  }

  // Whatever came before, and however short the sense data: the whole answer.
  lemma AnswerIs(h: seq<Event>, buffer: seq<byte>, allocLen: byte)
    requires |buffer| == SENSE_BUFFERSIZE
    ensures var answer := Answer(After(h, buffer).cell, allocLen);
      && |answer| == Min(Min(allocLen as int, SENSE_BUFFERSIZE), ByteFrom(h, buffer, 7) as int + 8)
      && forall k :: 0 <= k < |answer| ==> answer[k] == ByteFrom(h, buffer, k)
  {
    hide After, ByteFrom;
    var answer := Answer(After(h, buffer).cell, allocLen);
    CacheIs(h, buffer, 7);
    forall k | 0 <= k < |answer| ensures answer[k] == ByteFrom(h, buffer, k) { CacheIs(h, buffer, k); }
  }

  // Cached sense is answered at most once: a second answer needs another unsent status.
  lemma ServedAtMostOnce(h: seq<Event>, buffer: seq<byte>, m: nat, n: nat)
    requires |buffer| == SENSE_BUFFERSIZE && Possible(h, buffer) && m < n < |h|
    requires h[m].Arrive? && Next(After(h[..m], buffer), h[m]).phase == Local
    requires h[n].Arrive? && Next(After(h[..n], buffer), h[n]).phase == Local
    ensures exists p :: m < p < n && h[p].SendStatus? && h[p].sense.Some?
  {
    hide *;
    var g := h[..n];
    PrefixPossible(h, buffer, n);
    ServedLast(h, buffer, n);
    UnsentShape(g);
    assert g[n - 1] == h[n - 1] && g[n - 2] == h[n - 2];
    if m == n - 1 || m == n - 2 {
      assert false;
    }
  }

  lemma ServedLast(h: seq<Event>, buffer: seq<byte>, n: nat)
    requires |buffer| == SENSE_BUFFERSIZE && n < |h| && Possible(h, buffer) && Possible(h[..n], buffer)
    requires h[n].Arrive? && Next(After(h[..n], buffer), h[n]).phase == Local
    ensures Unsent(h[..n]).Some?
  {
    hide Next, After, Unsent;
    ServedExactlyWhenUnsent(h[..n], buffer, h[n]);
  }

  lemma UnsentShape(g: seq<Event>)
    requires Unsent(g).Some?
    ensures |g| >= 2 && g[|g| - 1].Reply? && g[|g| - 2].SendStatus? && g[|g| - 2].sense.Some?
  {
  }

  lemma PrefixPossible(h: seq<Event>, buffer: seq<byte>, n: nat)
    requires |buffer| == SENSE_BUFFERSIZE && Possible(h, buffer) && n <= |h|
    ensures Possible(h[..n], buffer)
  {
    forall k | 0 <= k < n
      ensures Enabled(After(h[..n][..k], buffer), h[..n][k])
    {
      assert h[..n][..k] == h[..k];
    }
  }

  // A command the driver made up is freed by the driver, unless a bus reset came while it was
  // outstanding: then it is handed to SCST, which never saw it.
  lemma LocalCommandFinish(h: seq<Event>, buffer: seq<byte>)
    requires |buffer| == SENSE_BUFFERSIZE && Possible(h, buffer) && After(h, buffer).phase == Local
    ensures Finished(After(h, buffer).cell) == ScstDone <==> h[|h| - 1] == BusReset
  {
    HistoryExplains(h, buffer);
  }

  lemma PossibleExtends(h: seq<Event>, buffer: seq<byte>, e: Event)
    requires |buffer| == SENSE_BUFFERSIZE && Possible(h, buffer) && Enabled(After(h, buffer), e)
    ensures Possible(h + [e], buffer) && After(h + [e], buffer) == Next(After(h, buffer), e)
  {
    hide Enabled, Next;
    var g := h + [e];
    assert g[..|h|] == h;
    forall k | 0 <= k < |g|
      ensures Enabled(After(g[..k], buffer), g[k])
    {
      assert k < |h| ==> g[..k] == h[..k] && g[k] == h[k];
    }
  }

  // Such a reset does come: a status with sense is not sent, the REQUEST SENSE that follows is
  // answered by the driver, and the bus is reset before the reply to that answer.
  lemma ResetHandsOverLocal(buffer: seq<byte>, sense: seq<byte>, allocLen: byte) returns (h: seq<Event>)
    requires |buffer| == SENSE_BUFFERSIZE
    ensures Possible(h, buffer) && After(h, buffer).phase == Local && Finished(After(h, buffer).cell) == ScstDone
    ensures h == [Arrive(false, 0, true), SendStatus(Some(sense)), Reply(true), Arrive(true, allocLen, true), BusReset]
  {
    hide Possible, After;
    h := [];
    NothingYet(buffer);
    PossibleExtends(h, buffer, Arrive(false, 0, true));
    h := h + [Arrive(false, 0, true)];
    PossibleExtends(h, buffer, SendStatus(Some(sense)));
    h := h + [SendStatus(Some(sense))];
    PossibleExtends(h, buffer, Reply(true));
    h := h + [Reply(true)];
    PossibleExtends(h, buffer, Arrive(true, allocLen, true));
    h := h + [Arrive(true, allocLen, true)];
    PossibleExtends(h, buffer, BusReset);
    h := h + [BusReset];
  }

  lemma NothingYet(buffer: seq<byte>)
    requires |buffer| == SENSE_BUFFERSIZE
    ensures Possible([], buffer) && After([], buffer) == State(Cell(Idle, buffer), Free)
  {
  }

  // A command of SCST is always handed back to SCST.
  lemma ScstCommandFinish(h: seq<Event>, buffer: seq<byte>)
    requires |buffer| == SENSE_BUFFERSIZE && Possible(h, buffer) && After(h, buffer).phase == StatusOut
    ensures Finished(After(h, buffer).cell) == ScstDone
  {
    HistoryExplains(h, buffer);
  }
}
