// Sending read data (ft_send_read_data): a scattered response is cut into frames, and a later
// call resumes after the last frame that was sent.
module FcpRead {
  import opened Basics
  import opened Scatter

  datatype Result = Success | QueueFull | FatalError | Bug
  datatype SendResult = Sent | NoMem | OtherError
  datatype Frame = Frame(offset: nat, payload: seq<byte>, endSeq: bool)

  const LOOP_LIMIT := 10000

  // The frames of a response of `resp` bytes from offset `off` on, as far as the data reaches.
  function Frames(flat: seq<byte>, resp: nat, lso: nat, off: nat): seq<Frame>
    requires lso > 0
    decreases resp - off
  {
    if off >= resp then []
    else
      var end := off + Min(lso, resp - off);
      if end > |flat| then [] else [Frame(off, flat[off..end], end == resp)] + Frames(flat, resp, lso, end)
  }

  // Number of payload bytes in a list of frames.
  function Total(frames: seq<Frame>): nat {
    if frames == [] then 0 else Total(frames[..|frames| - 1]) + |frames[|frames| - 1].payload|
  }

  // The payloads put together.
  function Bytes(frames: seq<Frame>): seq<byte> {
    if frames == [] then [] else frames[0].payload + Bytes(frames[1..])
  }

  // Number of frames for n bytes.
  function FrameCount(n: nat, lso: nat): nat
    requires lso > 0
  {
    if n == 0 then 0 else 1 + FrameCount(n - Min(lso, n), lso)
  }

  // Number of chunks not entirely before offset `off`.
  function ChunksLeft(us: seq<seq<byte>>, off: nat): nat {
    if us == [] then 0
    else if |us[0]| <= off then ChunksLeft(us[1..], off - |us[0]|)
    else |us|
  }

  // FrameCount is the ceiling of n / lso.
  lemma {:induction false} FrameCountIsCeiling(n: nat, lso: nat)
    requires lso > 0
    ensures n <= FrameCount(n, lso) * lso < n + lso
    decreases n
  {
    if n > 0 {
      var rest := n - Min(lso, n);
      FrameCountIsCeiling(rest, lso);
      assert (FrameCount(rest, lso) + 1) * lso == FrameCount(rest, lso) * lso + lso;
    }
  }

  // What is left of the loop's work: open chunks plus frames still to be finished.
  function Work(us: seq<seq<byte>>, idx: nat, memLen: nat, frameLen: nat, remaining: nat, lso: nat): nat
    requires idx < |us| && lso > 0 && frameLen <= remaining
  {
    |us| - idx - (if memLen == 0 then 1 else 0)
    + (if frameLen == 0 then FrameCount(remaining, lso) else 1 + FrameCount(remaining - frameLen, lso))
  }

  // Chunks left plus frames left at the start of a call.
  function Cost(us: seq<seq<byte>>, resp: nat, off: nat, lso: nat): nat
    requires lso > 0
  {
    ChunksLeft(us, off) + if off < resp then FrameCount(resp - off, lso) else 0
  }

  lemma {:induction false} ChunksLeftAt(us: seq<seq<byte>>, idx: nat, off: nat)
    requires idx < |us| && Start(us, idx) <= off < Start(us, idx + 1)
    ensures ChunksLeft(us, off) == |us| - idx
  {
    if idx > 0 {
      StartOfTail(us, idx);
      StartOfTail(us, idx + 1);
      ChunksLeftAt(us[1..], idx - 1, off - |us[0]|);
    }
  }

  // One call of ft_send_read_data on a response of `resp` bytes: `before` and `after` are the
  // values of read_data_len, `sent` the frames the network accepted.
  datatype Attempt = Attempt(before: nat, after: nat, sent: seq<Frame>, result: Result)

  ghost predicate Legal(a: Attempt, flat: seq<byte>, resp: nat, lso: nat) {
    // the frames sent are exactly the next ones of the canonical cut
    && (lso > 0 ==> Frames(flat, resp, lso, a.before) == a.sent + Frames(flat, resp, lso, a.after))
    && (lso == 0 ==> a.sent == [] && a.after == a.before)
    // success means everything was sent, or the buffer ended where the call began
    && (a.result == Success <==> a.after >= resp || |flat| <= a.before)
    && (|flat| <= a.before ==> a.after == a.before)
    && a.after == a.before + Total(a.sent)
    && (a.result == Bug ==> lso == 0)
  }

  // Frame k of a call goes out when it can be allocated and its send succeeds.
  predicate GoesOut(alloc: nat -> bool, send: nat -> SendResult, k: nat) { alloc(k) && send(k) == Sent }

  ghost predicate AllOut(alloc: nat -> bool, send: nat -> SendResult, n: nat) {
    forall j :: 0 <= j < n ==> GoesOut(alloc, send, j)
  }

  // How a call ends.  The frames sent are those before the first that does not go out; that one, if
  // the buffer has it whole, decides the result: fatal iff its send failed for another reason than
  // memory.  `within` is whether the call's cost is within the loop limit.  With a zero payload size
  // a call that finds data and memory ends in a BUG_ON.
  ghost predicate Decided(a: Attempt, flat: seq<byte>, resp: nat, lso: nat, alloc: nat -> bool,
                          send: nat -> SendResult, within: bool)
  {
    var k := |a.sent|;
    && AllOut(alloc, send, k)
    && (lso > 0 && within && Frames(flat, resp, lso, a.after) != [] ==> !GoesOut(alloc, send, k))
    && (a.result == FatalError ==> lso > 0 && Frames(flat, resp, lso, a.after) != [])
    && (a.result == FatalError ==> alloc(k) && send(k) == OtherError)
    && (lso > 0 && within && Frames(flat, resp, lso, a.after) != [] && alloc(k) && send(k) == OtherError ==>
          a.result == FatalError)
    && (a.result == Bug <==> lso == 0 && a.before < resp && a.before < |flat| && alloc(0))
  }

  lemma AllOutStarts(alloc: nat -> bool, send: nat -> SendResult)
    ensures AllOut(alloc, send, 0)
  {
  }

  lemma AllOutGrows(alloc: nat -> bool, send: nat -> SendResult, n: nat)
    requires AllOut(alloc, send, n) && alloc(n) && send(n) == Sent
    ensures AllOut(alloc, send, n + 1)
  {
  }

  // The ways a call ends: at a failed send, in a BUG_ON, and otherwise.
  lemma EndsInSend(a: Attempt, flat: seq<byte>, resp: nat, lso: nat, alloc: nat -> bool, send: nat -> SendResult,
                   within: bool)
    requires lso > 0 && AllOut(alloc, send, |a.sent|) && Frames(flat, resp, lso, a.after) != []
    requires alloc(|a.sent|) && send(|a.sent|) != Sent
    requires a.result == if send(|a.sent|) == NoMem then QueueFull else FatalError
    ensures Decided(a, flat, resp, lso, alloc, send, within)
  {
  }

  lemma EndsInBug(a: Attempt, flat: seq<byte>, resp: nat, lso: nat, alloc: nat -> bool, send: nat -> SendResult,
                  within: bool)
    requires lso == 0 && a.sent == [] && a.result == Bug && a.before < resp && a.before < |flat| && alloc(0)
    ensures Decided(a, flat, resp, lso, alloc, send, within)
  {
  }

  lemma EndsWithout(a: Attempt, flat: seq<byte>, resp: nat, lso: nat, alloc: nat -> bool, send: nat -> SendResult,
                    within: bool)
    requires AllOut(alloc, send, |a.sent|) && (a.result == Success || a.result == QueueFull)
    requires lso > 0 && within ==> Frames(flat, resp, lso, a.after) == [] || !alloc(|a.sent|)
    requires lso == 0 ==> !alloc(0) || a.before >= resp || a.before >= |flat|
    ensures Decided(a, flat, resp, lso, alloc, send, within)
  {
  }

  // When everything goes out, a call sends all the buffer has whole, and succeeds if that is all.
  lemma AllGoesOut(a: Attempt, flat: seq<byte>, resp: nat, lso: nat, alloc: nat -> bool, send: nat -> SendResult)
    requires lso > 0 && Legal(a, flat, resp, lso) && Decided(a, flat, resp, lso, alloc, send, true)
    requires forall k :: GoesOut(alloc, send, k)
    ensures Frames(flat, resp, lso, a.after) == []
    ensures resp <= |flat| ==> a.result == Success && a.after >= resp
  {
    hide Total;
    assert GoesOut(alloc, send, |a.sent|);
  }

  lemma NothingToSend(off: nat, flat: seq<byte>, resp: nat, lso: nat, alloc: nat -> bool, send: nat -> SendResult,
                      within: bool)
    ensures resp <= off || |flat| <= off ==>
      var a := Attempt(off, off, [], Success);
      && Legal(a, flat, resp, lso) && Decided(a, flat, resp, lso, alloc, send, within)
      && (lso > 0 ==> Frames(flat, resp, lso, off) == [])
  {
  }

  lemma SentIsLegal(a: Attempt, flat: seq<byte>, resp: nat, lso: nat)
    requires a.before < |flat| && a.before < resp && a.after <= resp
    requires Progress(flat, resp, lso, a.before, a.after, a.sent)
    requires (a.result == Success <==> a.after == resp) && (a.result == Bug ==> lso == 0)
    ensures Legal(a, flat, resp, lso)
  {
    hide Frames, Total;
  }

  // The read position: byte memOff of chunk idx, with memLen bytes of that chunk left.
  ghost predicate At(us: seq<seq<byte>>, idx: nat, memOff: nat, memLen: nat, off: nat) {
    idx < |us| && memOff + memLen == |us[idx]| && off == Start(us, idx) + memOff
  }

  // The frame being filled: it began at fhOff, holds buf and still wants frameLen bytes.
  ghost predicate Filling(flat: seq<byte>, resp: nat, lso: nat, fhOff: nat, off: nat, frameLen: nat, buf: seq<byte>) {
    && fhOff <= off <= |flat| && off + frameLen <= resp && fhOff < resp
    && off + frameLen == fhOff + Min(lso, resp - fhOff)
    && buf == flat[fhOff..off]
  }

  lemma DataEnds(us: seq<seq<byte>>, idx: nat, memOff: nat, off: nat)
    requires At(us, idx, memOff, 0, off) && idx + 1 == |us|
    ensures off == |Flat(us)|
  {
    FlatLength(us);
  }

  lemma WorkPositive(us: seq<seq<byte>>, idx: nat, memLen: nat, frameLen: nat, remaining: nat, lso: nat)
    requires idx < |us| && frameLen <= remaining && remaining > 0
    ensures lso > 0 ==> Work(us, idx, memLen, frameLen, remaining, lso) > 0
  {
  }

  // Why a turn of the sending loop does not go on.
  datatype Stop = GoOn | NoBuffer | NoFrame | ZeroFrame

  // Where the sending loop is: the next byte, and the frame being filled if there is one.
  ghost predicate Sending(us: seq<seq<byte>>, resp: nat, lso: nat, idx: nat, memOff: nat, memLen: nat, frameOff: nat,
                          frameLen: nat, fhOff: nat, buf: seq<byte>)
  {
    && idx < |us| && At(us, idx, memOff, memLen, frameOff) && frameOff + frameLen <= resp
    && (frameLen > 0 ==> Filling(Flat(us), resp, lso, fhOff, frameOff, frameLen, buf))
  }

  lemma SendingStarts(us: seq<seq<byte>>, resp: nat, lso: nat, idx: nat, memOff: nat, memLen: nat, off: nat)
    requires idx < |us| && At(us, idx, memOff, memLen, off) && memLen > 0 && off <= resp
    ensures Sending(us, resp, lso, idx, memOff, memLen, off, 0, 0, []) && off < |Flat(us)|
    ensures lso > 0 ==> Work(us, idx, memLen, 0, resp - off, lso) == |us| - idx + FrameCount(resp - off, lso)
  {
    ChunkInFlat(us, idx);
  }

  // What was sent is the front of the cut, and `after` is where the rest begins.
  ghost predicate Progress(flat: seq<byte>, resp: nat, lso: nat, before: nat, after: nat, sent: seq<Frame>) {
    && after == before + Total(sent)
    && (lso > 0 ==> Frames(flat, resp, lso, before) == sent + Frames(flat, resp, lso, after))
    && (lso == 0 ==> sent == [] && after == before)
  }

  lemma ProgressStarts(flat: seq<byte>, resp: nat, lso: nat, off: nat)
    ensures Progress(flat, resp, lso, off, off, [])
  {
    TotalOfNone();
  }

  lemma ProgressNone(flat: seq<byte>, resp: nat, lso: nat, before: nat, after: nat, sent: seq<Frame>)
    requires Progress(flat, resp, lso, before, after, sent) && lso == 0
    ensures sent == [] && after == before
  {
  }

  lemma ProgressGrows(flat: seq<byte>, resp: nat, lso: nat, before: nat, fhOff: nat, off: nat, sent: seq<Frame>,
                      buf: seq<byte>)
    requires lso > 0 && Progress(flat, resp, lso, before, fhOff, sent) && Filling(flat, resp, lso, fhOff, off, 0, buf)
    ensures Progress(flat, resp, lso, before, off, sent + [Frame(fhOff, buf, off == resp)])
  {
    hide Total, Frames;
    FrameFilled(flat, resp, lso, fhOff, off, buf);
    var f := Frame(fhOff, buf, off == resp);
    TotalGrows(sent, f);
    assert sent + ([f] + Frames(flat, resp, lso, off)) == (sent + [f]) + Frames(flat, resp, lso, off);
  }

  lemma FrameOpens(us: seq<seq<byte>>, resp: nat, lso: nat, idx: nat, memOff: nat, memLen: nat, off: nat)
    requires At(us, idx, memOff, memLen, off) && off < resp
    ensures Filling(Flat(us), resp, lso, off, off, Min(lso, resp - off), [])
    ensures lso > 0 ==>
      Work(us, idx, memLen, Min(lso, resp - off), resp - off, lso) == Work(us, idx, memLen, 0, resp - off, lso)
  {
    ChunkInFlat(us, idx);
  }

  lemma SliceOfSlice(flat: seq<byte>, s: nat, e: nat, a: nat, b: nat)
    requires s <= e <= |flat| && a <= b <= e - s
    ensures flat[s..e][a..b] == flat[s + a..s + b]
  {
    var inner, direct := flat[s..e][a..b], flat[s + a..s + b];
    assert |inner| == |direct| && forall i :: 0 <= i < |inner| ==> inner[i] == direct[i];
  }

  lemma CopyBytes(us: seq<seq<byte>>, resp: nat, lso: nat, idx: nat, memOff: nat, memLen: nat,
                  fhOff: nat, off: nat, frameLen: nat, buf: seq<byte>, tlen: nat)
    requires At(us, idx, memOff, memLen, off) && Filling(Flat(us), resp, lso, fhOff, off, frameLen, buf)
    requires tlen <= memLen && tlen <= frameLen
    ensures At(us, idx, memOff + tlen, memLen - tlen, off + tlen)
    ensures Filling(Flat(us), resp, lso, fhOff, off + tlen, frameLen - tlen, buf + us[idx][memOff..memOff + tlen])
  {
    ChunkInFlat(us, idx);
    var s, flat := Start(us, idx), Flat(us);
    hide Start, Flat;
    SliceOfSlice(flat, s, s + |us[idx]|, memOff, memOff + tlen);
    assert flat[fhOff..off + tlen] == flat[fhOff..off] + flat[off..off + tlen];
  }

  lemma FrameFilled(flat: seq<byte>, resp: nat, lso: nat, fhOff: nat, off: nat, buf: seq<byte>)
    requires lso > 0 && Filling(flat, resp, lso, fhOff, off, 0, buf)
    ensures |buf| == off - fhOff
    ensures Frames(flat, resp, lso, fhOff) == [Frame(fhOff, buf, off == resp)] + Frames(flat, resp, lso, off)
  {
  }

  // Where the buffer ends inside a frame, or between two, the cut has no further frame.
  lemma CutStops(flat: seq<byte>, resp: nat, lso: nat, fhOff: nat, off: nat, frameLen: nat, buf: seq<byte>)
    requires off == |flat| < resp
    requires if frameLen == 0 then fhOff == off else Filling(flat, resp, lso, fhOff, off, frameLen, buf)
    ensures lso > 0 ==> Frames(flat, resp, lso, fhOff) == []
  {
  }

  lemma CutDone(flat: seq<byte>, resp: nat, lso: nat)
    ensures lso > 0 ==> Frames(flat, resp, lso, resp) == []
  {
  }

  lemma TotalOfNone()
    ensures Total([]) == 0
  {
  }

  lemma TotalGrows(sent: seq<Frame>, f: Frame)
    ensures Total(sent + [f]) == Total(sent) + |f.payload|
  {
    assert (sent + [f])[..|sent|] == sent;
  }

  lemma WorkDrops(us: seq<seq<byte>>, idx: nat, memLen: nat, frameLen: nat, remaining: nat, lso: nat, tlen: nat)
    requires idx < |us| && lso > 0 && frameLen <= remaining && 0 < tlen <= memLen && tlen <= frameLen
    requires tlen == memLen || tlen == frameLen
    ensures Work(us, idx, memLen - tlen, frameLen - tlen, remaining - tlen, lso)
          < Work(us, idx, memLen, frameLen, remaining, lso)
  {
  }

  // The work of a call is within the loop limit.
  ghost predicate Within(chunks: seq<seq<byte>>, resp: nat, off: nat, lso: nat) {
    lso > 0 && Cost(Usable(chunks), resp, off, lso) <= 10000
  }

  // No allocation or send fails, and the work is within the loop limit.
  ghost predicate Unhindered(chunks: seq<seq<byte>>, resp: nat, off: nat, lso: nat, alloc: nat -> bool,
                             send: nat -> SendResult)
  {
    (forall k :: GoesOut(alloc, send, k)) && Within(chunks, resp, off, lso)
  }

  // What the first unhindered call on a short buffer has sent.
  lemma FirstCall(a: Attempt, flat: seq<byte>, resp: nat, lso: nat)
    requires lso > 0 && a.before == 0 && |flat| < resp && Legal(a, flat, resp, lso)
    requires Frames(flat, resp, lso, a.after) == []
    ensures a.after <= |flat| && Bytes(a.sent) == flat[..a.after]
    ensures a.after == |flat| <==> WholeFrames(|flat|, lso)
    ensures a.result == Success <==> |flat| == 0
    ensures WholeFrames(0, lso)
  {
    hide Frames, Total, Bytes;
    PrefixBytes(flat, resp, lso, 0, a.sent, a.after);
    assert a.sent + [] == a.sent;
    if WholeFrames(|flat|, lso) {
      CutReachesEnd(flat, resp, lso, 0);
    }
    if a.after == |flat| {
      var run := [a];
      assert run[..0] == [] && AllSent([]) == [];
      assert AllSent(run) == a.sent;
      RunDeliversInOrder(run, flat, resp, lso);
      MultipleIsWhole(|a.sent|, lso);
    }
  }

  // A call with no whole frame left to send.
  lemma NothingMore(a: Attempt, flat: seq<byte>, resp: nat, lso: nat)
    requires lso > 0 && a.before <= |flat| < resp && Legal(a, flat, resp, lso)
    requires Frames(flat, resp, lso, a.before) == []
    ensures a.sent == [] && a.after == a.before && (a.result == Success <==> a.before == |flat|)
  {
    TotalOfNone();
    hide Frames, Total;
    assert |a.sent| == 0;
  }

  class FtCmd {
    var readDataLen: nat
    const maxLsoPayload: nat

    // Find the chunk holding byte `off`; none when the buffer ends at or before it.
    method SkipSent(chunks: seq<seq<byte>>, off: nat) returns (found: bool, idx: nat, memOff: nat, memLen: nat)
      ensures found <==> off < |Flat(Usable(chunks))|
      ensures found ==> memLen > 0 && idx < |chunks| && At(Usable(chunks), idx, memOff, memLen, off)
      ensures found ==> ChunksLeft(Usable(chunks), off) == |Usable(chunks)| - idx
    {
      ghost var us := Usable(chunks);
      FlatLength(us);
      found, idx, memOff := false, 0, 0;
      memLen := if idx < |chunks| then |chunks[idx]| else 0;
      if memLen == 0 {
        return;
      }
      var tlen: nat := off;
      while memLen <= tlen
        invariant idx < |us| && memLen == |chunks[idx]| && tlen + Start(us, idx) == off
        decreases |us| - idx
      {
        tlen := tlen - memLen;
        idx := idx + 1;
        memLen := if idx < |chunks| then |chunks[idx]| else 0;
        if memLen == 0 {
          return;
        }
      }
      StartMonotone(us, idx + 1, |us|);
      ChunksLeftAt(us, idx, off);
      found, memLen, memOff := true, memLen - tlen, tlen;
    }

    method SendReadData(chunks: seq<seq<byte>>, resp: nat, alloc: nat -> bool, send: nat -> SendResult)
      returns (r: Result, sent: seq<Frame>, iterations: nat)
      modifies this
      ensures Legal(Attempt(old(readDataLen), readDataLen, sent, r), Flat(Usable(chunks)), resp, maxLsoPayload)
      ensures Decided(Attempt(old(readDataLen), readDataLen, sent, r), Flat(Usable(chunks)), resp, maxLsoPayload,
                      alloc, send, Within(chunks, resp, old(readDataLen), maxLsoPayload))
      // the loop's cost, and success whenever nothing fails and the cost is within the loop limit
      ensures maxLsoPayload > 0 ==> iterations <= Cost(Usable(chunks), resp, old(readDataLen), maxLsoPayload)
      ensures iterations <= 10000
      ensures Unhindered(chunks, resp, old(readDataLen), maxLsoPayload, alloc, send) && resp <= |Flat(Usable(chunks))|
              ==> r == Success && readDataLen >= resp
      // when nothing fails, a call leaves unsent only what the buffer has no whole frame for
      ensures Unhindered(chunks, resp, old(readDataLen), maxLsoPayload, alloc, send) ==>
        Frames(Flat(Usable(chunks)), resp, maxLsoPayload, readDataLen) == []
    {
      hide Usable, Flat, Start, Frames, FrameCount, ChunksLeft, At, Decided, Legal, Progress;
      ghost var flat := Flat(Usable(chunks));
      r, sent, iterations := Success, [], 0;
      NothingToSend(readDataLen, flat, resp, maxLsoPayload, alloc, send,
                    Within(chunks, resp, readDataLen, maxLsoPayload));
      if resp <= readDataLen {
        return;
      }
      var found: bool, idx: nat, memOff: nat, memLen: nat := SkipSent(chunks, readDataLen);
      if !found {
        return;
      }
      r, sent, iterations := SendFrames(chunks, resp, alloc, send, idx, memOff, memLen);
      ghost var a := Attempt(old(readDataLen), readDataLen, sent, r);
      SentIsLegal(a, flat, resp, maxLsoPayload);
      if Unhindered(chunks, resp, old(readDataLen), maxLsoPayload, alloc, send) {
        AllGoesOut(a, flat, resp, maxLsoPayload, alloc, send);
      }
    }

    // ft_send_response after the command's state was moved to CMD_RSP_SENT: the data phase of a
    // command that reads, then one status frame.  An aborted command is finished without sending
    // anything.
    method SendResponse(aborted: bool, isSendStatus: bool, isRead: bool, chunks: seq<seq<byte>>, resp: nat,
                        alloc: nat -> bool, send: nat -> SendResult, statusAlloc: bool, statusSend: SendResult)
      returns (r: Result, sent: seq<Frame>, statusSent: bool, ghost data: Attempt)
      modifies this
      ensures data.before == old(readDataLen) && data.after == readDataLen && data.sent == sent
      ensures aborted || !isSendStatus || !isRead ==>
        sent == [] && readDataLen == old(readDataLen) && data.result == Success
      ensures !aborted && isSendStatus && isRead ==> Legal(data, Flat(Usable(chunks)), resp, maxLsoPayload)
      ensures !aborted && isSendStatus && isRead ==>
        Unhindered(chunks, resp, old(readDataLen), maxLsoPayload, alloc, send) ==>
          Frames(Flat(Usable(chunks)), resp, maxLsoPayload, readDataLen) == []
      ensures !aborted && isSendStatus && isRead ==>
        Decided(data, Flat(Usable(chunks)), resp, maxLsoPayload, alloc, send,
                Within(chunks, resp, old(readDataLen), maxLsoPayload))
      ensures statusSent <==> !aborted && isSendStatus && data.result == Success && statusAlloc && statusSend == Sent
      ensures r == Success <==> aborted || statusSent
      ensures !aborted && isSendStatus && data.result != Success ==> r == data.result
      ensures r == FatalError <==> !aborted && (!isSendStatus || data.result == FatalError ||
                                               (data.result == Success && statusAlloc && statusSend == OtherError))
      ensures r == QueueFull <==> !aborted && isSendStatus && (data.result == QueueFull ||
                                  (data.result == Success && (!statusAlloc || statusSend == NoMem)))
    {
      sent, statusSent := [], false;
      data := Attempt(readDataLen, readDataLen, [], Success);
      if aborted {
        return Success, sent, statusSent, data;
      }
      if !isSendStatus {
        return FatalError, sent, statusSent, data;
      }
      if isRead {
        var iterations;
        r, sent, iterations := SendReadData(chunks, resp, alloc, send);
        data := Attempt(old(readDataLen), readDataLen, sent, r);
        if r != Success {
          return;
        }
      }
      if !statusAlloc {
        return QueueFull, sent, statusSent, data;
      }
      if statusSend != Sent {
        return (if statusSend == NoMem then QueueFull else FatalError), sent, statusSent, data;
      }
      r, statusSent := Success, true;
    }

    // The response to a command whose buffer is shorter than its response, and SCST's retry when it
    // was told that the queue is full.  With nothing failing the status goes out, with less data
    // than the response, if and only if the buffer is a whole number of frames.
    method RespondShort(chunks: seq<seq<byte>>, resp: nat, alloc: nat -> bool, send: nat -> SendResult)
      returns (statusSent: bool, sent: seq<Frame>)
      requires maxLsoPayload > 0 && readDataLen == 0 && |Flat(Usable(chunks))| < resp
      requires Unhindered(chunks, resp, 0, maxLsoPayload, alloc, send)
      modifies this
      ensures statusSent <==> WholeFrames(|Flat(Usable(chunks))|, maxLsoPayload)
      ensures Bytes(sent) <= Flat(Usable(chunks)) && (statusSent ==> Bytes(sent) == Flat(Usable(chunks)))
    {
      hide Usable, Flat, Frames, Total, Bytes, Cost, WholeFrames;
      ghost var flat := Flat(Usable(chunks));
      var r;
      ghost var data;
      r, sent, statusSent, data := SendResponse(false, true, true, chunks, resp, alloc, send, true, Sent);
      FirstCall(data, flat, resp, maxLsoPayload);
      if r == QueueFull {
        var more;
        ghost var again;
        r, more, statusSent, again := SendResponse(false, true, true, chunks, resp, alloc, send, true, Sent);
        NothingMore(again, flat, resp, maxLsoPayload);
      }
    }

    // Move on to the next chunk when the current one is used up.
    method NextBuffer(chunks: seq<seq<byte>>, ghost resp: nat, ghost lso: nat, ghost frameLen: nat, idx: nat,
                      memOff: nat, memLen: nat, ghost off: nat)
      returns (ok: bool, idx': nat, memOff': nat, memLen': nat)
      requires idx < |Usable(chunks)| && At(Usable(chunks), idx, memOff, memLen, off) && off + frameLen <= resp
      ensures !ok ==> off == |Flat(Usable(chunks))| && memLen == 0
      ensures ok ==> memLen' > 0 && idx' < |Usable(chunks)| && At(Usable(chunks), idx', memOff', memLen', off)
      ensures ok && lso > 0 ==>
        Work(Usable(chunks), idx', memLen', frameLen, resp - off, lso) ==
          Work(Usable(chunks), idx, memLen, frameLen, resp - off, lso)
    {
      ok, idx', memOff', memLen' := true, idx, memOff, memLen;
      if memLen == 0 {
        idx', memOff' := idx + 1, 0;
        memLen' := if idx' < |chunks| then |chunks[idx']| else 0;
        if memLen' == 0 {
          DataEnds(Usable(chunks), idx, memOff, off);
          ok := false;
        }
      }
    }

    // Copy what fits of the current chunk into the frame, after the BUG_ON checks.
    method Copy(chunks: seq<seq<byte>>, ghost resp: nat, ghost lso: nat, idx: nat, memOff: nat, memLen: nat,
                ghost fhOff: nat, ghost off: nat, remaining: nat, frameLen: nat, buf: seq<byte>)
      returns (bug: bool, tlen: nat, buf': seq<byte>)
      requires idx < |Usable(chunks)| && At(Usable(chunks), idx, memOff, memLen, off) && memLen > 0
      requires Filling(Flat(Usable(chunks)), resp, lso, fhOff, off, frameLen, buf)
      requires off + remaining == resp && frameLen <= remaining
      ensures bug <==> frameLen == 0
      ensures !bug ==> 0 < tlen <= memLen && tlen <= frameLen
      ensures !bug ==> At(Usable(chunks), idx, memOff + tlen, memLen - tlen, off + tlen)
      ensures !bug ==> Filling(Flat(Usable(chunks)), resp, lso, fhOff, off + tlen, frameLen - tlen, buf')
      ensures !bug && lso > 0 ==>
        Work(Usable(chunks), idx, memLen - tlen, frameLen - tlen, remaining - tlen, lso)
        < Work(Usable(chunks), idx, memLen, frameLen, remaining, lso)
    {
      buf' := buf;
      tlen := Min(memLen, frameLen);
      bug := tlen == 0 || tlen > remaining || tlen > memLen || tlen > frameLen;
      if !bug {
        CopyBytes(Usable(chunks), resp, lso, idx, memOff, memLen, fhOff, off, frameLen, buf, tlen);
        if lso > 0 {
          WorkDrops(Usable(chunks), idx, memLen, frameLen, remaining, lso, tlen);
        }
        buf' := buf + chunks[idx][memOff..memOff + tlen];
      }
    }

    // The loop's cost from chunk idx on, for n bytes, is within its limit.
    ghost predicate WithinFrom(chunks: seq<seq<byte>>, idx: nat, n: nat, lso: nat) {
      lso > 0 && |Usable(chunks)| - idx + FrameCount(n, lso) <= 10000
    }

    // One turn of the sending loop up to the copy: the next chunk if the current one is used up, a new
    // frame if none is open, and as many bytes as chunk and frame allow.
    method Fill(chunks: seq<seq<byte>>, resp: nat, lso: nat, allocOk: bool, idx: nat, memOff: nat, memLen: nat,
                frameOff: nat, frameLen: nat, fhOff: nat, buf: seq<byte>)
      returns (stop: Stop, idx': nat, memOff': nat, memLen': nat, frameOff': nat, frameLen': nat, fhOff': nat,
               buf': seq<byte>)
      requires Sending(Usable(chunks), resp, lso, idx, memOff, memLen, frameOff, frameLen, fhOff, buf)
      requires frameOff < resp
      ensures stop == NoBuffer ==> memLen == 0
      ensures stop == NoBuffer && lso > 0 ==>
        Frames(Flat(Usable(chunks)), resp, lso, if frameLen == 0 then frameOff else fhOff) == []
      ensures stop == NoFrame ==> frameLen == 0 && !allocOk
      ensures stop == ZeroFrame ==> frameLen == 0 && allocOk && lso == 0
      ensures stop == GoOn && frameLen == 0 ==> allocOk && lso > 0
      ensures stop == GoOn ==> idx' < |Usable(chunks)| && frameOff' + frameLen' <= resp
      ensures stop == GoOn ==> frameOff <= frameOff' && fhOff' == if frameLen == 0 then frameOff else fhOff
      ensures stop == GoOn ==>
        Sending(Usable(chunks), resp, lso, idx', memOff', memLen', frameOff', frameLen', fhOff', buf')
      ensures stop == GoOn ==> Filling(Flat(Usable(chunks)), resp, lso, fhOff', frameOff', frameLen', buf')
      ensures stop == GoOn && lso > 0 ==>
        Work(Usable(chunks), idx', memLen', frameLen', resp - frameOff', lso)
        < Work(Usable(chunks), idx, memLen, frameLen, resp - frameOff, lso)
    {
      hide Usable, Flat, Start, Frames, FrameCount, At, Filling, Work;
      stop, frameOff', frameLen', fhOff', buf' := GoOn, frameOff, frameLen, fhOff, buf;
      var ok;
      ok, idx', memOff', memLen' := NextBuffer(chunks, resp, lso, frameLen, idx, memOff, memLen, frameOff);
      if !ok {
        CutStops(Flat(Usable(chunks)), resp, lso, if frameLen == 0 then frameOff else fhOff, frameOff, frameLen, buf);
        return NoBuffer, idx', memOff', memLen', frameOff', frameLen', fhOff', buf';
      }
      var remaining: nat := resp - frameOff;
      if frameLen == 0 {
        frameLen' := Min(lso, remaining);
        if !allocOk {
          return NoFrame, idx', memOff', memLen', frameOff', frameLen', fhOff', buf';
        }
        buf' := [];
        fhOff' := frameOff;
        FrameOpens(Usable(chunks), resp, lso, idx', memOff', memLen', frameOff);
      }
      var bug, tlen;
      bug, tlen, buf' := Copy(chunks, resp, lso, idx', memOff', memLen', fhOff', frameOff, remaining, frameLen', buf');
      if bug {
        stop := ZeroFrame;
        return;
      }
      frameLen', memOff', memLen', frameOff' := frameLen' - tlen, memOff' + tlen, memLen' - tlen, frameOff + tlen;
    }

    // The sending loop, from the position the skip over already sent data left off.
    method SendFrames(chunks: seq<seq<byte>>, resp: nat, alloc: nat -> bool, send: nat -> SendResult,
                      idx0: nat, memOff0: nat, memLen0: nat)
      returns (r: Result, sent: seq<Frame>, iterations: nat)
      requires readDataLen < resp && memLen0 > 0 && At(Usable(chunks), idx0, memOff0, memLen0, readDataLen)
      requires idx0 < |Usable(chunks)|
      modifies this
      ensures readDataLen <= resp
      ensures Progress(Flat(Usable(chunks)), resp, maxLsoPayload, old(readDataLen), readDataLen, sent)
      ensures r == Success <==> readDataLen == resp
      ensures r == Bug ==> maxLsoPayload == 0
      ensures Decided(Attempt(old(readDataLen), readDataLen, sent, r), Flat(Usable(chunks)), resp, maxLsoPayload,
                      alloc, send, WithinFrom(chunks, idx0, resp - old(readDataLen), maxLsoPayload))
      ensures maxLsoPayload > 0 ==>
        iterations <= |Usable(chunks)| - idx0 + FrameCount(resp - old(readDataLen), maxLsoPayload)
      ensures iterations <= 10000
    {
      hide Usable, Flat, Start, Frames, FrameCount, At, Filling, Total, Work, Decided, AllOut, GoesOut, Sending,
        Progress;
      ghost var us, flat := Usable(chunks), Flat(Usable(chunks));
      r, sent, iterations := Success, [], 0;
      var lso: nat, frameOff: nat := maxLsoPayload, readDataLen;
      var remaining := resp - frameOff;
      var idx: nat, memOff: nat, memLen: nat := idx0, memOff0, memLen0;
      var frameLen: nat, fhOff: nat, frames: nat, buf := 0, 0, 0, [];
      ghost var cost := if lso == 0 then 0 else |us| - idx0 + FrameCount(resp - frameOff, lso);
      ghost var within := WithinFrom(chunks, idx0, resp - frameOff, lso);
      SendingStarts(us, resp, lso, idx, memOff, memLen, frameOff);
      ProgressStarts(flat, resp, lso, frameOff);
      AllOutStarts(alloc, send);
      while remaining > 0
        invariant idx < |us| && frameOff + frameLen <= resp && remaining == resp - frameOff
        invariant 0 <= iterations <= LOOP_LIMIT
        invariant Sending(us, resp, lso, idx, memOff, memLen, frameOff, frameLen, fhOff, buf)
        invariant Progress(flat, resp, lso, old(readDataLen), readDataLen, sent)
        invariant readDataLen <= frameOff && readDataLen == if frameLen == 0 then frameOff else fhOff
        invariant lso > 0 ==> iterations + Work(us, idx, memLen, frameLen, resp - frameOff, lso) <= cost
        invariant lso == 0 ==> iterations == 0 && memLen > 0 && readDataLen == old(readDataLen)
        invariant lso == 0 ==> frameLen == 0 && sent == []
        invariant frames == |sent| && AllOut(alloc, send, frames) && (frameLen > 0 ==> alloc(frames))
        decreases LOOP_LIMIT - iterations
      {
        WorkPositive(us, idx, memLen, frameLen, remaining, lso);
        if iterations == LOOP_LIMIT {
          break;
        }
        iterations := iterations + 1;
        var stop;
        stop, idx, memOff, memLen, frameOff, frameLen, fhOff, buf :=
          Fill(chunks, resp, lso, alloc(frames), idx, memOff, memLen, frameOff, frameLen, fhOff, buf);
        if stop == ZeroFrame {
          ProgressNone(flat, resp, lso, old(readDataLen), readDataLen, sent);
          EndsInBug(Attempt(old(readDataLen), readDataLen, sent, Bug), flat, resp, lso, alloc, send, within);
          return Bug, sent, iterations;
        }
        if stop != GoOn {
          break;
        }
        remaining := resp - frameOff;
        if frameLen > 0 {
          continue;
        }
        FrameFilled(flat, resp, lso, fhOff, frameOff, buf);
        var error := send(frames);
        if error != Sent {
          r := if error == NoMem then QueueFull else FatalError;
          EndsInSend(Attempt(old(readDataLen), readDataLen, sent, r), flat, resp, lso, alloc, send, within);
          return;
        }
        AllOutGrows(alloc, send, frames);
        frames := frames + 1;
        ProgressGrows(flat, resp, lso, old(readDataLen), fhOff, frameOff, sent, buf);
        sent := sent + [Frame(fhOff, buf, remaining == 0)];
        readDataLen := frameOff;
      }
      CutDone(flat, resp, lso);
      if remaining > 0 {
        r := QueueFull;
      }
      EndsWithout(Attempt(old(readDataLen), readDataLen, sent, r), flat, resp, lso, alloc, send, within);
    }
  }

  // ---------------------------------------------------------------------------------------------
  // Whole runs

  // Calls made one after another on the same command, starting with nothing sent.
  ghost predicate Run(run: seq<Attempt>, flat: seq<byte>, resp: nat, lso: nat) {
    && (forall i :: 0 <= i < |run| ==> Legal(run[i], flat, resp, lso))
    && (|run| > 0 ==> run[0].before == 0)
    && (forall i :: 0 < i < |run| ==> run[i].before == run[i - 1].after)
  }

  function AllSent(run: seq<Attempt>): seq<Frame> {
    if run == [] then [] else AllSent(run[..|run| - 1]) + run[|run| - 1].sent
  }

  function SentSoFar(run: seq<Attempt>): nat {
    if run == [] then 0 else run[|run| - 1].after
  }

  // Over any run the frames sent are a prefix of the canonical cut of the response, whatever
  // failed in between, and read_data_len is where the rest of the cut begins.
  lemma {:induction false} RunSendsPrefix(run: seq<Attempt>, flat: seq<byte>, resp: nat, lso: nat)
    requires lso > 0 && Run(run, flat, resp, lso)
    ensures Frames(flat, resp, lso, 0) == AllSent(run) + Frames(flat, resp, lso, SentSoFar(run))
    ensures SentSoFar(run) == Total(AllSent(run))
  {
    hide Frames, Total;
    if run == [] {
      TotalOfNone();
    } else {
      var front, a := run[..|run| - 1], run[|run| - 1];
      RunSendsPrefix(front, flat, resp, lso);
      assert Frames(flat, resp, lso, 0) == AllSent(front) + (a.sent + Frames(flat, resp, lso, a.after));
      TotalOfConcat(AllSent(front), a.sent);
    }
  }

  lemma {:induction false} TotalOfConcat(s: seq<Frame>, t: seq<Frame>)
    ensures Total(s + t) == Total(s) + Total(t)
  {
    if t == [] {
      assert s + t == s;
    } else {
      var n := |t| - 1;
      TotalOfConcat(s, t[..n]);
      assert (s + t)[..|s| + n] == s + t[..n];
    }
  }

  // Every frame of the cut but the last carries lso bytes, each sits at its own offset, and only
  // the frame that reaches the end of the response ends the sequence.
  lemma {:induction false} FrameAt(flat: seq<byte>, resp: nat, lso: nat, off: nat, i: nat)
    requires lso > 0 && i < |Frames(flat, resp, lso, off)|
    ensures var f := Frames(flat, resp, lso, off)[i];
            && f.offset == off + i * lso < resp
            && f.offset + |f.payload| <= |flat| && f.payload == flat[f.offset..f.offset + |f.payload|]
            && |f.payload| == Min(lso, resp - f.offset)
            && (f.endSeq <==> f.offset + |f.payload| == resp)
    decreases i
  {
    var end := off + Min(lso, resp - off);
    if i > 0 {
      FrameAt(flat, resp, lso, end, i - 1);
      assert Frames(flat, resp, lso, off)[i] == Frames(flat, resp, lso, end)[i - 1];
      assert i * lso == (i - 1) * lso + lso;
    }
  }

  // The cut goes on as long as the buffer has a whole frame.
  lemma {:induction false} CutIsMaximal(flat: seq<byte>, resp: nat, lso: nat, off: nat)
    requires lso > 0 && off <= resp
    ensures var end := off + Total(Frames(flat, resp, lso, off));
            end <= resp && (end == resp || end + Min(lso, resp - end) > |flat|)
    decreases resp - off
  {
    TotalOfNone();
    if Frames(flat, resp, lso, off) != [] {
      var next := off + Min(lso, resp - off);
      CutIsMaximal(flat, resp, lso, next);
      TotalOfCons(Frame(off, flat[off..next], next == resp), Frames(flat, resp, lso, next));
    }
  }

  lemma FirstFrame(flat: seq<byte>, resp: nat, lso: nat, off: nat)
    requires lso > 0 && Frames(flat, resp, lso, off) != []
    ensures var cut := Frames(flat, resp, lso, off);
            var end := off + |cut[0].payload|;
            && off < end <= |flat| && cut[0] == Frame(off, flat[off..end], end == resp)
            && cut[1..] == Frames(flat, resp, lso, end)
  {
  }

  lemma TotalOfCons(f: Frame, rest: seq<Frame>)
    ensures Total([f] + rest) == |f.payload| + Total(rest)
  {
    TotalOfConcat([f], rest);
    assert [f][..0] == [];
  }

  // A prefix of the cut carries exactly the bytes up to where the rest begins.
  lemma {:induction false} PrefixBytes(flat: seq<byte>, resp: nat, lso: nat, off: nat, sent: seq<Frame>, after: nat)
    requires lso > 0 && off <= |flat|
    requires Frames(flat, resp, lso, off) == sent + Frames(flat, resp, lso, after) && after == off + Total(sent)
    ensures after <= |flat| && Bytes(sent) == flat[off..after]
    decreases |sent|
  {
    hide Frames;
    if sent != [] {
      var f, rest := sent[0], sent[1..];
      var end := off + |f.payload|;
      assert sent == [f] + rest;
      FirstFrame(flat, resp, lso, off);
      TotalOfCons(f, rest);
      hide Total;
      assert Frames(flat, resp, lso, off)[1..] == rest + Frames(flat, resp, lso, after);
      PrefixBytes(flat, resp, lso, end, rest, after);
      assert flat[off..after] == flat[off..end] + flat[end..after];
    }
  }

  ghost predicate FrameFits(all: seq<Frame>, i: nat, resp: nat, lso: nat)
    requires i < |all|
  {
    && all[i].offset == i * lso && all[i].offset + |all[i].payload| <= resp
    && |all[i].payload| == Min(lso, resp - i * lso)
    && (all[i].endSeq <==> all[i].offset + |all[i].payload| == resp)
    && (all[i].endSeq ==> i == |all| - 1)
  }

  lemma {:induction false} PrefixFits(flat: seq<byte>, resp: nat, lso: nat, all: seq<Frame>, i: nat)
    requires lso > 0 && all <= Frames(flat, resp, lso, 0) && i < |all|
    ensures FrameFits(all, i, resp, lso)
  {
    hide Frames;
    FrameAt(flat, resp, lso, 0, i);
    if i + 1 < |all| {
      FrameAt(flat, resp, lso, 0, i + 1);
      assert (i + 1) * lso == i * lso + lso;
    }
  }

  // The data frames of a run put together are bytes [0, read_data_len) of the response.
  lemma RunDeliversInOrder(run: seq<Attempt>, flat: seq<byte>, resp: nat, lso: nat)
    requires lso > 0 && Run(run, flat, resp, lso)
    ensures SentSoFar(run) <= |flat| && SentSoFar(run) <= resp && Bytes(AllSent(run)) == flat[..SentSoFar(run)]
    ensures forall i :: 0 <= i < |AllSent(run)| ==> FrameFits(AllSent(run), i, resp, lso)
    ensures SentSoFar(run) == resp || SentSoFar(run) == |AllSent(run)| * lso
  {
    hide *;
    var all := AllSent(run);
    RunSendsPrefix(run, flat, resp, lso);
    PrefixBytes(flat, resp, lso, 0, all, SentSoFar(run));
    forall i | 0 <= i < |all|
      ensures FrameFits(all, i, resp, lso)
    {
      PrefixFits(flat, resp, lso, all, i);
    }
    TotalOfFitting(all, resp, lso, |all|);
    assert all[..|all|] == all;
  }

  lemma {:induction false} TotalOfFitting(all: seq<Frame>, resp: nat, lso: nat, n: nat)
    requires lso > 0 && n <= |all| && forall i :: 0 <= i < |all| ==> FrameFits(all, i, resp, lso)
    ensures Total(all[..n]) <= resp
    ensures Total(all[..n]) == n * lso || (n == |all| && Total(all[..n]) == resp)
  {
    if n > 0 {
      TotalOfFitting(all, resp, lso, n - 1);
      var base, f := (n - 1) * lso, all[n - 1];
      assert f.offset == base && |f.payload| == Min(lso, resp - base) && (f.endSeq ==> n == |all|) by {
        assert FrameFits(all, n - 1, resp, lso);
      }
      assert base + lso == n * lso;
      hide FrameFits;
      assert all[..n][..n - 1] == all[..n - 1];
      assert Total(all[..n]) == base + |f.payload|;
      assert |f.payload| == lso || f.endSeq by {
        assert FrameFits(all, n - 1, resp, lso);
      }
    }
  }

  // One call of ft_send_response for a command that reads: the data phase, then the status frame.
  datatype Response = Response(data: Attempt, statusSent: bool)

  ghost predicate ResponseRun(rs: seq<Response>, flat: seq<byte>, resp: nat, lso: nat) {
    && Run(Datas(rs), flat, resp, lso)
    && forall i :: 0 <= i < |rs| ==> rs[i].statusSent ==> rs[i].data.result == Success
  }

  function Datas(rs: seq<Response>): seq<Attempt> {
    seq(|rs|, i requires 0 <= i < |rs| => rs[i].data)
  }

  // The status goes out after the whole response, provided the buffer covers the response.
  lemma StatusAfterAllData(rs: seq<Response>, flat: seq<byte>, resp: nat, lso: nat)
    requires lso > 0 && resp <= |flat| && ResponseRun(rs, flat, resp, lso)
    requires StatusSent(rs)
    ensures Bytes(AllSent(Datas(rs))) == flat[..resp]
  {
    var run := Datas(rs);
    RunDeliversInOrder(run, flat, resp, lso);
    assert Legal(run[|run| - 1], flat, resp, lso);
    assert run[|run| - 1].before == SentSoFar(run[..|run| - 1]);
    assert Run(run[..|run| - 1], flat, resp, lso);
    RunDeliversInOrder(run[..|run| - 1], flat, resp, lso);
  }

  // n bytes make a whole number of frames of lso bytes.
  predicate WholeFrames(n: nat, lso: nat)
    requires lso > 0
  {
    n == 0 || (n >= lso && WholeFrames(n - lso, lso))
  }

  lemma {:induction false} MultipleIsWhole(k: nat, lso: nat)
    requires lso > 0
    ensures k * lso >= 0 && WholeFrames(k * lso, lso)
  {
    if k > 0 {
      MultipleIsWhole(k - 1, lso);
      assert k * lso == (k - 1) * lso + lso;
    }
  }

  ghost predicate StatusSent(rs: seq<Response>) {
    |rs| > 0 && rs[|rs| - 1].statusSent
  }

  // For a buffer shorter than the response the promise fails, and exactly when its length is a
  // whole number of frames: then a retry finds nothing left to send and reports success.
  lemma ShortBufferStatus(flat: seq<byte>, resp: nat, lso: nat)
    requires lso > 0 && |flat| < resp
    ensures (exists rs :: ResponseRun(rs, flat, resp, lso) && StatusSent(rs)) <==> WholeFrames(|flat|, lso)
  {
    hide ResponseRun, StatusSent, WholeFrames;
    if rs :| ResponseRun(rs, flat, resp, lso) && StatusSent(rs) {
      ShortBufferIsWhole(rs, flat, resp, lso);
    }
    if WholeFrames(|flat|, lso) {
      var rs := TruncatedRun(flat, resp, lso);
    }
  }

  lemma TruncatedRun(flat: seq<byte>, resp: nat, lso: nat) returns (rs: seq<Response>)
    requires lso > 0 && |flat| < resp && WholeFrames(|flat|, lso)
    ensures ResponseRun(rs, flat, resp, lso) && StatusSent(rs)
  {
    var cut := Frames(flat, resp, lso, 0);
    CutReachesEnd(flat, resp, lso, 0);
    TotalOfNone();
    hide Frames, Total, WholeFrames;
    var first := Attempt(0, |flat|, cut, if |flat| == 0 then Success else QueueFull);
    var second := Attempt(|flat|, |flat|, [], Success);
    assert |flat| == 0 ==> cut == [];
    assert Legal(first, flat, resp, lso) && Legal(second, flat, resp, lso);
    rs := [Response(first, false), Response(second, true)];
    assert Datas(rs) == [first, second];
  }

  lemma ShortBufferIsWhole(rs: seq<Response>, flat: seq<byte>, resp: nat, lso: nat)
    requires lso > 0 && |flat| < resp && ResponseRun(rs, flat, resp, lso) && StatusSent(rs)
    ensures WholeFrames(|flat|, lso)
  {
    var run := Datas(rs);
    RunDeliversInOrder(run, flat, resp, lso);
    assert Legal(run[|run| - 1], flat, resp, lso);
    hide Frames, Total, AllSent;
    MultipleIsWhole(|AllSent(run)|, lso);
  }

  // With a whole number of frames in a short buffer, the cut ends at the end of the buffer.
  lemma {:induction false} CutReachesEnd(flat: seq<byte>, resp: nat, lso: nat, off: nat)
    requires lso > 0 && off <= |flat| < resp && WholeFrames(|flat| - off, lso)
    ensures Frames(flat, resp, lso, |flat|) == []
    ensures off + Total(Frames(flat, resp, lso, off)) == |flat|
    decreases |flat| - off
  {
    if off < |flat| {
      CutReachesEnd(flat, resp, lso, off + lso);
      TotalOfCons(Frame(off, flat[off..off + lso], false), Frames(flat, resp, lso, off + lso));
    }
  }
}
