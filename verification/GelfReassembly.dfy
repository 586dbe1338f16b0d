/** Whole runs of the GELF receiver: what happens to one message among arbitrary other traffic. */
module GelfReassembly {
  import opened Base
  import opened Gelf

  /** A chunk and the time at which it is processed. */
  datatype Event = Event(ns: u64, msg: Segment)

  function StateAt(s: State, evs: seq<Event>, k: nat): State
    requires k <= |evs|
  {
    if k == 0 then s else Accept(StateAt(s, evs, k - 1), evs[k - 1].ns, evs[k - 1].msg).state
  }

  function OutAt(s: State, evs: seq<Event>, k: nat): Option<Bytes>
    requires k < |evs|
  {
    Accept(StateAt(s, evs, k), evs[k].ns, evs[k].msg).out
  }

  /** An event that can touch the entry of message `id`; single-chunk messages pass straight through. */
  predicate Mine(e: Event, id: u64) {
    e.msg.id == id && e.msg.count != 1
  }

  // ---------------------------------------------------------------- the view of one message

  /** Where the entry of a message is. */
  datatype View = Absent | Current(m: Msgs) | Old(m: Msgs)

  function ViewOf(s: State, id: u64): View {
    if id in s.buffer then Current(s.buffer[id])
    else if id in s.lastBuffer then Old(s.lastBuffer[id])
    else Absent
  }

  function RotateView(v: View, swaps: bool): View {
    if !swaps then v
    else match v
      case Current(m) => Old(m)
      case Old(_) => Absent
      case Absent => Absent
  }

  function UpdateView(v: View, msg: Segment): View {
    match v
    case Absent => if msg.seqNo < msg.count then Current(Fresh(msg)) else Absent
    case Current(m) => (match Update(m, msg).0 case None => Absent case Some(m') => Current(m'))
    case Old(m) => (match Update(m, msg).0 case None => Absent case Some(m') => Old(m'))
  }

  /** A message's entry changes only by a swap or by a chunk of its own. */
  lemma Isolation(s: State, e: Event, id: u64)
    requires Valid(s)
    ensures var t := Accept(s, e.ns, e.msg);
            var rotated := RotateView(ViewOf(s, id), Swaps(s, e.ns));
            ViewOf(t.state, id) == (if Mine(e, id) then UpdateView(rotated, e.msg) else rotated)
            && t.state.lastSwap == (if Swaps(s, e.ns) then e.ns else s.lastSwap)
            && (Mine(e, id) ==> t.out == if rotated.Absent? then None else Update(rotated.m, e.msg).1)
  {
  }

  lemma {:induction false} RunValid(s: State, evs: seq<Event>, k: nat)
    requires Valid(s) && k <= |evs|
    ensures Valid(StateAt(s, evs, k))
  {
    if k > 0 {
      RunValid(s, evs, k - 1);
      AcceptValid(StateAt(s, evs, k - 1), evs[k - 1].ns, evs[k - 1].msg);
    }
  }

  // ---------------------------------------------------------------- how long entries live

  /** The event that created the entry a message has after `k` events. */
  function Born(s: State, evs: seq<Event>, k: nat, id: u64): Option<nat>
    requires k <= |evs|
  {
    if k == 0 || ViewOf(StateAt(s, evs, k), id).Absent? then None
    else
      var before := StateAt(s, evs, k - 1);
      if RotateView(ViewOf(before, id), Swaps(before, evs[k - 1].ns)).Absent? then Some(k - 1)
      else Born(s, evs, k - 1, id)
  }

  /** Swaps made by the events from `i` on, up to the `k`th. */
  function SwapCount(s: State, evs: seq<Event>, i: nat, k: nat): nat
    requires k <= |evs|
  {
    if k <= i then 0
    else SwapCount(s, evs, i, k - 1) + if Swaps(StateAt(s, evs, k - 1), evs[k - 1].ns) then 1 else 0
  }

  /** An entry is in the current generation until the first swap after its first chunk, in the old
      one until the second, and in neither after that. */
  lemma {:induction false} Lifetime(s: State, evs: seq<Event>, k: nat, id: u64)
    requires Valid(s) && ViewOf(s, id).Absent? && k <= |evs|
    ensures ViewOf(StateAt(s, evs, k), id).Absent? <==> Born(s, evs, k, id).None?
    ensures Born(s, evs, k, id).Some? ==>
              var b := Born(s, evs, k, id).value;
              b < k && Mine(evs[b], id)
              && SwapCount(s, evs, b + 1, k) == if ViewOf(StateAt(s, evs, k), id).Current? then 0 else 1
  {
    if k > 0 {
      Lifetime(s, evs, k - 1, id);
      RunValid(s, evs, k - 1);
      Isolation(StateAt(s, evs, k - 1), evs[k - 1], id);
    }
  }

  lemma {:induction false} SwapsAddUp(s: State, evs: seq<Event>, i: nat, i': nat, k: nat, k': nat)
    requires i <= i' && k <= k' <= |evs|
    ensures SwapCount(s, evs, i', k) <= SwapCount(s, evs, i, k')
    decreases k'
  {
    if k' > 0 && i < k' {
      SwapsAddUp(s, evs, i, i', if k < k' then k else k - 1, k' - 1);
    }
  }

  // ---------------------------------------------------------------- reassembly under interleaving

  /** Among arbitrary other events, every chunk of the message `id` arrives exactly once, in any order. */
  ghost predicate Delivers(evs: seq<Event>, id: u64, chunks: seq<Bytes>) {
    && 2 <= |chunks| <= 255
    && (forall i :: 0 <= i < |evs| && Mine(evs[i], id) ==>
          evs[i].msg.count == |chunks| && evs[i].msg.seqNo < |chunks|
          && evs[i].msg.data == chunks[evs[i].msg.seqNo])
    && (forall i, j :: 0 <= i < j < |evs| && Mine(evs[i], id) && Mine(evs[j], id) ==>
          evs[i].msg.seqNo != evs[j].msg.seqNo)
    && (forall q :: 0 <= q < |chunks| ==> Has(evs, |evs|, id, q))
  }

  /** The generations are swapped at most once after event `i` up to and including event `j`. */
  predicate OneSwapApart(s: State, evs: seq<Event>, i: nat, j: nat)
    requires j < |evs|
  {
    SwapCount(s, evs, i + 1, j + 1) <= 1
  }

  /** No two chunks of the message are further apart than that. */
  ghost predicate Undisturbed(s: State, evs: seq<Event>, id: u64) {
    forall i, j {:trigger OneSwapApart(s, evs, i, j)} |
      0 <= i < j < |evs| && Mine(evs[i], id) && Mine(evs[j], id) :: OneSwapApart(s, evs, i, j)
  }

  /** Chunk `q` is among the first `k` events. */
  ghost predicate Has(evs: seq<Event>, k: nat, id: u64, q: nat)
    requires k <= |evs|
  {
    exists i :: 0 <= i < k && Mine(evs[i], id) && evs[i].msg.seqNo == q
  }

  /** The entry holds exactly the chunks that are among the first `k` events. */
  ghost predicate Holds(m: Msgs, evs: seq<Event>, k: nat, id: u64, chunks: seq<Bytes>)
    requires k <= |evs|
  {
    && m.count == |m.segments| == |chunks|
    && forall q :: 0 <= q < |chunks| ==>
         m.segments[q] == if Has(evs, k, id, q) then Some(chunks[q]) else None
  }

  ghost predicate Started(evs: seq<Event>, k: nat, id: u64)
    requires k <= |evs|
  {
    exists i :: 0 <= i < k && Mine(evs[i], id)
  }

  ghost predicate Complete(evs: seq<Event>, k: nat, id: u64, n: nat)
    requires k <= |evs|
  {
    forall q :: 0 <= q < n ==> Has(evs, k, id, q)
  }

  ghost predicate Progress(s: State, evs: seq<Event>, k: nat, id: u64, chunks: seq<Bytes>)
    requires k <= |evs|
  {
    var v := ViewOf(StateAt(s, evs, k), id);
    if !Started(evs, k, id) || Complete(evs, k, id, |chunks|) then v.Absent?
    else !v.Absent? && Holds(v.m, evs, k, id, chunks)
  }

  lemma HasStep(evs: seq<Event>, k: nat, id: u64, q: nat)
    requires k < |evs|
    ensures Has(evs, k + 1, id, q) <==> Has(evs, k, id, q) || (Mine(evs[k], id) && evs[k].msg.seqNo == q)
  {
    if Mine(evs[k], id) && evs[k].msg.seqNo == q {
      assert 0 <= k < k + 1 && Mine(evs[k], id) && evs[k].msg.seqNo == q;
    }
    if Has(evs, k, id, q) {
      var i :| 0 <= i < k && Mine(evs[i], id) && evs[i].msg.seqNo == q;
      assert 0 <= i < k + 1;
    }
  }

  lemma StartedStep(evs: seq<Event>, k: nat, id: u64)
    requires k < |evs|
    ensures Started(evs, k + 1, id) <==> Started(evs, k, id) || Mine(evs[k], id)
  {
    if Mine(evs[k], id) {
      assert 0 <= k < k + 1 && Mine(evs[k], id);
    }
    if Started(evs, k, id) {
      var i :| 0 <= i < k && Mine(evs[i], id);
      assert 0 <= i < k + 1;
    }
  }

  /** A chunk that is still missing arrives at `k` or later. */
  lemma StillToCome(evs: seq<Event>, k: nat, id: u64, chunks: seq<Bytes>) returns (j: nat)
    requires k < |evs| && Delivers(evs, id, chunks)
    requires !Complete(evs, k, id, |chunks|)
    ensures k <= j < |evs| && Mine(evs[j], id)
  {
    var q :| 0 <= q < |chunks| && !Has(evs, k, id, q);
    assert Has(evs, |evs|, id, q);
    j :| 0 <= j < |evs| && Mine(evs[j], id) && evs[j].msg.seqNo == q;
  }

  /** While chunks are still missing, there has been at most one swap since any chunk. */
  lemma {:induction false} NoSecondSwap(s: State, evs: seq<Event>, k: nat, id: u64, chunks: seq<Bytes>, b: nat)
    requires b < k < |evs| && Mine(evs[b], id)
    requires Delivers(evs, id, chunks) && Undisturbed(s, evs, id) && !Complete(evs, k, id, |chunks|)
    ensures SwapCount(s, evs, b + 1, k + 1) <= 1
  {
    var j := StillToCome(evs, k, id, chunks);
    assert j > b && OneSwapApart(s, evs, b, j);
    SwapsAddUp(s, evs, b + 1, b + 1, k + 1, j + 1);
  }

  /** So the entry survives the swap test of event `k`. */
  lemma {:induction false} Survives(s: State, evs: seq<Event>, k: nat, id: u64, chunks: seq<Bytes>)
    requires k < |evs| && Valid(s) && ViewOf(s, id).Absent?
    requires Delivers(evs, id, chunks) && Undisturbed(s, evs, id)
    requires !ViewOf(StateAt(s, evs, k), id).Absent? && !Complete(evs, k, id, |chunks|)
    ensures var t := StateAt(s, evs, k);
            var v := RotateView(ViewOf(t, id), Swaps(t, evs[k].ns));
            !v.Absent? && v.m == ViewOf(t, id).m
  {
    Lifetime(s, evs, k, id);
    var b, k' := Born(s, evs, k, id).value, k + 1;
    NoSecondSwap(s, evs, k, id, chunks, b);
    assert SwapCount(s, evs, b + 1, k')
        == SwapCount(s, evs, b + 1, k) + if Swaps(StateAt(s, evs, k), evs[k].ns) then 1 else 0;
  }

  lemma SameHas(evs: seq<Event>, k: nat, id: u64, n: nat)
    requires k < |evs| && !Mine(evs[k], id)
    ensures forall q: nat :: Has(evs, k, id, q) == Has(evs, k + 1, id, q)
    ensures Complete(evs, k + 1, id, n) == Complete(evs, k, id, n)
  {
    var k' := k + 1;
    forall q: nat ensures Has(evs, k', id, q) == Has(evs, k, id, q) { HasStep(evs, k, id, q); }
    assert Complete(evs, k', id, n) == Complete(evs, k, id, n);
  }

  /** Another message's event. */
  lemma {:induction false} ForeignStep(s: State, evs: seq<Event>, k: nat, id: u64, chunks: seq<Bytes>)
    requires k < |evs| && Valid(s) && ViewOf(s, id).Absent?
    requires Delivers(evs, id, chunks) && Undisturbed(s, evs, id)
    requires Progress(s, evs, k, id, chunks) && !Mine(evs[k], id)
    ensures Progress(s, evs, k + 1, id, chunks)
  {
    RunValid(s, evs, k);
    Isolation(StateAt(s, evs, k), evs[k], id);
    StartedStep(evs, k, id);
    SameHas(evs, k, id, |chunks|);
    if Started(evs, k, id) && !Complete(evs, k, id, |chunks|) {
      Survives(s, evs, k, id, chunks);
    }
  }

  /** The first chunk of the message. */
  lemma {:induction false} FirstStep(s: State, evs: seq<Event>, k: nat, id: u64, chunks: seq<Bytes>)
    requires k < |evs| && Valid(s) && Delivers(evs, id, chunks)
    requires Progress(s, evs, k, id, chunks) && Mine(evs[k], id) && !Started(evs, k, id)
    ensures Progress(s, evs, k + 1, id, chunks)
    ensures OutAt(s, evs, k) == None && !Complete(evs, k + 1, id, |chunks|)
  {
    var msg := evs[k].msg;
    RunValid(s, evs, k);
    Isolation(StateAt(s, evs, k), evs[k], id);
    StartedStep(evs, k, id);
    var k' := k + 1;
    forall q: nat ensures Has(evs, k', id, q) <==> msg.seqNo == q { HasStep(evs, k, id, q); }
    var other: nat := if msg.seqNo == 0 then 1 else 0;
    assert !Has(evs, k', id, other);
    assert Holds(Fresh(msg), evs, k + 1, id, chunks);
  }

  lemma {:induction false} AssembledChunks(segments: seq<Option<Bytes>>, chunks: seq<Bytes>)
    requires |segments| == |chunks|
    requires forall q :: 0 <= q < |chunks| ==> segments[q] == Some(chunks[q])
    ensures Assembled(segments) == Some(Flatten(chunks))
  {
    if segments != [] {
      AssembledChunks(segments[1..], chunks[1..]);
    }
  }

  /** A new chunk in an entry that holds chunks of the first `k` events. */
  lemma PutHolds(m: Msgs, evs: seq<Event>, k: nat, id: u64, chunks: seq<Bytes>)
    requires k < |evs| && Mine(evs[k], id) && Delivers(evs, id, chunks)
    requires Holds(m, evs, k, id, chunks) && Consistent(m)
    ensures IsFree(m, evs[k].msg.seqNo)
    ensures Holds(Put(m, evs[k].msg.seqNo, evs[k].msg.data), evs, k + 1, id, chunks)
    ensures Put(m, evs[k].msg.seqNo, evs[k].msg.data).stored == m.count
       <==> Complete(evs, k + 1, id, |chunks|)
  {
    var msg := evs[k].msg;
    NotYet(evs, k, k, id, chunks);
    var m' := Put(m, msg.seqNo, msg.data);
    var k' := k + 1;
    forall q: nat ensures Has(evs, k', id, q) <==> Has(evs, k, id, q) || q == msg.seqNo {
      HasStep(evs, k, id, q);
    }
    FillOne(m.segments, msg.seqNo, msg.data);
    AllFilled(m'.segments);
    assert Holds(m', evs, k + 1, id, chunks);
  }

  /** A later chunk of the message. */
  lemma {:induction false} LaterStep(s: State, evs: seq<Event>, k: nat, id: u64, chunks: seq<Bytes>)
    requires k < |evs| && Valid(s) && ViewOf(s, id).Absent?
    requires Delivers(evs, id, chunks) && Undisturbed(s, evs, id)
    requires Progress(s, evs, k, id, chunks) && Mine(evs[k], id) && Started(evs, k, id)
    ensures Progress(s, evs, k + 1, id, chunks)
    ensures OutAt(s, evs, k) == if Complete(evs, k + 1, id, |chunks|) then Some(Flatten(chunks)) else None
  {
    var t, msg := StateAt(s, evs, k), evs[k].msg;
    NotYet(evs, k, k, id, chunks);
    RunValid(s, evs, k);
    Survives(s, evs, k, id, chunks);
    var m := ViewOf(t, id).m;
    Isolation(t, evs[k], id);
    StartedStep(evs, k, id);
    PutHolds(m, evs, k, id, chunks);
    var m' := Put(m, msg.seqNo, msg.data);
    assert Update(m, msg) == if m'.stored == m'.count then (None, Assembled(m'.segments)) else (Some(m'), None);
    if Complete(evs, k + 1, id, |chunks|) {
      AssembledChunks(m'.segments, chunks);
    }
  }

  lemma {:induction false} ProgressAt(s: State, evs: seq<Event>, k: nat, id: u64, chunks: seq<Bytes>)
    requires k <= |evs| && Valid(s) && ViewOf(s, id).Absent?
    requires Delivers(evs, id, chunks) && Undisturbed(s, evs, id)
    ensures Progress(s, evs, k, id, chunks)
  {
    if k > 0 {
      ProgressAt(s, evs, k - 1, id, chunks);
      var j: nat := k - 1;
      ProgressStep(s, evs, j, id, chunks);
    }
  }

  lemma {:induction false} ProgressStep(s: State, evs: seq<Event>, k: nat, id: u64, chunks: seq<Bytes>)
    requires k < |evs| && Valid(s) && ViewOf(s, id).Absent?
    requires Delivers(evs, id, chunks) && Undisturbed(s, evs, id)
    requires Progress(s, evs, k, id, chunks)
    ensures Progress(s, evs, k + 1, id, chunks)
  {
    if !Mine(evs[k], id) {
      ForeignStep(s, evs, k, id, chunks);
    } else if Started(evs, k, id) {
      LaterStep(s, evs, k, id, chunks);
    } else {
      FirstStep(s, evs, k, id, chunks);
    }
  }

  /** The message is complete after its event `k` exactly when none of its events follows. */
  lemma CompleteIsLast(evs: seq<Event>, k: nat, id: u64, chunks: seq<Bytes>)
    requires k < |evs| && Mine(evs[k], id) && Delivers(evs, id, chunks)
    ensures Complete(evs, k + 1, id, |chunks|) <==> forall j :: k < j < |evs| ==> !Mine(evs[j], id)
  {
    var k' := k + 1;
    if j :| k < j < |evs| && Mine(evs[j], id) {
      NotYet(evs, k', j, id, chunks);
    } else {
      forall q | 0 <= q < |chunks| ensures Has(evs, k', id, q) {
        assert Has(evs, |evs|, id, q);
        var i :| 0 <= i < |evs| && Mine(evs[i], id) && evs[i].msg.seqNo == q;
        assert 0 <= i < k';
      }
    }
  }

  lemma NotYet(evs: seq<Event>, k: nat, j: nat, id: u64, chunks: seq<Bytes>)
    requires k <= j < |evs| && Mine(evs[j], id) && Delivers(evs, id, chunks)
    ensures !Has(evs, k, id, evs[j].msg.seqNo) && !Complete(evs, k, id, |chunks|)
  {
  }

  /** What an undisturbed message does: its last chunk returns it, the others return nothing, and no
      trace of it remains. */
  lemma {:induction false} Completes(s: State, evs: seq<Event>, id: u64, chunks: seq<Bytes>)
    requires Valid(s) && ViewOf(s, id).Absent?
    requires Delivers(evs, id, chunks) && Undisturbed(s, evs, id)
    ensures forall k :: 0 <= k < |evs| && Mine(evs[k], id) ==>
              OutAt(s, evs, k) == if exists j :: k < j < |evs| && Mine(evs[j], id) then None
                                  else Some(Flatten(chunks))
    ensures ViewOf(StateAt(s, evs, |evs|), id).Absent?
  {
    forall k | 0 <= k < |evs| && Mine(evs[k], id)
      ensures OutAt(s, evs, k) == if exists j :: k < j < |evs| && Mine(evs[j], id) then None
                                  else Some(Flatten(chunks))
    {
      ProgressAt(s, evs, k, id, chunks);
      CompleteIsLast(evs, k, id, chunks);
      if Started(evs, k, id) {
        LaterStep(s, evs, k, id, chunks);
      } else {
        FirstStep(s, evs, k, id, chunks);
      }
    }
    ProgressAt(s, evs, |evs|, id, chunks);
  }

  // ---------------------------------------------------------------- arbitrary traffic under one id

  /** Chunk `q` is among the events from `b` on, before `k`. */
  ghost predicate HasSince(evs: seq<Event>, b: nat, k: nat, id: u64, q: nat)
    requires k <= |evs|
  {
    exists i :: b <= i < k && Mine(evs[i], id) && evs[i].msg.seqNo == q
  }

  /** No two of the chunks from `b` on have the same index, and none an index that the first one's count
      leaves no room for. */
  ghost predicate Fitting(evs: seq<Event>, b: nat, k: nat, id: u64)
    requires b < k <= |evs|
  {
    && (forall i :: b <= i < k && Mine(evs[i], id) ==> evs[i].msg.seqNo < evs[b].msg.count)
    && (forall i, j :: b <= i < j < k && Mine(evs[i], id) && Mine(evs[j], id) ==> evs[i].msg.seqNo != evs[j].msg.seqNo)
  }

  /** They carry each index below that count exactly once. */
  ghost predicate Covering(evs: seq<Event>, b: nat, k: nat, id: u64)
    requires b < k <= |evs|
  {
    Fitting(evs, b, k, id) && forall q :: 0 <= q < evs[b].msg.count ==> HasSince(evs, b, k, id, q)
  }

  /** The entry holds exactly the chunks from `b` on, `b` being the one that created it. */
  ghost predicate Window(m: Msgs, evs: seq<Event>, b: nat, k: nat, id: u64)
    requires b < k <= |evs|
  {
    && m.count == |m.segments| == evs[b].msg.count && Fitting(evs, b, k, id)
    && (forall i :: b <= i < k && Mine(evs[i], id) ==> m.segments[evs[i].msg.seqNo] == Some(evs[i].msg.data))
    && (forall q :: 0 <= q < |m.segments| && m.segments[q].Some? ==> HasSince(evs, b, k, id, q))
  }

  lemma {:induction false} SinceStep(evs: seq<Event>, b: nat, k: nat, id: u64, q: nat)
    requires b <= k < |evs|
    ensures HasSince(evs, b, k + 1, id, q) <==>
              HasSince(evs, b, k, id, q) || (Mine(evs[k], id) && evs[k].msg.seqNo == q)
  {
    if HasSince(evs, b, k, id, q) {
      var i :| b <= i < k && Mine(evs[i], id) && evs[i].msg.seqNo == q;
      assert b <= i < k + 1;
    }
  }

  lemma {:induction false} WindowFirst(evs: seq<Event>, k: nat, id: u64)
    requires k < |evs| && Mine(evs[k], id) && evs[k].msg.seqNo < evs[k].msg.count
    ensures Window(Fresh(evs[k].msg), evs, k, k + 1, id)
  {
    SinceStep(evs, k, k, id, evs[k].msg.seqNo);
  }

  lemma {:induction false} WindowOther(m: Msgs, evs: seq<Event>, b: nat, k: nat, id: u64)
    requires b < k < |evs| && Window(m, evs, b, k, id) && !Mine(evs[k], id)
    ensures Window(m, evs, b, k + 1, id)
  {
    var k' := k + 1;
    forall q: nat ensures HasSince(evs, b, k', id, q) == HasSince(evs, b, k, id, q) { SinceStep(evs, b, k, id, q); }
  }

  /** The place of a chunk is free exactly when it still fits. */
  lemma {:induction false} FreeFits(m: Msgs, evs: seq<Event>, b: nat, k: nat, id: u64)
    requires b < k < |evs| && Window(m, evs, b, k, id) && Mine(evs[k], id)
    ensures IsFree(m, evs[k].msg.seqNo) <==> Fitting(evs, b, k + 1, id)
  {
    var q := evs[k].msg.seqNo;
    if q < |m.segments| && m.segments[q].Some? {
      var i :| b <= i < k && Mine(evs[i], id) && evs[i].msg.seqNo == q;
      assert Mine(evs[i], id) && Mine(evs[k], id);
    }
  }

  lemma {:induction false} WindowPut(m: Msgs, evs: seq<Event>, b: nat, k: nat, id: u64)
    requires b < k < |evs| && Window(m, evs, b, k, id) && Mine(evs[k], id) && IsFree(m, evs[k].msg.seqNo)
    ensures Window(Put(m, evs[k].msg.seqNo, evs[k].msg.data), evs, b, k + 1, id)
  {
    var k' := k + 1;
    FreeFits(m, evs, b, k, id);
    forall q: nat ensures HasSince(evs, b, k', id, q) <==> HasSince(evs, b, k, id, q) || q == evs[k].msg.seqNo {
      SinceStep(evs, b, k, id, q);
    }
  }

  /** Whatever arrives under an id, the entry holds exactly what has arrived since it was created. */
  lemma {:induction false} WindowAt(s: State, evs: seq<Event>, k: nat, id: u64)
    requires Valid(s) && ViewOf(s, id).Absent? && k <= |evs|
    ensures !ViewOf(StateAt(s, evs, k), id).Absent? ==>
              Born(s, evs, k, id).Some? && Born(s, evs, k, id).value < k
              && Window(ViewOf(StateAt(s, evs, k), id).m, evs, Born(s, evs, k, id).value, k, id)
  {
    if k > 0 && !ViewOf(StateAt(s, evs, k), id).Absent? {
      var j: nat := k - 1;
      WindowAt(s, evs, j, id);
      RunValid(s, evs, j);
      Isolation(StateAt(s, evs, j), evs[j], id);
      Lifetime(s, evs, k, id);
      WindowStep(s, evs, j, id);
    }
  }

  lemma {:induction false} WindowStep(s: State, evs: seq<Event>, j: nat, id: u64)
    requires j < |evs| && Valid(StateAt(s, evs, j))
    requires !ViewOf(StateAt(s, evs, j), id).Absent? ==>
               Born(s, evs, j, id).Some? && Born(s, evs, j, id).value < j
               && Window(ViewOf(StateAt(s, evs, j), id).m, evs, Born(s, evs, j, id).value, j, id)
    requires !ViewOf(StateAt(s, evs, j + 1), id).Absent?
    ensures Born(s, evs, j + 1, id).Some? && Born(s, evs, j + 1, id).value < j + 1
    ensures Window(ViewOf(StateAt(s, evs, j + 1), id).m, evs, Born(s, evs, j + 1, id).value, j + 1, id)
  {
    var t, e := StateAt(s, evs, j), evs[j];
    Isolation(t, e, id);
    var r := RotateView(ViewOf(t, id), Swaps(t, e.ns));
    if r.Absent? {
      WindowFirst(evs, j, id);
    } else if Mine(e, id) {
      WindowPut(r.m, evs, Born(s, evs, j, id).value, j, id);
    } else {
      WindowOther(r.m, evs, Born(s, evs, j, id).value, j, id);
    }
  }

  /** The event that created the entry which chunk `k` meets, after the swap test; itself, if it meets none. */
  function BornFor(s: State, evs: seq<Event>, k: nat, id: u64): nat
    requires k < |evs|
  {
    var t := StateAt(s, evs, k);
    var born := Born(s, evs, k, id);
    if RotateView(ViewOf(t, id), Swaps(t, evs[k].ns)).Absent? || born.None? then k else born.value
  }

  /** When a chunk that meets an entry returns something. */
  lemma {:induction false} MeetsEntry(m: Msgs, evs: seq<Event>, b: nat, k: nat, id: u64)
    requires b < k < |evs| && Window(m, evs, b, k, id) && Consistent(m) && Mine(evs[k], id)
    ensures Update(m, evs[k].msg).1.Some? <==> Covering(evs, b, k + 1, id)
  {
    var msg, k' := evs[k].msg, k + 1;
    FreeFits(m, evs, b, k, id);
    if IsFree(m, msg.seqNo) {
      var m' := Put(m, msg.seqNo, msg.data);
      WindowPut(m, evs, b, k, id);
      FillOne(m.segments, msg.seqNo, msg.data);
      AllFilled(m'.segments);
      FullCovers(m', evs, b, k', id);
    }
  }

  /** And what it returns. */
  lemma {:induction false} MeetsValue(m: Msgs, evs: seq<Event>, b: nat, k: nat, id: u64, chunks: seq<Bytes>)
    requires b < k < |evs| && Window(m, evs, b, k, id) && Consistent(m) && Mine(evs[k], id)
    requires Covering(evs, b, k + 1, id) && |chunks| == evs[b].msg.count
    requires forall i :: b <= i <= k && Mine(evs[i], id) ==> chunks[evs[i].msg.seqNo] == evs[i].msg.data
    ensures Update(m, evs[k].msg).1 == Some(Flatten(chunks))
  {
    var msg, k' := evs[k].msg, k + 1;
    FreeFits(m, evs, b, k, id);
    MeetsEntry(m, evs, b, k, id);
    WindowPut(m, evs, b, k, id);
    WindowChunks(Put(m, msg.seqNo, msg.data), evs, b, k', id, chunks);
  }

  lemma {:induction false} WindowChunks(m: Msgs, evs: seq<Event>, b: nat, k: nat, id: u64, chunks: seq<Bytes>)
    requires b < k <= |evs| && Window(m, evs, b, k, id) && Covering(evs, b, k, id) && |chunks| == evs[b].msg.count
    requires forall i :: b <= i < k && Mine(evs[i], id) ==> chunks[evs[i].msg.seqNo] == evs[i].msg.data
    ensures Assembled(m.segments) == Some(Flatten(chunks))
  {
    forall q | 0 <= q < |chunks| ensures m.segments[q] == Some(chunks[q]) {
      assert HasSince(evs, b, k, id, q);
      var i :| b <= i < k && Mine(evs[i], id) && evs[i].msg.seqNo == q;
      assert Mine(evs[i], id);
    }
    AssembledChunks(m.segments, chunks);
  }

  lemma {:induction false} FullCovers(m: Msgs, evs: seq<Event>, b: nat, k: nat, id: u64)
    requires b < k <= |evs| && Window(m, evs, b, k, id)
    ensures (forall q :: 0 <= q < |m.segments| ==> m.segments[q].Some?) <==> Covering(evs, b, k, id)
  {
    if Covering(evs, b, k, id) {
      forall q | 0 <= q < |m.segments| ensures m.segments[q].Some? {
        assert HasSince(evs, b, k, id, q);
        var i :| b <= i < k && Mine(evs[i], id) && evs[i].msg.seqNo == q;
        assert Mine(evs[i], id);
      }
    }
  }

  /** Arbitrary traffic under one id, from senders that know nothing of each other, with chunks repeated,
      missing or out of range: a chunk returns something if and only if the chunks since the one that
      created its entry carry each index below that one's count exactly once. */
  lemma {:induction false} AnyTraffic(s: State, evs: seq<Event>, id: u64, k: nat)
    requires Valid(s) && ViewOf(s, id).Absent? && k < |evs| && Mine(evs[k], id)
    ensures BornFor(s, evs, k, id) <= k
    ensures OutAt(s, evs, k).Some? <==> Covering(evs, BornFor(s, evs, k, id), k + 1, id)
  {
    var t := StateAt(s, evs, k);
    RunValid(s, evs, k);
    Isolation(t, evs[k], id);
    WindowAt(s, evs, k, id);
    if RotateView(ViewOf(t, id), Swaps(t, evs[k].ns)).Absent? {
      AloneNotCovering(evs, k, id);
    } else {
      MeetsEntry(ViewOf(t, id).m, evs, BornFor(s, evs, k, id), k, id);
    }
  }

  /** And what it returns is their data, put together by index. */
  lemma {:induction false} AnyTrafficReturns(s: State, evs: seq<Event>, id: u64, k: nat, chunks: seq<Bytes>)
    requires Valid(s) && ViewOf(s, id).Absent? && k < |evs| && Mine(evs[k], id) && OutAt(s, evs, k).Some?
    requires BornFor(s, evs, k, id) <= k && Covering(evs, BornFor(s, evs, k, id), k + 1, id)
    requires |chunks| == evs[BornFor(s, evs, k, id)].msg.count
    requires forall i :: BornFor(s, evs, k, id) <= i <= k && Mine(evs[i], id) ==>
               chunks[evs[i].msg.seqNo] == evs[i].msg.data
    ensures OutAt(s, evs, k) == Some(Flatten(chunks))
  {
    var t := StateAt(s, evs, k);
    RunValid(s, evs, k);
    Isolation(t, evs[k], id);
    WindowAt(s, evs, k, id);
    MeetsValue(ViewOf(t, id).m, evs, BornFor(s, evs, k, id), k, id, chunks);
  }

  lemma {:induction false} AloneNotCovering(evs: seq<Event>, k: nat, id: u64)
    requires k < |evs| && Mine(evs[k], id)
    ensures !Covering(evs, k, k + 1, id)
  {
    var other: nat := if evs[k].msg.seqNo == 0 then 1 else 0;
    SinceStep(evs, k, k, id, other);
  }

  // ---------------------------------------------------------------- exactly when a message comes out

  /** A chunk that returns a message is the last one, and since each of the others the generations have
      been swapped at most once. */
  lemma {:induction false} OnlyIfUndisturbed(s: State, evs: seq<Event>, id: u64, chunks: seq<Bytes>, k: nat, i: nat)
    requires Valid(s) && ViewOf(s, id).Absent? && Delivers(evs, id, chunks)
    requires k < |evs| && i < |evs| && i != k && Mine(evs[k], id) && Mine(evs[i], id)
    requires OutAt(s, evs, k).Some?
    ensures i < k && OneSwapApart(s, evs, i, k)
  {
    AnyTraffic(s, evs, id, k);
    SwapsSinceBorn(s, evs, id, k);
    InWindow(evs, id, chunks, BornFor(s, evs, k, id), k, i);
    SwapsAddUp(s, evs, BornFor(s, evs, k, id) + 1, i + 1, k + 1, k + 1);
  }

  /** The chunks that complete a message are all of its chunks. */
  lemma {:induction false} InWindow(evs: seq<Event>, id: u64, chunks: seq<Bytes>, b: nat, k: nat, i: nat)
    requires b <= k < |evs| && i < |evs| && i != k && Mine(evs[k], id) && Mine(evs[i], id)
    requires Delivers(evs, id, chunks) && Covering(evs, b, k + 1, id) && evs[b].msg.count == |chunks|
    ensures b <= i < k
  {
    var q, k' := evs[i].msg.seqNo, k + 1;
    assert HasSince(evs, b, k', id, q);
    var e :| b <= e < k' && Mine(evs[e], id) && evs[e].msg.seqNo == q;
    assert e == i;
  }

  lemma {:induction false} SwapsSinceBorn(s: State, evs: seq<Event>, id: u64, k: nat)
    requires Valid(s) && ViewOf(s, id).Absent? && k < |evs| && Mine(evs[k], id)
    ensures var b := BornFor(s, evs, k, id); b <= k && Mine(evs[b], id) && SwapCount(s, evs, b + 1, k + 1) <= 1
  {
    Lifetime(s, evs, k, id);
  }

  /** Chunk `k` comes after all the others, none of them more than one swap ago. */
  ghost predicate InTime(s: State, evs: seq<Event>, id: u64, k: nat)
    requires k < |evs|
  {
    forall i :: 0 <= i < |evs| && i != k && Mine(evs[i], id) ==> i < k && OneSwapApart(s, evs, i, k)
  }

  lemma {:induction false} InTimeUndisturbed(s: State, evs: seq<Event>, id: u64, k: nat)
    requires k < |evs| && Mine(evs[k], id) && InTime(s, evs, id, k)
    ensures Undisturbed(s, evs, id)
  {
    forall i, j | 0 <= i < j < |evs| && Mine(evs[i], id) && Mine(evs[j], id)
      ensures OneSwapApart(s, evs, i, j)
    {
      SwapsAddUp(s, evs, i + 1, i + 1, j + 1, k + 1);
    }
  }

  /** Exactly when a message comes out. From any reachable state without an entry for it, whatever else
      arrives in between and whatever the clock does: a chunk returns the message, byte for byte, if and
      only if it is the last to arrive and no two swaps have happened since any of the others. */
  lemma {:induction false} ReassembledExactly(s: State, evs: seq<Event>, id: u64, chunks: seq<Bytes>, k: nat)
    requires Valid(s) && ViewOf(s, id).Absent? && Delivers(evs, id, chunks)
    requires k < |evs| && Mine(evs[k], id)
    ensures OutAt(s, evs, k) == if InTime(s, evs, id, k) then Some(Flatten(chunks)) else None
  {
    if InTime(s, evs, id, k) {
      InTimeUndisturbed(s, evs, id, k);
      Completes(s, evs, id, chunks);
    } else if OutAt(s, evs, k).Some? {
      var i :| 0 <= i < |evs| && i != k && Mine(evs[i], id) && !(i < k && OneSwapApart(s, evs, i, k));
      OnlyIfUndisturbed(s, evs, id, chunks, k, i);
    }
  }

  // ---------------------------------------------------------------- five seconds are short enough

  /** Time does not run backwards, and starts no earlier than the state's last swap. */
  predicate Monotone(s: State, evs: seq<Event>) {
    && (forall i, j :: 0 <= i <= j < |evs| ==> evs[i].ns <= evs[j].ns)
    && (forall i :: 0 <= i < |evs| ==> s.lastSwap <= evs[i].ns)
  }

  /** All chunks of the message are processed within five seconds of the first. */
  ghost predicate Prompt(evs: seq<Event>, id: u64) {
    forall i, j :: 0 <= i < j < |evs| && Mine(evs[i], id) && Mine(evs[j], id) ==> evs[j].ns <= evs[i].ns + FIVE_SEC
  }

  /** A swap stamps the state with its time, which no later event precedes. */
  lemma {:induction false} LastSwapPast(s: State, evs: seq<Event>, k: nat, ns: u64)
    requires k <= |evs| && s.lastSwap <= ns && forall i :: 0 <= i < k ==> evs[i].ns <= ns
    ensures StateAt(s, evs, k).lastSwap <= ns
  {
    if k > 0 {
      LastSwapPast(s, evs, k - 1, ns);
    }
  }

  /** A swap at event `k` takes its time from it, and is more than five seconds after the one before. */
  lemma {:induction false} SwapTimes(s: State, evs: seq<Event>, k: nat)
    requires k < |evs| && Monotone(s, evs)
    ensures var t := StateAt(s, evs, k);
            && t.lastSwap <= evs[k].ns
            && StateAt(s, evs, k + 1).lastSwap == (if Swaps(t, evs[k].ns) then evs[k].ns else t.lastSwap)
            && (Swaps(t, evs[k].ns) <==> t.lastSwap + FIVE_SEC < evs[k].ns)
  {
    LastSwapPast(s, evs, k, evs[k].ns);
  }

  /** Once one swap has happened at `i` or later, the last one was no earlier than event `i`, so the next
      is more than five seconds after it. */
  lemma {:induction false} SwapsTakeTime(s: State, evs: seq<Event>, i: nat, k: nat)
    requires i <= k <= |evs| && Monotone(s, evs)
    ensures SwapCount(s, evs, i, k) >= 1 ==> i < |evs| && evs[i].ns <= StateAt(s, evs, k).lastSwap
    ensures SwapCount(s, evs, i, k) >= 2 ==> i < k && evs[i].ns + FIVE_SEC < evs[k - 1].ns
  {
    if i < k {
      var j: nat := k - 1;
      SwapsTakeTime(s, evs, i, j);
      SwapTimes(s, evs, j);
      assert i < j ==> evs[j - 1].ns <= evs[j].ns;
      assert evs[i].ns <= evs[j].ns;
    }
  }

  lemma {:induction false} PromptUndisturbed(s: State, evs: seq<Event>, id: u64)
    requires Monotone(s, evs) && Prompt(evs, id)
    ensures Undisturbed(s, evs, id)
  {
    forall i, j | 0 <= i < j < |evs| && Mine(evs[i], id) && Mine(evs[j], id)
      ensures OneSwapApart(s, evs, i, j)
    {
      SwapsTakeTime(s, evs, i + 1, j + 1);
    }
  }

  /** Reassembly under interleaving. Whatever else arrives in between and however often the generations
      are swapped: if all its chunks arrive within five seconds, the last of them returns the message byte
      for byte, the others return nothing, and no trace of it remains. */
  lemma {:induction false} Reassembles(s: State, evs: seq<Event>, id: u64, chunks: seq<Bytes>)
    requires Valid(s) && ViewOf(s, id).Absent?
    requires Monotone(s, evs) && Delivers(evs, id, chunks) && Prompt(evs, id)
    ensures forall k :: 0 <= k < |evs| && Mine(evs[k], id) ==>
              OutAt(s, evs, k) == if exists j :: k < j < |evs| && Mine(evs[j], id) then None
                                  else Some(Flatten(chunks))
    ensures ViewOf(StateAt(s, evs, |evs|), id).Absent?
  {
    PromptUndisturbed(s, evs, id);
    Completes(s, evs, id, chunks);
  }

  /** Swaps happen only when a chunk arrives, so a message is not destroyed five seconds after its
      first chunk: if nothing else arrives in between, its second chunk completes it however late. */
  lemma SilenceKeepsChunks(t0: u64, t1: u64, id: u64, c0: Bytes, c1: Bytes)
    ensures var evs := [Event(t0, Segment(id, 0, 2, c0)), Event(t1, Segment(id, 1, 2, c1))];
            OutAt(INITIAL, evs, 1) == Some(c0 + c1)
  {
    var evs := [Event(t0, Segment(id, 0, 2, c0)), Event(t1, Segment(id, 1, 2, c1))];
    var m := Fresh(evs[0].msg);
    Isolation(INITIAL, evs[0], id);
    assert StateAt(INITIAL, evs, 1) == Accept(StateAt(INITIAL, evs, 0), t0, evs[0].msg).state;
    AcceptValid(INITIAL, t0, evs[0].msg);
    var s := StateAt(INITIAL, evs, 1);
    assert ViewOf(s, id) == Current(m);
    Isolation(s, evs[1], id);
    assert m.segments == [Some(c0), None];
    var m' := Put(m, 1, c1);
    assert m'.segments == [Some(c0), Some(c1)];
    assert Assembled([Some(c0), Some(c1)][1..][1..]) == Some([]);
    assert [Some(c0), Some(c1)][1..] == [Some(c1)];
    assert c1 + [] == c1;
    assert Assembled([Some(c1)]) == Some(c1);
  }
}
