/** `TNSyslogHandler`: log records that could not be sent to syslog wait in a deque and are sent first when it is
    back. */
module Syslog {
  import opened Prelude

  /** `pending` is the deque, `maxlen` its bound; records are numbered by submission, and `sent`, `lost` and `fellBack`
      list the numbers delivered to syslog, dropped by a full deque, and given to the fallback handler. `tries` counts
      the attempts to send, and an oracle says which of them succeed. */
  datatype Handler<R> = Handler(maxlen: Option<nat>, pending: seq<R>, submitted: seq<R>, sent: seq<nat>, lost: seq<nat>,
                                fellBack: seq<nat>, tries: nat)

  type Oracle = nat -> bool

  /** The number of the first pending record. */
  function Base<R>(h: Handler<R>): int {
    |h.submitted| - |h.pending|
  }

  function SendFirst<R>(h: Handler<R>): Handler<R>
    requires h.pending != [] && Base(h) >= 0
  {
    h.(pending := h.pending[1..], sent := h.sent + [Base(h)], tries := h.tries + 1)
  }

  /** `drain_pending_queue`: send from the left until the deque is empty or an attempt fails. */
  function Drain<R>(h: Handler<R>, ok: Oracle): (Handler<R>, bool)
    requires Base(h) >= 0
    decreases |h.pending|
  {
    if h.pending == [] then (h, true)
    else if ok(h.tries) then Drain(SendFirst(h), ok)
    else (h.(tries := h.tries + 1), false)
  }

  /** `deque.append` of the record just submitted: a full deque drops its leftmost record, which may be this one. */
  function Push<R>(h: Handler<R>, r: R): Handler<R>
    requires Base(h) >= 0
  {
    var n := |h.submitted|;
    var p := h.pending + [r];
    if h.maxlen.Some? && |p| > h.maxlen.value then
      h.(pending := p[1..], submitted := h.submitted + [r], lost := h.lost + [Base(h)], fellBack := h.fellBack + [n])
    else h.(pending := p, submitted := h.submitted + [r], fellBack := h.fellBack + [n])
  }

  function Emitted<R>(h: Handler<R>, r: R, ok: Oracle): Handler<R>
    requires Base(h) >= 0
  {
    var (h1, drained) := Drain(h, ok);
    DrainBase(h, ok);
    if !drained then Push(h1, r)
    else if ok(h1.tries) then
      h1.(submitted := h1.submitted + [r], sent := h1.sent + [|h1.submitted|], tries := h1.tries + 1)
    else Push(h1.(tries := h1.tries + 1), r)
  }

  lemma {:induction false} DrainBase<R>(h: Handler<R>, ok: Oracle)
    requires Base(h) >= 0
    ensures var h1 := Drain(h, ok).0;
            && Base(h1) >= Base(h) && h1.submitted == h.submitted && h1.maxlen == h.maxlen
            && h1.lost == h.lost && h1.tries >= h.tries
    decreases |h.pending|
  {
    if h.pending != [] && ok(h.tries) {
      DrainBase(SendFirst(h), ok);
    }
  }

  // ----- the invariant

  /** Records below `base` were each sent or lost, not both, in order of submission; no other record was. */
  ghost predicate Fates(sent: seq<nat>, lost: seq<nat>, base: int) {
    && Increasing(sent) && Increasing(lost)
    && (forall i :: 0 <= i < base ==> (i in sent <==> i !in lost))
    && (forall i :: 0 <= i < |sent| ==> sent[i] < base)
    && (forall i :: 0 <= i < |lost| ==> lost[i] < base)
  }

  /** Without a bound nothing is lost, so that all records below `base` were sent. */
  ghost predicate AllSent(sent: seq<nat>, lost: seq<nat>, base: int) {
    lost == [] && |sent| == base && forall i :: 0 <= i < |sent| ==> sent[i] == i
  }

  /** Pending is the latest stretch of the submissions, within the bound. */
  ghost predicate Inv<R>(h: Handler<R>) {
    && WithinBound(h) && h.pending == h.submitted[Base(h)..] && Fates(h.sent, h.lost, Base(h))
    && (h.maxlen.None? ==> AllSent(h.sent, h.lost, Base(h)))
  }

  predicate WithinBound<R>(h: Handler<R>) {
    Base(h) >= 0 && (h.maxlen.Some? ==> |h.pending| <= h.maxlen.value)
  }

  lemma SendNext(sent: seq<nat>, lost: seq<nat>, base: nat)
    requires Fates(sent, lost, base)
    ensures Fates(sent + [base], lost, base + 1)
    ensures AllSent(sent, lost, base) ==> AllSent(sent + [base], lost, base + 1)
  {
    assert forall i :: i in sent + [base] <==> i in sent || i == base;
  }

  lemma LoseNext(sent: seq<nat>, lost: seq<nat>, base: nat)
    requires Fates(sent, lost, base)
    ensures Fates(sent, lost + [base], base + 1)
  {
    assert forall i :: i in lost + [base] <==> i in lost || i == base;
  }

  /** An attempt that fails changes nothing but the count. */
  lemma TriesInv<R>(h: Handler<R>, tries: nat)
    requires Inv(h)
    ensures Inv(h.(tries := tries))
  {
  }

  lemma SendFirstInv<R>(h: Handler<R>)
    requires Inv(h) && h.pending != []
    ensures Inv(SendFirst(h))
  {
    assert SendFirst(h).pending == h.submitted[Base(h) + 1..];
    SendNext(h.sent, h.lost, Base(h));
  }

  lemma {:induction false} DrainInv<R>(h: Handler<R>, ok: Oracle)
    requires Inv(h)
    ensures Inv(Drain(h, ok).0) && (Drain(h, ok).1 <==> Drain(h, ok).0.pending == [])
    decreases |h.pending|
  {
    if h.pending != [] && ok(h.tries) {
      SendFirstInv(h);
      DrainInv(SendFirst(h), ok);
    }
  }

  lemma PushInv<R>(h: Handler<R>, r: R)
    requires Inv(h)
    ensures Inv(Push(h, r))
  {
    if h.maxlen.Some? && |h.pending| + 1 > h.maxlen.value {
      LoseNext(h.sent, h.lost, Base(h));
    }
  }

  /** A record sent at once, with nothing pending. */
  lemma SentInv<R>(h: Handler<R>, r: R)
    requires Inv(h) && h.pending == []
    ensures Inv(h.(submitted := h.submitted + [r], sent := h.sent + [|h.submitted|], tries := h.tries + 1))
  {
    SendNext(h.sent, h.lost, |h.submitted|);
  }

  lemma EmitInv<R>(h: Handler<R>, r: R, ok: Oracle)
    requires Inv(h)
    ensures Inv(Emitted(h, r, ok))
    ensures Emitted(h, r, ok).submitted == h.submitted + [r] && Emitted(h, r, ok).maxlen == h.maxlen
  {
    var (h1, drained) := Drain(h, ok);
    assert Inv(h1) && (drained <==> h1.pending == []) by {
      DrainInv(h, ok);
    }
    DrainBase(h, ok);
    if !drained {
      PushInv(h1, r);
    } else if ok(h1.tries) {
      SentInv(h1, r);
    } else {
      TriesInv(h1, h1.tries + 1);
      PushInv(h1.(tries := h1.tries + 1), r);
    }
  }

  function Start<R>(maxlen: Option<nat>): Handler<R> {
    Handler(maxlen, [], [], [], [], [], 0)
  }

  /** The handler after a run of records. */
  ghost function Run<R>(h: Handler<R>, rs: seq<R>, ok: Oracle): (h': Handler<R>)
    requires Inv(h)
    ensures Inv(h') && h'.submitted == h.submitted + rs && h'.maxlen == h.maxlen
    decreases |rs|
  {
    if rs == [] then h
    else
      EmitInv(h, rs[0], ok);
      assert h.submitted + [rs[0]] + rs[1..] == h.submitted + rs;
      Run(Emitted(h, rs[0], ok), rs[1..], ok)
  }

  // ----- results

  /** What syslog has received, in order. */
  ghost function Delivered<R>(h: Handler<R>): seq<R>
    requires Inv(h)
  {
    seq(|h.sent|, i requires 0 <= i < |h.sent| => h.submitted[h.sent[i]])
  }

  /** An unbounded deque loses nothing, keeps the order and repeats nothing, whichever attempts fail. */
  lemma NothingLostUnbounded<R>(rs: seq<R>, ok: Oracle)
    ensures var h := Run(Start(None), rs, ok); Delivered(h) + h.pending == rs
  {
    var h := Run(Start(None), rs, ok);
    assert h.submitted == rs;
    DeliveredInOrder(h);
  }

  lemma DeliveredInOrder<R>(h: Handler<R>)
    requires Inv(h) && h.maxlen.None?
    ensures Delivered(h) + h.pending == h.submitted
  {
    forall i | 0 <= i < |h.sent|
      ensures Delivered(h)[i] == h.submitted[i]
    {
      assert h.sent[i] == i;
    }
    assert Delivered(h) == h.submitted[..Base(h)];
  }

  /** With a bound, pending records are the last ones submitted and no more than the bound; the delivered ones come in
      order of submission and once each; and a record is either pending, delivered or lost. */
  lemma BoundedFate<R>(m: nat, rs: seq<R>, ok: Oracle, i: nat)
    requires i < |rs|
    ensures var h := Run(Start(Some(m)), rs, ok);
            && Base(h) >= 0
            && h.submitted == rs && |h.pending| <= m && h.pending == rs[Base(h)..]
            && Increasing(h.sent) && Increasing(h.lost)
            && (if i >= Base(h) then i !in h.sent && i !in h.lost else (i in h.sent <==> i !in h.lost))
  {
    var h := Run(Start(Some(m)), rs, ok);
    assert h.submitted == [] + rs == rs;
    assert Inv(h) && h.maxlen == Some(m);
    FateOf(h.sent, h.lost, Base(h), i);
  }

  lemma FateOf(sent: seq<nat>, lost: seq<nat>, base: int, i: nat)
    requires Fates(sent, lost, base)
    ensures if i >= base then i !in sent && i !in lost else (i in sent <==> i !in lost)
  {
  }

  /** A record is lost exactly when a new one cannot be sent and finds the deque full, and then it is the oldest pending
      one. */
  lemma LostIffFull<R>(h: Handler<R>, r: R, ok: Oracle)
    requires WithinBound(h)
    ensures var (h1, drained) := Drain(h, ok);
            var queued := !drained || !ok(h1.tries);
            Emitted(h, r, ok).lost == if queued && h.maxlen == Some(|h1.pending|) then h.lost + [Base(h1)] else h.lost
  {
    DrainBase(h, ok);
    var (h1, drained) := Drain(h, ok);
    if !drained {
      PushLoses(h1, r);
    } else if !ok(h1.tries) {
      PushLoses(h1.(tries := h1.tries + 1), r);
    }
  }

  /** The fallback handler gets exactly the records that are not sent when they come. */
  lemma FallsBackIff<R>(h: Handler<R>, r: R, ok: Oracle)
    requires Base(h) >= 0
    ensures var (h1, drained) := Drain(h, ok);
            var queued := !drained || !ok(h1.tries);
            var h2 := Emitted(h, r, ok);
            && h2.fellBack == (if queued then h.fellBack + [|h.submitted|] else h.fellBack)
            && (|h.submitted| in h2.sent && |h.submitted| !in h.sent ==> !queued)
  {
    DrainBase(h, ok);
    DrainFellBack(h, ok);
  }

  /** Draining sends only what was pending, and gives nothing to the fallback handler. */
  lemma {:induction false} DrainFellBack<R>(h: Handler<R>, ok: Oracle)
    requires Base(h) >= 0
    ensures Drain(h, ok).0.fellBack == h.fellBack
    ensures |h.submitted| !in h.sent ==> |h.submitted| !in Drain(h, ok).0.sent
    decreases |h.pending|
  {
    if h.pending != [] && ok(h.tries) {
      DrainFellBack(SendFirst(h), ok);
    }
  }

  lemma PushLoses<R>(h: Handler<R>, r: R)
    requires WithinBound(h)
    ensures Push(h, r).lost == if h.maxlen == Some(|h.pending|) then h.lost + [Base(h)] else h.lost
  {
  }

  /** When syslog is back, the next record brings out everything that was waiting, in order, and then itself. */
  lemma {:induction false} RecoveryDrains<R>(h: Handler<R>, ok: Oracle)
    requires Inv(h) && forall k :: k >= h.tries ==> ok(k)
    ensures Drain(h, ok).1 && |Drain(h, ok).0.sent| == |h.sent| + |h.pending|
    decreases |h.pending|
  {
    if h.pending != [] {
      SendFirstInv(h);
      RecoveryDrains(SendFirst(h), ok);
    }
  }

  lemma RecoveryDelivers<R>(h: Handler<R>, r: R, ok: Oracle)
    requires Inv(h) && forall k :: k >= h.tries ==> ok(k)
    ensures var h' := Emitted(h, r, ok);
            h'.pending == [] && h'.lost == h.lost && |h'.sent| == |h.sent| + |h.pending| + 1
  {
    RecoveryDrains(h, ok);
    DrainInv(h, ok);
    DrainBase(h, ok);
  }

  // ----- the object

  class TNSyslogHandler<R> {
    const maxlen: Option<nat>
    var pendingQueue: seq<R>
    var tries: nat
    ghost var past: Handler<R>

    ghost predicate Valid()
      reads this
    {
      past == past.(maxlen := maxlen, pending := pendingQueue, tries := tries) && Inv(past)
    }

    constructor (maxlen: Option<nat>)
      ensures Valid() && past == Start(maxlen)
    {
      this.maxlen, pendingQueue, tries, past := maxlen, [], 0, Start(maxlen);
    }

    method DrainPendingQueue(ok: Oracle) returns (drained: bool)
      requires Valid()
      modifies this
      ensures Valid() && (past, drained) == Drain(old(past), ok)
      ensures drained <==> pendingQueue == []
    {
      ghost var h0 := past;
      while pendingQueue != []
        invariant Valid() && Drain(past, ok) == Drain(h0, ok)
        decreases |pendingQueue|
      {
        var record := pendingQueue[0];
        pendingQueue := pendingQueue[1..];
        var sent := ok(tries);
        tries := tries + 1;
        if !sent {
          pendingQueue := [record] + pendingQueue;
          assert pendingQueue == past.pending;
          assert Drain(past, ok) == (past.(tries := tries), false);
          TriesInv(past, tries);
          past := past.(tries := tries);
          return false;
        }
        assert Drain(past, ok) == Drain(SendFirst(past), ok);
        SendFirstInv(past);
        past := SendFirst(past);
      }
      drained := true;
    }

    method Append(r: R)
      requires Valid()
      modifies this
      ensures Valid() && past == Push(old(past), r)
    {
      PushInv(past, r);
      pendingQueue := pendingQueue + [r];
      if maxlen.Some? && |pendingQueue| > maxlen.value {
        pendingQueue := pendingQueue[1..];
      }
      past := Push(past, r);
    }

    method Emit(r: R, ok: Oracle)
      requires Valid()
      modifies this
      ensures Valid() && past == Emitted(old(past), r, ok)
    {
      EmitInv(past, r, ok);
      DrainBase(past, ok);
      var drained := DrainPendingQueue(ok);
      if !drained {
        Append(r);
        return;
      }
      var sent := ok(tries);
      tries := tries + 1;
      if sent {
        past := past.(submitted := past.submitted + [r], sent := past.sent + [|past.submitted|], tries := tries);
      } else {
        TriesInv(past, tries);
        past := past.(tries := tries);
        Append(r);
      }
    }
  }
}
