/** `JobProgressBuffer`: progress updates of a job, thinned out to one per interval. */
module ProgressBuffer {
  import opened Prelude

  /** A call of `job.set_progress`: when, which submission it carries, and whether `flush` made it. */
  datatype Send<T> = Send(at: real, source: nat, body: T, flushed: bool)

  /** `pending` is the body held back, `timer` the time the armed timer is due, `cancelled` that the latest
      submission was dropped by `cancel`; `submitted` and `sent` are the history. */
  datatype Buffer<T> = Buffer(interval: real, now: real, lastUpdate: real, pending: Option<T>, timer: Option<real>,
                              cancelled: bool, submitted: seq<T>, sent: seq<Send<T>>)

  datatype Action<T> = SetProgress(body: T) | TimerFires | Cancel | Flush

  function Start<T>(interval: real, now: real): Buffer<T> {
    Buffer(interval, now, 0.0, None, None, false, [], [])
  }

  function Emit<T>(b: Buffer<T>, body: T, flushed: bool): Buffer<T>
    requires b.submitted != []
  {
    b.(lastUpdate := b.now, pending := None, timer := None,
       sent := b.sent + [Send(b.now, |b.submitted| - 1, body, flushed)])
  }

  function Submit<T>(b: Buffer<T>, body: T): Buffer<T> {
    var b1 := b.(submitted := b.submitted + [body], cancelled := false);
    if b.now - b.lastUpdate >= b.interval then Emit(b1, body, false)
    else b1.(pending := Some(body), timer := if b.timer.Some? then b.timer else Some(b.now + b.interval))
  }

  predicate Enabled<T>(b: Buffer<T>, a: Action<T>) {
    match a
    case TimerFires => b.timer.Some? && b.timer.value <= b.now
    case _ => true
  }

  function DoPending<T>(b: Buffer<T>, flushed: bool): Buffer<T> {
    if b.pending.Some? && b.submitted != [] then Emit(b, b.pending.value, flushed) else b
  }

  /** The clock moves on to `t`, then `a` happens. */
  function Step<T>(b: Buffer<T>, t: real, a: Action<T>): Buffer<T> {
    var b := b.(now := if t > b.now then t else b.now);
    if !Enabled(b, a) then b
    else
      match a
      case SetProgress(body) => Submit(b, body)
      case TimerFires => DoPending(b, false)
      case Cancel => b.(pending := None, timer := None, cancelled := b.cancelled || b.timer.Some?)
      case Flush => if b.timer.Some? then DoPending(b, true) else b
  }

  function Run<T>(b: Buffer<T>, acts: seq<(real, Action<T>)>): Buffer<T>
    decreases |acts|
  {
    if acts == [] then b else Run(Step(b, acts[0].0, acts[0].1), acts[1..])
  }

  ghost predicate SentOk<T>(b: Buffer<T>) {
    && (forall i :: 0 <= i < |b.sent| ==>
          b.sent[i].source < |b.submitted| && b.sent[i].body == b.submitted[b.sent[i].source])
    && (forall i, k :: 0 <= i < k < |b.sent| ==> b.sent[i].source < b.sent[k].source)
    && (forall i :: 0 < i < |b.sent| && !b.sent[i].flushed ==> b.sent[i].at - b.sent[i - 1].at >= b.interval)
  }

  ghost predicate LatestSent<T>(b: Buffer<T>) {
    b.sent != [] && b.sent[|b.sent| - 1].source == |b.submitted| - 1
  }

  /** The latest submission is delivered, held with a timer due within one interval, or was cancelled. */
  ghost predicate LatestOk<T>(b: Buffer<T>) {
    && (b.timer.Some? <==> b.pending.Some?)
    && (b.pending.Some? ==>
          && b.submitted != [] && b.pending.value == b.submitted[|b.submitted| - 1] && !LatestSent(b)
          && b.timer.value <= b.now + b.interval
          && (b.sent != [] ==> b.lastUpdate + b.interval <= b.timer.value))
    && (b.submitted != [] && b.pending.None? && !b.cancelled ==> LatestSent(b))
  }

  ghost predicate Inv<T>(b: Buffer<T>) {
    && SentOk(b) && LatestOk(b)
    && (b.sent != [] ==> b.lastUpdate == b.sent[|b.sent| - 1].at <= b.now)
  }

  /** Sending the latest submission, not sent yet, by `flush` or an interval after the last send. */
  lemma EmitInv<T>(b: Buffer<T>, flushed: bool)
    requires SentOk(b) && b.submitted != [] && !LatestSent(b)
    requires b.sent != [] ==> b.lastUpdate == b.sent[|b.sent| - 1].at
    requires b.sent != [] && !flushed ==> b.now - b.lastUpdate >= b.interval
    ensures Inv(Emit(b, b.submitted[|b.submitted| - 1], flushed))
    ensures LatestSent(Emit(b, b.submitted[|b.submitted| - 1], flushed))
  {
    var b1 := Emit(b, b.submitted[|b.submitted| - 1], flushed);
    var n := |b.sent|;
    assert forall i :: 0 <= i < n ==> b1.sent[i] == b.sent[i];
    assert forall i :: 0 <= i < n ==> b.sent[i].source <= b.sent[n - 1].source;
  }

  lemma SubmitInv<T>(b: Buffer<T>, body: T)
    requires Inv(b)
    ensures Inv(Submit(b, body))
  {
    var b1 := b.(submitted := b.submitted + [body], cancelled := false);
    SubmittedOk(b, body);
    if b.now - b.lastUpdate >= b.interval {
      EmitInv(b1, false);
    } else {
      assert SentOk(Submit(b, body)) && !LatestSent(Submit(b, body));
    }
  }

  /** A new submission leaves the sends as they are, and is not among them. */
  lemma SubmittedOk<T>(b: Buffer<T>, body: T)
    requires SentOk(b)
    ensures var b1 := b.(submitted := b.submitted + [body], cancelled := false); SentOk(b1) && !LatestSent(b1)
  {
  }

  lemma LaterInv<T>(b: Buffer<T>, t: real)
    requires Inv(b) && t >= b.now
    ensures Inv(b.(now := t))
  {
    var b1 := b.(now := t);
    assert SentOk(b1) && (LatestSent(b1) <==> LatestSent(b));
  }

  lemma CancelInv<T>(b: Buffer<T>)
    requires Inv(b)
    ensures Inv(b.(pending := None, timer := None, cancelled := b.cancelled || b.timer.Some?))
  {
    var b1 := b.(pending := None, timer := None, cancelled := b.cancelled || b.timer.Some?);
    assert SentOk(b1) && (LatestSent(b1) <==> LatestSent(b));
  }

  /** The timer fires an interval after the last send, or `flush` does not wait for it. */
  lemma PendingInv<T>(b: Buffer<T>, flushed: bool)
    requires Inv(b) && b.timer.Some? && (flushed || b.timer.value <= b.now)
    ensures Inv(DoPending(b, flushed))
  {
    EmitInv(b, flushed);
  }

  /** A step taken without the clock moving. */
  lemma StepNowInv<T>(b: Buffer<T>, a: Action<T>)
    requires Inv(b)
    ensures Inv(Step(b, b.now, a))
  {
    match a
    case SetProgress(body) => SubmitInv(b, body);
    case TimerFires => if Enabled(b, a) { PendingInv(b, false); }
    case Cancel => CancelInv(b);
    case Flush => if b.timer.Some? { PendingInv(b, true); }
  }

  lemma StepInv<T>(b: Buffer<T>, t: real, a: Action<T>)
    requires Inv(b)
    ensures Inv(Step(b, t, a))
  {
    var now := if t > b.now then t else b.now;
    LaterInv(b, now);
    StepLater(b, t, a);
    StepNowInv(b.(now := now), a);
  }

  lemma StepLater<T>(b: Buffer<T>, t: real, a: Action<T>)
    ensures var now := if t > b.now then t else b.now; Step(b, t, a) == Step(b.(now := now), now, a)
  {
  }

  lemma {:induction false} RunInv<T>(b: Buffer<T>, acts: seq<(real, Action<T>)>)
    requires Inv(b)
    ensures Inv(Run(b, acts))
    decreases |acts|
  {
    if acts != [] {
      StepInv(b, acts[0].0, acts[0].1);
      RunInv(Step(b, acts[0].0, acts[0].1), acts[1..]);
    }
  }

  /** For every run: sends are a subsequence of the submissions, each not made by `flush` comes at least an interval
      after the one before, and the latest submission is delivered, or held with an armed timer, or was cancelled. */
  lemma Throttled<T>(interval: real, now: real, acts: seq<(real, Action<T>)>)
    ensures var b := Run(Start(interval, now), acts);
            && (forall i :: 0 <= i < |b.sent| ==>
                  b.sent[i].source < |b.submitted| && b.sent[i].body == b.submitted[b.sent[i].source])
            && (forall i, k :: 0 <= i < k < |b.sent| ==> b.sent[i].source < b.sent[k].source)
            && (forall i :: 0 < i < |b.sent| && !b.sent[i].flushed ==> b.sent[i].at - b.sent[i - 1].at >= interval)
            && (b.submitted == [] || LatestSent(b) || b.cancelled
                || (b.pending == Some(b.submitted[|b.submitted| - 1]) && b.timer.Some?))
  {
    RunInv(Start(interval, now), acts);
    RunInterval(Start(interval, now), acts);
  }

  lemma {:induction false} RunInterval<T>(b: Buffer<T>, acts: seq<(real, Action<T>)>)
    ensures Run(b, acts).interval == b.interval
    decreases |acts|
  {
    if acts != [] {
      RunInterval(Step(b, acts[0].0, acts[0].1), acts[1..]);
    }
  }

  lemma {:induction false} OnlyCancelCancels<T>(b: Buffer<T>, acts: seq<(real, Action<T>)>)
    requires !b.cancelled && forall i :: 0 <= i < |acts| ==> !acts[i].1.Cancel?
    ensures !Run(b, acts).cancelled
    decreases |acts|
  {
    if acts != [] {
      OnlyCancelCancels(Step(b, acts[0].0, acts[0].1), acts[1..]);
    }
  }

  /** Without `cancel` no latest submission is ever lost, and when its timer fires it is sent. */
  lemma NothingLostWithoutCancel<T>(interval: real, now: real, acts: seq<(real, Action<T>)>, t: real)
    requires forall i :: 0 <= i < |acts| ==> !acts[i].1.Cancel?
    ensures var b := Run(Start(interval, now), acts);
            b.submitted != [] ==>
              || LatestSent(b)
              || (b.timer.Some? && (t >= b.timer.value ==> LatestSent(Step(b, t, TimerFires))))
  {
    RunInv(Start(interval, now), acts);
    OnlyCancelCancels(Start(interval, now), acts);
    StepInv(Run(Start(interval, now), acts), t, TimerFires);
  }

  /** When the timer fires, the latest submission is sent and nothing is held any more. */
  lemma TimerSends<T>(b: Buffer<T>, t: real)
    requires Inv(b) && t >= b.now && b.timer.Some? && t >= b.timer.value
    ensures var b1 := Step(b, t, TimerFires);
            && Inv(b1) && LatestSent(b1) && b1.interval == b.interval
            && b1.lastUpdate == t && b1.pending.None? && b1.timer.None?
  {
    StepInv(b, t, TimerFires);
  }

  /** A submission is sent at once exactly when an interval has passed since the last send. Otherwise it takes the place
      of the one held, and a timer that is armed stays as it is. */
  lemma SentAtOnceIff<T>(b: Buffer<T>, t: real, body: T)
    requires Inv(b) && t >= b.now
    ensures var b1 := Step(b, t, SetProgress(body));
            && (LatestSent(b1) <==> t - b.lastUpdate >= b.interval)
            && (LatestSent(b1) ==> b1.sent == b.sent + [Send(t, |b.submitted|, body, false)])
            && (!LatestSent(b1) ==>
                  && b1.sent == b.sent && b1.pending == Some(body)
                  && b1.timer == if b.timer.Some? then b.timer else Some(t + b.interval))
  {
    assert !LatestSent(b.(submitted := b.submitted + [body]));
  }

  /** The first submission of all is sent at once exactly when the clock, which counts from 0, shows an interval. */
  lemma FirstSentIff<T>(interval: real, now: real, t: real, body: T)
    requires t >= now
    ensures LatestSent(Step(Start(interval, now), t, SetProgress(body))) <==> t >= interval
  {
  }

  ghost predicate OnlySubmits<T>(acts: seq<(real, Action<T>)>) {
    forall i :: 0 <= i < |acts| ==> acts[i].1.SetProgress?
  }

  lemma {:induction false} SentGrows<T>(b: Buffer<T>, acts: seq<(real, Action<T>)>)
    ensures b.sent <= Run(b, acts).sent
    decreases |acts|
  {
    if acts != [] {
      SentGrows(Step(b, acts[0].0, acts[0].1), acts[1..]);
    }
  }

  /** However many submissions follow, they do not put off an armed timer: it stands until something is sent. */
  lemma {:induction false} TimerStands<T>(b: Buffer<T>, acts: seq<(real, Action<T>)>)
    requires b.timer.Some? && OnlySubmits(acts)
    ensures Run(b, acts).timer == b.timer || |Run(b, acts).sent| > |b.sent|
    decreases |acts|
  {
    if acts != [] {
      var b1 := Step(b, acts[0].0, acts[0].1);
      if b1.timer == b.timer {
        TimerStands(b1, acts[1..]);
      } else {
        SentGrows(b1, acts[1..]);
      }
    }
  }

  /** `flush` sends what is held, at once and marked as such; without anything held it does nothing. */
  lemma FlushSends<T>(b: Buffer<T>, t: real)
    requires Inv(b) && t >= b.now
    ensures var b1 := Step(b, t, Flush);
            if b.timer.None? then b1 == b.(now := t)
            else
              && b1.sent == b.sent + [Send(t, |b.submitted| - 1, b.submitted[|b.submitted| - 1], true)]
              && b1.pending.None? && b1.timer.None? && b1.lastUpdate == t
  {
  }

  /** Submission number `n` is not sent and never will be. */
  ghost predicate Dropped<T>(b: Buffer<T>, n: nat) {
    && n < |b.submitted| && (b.pending.Some? ==> n < |b.submitted| - 1)
    && forall i :: 0 <= i < |b.sent| ==> b.sent[i].source != n
  }

  lemma {:induction false} DroppedForGood<T>(b: Buffer<T>, n: nat, acts: seq<(real, Action<T>)>)
    requires Dropped(b, n)
    ensures Dropped(Run(b, acts), n)
    decreases |acts|
  {
    if acts != [] {
      DroppedForGood(Step(b, acts[0].0, acts[0].1), n, acts[1..]);
    }
  }

  /** `cancel` drops what is held: it is sent in no continuation. */
  lemma CancelledIsNeverSent<T>(b: Buffer<T>, t: real, acts: seq<(real, Action<T>)>)
    requires Inv(b) && b.pending.Some?
    ensures var b1 := Step(b, t, Cancel);
            && b1.pending.None? && b1.timer.None? && b1.sent == b.sent
            && Dropped(Run(b1, acts), |b.submitted| - 1)
  {
    var b1, n := Step(b, t, Cancel), |b.submitted| - 1;
    forall i | 0 <= i < |b.sent|
      ensures b.sent[i].source != n
    {
      assert i < |b.sent| - 1 ==> b.sent[i].source < b.sent[|b.sent| - 1].source;
    }
    DroppedForGood(b1, n, acts);
  }

  /** What a submission leaves in the buffer's own fields. */
  lemma SubmitFields<T>(b: Buffer<T>, t: real, body: T)
    requires t >= b.now
    ensures var b1 := Step(b, t, SetProgress(body));
            && b1.interval == b.interval
            && (t - b.lastUpdate >= b.interval ==> b1.lastUpdate == t && b1.pending.None? && b1.timer.None?)
            && (t - b.lastUpdate < b.interval ==>
                  && b1.lastUpdate == b.lastUpdate && b1.pending == Some(body)
                  && b1.timer == if b.timer.Some? then b.timer else Some(t + b.interval))
  {
  }

  /** The buffer object; `now` stands for the clock it reads, the ghost fields for what it has done so far. */
  class JobProgressBuffer<T> {
    const interval: real
    var lastUpdateAt: real
    var pendingUpdateBody: Option<T>
    var pendingUpdate: Option<real>
    ghost var past: Buffer<T>

    ghost predicate Valid()
      reads this
    {
      && past == past.(interval := interval, lastUpdate := lastUpdateAt, pending := pendingUpdateBody,
                       timer := pendingUpdate)
      && Inv(past)
    }

    constructor (interval: real, ghost now: real)
      ensures Valid() && past == Start(interval, now) && this.interval == interval
    {
      this.interval, lastUpdateAt, pendingUpdateBody, pendingUpdate := interval, 0.0, None, None;
      past := Start(interval, now);
    }

    method SetProgress(t: real, body: T)
      requires Valid() && t >= past.now
      modifies this
      ensures Valid() && past == Step(old(past), t, Action.SetProgress(body))
    {
      ghost var b := Step(past, t, Action.SetProgress(body));
      StepInv(past, t, Action.SetProgress(body));
      SubmitFields(past, t, body);
      past := b;
      if t - lastUpdateAt >= interval {
        pendingUpdateBody, pendingUpdate := None, None;
        lastUpdateAt := t;
      } else {
        pendingUpdateBody := Some(body);
        if pendingUpdate.None? {
          pendingUpdate := Some(t + interval);
        }
      }
    }

    method Cancel(ghost t: real)
      requires Valid() && t >= past.now
      modifies this
      ensures Valid() && past == Step(old(past), t, Action.Cancel)
    {
      if pendingUpdate.Some? {
        pendingUpdateBody, pendingUpdate := None, None;
      }
      StepInv(past, t, Action.Cancel);
      past := Step(past, t, Action.Cancel);
    }

    method Flush(t: real)
      requires Valid() && t >= past.now
      modifies this
      ensures Valid() && past == Step(old(past), t, Action.Flush)
    {
      if pendingUpdate.Some? {
        lastUpdateAt, pendingUpdateBody, pendingUpdate := t, None, None;
      }
      StepInv(past, t, Action.Flush);
      past := Step(past, t, Action.Flush);
    }

    /** The armed timer calls back, no earlier than it is due. */
    method TimerFires(t: real)
      requires Valid() && t >= past.now && pendingUpdate.Some? && t >= pendingUpdate.value
      modifies this
      ensures Valid() && past == Step(old(past), t, Action.TimerFires)
      ensures LatestSent(past)
    {
      lastUpdateAt, pendingUpdateBody, pendingUpdate := t, None, None;
      TimerSends(past, t);
      past := Step(past, t, Action.TimerFires);
    }
  }
}
