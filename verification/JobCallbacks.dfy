/** The on-finish callback of a job. `Job.run` calls it after setting the finished event and suspends while it runs;
    callers may register one at any time, replacing an earlier one. */
module JobCallbacks {
  import opened Prelude

  /** `Before` the job's own call, `During` it, and `After` it (`on_finish_cb_called`). */
  datatype Moment = Before | During | After

  datatype Callbacks = Callbacks(cb: Option<nat>, moment: Moment, runs: seq<nat>)

  datatype Action = Register(cb: nat) | JobCalls | CallReturns

  const START := Callbacks(None, Before, [])

  function Step(s: Callbacks, a: Action): Callbacks {
    match a
    case Register(c) =>
      s.(cb := Some(c), runs := if s.moment.After? then s.runs + [c] else s.runs)
    case JobCalls =>
      if !s.moment.Before? then s
      else if s.cb.Some? then s.(moment := During, runs := s.runs + [s.cb.value])
      else s.(moment := After)
    case CallReturns =>
      if s.moment.During? then s.(moment := After) else s
  }

  function Run(s: Callbacks, acts: seq<Action>): Callbacks
    decreases |acts|
  {
    if acts == [] then s else Run(Step(s, acts[0]), acts[1..])
  }

  ghost predicate Mentions(acts: seq<Action>, c: nat) {
    Register(c) in acts
  }

  /** Whether a callback registered now, with `later` still to come, is the one the job will call. */
  predicate IsTheOneCalled(m: Moment, later: seq<Action>) {
    match m
    case After => true
    case During => false
    case Before =>
      later != [] && match later[0]
                     case JobCalls => true
                     case Register(_) => false
                     case CallReturns => IsTheOneCalled(Before, later[1..])
  }

  lemma {:induction false} RunConcat(s: Callbacks, a: seq<Action>, b: seq<Action>)
    ensures Run(s, a + b) == Run(Run(s, a), b)
    decreases |a|
  {
    if a == [] {
      assert a + b == b;
    } else {
      assert (a + b)[1..] == a[1..] + b;
      RunConcat(Step(s, a[0]), a[1..], b);
    }
  }

  /** A callback that is not registered in `acts`, nor pending, is not run by them. */
  lemma {:induction false} NotRunBy(s: Callbacks, acts: seq<Action>, c: nat)
    requires !Mentions(acts, c) && (s.moment.Before? ==> s.cb != Some(c))
    ensures Count(Run(s, acts).runs, c) == Count(s.runs, c)
    ensures Run(s, acts).moment.Before? ==> Run(s, acts).cb != Some(c)
    decreases |acts|
  {
    if acts != [] {
      var s1 := Step(s, acts[0]);
      assert s1.runs == s.runs || (s1.runs[..|s1.runs| - 1] == s.runs && s1.runs[|s1.runs| - 1] != c);
      NotRunBy(s1, acts[1..], c);
    }
  }

  lemma {:induction false} PendingRuns(s: Callbacks, later: seq<Action>, c: nat)
    requires s.moment.Before? && s.cb == Some(c) && !Mentions(later, c)
    ensures Count(Run(s, later).runs, c) == Count(s.runs, c) + (if IsTheOneCalled(Before, later) then 1 else 0)
    decreases |later|
  {
    if later != [] {
      var s1 := Step(s, later[0]);
      match later[0]
      case CallReturns => PendingRuns(s1, later[1..], c);
      case Register(_) => NotRunBy(s1, later[1..], c);
      case JobCalls =>
        assert s1.runs[..|s1.runs| - 1] == s.runs;
        NotRunBy(s1, later[1..], c);
    }
  }

  /** A registered callback runs once exactly when it is registered after the job's own call, or before it and not
      replaced in time; otherwise it never runs, in particular when it comes while an earlier one is being called. */
  lemma RunsOnceIff(pre: seq<Action>, c: nat, later: seq<Action>)
    requires !Mentions(pre, c) && !Mentions(later, c)
    ensures Count(Run(START, pre + [Register(c)] + later).runs, c)
         == if IsTheOneCalled(Run(START, pre).moment, later) then 1 else 0
  {
    var s := Run(START, pre);
    var s1 := Step(s, Register(c));
    assert pre + [Register(c)] + later == pre + ([Register(c)] + later);
    RunConcat(START, pre, [Register(c)] + later);
    assert ([Register(c)] + later)[1..] == later;
    NotRunBy(START, pre, c);
    match s.moment
    case Before => PendingRuns(s1, later, c);
    case During => NotRunBy(s1, later, c);
    case After =>
      assert s1.runs[..|s1.runs| - 1] == s.runs;
      NotRunBy(s1, later, c);
  }

  lemma {:induction false} BeforeTheCall(acts: seq<Action>)
    requires JobCalls !in acts
    ensures Run(START, acts).moment.Before?
    ensures Run(START, acts).cb.None? <==> NoRegistration(acts)
  {
    BeforeFrom(START, acts);
  }

  lemma {:induction false} BeforeFrom(s: Callbacks, acts: seq<Action>)
    requires JobCalls !in acts && s.moment.Before?
    ensures Run(s, acts).moment.Before?
    ensures Run(s, acts).cb.None? <==> s.cb.None? && NoRegistration(acts)
    decreases |acts|
  {
    if acts != [] {
      BeforeFrom(Step(s, acts[0]), acts[1..]);
    }
  }

  lemma {:induction false} AfterFrom(s: Callbacks, acts: seq<Action>)
    requires !s.moment.Before?
    ensures Run(s, acts).moment == if s.moment.After? || CallReturns in acts then After else During
    decreases |acts|
  {
    if acts != [] {
      AfterFrom(Step(s, acts[0]), acts[1..]);
    }
  }

  /** Callbacks are called at once from the moment on when the job's own call is over: at once if it had none to call,
      and otherwise when that has returned. */
  lemma CallIsOverIff(pre: seq<Action>, later: seq<Action>)
    requires JobCalls !in pre
    ensures Run(START, pre).moment.Before?
    ensures Run(START, pre + [JobCalls] + later).moment
         == if NoRegistration(pre) || CallReturns in later then After else During
  {
    BeforeTheCall(pre);
    assert pre + [JobCalls] + later == pre + ([JobCalls] + later);
    RunConcat(START, pre, [JobCalls] + later);
    assert ([JobCalls] + later)[1..] == later;
    AfterFrom(Step(Run(START, pre), JobCalls), later);
  }

  ghost predicate NoRegistration(acts: seq<Action>) {
    forall i :: 0 <= i < |acts| ==> !acts[i].Register?
  }

  lemma {:induction false} WithoutRegistration(s: Callbacks, acts: seq<Action>)
    requires NoRegistration(acts) && s.cb.None? && !s.moment.During?
    ensures var s' := Run(s, acts);
            s'.cb.None? && s'.moment == if s.moment.After? || JobCalls in acts then After else Before
    decreases |acts|
  {
    if acts != [] {
      WithoutRegistration(Step(s, acts[0]), acts[1..]);
    }
  }

  lemma {:induction false} CalledLater(later: seq<Action>)
    requires NoRegistration(later) && JobCalls in later
    ensures IsTheOneCalled(Before, later)
  {
    if !later[0].JobCalls? {
      CalledLater(later[1..]);
    }
  }

  /** The only callback of a job that gets to its call runs exactly once, registered before or after. */
  lemma SingleRegistrationRunsOnce(pre: seq<Action>, c: nat, later: seq<Action>)
    requires NoRegistration(pre) && NoRegistration(later) && (JobCalls in pre || JobCalls in later)
    ensures Count(Run(START, pre + [Register(c)] + later).runs, c) == 1
  {
    RunsOnceIff(pre, c, later);
    WithoutRegistration(START, pre);
    if JobCalls !in pre {
      CalledLater(later);
    }
  }

  /** Two callers share a merged job and both register before it finishes: the first callback is never run. */
  lemma FirstOfTwoIsLost(c: nat, d: nat, later: seq<Action>)
    requires c != d && !Mentions(later, c)
    ensures Count(Run(START, [Register(c), Register(d)] + later).runs, c) == 0
  {
    RunsOnceIff([], c, [Register(d)] + later);
    assert [] + [Register(c)] + ([Register(d)] + later) == [Register(c), Register(d)] + later;
  }

  /** The callback fields of a job object. */
  class JobCallback {
    var onFinishCb: Option<nat>
    var onFinishCbCalled: bool
    ghost var moment: Moment
    ghost var runs: seq<nat>

    ghost predicate Valid()
      reads this
    {
      onFinishCbCalled <==> moment.After?
    }

    ghost function State(): Callbacks
      reads this
    {
      Callbacks(onFinishCb, moment, runs)
    }

    constructor ()
      ensures Valid() && State() == START
    {
      onFinishCb, onFinishCbCalled, moment, runs := None, false, Before, [];
    }

    method SetOnFinishCb(c: nat)
      requires Valid()
      modifies this
      ensures Valid() && State() == Step(old(State()), Register(c))
    {
      onFinishCb := Some(c);
      if onFinishCbCalled {
        runs := runs + [c];
      }
    }

    /** `call_on_finish_cb` up to its suspension, when called by the job's task. */
    method JobCallsOnFinishCb()
      requires Valid() && moment.Before?
      modifies this
      ensures Valid() && State() == Step(old(State()), JobCalls)
    {
      if onFinishCb.Some? {
        runs, moment := runs + [onFinishCb.value], During;
      } else {
        onFinishCbCalled, moment := true, After;
      }
    }

    method CallbackReturned()
      requires Valid() && moment.During?
      modifies this
      ensures Valid() && State() == Step(old(State()), CallReturns)
    {
      onFinishCbCalled, moment := true, After;
    }
  }
}
