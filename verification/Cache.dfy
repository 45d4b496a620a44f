/** `KVCache`: a key-value store whose entries expire lazily, against a map that purges itself at every operation. */
module Cache {
  import opened Prelude

  /** A stored entry; timeout 0 means it never expires. */
  datatype Entry<V> = Entry(timeout: int, value: V)

  type Store<V> = map<string, Entry<V>>

  predicate Expired<V>(e: Entry<V>, now: int) {
    e.timeout != 0 && now > e.timeout
  }

  /** `GetOrPut` carries what `method()` would return and the clock's reading after it. */
  datatype Op<V> = Get(key: string) | Put(key: string, value: V, timeout: int)
                 | GetOrPut(key: string, timeout: int, made: V, later: int)
                 | Pop(key: string) | HasKey(key: string) | CleanupExpired

  datatype Reply<V> = Found(value: V) | Missing | Quiet

  /** A missing or expired key. */
  predicate Absent<V>(s: Store<V>, k: string, now: int) {
    k !in s || Expired(s[k], now)
  }

  function Deadline(now: int, timeout: int): int {
    if timeout != 0 then now + timeout else 0
  }

  function Cleaned<V>(s: Store<V>, now: int): Store<V> {
    map k | k in s && !Expired(s[k], now) :: s[k]
  }

  function Step<V>(s: Store<V>, now: int, op: Op<V>): Store<V> {
    match op
    case Get(k) => if Absent(s, k, now) then s - {k} else s
    case Put(k, v, timeout) => s[k := Entry(Deadline(now, timeout), v)]
    case GetOrPut(k, timeout, v, later) => if Absent(s, k, now) then s[k := Entry(later + timeout, v)] else s
    case Pop(k) => s - {k}
    case HasKey(_) => s
    case CleanupExpired => Cleaned(s, now)
  }

  function Answer<V>(s: Store<V>, now: int, op: Op<V>): Reply<V> {
    match op
    case Get(k) => if Absent(s, k, now) then Missing else Found(s[k].value)
    case Put(_, _, _) => Quiet
    case GetOrPut(k, _, v, _) => Found(if Absent(s, k, now) then v else s[k].value)
    case Pop(k) => if k in s then Found(s[k].value) else Missing
    case HasKey(k) => if k in s then Quiet else Missing
    case CleanupExpired => Quiet
  }

  // ----- the eager map

  /** A live entry with its deadline, if it has one. */
  datatype Timed<V> = Timed(value: V, deadline: Option<int>)

  type Eager<V> = map<string, Timed<V>>

  predicate Past(d: Option<int>, now: int) {
    d.Some? && now > d.value
  }

  function Purge<V>(m: Eager<V>, now: int): Eager<V> {
    map k | k in m && !Past(m[k].deadline, now) :: m[k]
  }

  /** The eager map purges, then behaves as a plain map. */
  function EagerStep<V>(m: Eager<V>, now: int, op: Op<V>): Eager<V> {
    var m := Purge(m, now);
    match op
    case Put(k, v, timeout) => m[k := Timed(v, if timeout == 0 then None else Some(now + timeout))]
    case GetOrPut(k, timeout, v, later) => if k in m then m else m[k := Timed(v, Some(later + timeout))]
    case Pop(k) => m - {k}
    case _ => m
  }

  function EagerAnswer<V>(m: Eager<V>, now: int, op: Op<V>): Reply<V> {
    var m := Purge(m, now);
    match op
    case Get(k) => if k in m then Found(m[k].value) else Missing
    case GetOrPut(k, _, v, _) => Found(if k in m then m[k].value else v)
    case Pop(k) => if k in m then Found(m[k].value) else Missing
    case HasKey(k) => if k in m then Quiet else Missing
    case _ => Quiet
  }

  // ----- the store refines it

  function AsTimed<V>(e: Entry<V>): Timed<V> {
    Timed(e.value, if e.timeout == 0 then None else Some(e.timeout))
  }

  /** What of the store is alive. */
  function Live<V>(s: Store<V>, now: int): Eager<V> {
    map k | k in s && !Expired(s[k], now) :: AsTimed(s[k])
  }

  /** The operation's own clock: it starts at `now` and ends no earlier. */
  function End<V>(now: int, op: Op<V>): int {
    if op.GetOrPut? then op.later else now
  }

  /** No deadline falls on 0, the mark of "never": so it is for a positive clock and timeouts of 0 or more. */
  predicate Proper<V>(now: int, op: Op<V>) {
    && now <= End(now, op)
    && (op.Put? && op.timeout != 0 ==> now + op.timeout != 0)
    && (op.GetOrPut? ==> op.later + op.timeout != 0)
  }

  lemma ProperOnPositiveClock<V>(now: int, op: Op<V>)
    requires 0 < now <= End(now, op) && (op.Put? || op.GetOrPut? ==> op.timeout >= 0)
    ensures Proper(now, op)
  {
  }

  ghost predicate Refines<V>(s: Store<V>, m: Eager<V>, now: int) {
    Live(s, now) == Purge(m, now)
  }

  lemma LiveLater<V>(s: Store<V>, m: Eager<V>, now: int, t: int)
    requires Refines(s, m, now) && now <= t
    ensures Refines(s, m, t)
  {
    forall k
      ensures (k in Live(s, t) <==> k in Purge(m, t)) && (k in Live(s, t) ==> Live(s, t)[k] == Purge(m, t)[k])
    {
      assert k in Live(s, now) <==> k in Purge(m, now);
      assert k in Live(s, now) ==> Live(s, now)[k] == Purge(m, now)[k];
    }
  }

  lemma StepRefines<V>(s: Store<V>, m: Eager<V>, now: int, op: Op<V>)
    requires Refines(s, m, now) && Proper(now, op)
    ensures Refines(Step(s, now, op), EagerStep(m, now, op), End(now, op))
  {
    var t := End(now, op);
    var s', m' := Step(s, now, op), EagerStep(m, now, op);
    LiveLater(s, m, now, t);
    forall k
      ensures (k in Live(s', t) <==> k in Purge(m', t)) && (k in Live(s', t) ==> Live(s', t)[k] == Purge(m', t)[k])
    {
      assert k in Live(s, now) <==> k in Purge(m, now);
      assert k in Live(s, now) ==> Live(s, now)[k] == Purge(m, now)[k];
      assert k in Live(s, t) <==> k in Purge(m, t);
      assert k in Live(s, t) ==> Live(s, t)[k] == Purge(m, t)[k];
    }
  }

  /** `get` and `get_or_put` answer as the eager map does; `pop` and `has_key` do so unless an expired entry of the key
      is still lying in the store. */
  lemma AnswerRefines<V>(s: Store<V>, m: Eager<V>, now: int, op: Op<V>)
    requires Refines(s, m, now)
    ensures !op.Pop? && !op.HasKey? ==> Answer(s, now, op) == EagerAnswer(m, now, op)
    ensures op.Pop? || op.HasKey? ==>
              (Answer(s, now, op) == EagerAnswer(m, now, op) <==> !(op.key in s && Expired(s[op.key], now)))
  {
    if !op.CleanupExpired? {
      assert op.key in Live(s, now) <==> op.key in Purge(m, now);
      assert op.key in Live(s, now) ==> Live(s, now)[op.key] == Purge(m, now)[op.key];
    }
  }

  /** A run: operations with the times at which they start. */
  datatype Event<V> = Event(time: int, op: Op<V>)

  ghost predicate Timely<V>(events: seq<Event<V>>, now: int) {
    events == [] || (now <= events[0].time && Proper(events[0].time, events[0].op)
                     && Timely(events[1..], End(events[0].time, events[0].op)))
  }

  function Answers<V>(s: Store<V>, events: seq<Event<V>>): seq<Reply<V>>
    decreases |events|
  {
    if events == [] then []
    else
      var e := events[0];
      (if e.op.Get? || e.op.GetOrPut? then [Answer(s, e.time, e.op)] else [])
      + Answers(Step(s, e.time, e.op), events[1..])
  }

  function EagerAnswers<V>(m: Eager<V>, events: seq<Event<V>>): seq<Reply<V>>
    decreases |events|
  {
    if events == [] then []
    else
      var e := events[0];
      (if e.op.Get? || e.op.GetOrPut? then [EagerAnswer(m, e.time, e.op)] else [])
      + EagerAnswers(EagerStep(m, e.time, e.op), events[1..])
  }

  /** Over every run on a monotone clock, all answers of `get` and `get_or_put` are those of the eager map. */
  lemma {:induction false} RunRefines<V>(s: Store<V>, m: Eager<V>, now: int, events: seq<Event<V>>)
    requires Refines(s, m, now) && Timely(events, now)
    ensures Answers(s, events) == EagerAnswers(m, events)
    decreases |events|
  {
    if events != [] {
      var e := events[0];
      LiveLater(s, m, now, e.time);
      AnswerRefines(s, m, e.time, e.op);
      StepRefines(s, m, e.time, e.op);
      RunRefines(Step(s, e.time, e.op), EagerStep(m, e.time, e.op), End(e.time, e.op), events[1..]);
    }
  }

  // ----- cleaning up, and looking, change no later answer

  /** The run with some clean-ups and `get`s inserted: `extra` marks them. */
  ghost predicate OnlyLooks<V>(events: seq<Event<V>>, extra: seq<bool>) {
    && |extra| == |events|
    && forall i :: 0 <= i < |events| && extra[i] ==> events[i].op.Get? || events[i].op.CleanupExpired?
  }

  function Kept<T>(xs: seq<T>, extra: seq<bool>): seq<T>
    requires |extra| == |xs|
  {
    if xs == [] then [] else (if extra[0] then [] else [xs[0]]) + Kept(xs[1..], extra[1..])
  }

  /** The answers to the operations that are not extra. */
  function KeptAnswers<V>(s: Store<V>, events: seq<Event<V>>, extra: seq<bool>): seq<Reply<V>>
    requires |extra| == |events|
    decreases |events|
  {
    if events == [] then []
    else
      var e := events[0];
      (if !extra[0] && (e.op.Get? || e.op.GetOrPut?) then [Answer(s, e.time, e.op)] else [])
      + KeptAnswers(Step(s, e.time, e.op), events[1..], extra[1..])
  }

  lemma LookKeepsLive<V>(s: Store<V>, m: Eager<V>, now: int, op: Op<V>)
    requires Refines(s, m, now) && (op.Get? || op.CleanupExpired?)
    ensures Refines(Step(s, now, op), m, now)
  {
    var s' := Step(s, now, op);
    forall k
      ensures k in Live(s', now) <==> k in Live(s, now)
      ensures k in Live(s', now) ==> Live(s', now)[k] == Live(s, now)[k]
    {
    }
  }

  /** Inserting any number of clean-ups and `get`s, expired or not, anywhere in a run changes no other answer. */
  lemma {:induction false} LooksChangeNothing<V>(s: Store<V>, u: Store<V>, m: Eager<V>, now: int,
                                                  events: seq<Event<V>>, extra: seq<bool>)
    requires Refines(s, m, now) && Refines(u, m, now) && Timely(events, now) && OnlyLooks(events, extra)
    ensures KeptAnswers(s, events, extra) == Answers(u, Kept(events, extra))
    decreases |events|
  {
    if events != [] {
      var e := events[0];
      LiveLater(s, m, now, e.time);
      LiveLater(u, m, now, e.time);
      var s' := Step(s, e.time, e.op);
      if extra[0] {
        LookKeepsLive(s, m, e.time, e.op);
        LooksChangeNothing(s', u, m, e.time, events[1..], extra[1..]);
        assert Kept(events, extra) == Kept(events[1..], extra[1..]);
        assert KeptAnswers(s, events, extra) == KeptAnswers(s', events[1..], extra[1..]);
      } else {
        var u', m' := Step(u, e.time, e.op), EagerStep(m, e.time, e.op);
        AnswerRefines(s, m, e.time, e.op);
        AnswerRefines(u, m, e.time, e.op);
        StepRefines(s, m, e.time, e.op);
        StepRefines(u, m, e.time, e.op);
        LooksChangeNothing(s', u', m', End(e.time, e.op), events[1..], extra[1..]);
        assert Kept(events, extra) == [e] + Kept(events[1..], extra[1..]);
        assert ([e] + Kept(events[1..], extra[1..]))[1..] == Kept(events[1..], extra[1..]);
      }
    }
  }

  /** A clean-up deletes exactly what has expired: right after it every operation, `pop` and `has_key` included, answers
      as the eager map does. */
  lemma CleanedAnswers<V>(s: Store<V>, m: Eager<V>, now: int, op: Op<V>)
    requires Refines(s, m, now)
    ensures Answer(Step(s, now, CleanupExpired), now, op) == EagerAnswer(m, now, op)
    ensures forall k :: k in Step(s, now, CleanupExpired) <==> k in s && !(s[k].timeout != 0 && now > s[k].timeout)
  {
    var s1 := Step(s, now, CleanupExpired);
    LookKeepsLive(s, m, now, CleanupExpired);
    AnswerRefines(s1, m, now, op);
  }

  /** A `get` of an expired key deletes it, so that `pop` and `has_key` of that key then answer as the eager map
      does. */
  lemma GetForgetsExpired<V>(s: Store<V>, m: Eager<V>, now: int, key: string, op: Op<V>)
    requires Refines(s, m, now) && (op == Pop(key) || op == HasKey(key))
    ensures Answer(Step(s, now, Get(key)), now, op) == EagerAnswer(m, now, op)
  {
    LookKeepsLive(s, m, now, Get(key));
    AnswerRefines(Step(s, now, Get(key)), m, now, op);
  }

  /** A value put for ten seconds at time 1: at time 20 it is gone for `get`, and `has_key` and `pop` still find it. */
  lemma PopSeesExpired<V>(v: V)
    ensures var s := Step(map[], 1, Put("k", v, 10));
            && Answer(s, 20, Get("k")) == Missing && Answer(s, 20, HasKey("k")) == Quiet
            && Answer(s, 20, Pop("k")) == Found(v)
  {
  }

  // ----- the object

  class KVCache<V> {
    var store: Store<V>

    constructor ()
      ensures store == map[]
    {
      store := map[];
    }

    /** `None` is the `KeyError`. */
    method Get(key: string, now: int) returns (r: Option<V>)
      modifies this
      ensures store == Step(old(store), now, Op.Get(key))
      ensures (if r.Some? then Found(r.value) else Missing) == Answer(old(store), now, Op.Get(key))
    {
      if key !in store {
        assert store - {key} == store;
        return None;
      }
      var data := store[key];
      if data.timeout != 0 && now > data.timeout {
        store := store - {key};
        return None;
      }
      r := Some(data.value);
    }

    method Put(key: string, value: V, timeout: int, now: int)
      modifies this
      ensures store == Step(old(store), now, Op.Put(key, value, timeout))
    {
      var deadline := timeout;
      if timeout != 0 {
        deadline := now + timeout;
      }
      store := store[key := Entry(deadline, value)];
    }

    /** An expired entry counts as long as nothing has deleted it. */
    method HasKey(key: string, ghost now: int) returns (found: bool)
      ensures Answer(store, now, Op.HasKey(key)) == if found then Quiet else Missing
    {
      found := key in store;
    }

    method Pop(key: string, ghost now: int) returns (r: Option<V>)
      modifies this
      ensures store == Step(old(store), now, Op.Pop(key))
      ensures (if r.Some? then Found(r.value) else Missing) == Answer(old(store), now, Op.Pop(key))
    {
      if key !in store {
        assert store - {key} == store;
        return None;
      }
      r := Some(store[key].value);
      store := store - {key};
    }

    method GetOrPut(key: string, timeout: int, now: int, made: V, later: int) returns (value: V)
      modifies this
      ensures store == Step(old(store), now, Op.GetOrPut(key, timeout, made, later))
      ensures Found(value) == Answer(old(store), now, Op.GetOrPut(key, timeout, made, later))
    {
      var callMethod := false;
      if key !in store {
        callMethod := true;
      } else if store[key].timeout != 0 && now > store[key].timeout {
        callMethod := true;
      }
      if callMethod {
        value := made;
        store := store[key := Entry(later + timeout, value)];
      } else {
        value := store[key].value;
      }
    }

    /** Collect the expired keys, then delete them. */
    method CleanupExpired(now: int)
      modifies this
      ensures store == Step(old(store), now, Op.CleanupExpired)
    {
      var toDel: set<string> := {};
      var rest := store.Keys;
      while rest != {}
        invariant rest <= store.Keys && store == old(store)
        invariant toDel == set k | k in store && k !in rest && Expired(store[k], now)
        decreases rest
      {
        var k :| k in rest;
        if store[k].timeout != 0 && now > store[k].timeout {
          toDel := toDel + {k};
        }
        rest := rest - {k};
      }
      var left := toDel;
      while left != {}
        invariant left <= toDel
        invariant store == old(store) - (toDel - left)
        decreases left
      {
        var k :| k in left;
        store := store - {k};
        left := left - {k};
        assert toDel - left == (toDel - (left + {k})) + {k};
      }
    }
  }
}
