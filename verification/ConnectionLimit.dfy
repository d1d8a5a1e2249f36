/** The connection limit (src/online_count.rs and the listener branch of src/tcp/mod.rs and
    src/ws/mod.rs): a listener checks a shared counter and then adds a guard to it, while
    the tasks that own the accepted connections drop their guards at any time, between
    the check and the addition too. */
module ConnectionLimit {
  import opened Bytes

  type usize = n: int | 0 <= n <= USIZE_MAX

  /** `checked_add(1).unwrap_or(0)` */
  function CheckedAdd(v: usize): usize {
    if v < USIZE_MAX then v + 1 else 0
  }

  /** `checked_sub(1).unwrap_or(0)` */
  function CheckedSub(v: usize): usize {
    if v > 0 then v - 1 else 0
  }

  /** The counter behind the shared lock. */
  class Shared {
    var value: usize

    constructor (value: usize)
      ensures this.value == value
    {
      this.value := value;
    }
  }

  /** A guard; the default one counts nothing. */
  class OnlineCount {
    const count: Shared?

    constructor Default()
      ensures count == null
    {
      count := null;
    }

    constructor New()
      ensures count != null && fresh(count) && count.value == 0
    {
      count := new Shared(0);
    }

    constructor Of(count: Shared?)
      ensures this.count == count
    {
      this.count := count;
    }

    method Add() returns (guard: OnlineCount)
      modifies if count == null then {} else {count}
      ensures fresh(guard) && guard.count == count
      ensures count != null ==> count.value == CheckedAdd(old(count.value))
    {
      if count != null {
        count.value := CheckedAdd(count.value);
      }
      guard := new OnlineCount.Of(count);
    }

    method Now() returns (n: usize)
      ensures n == if count == null then 0 else count.value
    {
      n := if count == null then 0 else count.value;
    }

    /** `Drop`. */
    method Release()
      modifies if count == null then {} else {count}
      ensures count != null ==> count.value == CheckedSub(old(count.value))
    {
      if count != null {
        count.value := CheckedSub(count.value);
      }
    }
  }

  /** The listener between two accepts, or with a connection let in but not yet counted. */
  datatype Pc = Waiting | Admitted

  /** `live` holds the guards of connections that have not been dropped; `fellBack` is
      history: an addition overflowed or a subtraction underflowed. The listener itself
      owns a guard that was never added to the counter. */
  datatype Limiter = Limiter(
    counter: usize,
    live: set<nat>,
    next: nat,
    pc: Pc,
    max: usize,
    listening: bool,
    fellBack: bool)

  datatype Event = Accept | AddGuard | DropGuard(g: nat) | DropListener

  function Init(max: usize): Limiter {
    Limiter(0, {}, 0, Waiting, max, true, false)
  }

  predicate Enabled(s: Limiter, ev: Event) {
    match ev
    case Accept => s.listening && s.pc.Waiting?
    case AddGuard => s.listening && s.pc.Admitted?
    case DropGuard(g) => g in s.live
    case DropListener => s.listening && s.pc.Waiting?
  }

  function Step(s: Limiter, ev: Event): Limiter {
    match ev
    case Accept => if s.counter >= s.max then s else s.(pc := Admitted)
    case AddGuard =>
      s.(counter := CheckedAdd(s.counter), fellBack := s.fellBack || s.counter == USIZE_MAX,
         live := s.live + {s.next}, next := s.next + 1, pc := Waiting)
    case DropGuard(g) =>
      s.(counter := CheckedSub(s.counter), fellBack := s.fellBack || s.counter == 0, live := s.live - {g})
    case DropListener =>
      s.(counter := CheckedSub(s.counter), fellBack := s.fellBack || s.counter == 0, listening := false)
  }

  predicate ValidRun(s: Limiter, evs: seq<Event>)
    decreases |evs|
  {
    |evs| == 0 || (Enabled(s, evs[0]) && ValidRun(Step(s, evs[0]), evs[1..]))
  }

  function Exec(s: Limiter, evs: seq<Event>): Limiter
    requires ValidRun(s, evs)
    decreases |evs|
  {
    if |evs| == 0 then s else Exec(Step(s, evs[0]), evs[1..])
  }

  /** While the listener lives the counter is the number of live connections and leaves room
      for one that was let in. When it is gone the counter is one short, because the
      listener's own guard was subtracted without having been added; the fallback is
      taken then, with the last guard. */
  ghost predicate Inv(s: Limiter) {
    && (forall g :: g in s.live ==> g < s.next)
    && (s.listening ==>
          && s.counter == |s.live|
          && |s.live| + (if s.pc.Admitted? then 1 else 0) <= s.max
          && !s.fellBack)
    && (!s.listening ==>
          && s.pc.Waiting?
          && |s.live| <= s.max
          && s.counter == (if |s.live| > 0 then |s.live| - 1 else 0)
          && (s.fellBack <==> s.live == {}))
  }

  lemma {:induction false} StepInv(s: Limiter, ev: Event)
    requires Inv(s) && Enabled(s, ev)
    ensures Inv(Step(s, ev)) && Step(s, ev).max == s.max
  {
    if ev.DropGuard? {
      assert |s.live - {ev.g}| == |s.live| - 1;
    }
  }

  lemma {:induction false} ExecInv(s: Limiter, evs: seq<Event>)
    requires Inv(s) && ValidRun(s, evs)
    ensures Inv(Exec(s, evs)) && Exec(s, evs).max == s.max
    decreases |evs|
  {
    if |evs| > 0 {
      StepInv(s, evs[0]);
      ExecInv(Step(s, evs[0]), evs[1..]);
    }
  }

  /** With any interleaving of guard drops: while the listener lives, the counter equals the
      number of live connections, never exceeds the limit, and neither fallback is
      taken; and a connection is refused exactly when the limit is used up. Without the
      listener the counter is one short, and underflows exactly at the end. */
  lemma {:induction false} LimitHolds(max: usize, evs: seq<Event>)
    requires ValidRun(Init(max), evs)
    ensures var s := Exec(Init(max), evs);
            && |s.live| <= max
            && (s.listening ==> s.counter == |s.live| && !s.fellBack)
            && (!s.listening ==>
                  && s.counter == (if |s.live| > 0 then |s.live| - 1 else 0)
                  && (s.fellBack <==> s.live == {}))
            && (Enabled(s, Accept) ==> (Step(s, Accept).pc.Admitted? <==> |s.live| < max))
  {
    ExecInv(Init(max), evs);
  }

  // ---------- the listener and its guards as objects ----------

  /** A listening connection, and the guards held by the connections it accepted. Other tasks
      drop theirs at any time, so between any two of its steps the listener must expect
      `Drop` to have been called. */
  class Listener {
    const count: OnlineCount
    const max: usize
    /** The connections' guards, by the order in which they were accepted. */
    var guards: map<nat, OnlineCount>
    var next: nat
    var listening: bool
    /** A stream was let in, and is not yet counted. */
    var admitted: bool
    /** The state machine this object follows. */
    ghost var model: Limiter

    ghost predicate Valid()
      reads this, count.count
    {
      && count.count != null && (forall g :: g in guards ==> guards[g].count == count.count)
      && Inv(model)
      && model.counter == count.count.value && model.live == guards.Keys && model.next == next
      && model.pc == (if admitted then Admitted else Waiting)
      && model.max == max && model.listening == listening
    }

    /** `bind_with_listener` makes a new count. */
    constructor (max: usize)
      ensures Valid() && model == Init(max) && fresh(count.count)
    {
      count := new OnlineCount.New();
      this.max := max;
      guards, next, listening, admitted := map[], 0, true, false;
      model := Init(max);
    }

    /** Compares the count with the limit. While the listener lives, the count is the number of
        connections that hold a guard. */
    method Check()
      requires Valid() && Enabled(model, Accept)
      modifies this`admitted, this`model
      ensures Valid() && model == Step(old(model), Accept)
      ensures admitted <==> |guards| < max
    {
      StepInv(model, Accept);
      assert |model.live| == |guards|;
      var now := count.Now();
      if now < max {
        admitted := true;
      }
      model := Step(model, Accept);
    }

    /** The accepted connection gets a guard of its own. */
    method AddConnection() returns (g: nat)
      requires Valid() && Enabled(model, AddGuard)
      modifies this`guards, this`next, this`admitted, this`model, count.count
      ensures Valid() && model == Step(old(model), AddGuard)
      ensures g !in old(guards) && guards.Keys == old(guards).Keys + {g} && |guards| <= max
    {
      StepInv(model, AddGuard);
      assert |Step(model, AddGuard).live| <= max;
      assert model.next !in model.live;
      hide Inv;
      var guard := count.Add();
      g := next;
      guards := guards[g := guard];
      next, admitted := next + 1, false;
      model := Step(model, AddGuard);
      assert |model.live| == |guards|;
    }

    /** A connection's task ends. */
    method DropConnection(g: nat)
      requires Valid() && g in guards
      modifies this`guards, this`model, count.count
      ensures Valid() && model == Step(old(model), DropGuard(g)) && guards == old(guards) - {g}
    {
      StepInv(model, DropGuard(g));
      guards[g].Release();
      guards := guards - {g};
      model := Step(model, DropGuard(g));
    }

    /** The listener's own guard is dropped with it. */
    method Close()
      requires Valid() && Enabled(model, Event.DropListener)
      modifies this`listening, this`model, count.count
      ensures Valid() && model == Step(old(model), Event.DropListener)
    {
      StepInv(model, Event.DropListener);
      count.Release();
      listening := false;
      model := Step(model, Event.DropListener);
    }

    /** What other tasks do meanwhile: those named here, as far as they live, end. */
    method OthersEnd(tasks: seq<nat>)
      requires Valid()
      modifies this`guards, this`model, count.count
      ensures Valid() && model == Dropped(old(model), tasks)
    {
      hide Inv, Step;
      var i := 0;
      while i < |tasks|
        invariant 0 <= i <= |tasks|
        invariant Valid()
        invariant Dropped(model, tasks[i..]) == Dropped(old(model), tasks)
      {
        assert tasks[i..][0] == tasks[i] && tasks[i..][1..] == tasks[i + 1..];
        if tasks[i] in guards {
          DropConnection(tasks[i]);
        }
        i := i + 1;
      }
    }

    /** The listener's branch of `process()`, with other tasks ending between the check and
        the addition. A stream is let in exactly when the limit is not used up at the check;
        and with it there are still at most `max` connections, each counted once. */
    method ProcessAccept(meanwhile: seq<nat>) returns (accepted: Option<nat>)
      requires Valid() && Enabled(model, Accept)
      modifies this`guards, this`next, this`admitted, this`model, count.count
      ensures Valid() && Enabled(model, Accept)
      ensures var s := Dropped(Step(old(model), Accept), meanwhile);
              model == if accepted.Some? then Step(s, AddGuard) else s
      ensures accepted.Some? <==> |old(guards)| < max
      ensures accepted.Some? ==> accepted.value in guards && accepted.value !in old(guards)
      ensures |guards| <= max && count.count.value == |guards|
    {
      DroppedKeeps(Step(model, Accept), meanwhile);
      Check();
      accepted := None;
      var letIn := admitted;
      OthersEnd(meanwhile);
      if letIn {
        var g := AddConnection();
        accepted := Some(g);
      }
      assert |model.live| == |guards|;
    }
  }

  /** The drops of those of `tasks` that live. */
  function Dropped(s: Limiter, tasks: seq<nat>): Limiter
    decreases |tasks|
  {
    if |tasks| == 0 then s
    else Dropped(if tasks[0] in s.live then Step(s, DropGuard(tasks[0])) else s, tasks[1..])
  }

  lemma {:induction false} DroppedKeeps(s: Limiter, tasks: seq<nat>)
    ensures var t := Dropped(s, tasks);
            && t.pc == s.pc && t.listening == s.listening && t.next == s.next && t.max == s.max && t.live <= s.live
    decreases |tasks|
  {
    if |tasks| > 0 {
      DroppedKeeps(if tasks[0] in s.live then Step(s, DropGuard(tasks[0])) else s, tasks[1..]);
    }
  }
}
