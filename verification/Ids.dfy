/** Connection ids: the process-wide counter of src/id_center.rs and the 64-bit ids composed
    by the listeners of src/listener.rs and src/kcp/listener.rs. */
module Ids {
  import opened Bytes

  /** `u64::MAX >> 33` */
  const MAX_ID: u64 := 0x7FFF_FFFF

  // ---------- any number of threads ----------

  datatype Entry = Issued(id: u64) | Reset

  /** `pending` holds the threads that took a number past the end and have not yet stored
      1; `log` records the ids returned and the resets, in the order of the atomic. */
  datatype Counter = Counter(threads: nat, now: u64, pending: set<nat>, log: seq<Entry>)

  datatype Event = FetchAdd(thread: nat) | Store(thread: nat)

  function Init(threads: nat): Counter {
    Counter(threads, 1, {}, [])
  }

  predicate Enabled(s: Counter, ev: Event) {
    match ev
    case FetchAdd(t) => t < s.threads && t !in s.pending
    case Store(t) => t in s.pending
  }

  function Step(s: Counter, ev: Event): Counter {
    match ev
    case FetchAdd(t) =>
      var s1 := s.(now := (s.now + 1) % U64_LIMIT);
      if s.now > MAX_ID then s1.(pending := s.pending + {t})
      else s1.(log := s.log + [Issued(s.now)])
    case Store(t) => s.(now := 1, pending := s.pending - {t}, log := s.log + [Reset])
  }

  predicate ValidRun(s: Counter, evs: seq<Event>)
    decreases |evs|
  {
    |evs| == 0 || (Enabled(s, evs[0]) && ValidRun(Step(s, evs[0]), evs[1..]))
  }

  function Exec(s: Counter, evs: seq<Event>): Counter
    requires ValidRun(s, evs)
    decreases |evs|
  {
    if |evs| == 0 then s else Exec(Step(s, evs[0]), evs[1..])
  }

  ghost predicate ResetBetween(log: seq<Entry>, i: nat, j: nat) {
    exists k :: i < k < j && k < |log| && log[k].Reset?
  }

  /** The counter is at most one past the last id, plus one for every pending thread. */
  ghost predicate InRange(s: Counter) {
    && (forall t :: t in s.pending ==> t < s.threads)
    && 1 <= s.now <= MAX_ID + 1 + |s.pending|
    && (forall i :: 0 <= i < |s.log| && s.log[i].Issued? ==> 1 <= s.log[i].id <= MAX_ID)
  }

  /** Since the last reset ids only grow, and all are below the counter. */
  ghost predicate Growing(s: Counter) {
    && (forall i, j :: 0 <= i < j < |s.log| && s.log[i].Issued? && s.log[j].Issued? ==>
          s.log[i].id < s.log[j].id || ResetBetween(s.log, i, j))
    && (forall i :: 0 <= i < |s.log| && s.log[i].Issued? ==>
          s.log[i].id < s.now || ResetBetween(s.log, i, |s.log|))
  }

  /** Every thread the machine could hold: with fewer than 2^64 - 2^31 of them, the pending
      threads cannot carry the counter around its 64 bits. */
  predicate FewThreads(threads: nat) {
    threads < U64_LIMIT - (MAX_ID + 1)
  }

  /** The threads below `n`. */
  ghost function Threads(n: nat): (r: set<nat>)
    ensures forall t :: t in r <==> 0 <= t < n
    ensures |r| == n
  {
    if n == 0 then {} else Threads(n - 1) + {n - 1}
  }

  lemma {:induction false} PendingFewer(s: Counter, t: nat)
    requires InRange(s) && t < s.threads && t !in s.pending
    ensures |s.pending| < s.threads
  {
    SubsetSize(s.pending, Threads(s.threads) - {t});
  }

  lemma {:induction false} SubsetSize<T>(a: set<T>, b: set<T>)
    requires a <= b
    ensures |a| <= |b|
  {
    assert b == a + (b - a);
  }

  lemma {:induction false} StepInRange(s: Counter, ev: Event)
    requires InRange(s) && FewThreads(s.threads) && Enabled(s, ev)
    ensures InRange(Step(s, ev)) && Step(s, ev).threads == s.threads
    ensures ev.FetchAdd? ==> Step(s, ev).now == s.now + 1
  {
    if ev.FetchAdd? {
      PendingFewer(s, ev.thread);
    }
  }

  lemma {:induction false} LongerLog(log: seq<Entry>, e: Entry, i: nat, j: nat)
    requires j <= |log| && ResetBetween(log, i, j)
    ensures ResetBetween(log + [e], i, j) && ResetBetween(log + [e], i, |log| + 1)
  {
    var k :| i < k < j && k < |log| && log[k].Reset?;
    assert (log + [e])[k].Reset?;
  }

  lemma {:induction false} StepGrowing(s: Counter, ev: Event)
    requires Growing(s) && InRange(s) && FewThreads(s.threads) && Enabled(s, ev)
    ensures Growing(Step(s, ev))
  {
    StepInRange(s, ev);
    var t := Step(s, ev);
    if t.log != s.log {
      var e := t.log[|s.log|];
      assert t.log == s.log + [e];
      forall i, j | 0 <= i < j < |t.log| && t.log[i].Issued? && t.log[j].Issued?
        ensures t.log[i].id < t.log[j].id || ResetBetween(t.log, i, j)
      {
        if ResetBetween(s.log, i, j) && j <= |s.log| {
          LongerLog(s.log, e, i, j);
        }
      }
      forall i | 0 <= i < |t.log| && t.log[i].Issued?
        ensures t.log[i].id < t.now || ResetBetween(t.log, i, |t.log|)
      {
        if e.Reset? {
          assert t.log[|s.log|].Reset?;
        } else if i < |s.log| && ResetBetween(s.log, i, |s.log|) {
          LongerLog(s.log, e, i, |s.log|);
        }
      }
    }
  }

  lemma {:induction false} ExecInv(s: Counter, evs: seq<Event>)
    requires InRange(s) && Growing(s) && FewThreads(s.threads) && ValidRun(s, evs)
    ensures InRange(Exec(s, evs)) && Growing(Exec(s, evs)) && Exec(s, evs).threads == s.threads
    decreases |evs|
  {
    if |evs| > 0 {
      StepInRange(s, evs[0]);
      StepGrowing(s, evs[0]);
      ExecInv(Step(s, evs[0]), evs[1..]);
    }
  }

  /** For any number of threads and any interleaving of their atomic steps: the counter stays
      between 1 and 2^31 plus the number of threads about to reset it, every id returned
      is in 1..2^31-1, and two calls that return the same id have a reset between them. */
  lemma {:induction false} IdsAreUnique(threads: nat, evs: seq<Event>)
    requires FewThreads(threads) && ValidRun(Init(threads), evs)
    ensures var s := Exec(Init(threads), evs);
            && 1 <= s.now <= 0x8000_0000 + |s.pending|
            && (forall i :: 0 <= i < |s.log| && s.log[i].Issued? ==> 1 <= s.log[i].id < 0x8000_0000)
            && (forall i, j :: (0 <= i < j < |s.log| && s.log[i].Issued? && s.log[i] == s.log[j]) ==>
                  ResetBetween(s.log, i, j))
  {
    ExecInv(Init(threads), evs);
  }

  // ---------- the counter as an object ----------

  lemma {:induction false} RunSnoc(s: Counter, evs: seq<Event>, ev: Event)
    requires ValidRun(s, evs) && Enabled(Exec(s, evs), ev)
    ensures ValidRun(s, evs + [ev]) && Exec(s, evs + [ev]) == Step(Exec(s, evs), ev)
    decreases |evs|
  {
    if |evs| == 0 {
      assert [] + [ev] == [ev] && [ev][1..] == [];
      assert evs + [ev] == [ev] && ValidRun(Step(s, ev), []);
    } else {
      assert (evs + [ev])[1..] == evs[1..] + [ev];
      RunSnoc(Step(s, evs[0]), evs[1..], ev);
    }
  }

  /** The process-wide counter. `late` holds the threads that are in the branch of the loop
      that stores 1: it is where they are in the code. */
  class IdCenter {
    const threads: nat
    var now: u64
    var late: set<nat>
    /** The state machine this object follows, and the events so far. */
    ghost var model: Counter
    ghost var history: seq<Event>

    ghost predicate Valid()
      reads this
    {
      && FewThreads(threads)
      && ValidRun(Init(threads), history) && model == Exec(Init(threads), history)
      && InRange(model) && Growing(model)
      && model.threads == threads && model.now == now && model.pending == late
    }

    constructor (threads: nat)
      requires FewThreads(threads)
      ensures Valid() && model == Init(threads)
    {
      this.threads := threads;
      now, late := 1, {};
      model, history := Init(threads), [];
    }

    /** `fetch_add` by a thread, and its test of the number it got. */
    method FetchOne(thread: nat) returns (next: u64)
      requires Valid() && thread < threads && thread !in late
      modifies this
      ensures Valid() && model == Step(old(model), FetchAdd(thread)) && history == old(history) + [FetchAdd(thread)]
      ensures next == old(now)
      ensures late == if next > MAX_ID then old(late) + {thread} else old(late)
    {
      Advance(FetchAdd(thread));
      next := now;
      now := (now + 1) % U64_LIMIT;
      if next > MAX_ID {
        late := late + {thread};
      }
    }

    /** `store(1)` by a thread that got a number past the end. */
    method StoreOne(thread: nat)
      requires Valid() && thread in late
      modifies this
      ensures Valid() && model == Step(old(model), Store(thread)) && history == old(history) + [Store(thread)]
      ensures now == 1 && late == old(late) - {thread}
    {
      Advance(Store(thread));
      now := 1;
      late := late - {thread};
    }

    /** The history goes on with an event. */
    ghost method Advance(ev: Event)
      requires Valid() && Enabled(model, ev)
      modifies this`model, this`history
      ensures model == Step(old(model), ev) && history == old(history) + [ev]
      ensures ValidRun(Init(threads), history) && model == Exec(Init(threads), history)
      ensures InRange(model) && Growing(model) && model.threads == threads
    {
      StepInRange(model, ev);
      StepGrowing(model, ev);
      RunSnoc(Init(threads), history, ev);
      model := Step(model, ev);
      history := history + [ev];
    }

    /** What other threads do before `thread` moves on: those named here make a step each. */
    method OthersMove(thread: nat, movers: seq<nat>)
      requires Valid()
      modifies this
      ensures Valid() && old(history) <= history && (thread in late <==> thread in old(late))
      ensures movers == [] ==> now == old(now)
    {
      for i := 0 to |movers|
        invariant Valid() && old(history) <= history && (thread in late <==> thread in old(late))
        invariant movers == [] ==> now == old(now)
      {
        var t := movers[i];
        if t != thread && t < threads {
          if t in late {
            StoreOne(t);
          } else {
            var next := FetchOne(t);
          }
        }
      }
    }

    /** `next_connect_id` called by a thread, with other threads moving before each of its own
        steps; `moves` says which, until they leave it alone. The loop ends, and returns an id
        in the range, drawn by this thread's last step. */
    method NextConnectId(thread: nat, moves: seq<seq<nat>>) returns (id: u64)
      requires Valid() && thread < threads && thread !in late
      modifies this
      ensures Valid() && thread !in late && old(history) < history
      ensures 1 <= id < 0x8000_0000
      ensures history[|history| - 1] == FetchAdd(thread)
      ensures model.log != [] && model.log[|model.log| - 1] == Issued(id)
      ensures moves == [] ==> id == if old(now) < 0x8000_0000 then old(now) else 1
    {
      var i := 0;
      while true
        invariant 0 <= i && Valid() && thread !in late && old(history) <= history
        invariant moves == [] ==> now == old(now) || (old(now) > MAX_ID && now == 1)
        decreases if i < |moves| then |moves| - i else 0, if now > MAX_ID then 1 else 0
      {
        OthersMove(thread, if i < |moves| then moves[i] else []);
        i := i + 1;
        var next := FetchOne(thread);
        if next > MAX_ID {
          OthersMove(thread, if i < |moves| then moves[i] else []);
          i := i + 1;
          StoreOne(thread);
          continue;
        }
        return next;
      }
    }
  }

  // ---------- ids of accepted connections ----------

  /** `(server_id << 32) + counter`: the shift drops what does not fit into 64 bits. */
  function Compose(server: u64, counter: u32): (id: nat)
    ensures id < U64_LIMIT
  {
    ShiftFits(server);
    server * U32_LIMIT % U64_LIMIT + counter
  }

  lemma {:induction false} ShiftFits(server: u64)
    ensures server * U32_LIMIT % U64_LIMIT == server % U32_LIMIT * U32_LIMIT
  {
    var high, low := server / U32_LIMIT, server % U32_LIMIT;
    assert server * U32_LIMIT == high * U64_LIMIT + low * U32_LIMIT;
    assert low * U32_LIMIT < U64_LIMIT;
  }

  /** `WrapListener` and `WrapKcpListener`: the same counter behind two kinds of socket. */
  class WrapListener {
    const server: u64
    var next: u32
    /** How many connections were accepted. */
    ghost var accepted: nat

    ghost predicate Valid()
      reads this
    {
      next == accepted % U32_LIMIT
    }

    constructor (server: u64)
      ensures Valid() && this.server == server && accepted == 0
    {
      this.server := server;
      next, accepted := 0, 0;
    }

    method Accept() returns (id: u64)
      requires Valid()
      modifies this
      ensures Valid() && accepted == old(accepted) + 1
      ensures id == Compose(server, accepted % U32_LIMIT)
    {
      accepted := accepted + 1;
      next := (next + 1) % U32_LIMIT;
      id := Compose(server, next);
    }
  }

  /** Ids are equal exactly when the counters are and the server ids agree in 32 bits; for
      the server ids the `IdCenter` hands out that means the same server. */
  lemma {:induction false} ComposeInjective(server: u64, counter: u32, server': u64, counter': u32)
    ensures Compose(server, counter) == Compose(server', counter')
            <==> counter == counter' && server % U32_LIMIT == server' % U32_LIMIT
    ensures server <= MAX_ID && server' <= MAX_ID && Compose(server, counter) == Compose(server', counter')
            ==> server == server'
  {
    ShiftFits(server);
    ShiftFits(server');
    var low, low' := server % U32_LIMIT, server' % U32_LIMIT;
    assert Compose(server, counter) == low * U32_LIMIT + counter;
    assert Compose(server', counter') == low' * U32_LIMIT + counter';
  }

  /** The id of the n-th connection of a server with an id of the `IdCenter`: the server's id
      in the high half, n modulo 2^32 in the low half. */
  lemma {:induction false} AcceptHalves(server: u64, n: nat)
    requires server < 0x8000_0000
    ensures var id := Compose(server, n % U32_LIMIT);
            id / 0x1_0000_0000 == server && id % 0x1_0000_0000 == n % 0x1_0000_0000
  {
    ShiftFits(server);
  }

  /** The ids of the m-th and n-th connection of one listener are equal exactly when m and n
      differ by a multiple of 2^32; so any 2^32 accepts in a row have distinct ids. */
  lemma {:induction false} AcceptsAreDistinct(server: u64, m: nat, n: nat)
    requires m <= n
    ensures Compose(server, m % U32_LIMIT) == Compose(server, n % U32_LIMIT) <==> (n - m) % U32_LIMIT == 0
    ensures m < n < m + U32_LIMIT ==> Compose(server, m % U32_LIMIT) != Compose(server, n % U32_LIMIT)
  {
    ComposeInjective(server, m % U32_LIMIT, server, n % U32_LIMIT);
    var d := n - m;
    assert n == m / U32_LIMIT * U32_LIMIT + m % U32_LIMIT + d;
  }

  /** No accepted connection has an id that the `IdCenter` hands out, because the server's own
      id is one of those and is at least 1. */
  lemma {:induction false} AcceptedIdsAreApart(server: u64, counter: u32, id: u64)
    requires 1 <= server <= MAX_ID && 1 <= id <= MAX_ID
    ensures MAX_ID < Compose(server, counter) < 0x8000_0000_0000_0000
    ensures Compose(server, counter) != id
  {
    ShiftFits(server);
  }
}
