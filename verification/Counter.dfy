/** Counters in the cache: any number of processes that increment one key, or compare and swap
    its value, under the read lock; who finds the key missing inserts a zero and tries again. */
module Counter {

  // ----- Machine words -----

  const HALF: int := 0x8000_0000_0000_0000
  const WHOLE: int := 0x1_0000_0000_0000_0000

  /** What a signed machine word holds after an overflowing addition. */
  function Wrap(x: int): (w: int)
    ensures -HALF <= w < HALF && (x - w) % WHOLE == 0 && (-HALF <= x < HALF ==> w == x)
  {
    (x + HALF) % WHOLE - HALF
  }

  lemma WrapAdd(x: int, y: int)
    ensures Wrap(Wrap(x) + y) == Wrap(x + y)
  {
    var q := (x + HALF) / WHOLE;
    assert Wrap(x) == x - q * WHOLE;
    assert (x + y + HALF) == (Wrap(x) + y + HALF) + q * WHOLE;
  }

  // ----- Operations -----

  datatype Value = Absent | Long(n: int) | Foreign

  datatype Op = Inc(step: int) | Cas(expected: int, replacement: int)

  datatype Result = NoEntry | NotInteger | Counted(n: int) | Swapped(ok: bool)

  /** An operation as a single step: the value after it, and what it returns. */
  function Effect(op: Op, v: Value): (Value, Result) {
    match v
    case Absent => (v, NoEntry)
    case Foreign => (v, NotInteger)
    case Long(n) =>
      match op
      case Inc(step) => (Long(Wrap(n + step)), Counted(Wrap(n + step)))
      case Cas(expected, replacement) => if n == expected then (Long(replacement), Swapped(true))
          else (v, Swapped(false))
  }

  // ----- Processes -----

  /** Before looking the key up; while holding the read lock on the entry that was found;
      about to insert a zero; finished. */
  datatype Phase = Waiting(mayInsert: bool) | Holding | Inserting | Finished(result: Result)

  datatype Proc = Proc(op: Op, phase: Phase)

  /** What took effect, in this order. */
  datatype Event = Inserted(p: nat) | Did(p: nat, op: Op, result: Result)

  datatype World = World(value: Value, procs: map<nat, Proc>, log: seq<Event>)

  ghost predicate Init(w: World, v: Value) {
    && w.value == v && w.log == []
    && forall p | p in w.procs :: w.procs[p].phase == Waiting(w.procs[p].op.Inc?)
  }

  ghost function Set(w: World, p: nat, phase: Phase): World
    requires p in w.procs
  {
    w.(procs := w.procs[p := w.procs[p].(phase := phase)])
  }

  /** The process looks the key up, and keeps the read lock if it is there. */
  ghost predicate Look(w: World, p: nat, w1: World) {
    p in w.procs && w.procs[p].phase.Waiting? &&
    if !w.value.Absent? then w1 == Set(w, p, Holding)
    else if w.procs[p].phase.mayInsert then w1 == Set(w, p, Inserting)
    else w1 == Set(w, p, Finished(NoEntry)).(log := w.log + [Did(p, w.procs[p].op, NoEntry)])
  }

  /** The atomic update, and the end of the read lock. */
  ghost predicate Update(w: World, p: nat, w1: World) {
    p in w.procs && w.procs[p].phase.Holding? &&
    var (v, r) := Effect(w.procs[p].op, w.value);
    w1 == Set(w, p, Finished(r)).(value := v, log := w.log + [Did(p, w.procs[p].op, r)])
  }

  /** An exclusive store of zero, under the write lock, which nobody may hold for reading. */
  ghost predicate Insert(w: World, p: nat, w1: World) {
    p in w.procs && w.procs[p].phase.Inserting? && (forall q | q in w.procs :: !w.procs[q].phase.Holding?) &&
    if w.value.Absent? then w1 == Set(w, p, Waiting(false)).(value := Long(0), log := w.log + [Inserted(p)])
    else w1 == Set(w, p, Waiting(false))
  }

  ghost predicate Next(w: World, w1: World) {
    exists p :: Look(w, p, w1) || Update(w, p, w1) || Insert(w, p, w1)
  }

  // ----- The log as a sequential history -----

  ghost function Replay(v: Value, log: seq<Event>): Value {
    if log == [] then v else EventEffect(log[|log| - 1], Replay(v, log[..|log| - 1]))
  }

  /** Run one after the other, the events have just the results that the processes got. */
  ghost predicate Legal(v: Value, log: seq<Event>) {
    forall n | 0 <= n < |log| :: EventOk(log[n], Replay(v, log[..n]))
  }

  ghost predicate EventOk(e: Event, before: Value) {
    match e
    case Inserted(_) => before.Absent?
    case Did(_, op, r) => Effect(op, before).1 == r
  }

  ghost function EventEffect(e: Event, before: Value): Value {
    match e
    case Inserted(_) => Long(0)
    case Did(_, op, _) => Effect(op, before).0
  }

  /** Finished processes are in the log once, the others not at all. */
  ghost predicate LoggedOnce(w: World) {
    && (forall n | 0 <= n < |w.log| && w.log[n].Did? ::
        w.log[n].p in w.procs && w.procs[w.log[n].p] == Proc(w.log[n].op, Finished(w.log[n].result)))
    && (forall n, k | 0 <= n < k < |w.log| && w.log[n].Did? && w.log[k].Did? :: w.log[n].p != w.log[k].p)
    && (forall p | p in w.procs && w.procs[p].phase.Finished? :: exists n ::
        0 <= n < |w.log| && w.log[n] == Did(p, w.procs[p].op, w.procs[p].phase.result))
  }

  /** Who holds the entry, or has inserted it, will find it there. */
  ghost predicate Present(w: World) {
    forall p | p in w.procs ::
      && (w.procs[p].phase.Holding? ==> !w.value.Absent?)
      && (w.procs[p].phase.Waiting? && w.procs[p].op.Inc? && !w.procs[p].phase.mayInsert ==> !w.value.Absent?)
      && (w.procs[p].phase.Inserting? ==> w.procs[p].op.Inc?)
      && (w.procs[p].op.Inc? ==> w.procs[p].phase != Finished(NoEntry))
      && (w.procs[p].op.Cas? && w.procs[p].phase.Waiting? ==> !w.procs[p].phase.mayInsert)
  }

  ghost predicate Inv(w: World, v: Value) {
    w.value == Replay(v, w.log) && Legal(v, w.log) && LoggedOnce(w) && Present(w)
  }

  lemma InitInv(w: World, v: Value)
    requires Init(w, v)
    ensures Inv(w, v)
  {
  }

  lemma ReplayNext(v: Value, log: seq<Event>, e: Event)
    requires Legal(v, log) && EventOk(e, Replay(v, log))
    ensures Legal(v, log + [e]) && Replay(v, log + [e]) == EventEffect(e, Replay(v, log))
  {
    hide Replay, EventOk, EventEffect;
    var log1 := log + [e];
    assert log1[..|log1| - 1] == log;
    forall n | 0 <= n < |log1|
      ensures EventOk(log1[n], Replay(v, log1[..n]))
    {
      assert log1[..n] == log[..n];
      assert n == |log| ==> log[..n] == log;
    }
    ReplayLast(v, log1);
  }

  lemma ReplayLast(v: Value, log: seq<Event>)
    requires log != []
    ensures Replay(v, log) == EventEffect(log[|log| - 1], Replay(v, log[..|log| - 1]))
  {
    hide Effect;
  }

  lemma EffectPresent(op: Op, v: Value)
    ensures !v.Absent? ==> !Effect(op, v).0.Absent? && !Effect(op, v).1.NoEntry?
    ensures v.Absent? ==> Effect(op, v) == (v, NoEntry)
  {
  }

  lemma LogFinished(w: World, p: nat, r: Result, w1: World)
    requires LoggedOnce(w) && p in w.procs && !w.procs[p].phase.Finished?
    requires w1.procs == w.procs[p := w.procs[p].(phase := Finished(r))] && w1.log == w.log + [Did(p, w.procs[p].op, r)]
    ensures LoggedOnce(w1)
  {
    assert w1.log[|w.log|] == Did(p, w.procs[p].op, r);
    forall q | q in w1.procs && w1.procs[q].phase.Finished?
      ensures exists n :: 0 <= n < |w1.log| && w1.log[n] == Did(q, w1.procs[q].op, w1.procs[q].phase.result)
    {
      if q != p {
        var n :| 0 <= n < |w.log| && w.log[n] == Did(q, w.procs[q].op, w.procs[q].phase.result);
        assert w1.log[n] == w.log[n];
      }
    }
  }

  lemma LogUnfinished(w: World, p: nat, phase: Phase, w1: World)
    requires LoggedOnce(w) && p in w.procs && !w.procs[p].phase.Finished? && !phase.Finished?
    requires w1.procs == w.procs[p := w.procs[p].(phase := phase)]
    requires w1.log == w.log || (exists q :: w1.log == w.log + [Inserted(q)])
    ensures LoggedOnce(w1)
  {
    forall q | q in w1.procs && w1.procs[q].phase.Finished?
      ensures exists n :: 0 <= n < |w1.log| && w1.log[n] == Did(q, w1.procs[q].op, w1.procs[q].phase.result)
    {
      var n :| 0 <= n < |w.log| && w.log[n] == Did(q, w.procs[q].op, w.procs[q].phase.result);
      assert w1.log[n] == w.log[n];
    }
  }

  lemma LookInv(w: World, p: nat, w1: World, v: Value)
    requires Inv(w, v) && Look(w, p, w1)
    ensures Inv(w1, v)
  {
    hide Legal, Replay, LoggedOnce, Effect;
    EffectPresent(w.procs[p].op, w.value);
    if w.value.Absent? && !w.procs[p].phase.mayInsert {
      ReplayNext(v, w.log, Did(p, w.procs[p].op, NoEntry));
      LogFinished(w, p, NoEntry, w1);
    } else {
      LogUnfinished(w, p, w1.procs[p].phase, w1);
    }
  }

  lemma UpdateInv(w: World, p: nat, w1: World, v: Value)
    requires Inv(w, v) && Update(w, p, w1)
    ensures Inv(w1, v)
  {
    hide Legal, Replay, LoggedOnce, Effect;
    EffectPresent(w.procs[p].op, w.value);
    var r := Effect(w.procs[p].op, w.value).1;
    ReplayNext(v, w.log, Did(p, w.procs[p].op, r));
    LogFinished(w, p, r, w1);
  }

  lemma InsertInv(w: World, p: nat, w1: World, v: Value)
    requires Inv(w, v) && Insert(w, p, w1)
    ensures Inv(w1, v)
  {
    hide Legal, Replay, LoggedOnce, Effect;
    if w.value.Absent? {
      ReplayNext(v, w.log, Inserted(p));
    }
    LogUnfinished(w, p, Waiting(false), w1);
  }

  lemma NextInv(w: World, w1: World, v: Value)
    requires Inv(w, v) && Next(w, w1)
    ensures Inv(w1, v)
  {
    hide Inv, Look, Update, Insert;
    var p :| Look(w, p, w1) || Update(w, p, w1) || Insert(w, p, w1);
    if Look(w, p, w1) {
      LookInv(w, p, w1, v);
    } else if Update(w, p, w1) {
      UpdateInv(w, p, w1, v);
    } else {
      InsertInv(w, p, w1, v);
    }
  }

  ghost predicate IsRun(ws: seq<World>, v: Value) {
    |ws| > 0 && Init(ws[0], v) && forall i, j | 0 <= i < |ws| && 0 <= j < |ws| && j == i + 1 :: Next(ws[i], ws[j])
  }

  lemma {:induction false} RunInv(ws: seq<World>, v: Value, i: nat)
    requires IsRun(ws, v) && i < |ws|
    ensures Inv(ws[i], v)
  {
    hide Inv, Next;
    if i == 0 {
      InitInv(ws[0], v);
    } else {
      RunInv(ws, v, i - 1);
      NextInv(ws[i - 1], ws[i], v);
    }
  }

  // ----- Linearizability -----

  /** In every reachable world the results that processes got are those of a sequential
      history, in which each of them occurs once. */
  lemma Linearizable(ws: seq<World>, v: Value, i: nat, p: nat)
    requires IsRun(ws, v) && i < |ws| && p in ws[i].procs && ws[i].procs[p].phase.Finished?
    ensures ws[i].value == Replay(v, ws[i].log)
    ensures exists n: nat :: n < |ws[i].log| && ws[i].log[n] == Did(p, ws[i].procs[p].op, ws[i].procs[p].phase.result)
                       && Effect(ws[i].procs[p].op, Replay(v, ws[i].log[..n])).1 == ws[i].procs[p].phase.result
                       && forall k: nat | k < |ws[i].log| && ws[i].log[k].Did? && ws[i].log[k].p == p :: k == n
  {
    hide IsRun, Effect, Replay;
    RunInv(ws, v, i);
    var w := ws[i];
    var n :| 0 <= n < |w.log| && w.log[n] == Did(p, w.procs[p].op, w.procs[p].phase.result);
    assert EventOk(w.log[n], Replay(v, w.log[..n]));
  }

  /** The history is only ever extended: who finished before another began is before it. */
  lemma {:induction false} LogGrows(ws: seq<World>, v: Value, i: nat, j: nat)
    requires IsRun(ws, v) && i <= j < |ws|
    ensures |ws[i].log| <= |ws[j].log| && ws[j].log[..|ws[i].log|] == ws[i].log && ws[j].procs.Keys == ws[i].procs.Keys
    ensures forall p | p in ws[i].procs :: ws[j].procs[p].op == ws[i].procs[p].op
    decreases j
  {
    hide Effect;
    if i < j {
      LogGrows(ws, v, i, j - 1);
      assert Next(ws[j - 1], ws[j]);
      hide IsRun;
    }
  }

  // ----- Every result by what was written last -----

  /** The event has written a value. */
  predicate Writes(e: Event) {
    e.Inserted? || e.result.Counted? || e.result == Swapped(true)
  }

  /** What it has written: zero, what an increment returned, or the replacement of a swap. */
  function Written(e: Event): int {
    match e
    case Inserted(_) => 0
    case Did(_, op, r) => if r.Counted? then r.n else if op.Cas? then op.replacement else 0
  }

  /** The value that was written last, or the one there was at first. */
  ghost function LastWrite(v: Value, log: seq<Event>): Value {
    if log == [] then v
    else if Writes(log[|log| - 1]) then Long(Written(log[|log| - 1]))
    else LastWrite(v, log[..|log| - 1])
  }

  lemma {:induction false} ReplayIsLastWrite(v: Value, log: seq<Event>)
    requires Legal(v, log)
    ensures Replay(v, log) == LastWrite(v, log)
    decreases |log|
  {
    hide Legal, Wrap;
    if log != [] {
      LegalPrefix(v, log, |log| - 1);
      ReplayIsLastWrite(v, log[..|log| - 1]);
      LegalLast(v, log);
    }
  }

  /** What an operation returns if the value written last before it is `before`: an increment
      the sum, a swap whether it found what it expected. */
  predicate Returns(op: Op, before: Value, r: Result) {
    match before
    case Absent => r == NoEntry
    case Foreign => r == NotInteger
    case Long(n) =>
      match op
      case Inc(step) => r == Counted(Wrap(n + step))
      case Cas(expected, _) => r == Swapped(n == expected)
  }

  lemma ReturnsEffect(op: Op, before: Value, r: Result)
    requires Effect(op, before).1 == r
    ensures Returns(op, before, r)
  {
    hide Wrap;
  }

  /** In every run each operation returns what the value written last before it in the common
      order calls for, and the counter holds the value that was written last. */
  lemma ReadsLastWrite(ws: seq<World>, v: Value, i: nat, n: nat)
    requires IsRun(ws, v) && i < |ws| && n < |ws[i].log|
    ensures ws[i].value == LastWrite(v, ws[i].log)
    ensures ws[i].log[n].Did? ==> Returns(ws[i].log[n].op, LastWrite(v, ws[i].log[..n]), ws[i].log[n].result)
    ensures ws[i].log[n].Inserted? ==> LastWrite(v, ws[i].log[..n]).Absent?
  {
    hide IsRun, Effect, Replay, Legal, LastWrite, Returns, LoggedOnce, Present;
    RunInv(ws, v, i);
    var log := ws[i].log;
    ReplayIsLastWrite(v, log);
    LegalPrefix(v, log, n);
    ReplayIsLastWrite(v, log[..n]);
    LegalAt(v, log, n);
    if log[n].Did? {
      ReturnsEffect(log[n].op, Replay(v, log[..n]), log[n].result);
    }
  }

  lemma {:induction false} LastWriteSince(v: Value, log: seq<Event>, i: nat, k: nat)
    requires i < k <= |log| && Writes(log[i]) && forall j | i < j < k :: !Writes(log[j])
    ensures LastWrite(v, log[..k]) == Long(Written(log[i]))
    decreases k
  {
    assert log[..k][..k - 1] == log[..k - 1];
    if i < k - 1 {
      LastWriteSince(v, log, i, k - 1);
    }
  }

  /** Of two swaps that expect the same value, of which the first replaces it by another one,
      both succeed only if something else was written in between. */
  lemma OneSwapWins(ws: seq<World>, v: Value, w: nat, i: nat, k: nat, expected: int)
    requires IsRun(ws, v) && w < |ws| && i < k < |ws[w].log|
    requires ws[w].log[i].Did? && ws[w].log[i].op.Cas? && ws[w].log[i].op.expected == expected
    requires ws[w].log[k].Did? && ws[w].log[k].op.Cas? && ws[w].log[k].op.expected == expected
    requires ws[w].log[i].op.replacement != expected
    requires ws[w].log[i].result == Swapped(true) && ws[w].log[k].result == Swapped(true)
    ensures exists j :: i < j < k && Writes(ws[w].log[j])
  {
    hide IsRun, LastWrite;
    var log := ws[w].log;
    ReadsLastWrite(ws, v, w, k);
    if forall j | i < j < k :: !Writes(log[j]) {
      LastWriteSince(v, log, i, k);
    }
  }

  // ----- No lost increments -----

  ghost predicate AllIncs(w: World) {
    forall p | p in w.procs :: w.procs[p].op.Inc?
  }

  ghost function Steps(log: seq<Event>): int {
    if log == [] then 0
    else Steps(log[..|log| - 1]) + (if log[|log| - 1].Did? && log[|log| - 1].op.Inc? then log[|log| - 1].op.step else 0)
  }

  ghost function Start(v: Value): int {
    if v.Long? then v.n else 0
  }

  ghost predicate IncLog(log: seq<Event>) {
    forall n | 0 <= n < |log| && log[n].Did? :: log[n].op.Inc? && !log[n].result.NoEntry?
  }

  /** The value of the counter is the sum of the steps so far. */
  lemma {:induction false} ReplaySum(v: Value, log: seq<Event>)
    requires Legal(v, log) && !v.Foreign? && (v.Long? ==> Wrap(v.n) == v.n) && IncLog(log)
    ensures Replay(v, log) == if v.Absent? && log == [] then Absent else Long(Wrap(Start(v) + Steps(log)))
    decreases |log|
  {
    hide Legal, Wrap, Effect, Replay;
    if log == [] {
      assert Replay(v, log) == v by {
        ReplayNone(v);
      }
    } else {
      var rest, e := log[..|log| - 1], log[|log| - 1];
      LegalPrefix(v, log, |rest|);
      ReplaySum(v, rest);
      ReplayLast(v, log);
      LegalLast(v, log);
      if e.Did? {
        IncEffect(e.op, Replay(v, rest));
        WrapAdd(Start(v) + Steps(rest), e.op.step);
      } else {
        AbsentOnly(v, rest);
        WrapZero();
      }
    }
  }

  lemma ReplayNone(v: Value)
    ensures Replay(v, []) == v
  {
  }

  lemma WrapZero()
    ensures Wrap(0) == 0
  {
  }

  lemma LegalLast(v: Value, log: seq<Event>)
    requires Legal(v, log) && log != []
    ensures EventOk(log[|log| - 1], Replay(v, log[..|log| - 1]))
  {
    hide Replay, EventOk;
  }

  lemma IncEffect(op: Op, v: Value)
    requires op.Inc?
    ensures v.Long? ==> Effect(op, v) == (Long(Wrap(v.n + op.step)), Counted(Wrap(v.n + op.step)))
    ensures v.Absent? ==> Effect(op, v) == (v, NoEntry)
  {
    hide Wrap;
  }

  lemma LegalPrefix(v: Value, log: seq<Event>, n: nat)
    requires Legal(v, log) && n <= |log|
    ensures Legal(v, log[..n])
  {
    hide Replay, Effect;
    forall k | 0 <= k < n
      ensures log[..n][..k] == log[..k]
    {
    }
  }

  /** Once the key was there, it stays there. */
  lemma AbsentOnly(v: Value, log: seq<Event>)
    requires Replay(v, log).Absent? && Legal(v, log)
    requires IncLog(log)
    ensures log == []
  {
    if log != [] {
      var n := |log| - 1;
      assert log[n].Did?;
      assert EventOk(log[n], Replay(v, log[..n]));
      EffectPresent(log[n].op, Replay(v, log[..n]));
    }
  }

  lemma IncsInLog(w: World, v: Value)
    requires Inv(w, v) && AllIncs(w)
    ensures IncLog(w.log)
  {
    hide Legal, Replay;
  }

  // ----- The sum over the processes -----

  ghost function DoneStep(p: Proc): int {
    if p.phase.Finished? && p.op.Inc? then p.op.step else 0
  }

  ghost function DoneSteps(procs: map<nat, Proc>): int
    decreases |procs|
  {
    if procs == map[] then 0
    else
      var p :| p in procs;
      DoneStep(procs[p]) + DoneSteps(procs - {p})
  }

  lemma {:induction false} DoneStepsRemove(procs: map<nat, Proc>, p: nat)
    requires p in procs
    ensures DoneSteps(procs) == DoneStep(procs[p]) + DoneSteps(procs - {p})
    decreases |procs|
  {
    var q :| q in procs && DoneSteps(procs) == DoneStep(procs[q]) + DoneSteps(procs - {q});
    hide DoneSteps, DoneStep;
    if p != q {
      DoneStepsRemove(procs - {q}, p);
      assert procs - {q} - {p} == procs - {p} - {q};
      DoneStepsRemove(procs - {p}, q);
    }
  }

  lemma DoneStepsPut(procs: map<nat, Proc>, p: nat, x: Proc)
    requires p in procs
    ensures DoneSteps(procs[p := x]) == DoneSteps(procs) - DoneStep(procs[p]) + DoneStep(x)
  {
    hide DoneSteps, DoneStep;
    DoneStepsRemove(procs, p);
    DoneStepsRemove(procs[p := x], p);
    assert procs[p := x] - {p} == procs - {p};
  }

  lemma {:induction false} NoneDone(procs: map<nat, Proc>)
    requires forall p | p in procs :: !procs[p].phase.Finished?
    ensures DoneSteps(procs) == 0
    decreases |procs|
  {
    if procs != map[] {
      var p :| p in procs && DoneSteps(procs) == DoneStep(procs[p]) + DoneSteps(procs - {p});
      hide DoneSteps;
      assert DoneStep(procs[p]) == 0;
      NoneDone(procs - {p});
    }
  }

  lemma StepsNext(log: seq<Event>, e: Event)
    ensures Steps(log + [e]) == Steps(log) + if e.Did? && e.op.Inc? then e.op.step else 0
  {
    assert (log + [e])[..|log|] == log;
  }

  lemma NextSteps(w: World, w1: World)
    requires Next(w, w1) && Steps(w.log) == DoneSteps(w.procs)
    ensures Steps(w1.log) == DoneSteps(w1.procs)
  {
    hide Steps, DoneSteps, Effect;
    var p :| Look(w, p, w1) || Update(w, p, w1) || Insert(w, p, w1);
    DoneStepsPut(w.procs, p, w1.procs[p]);
    if w1.log != w.log {
      StepsNext(w.log, w1.log[|w.log|]);
      assert w1.log == w.log + [w1.log[|w.log|]];
    }
  }

  lemma {:induction false} RunSteps(ws: seq<World>, v: Value, i: nat)
    requires IsRun(ws, v) && i < |ws|
    ensures Steps(ws[i].log) == DoneSteps(ws[i].procs)
  {
    hide Next, DoneSteps;
    if i == 0 {
      NoneDone(ws[0].procs);
    } else {
      RunSteps(ws, v, i - 1);
      NextSteps(ws[i - 1], ws[i]);
    }
  }

  /** No increment is lost: at any time the counter is its initial value, or zero if it was
      absent, plus the steps of all increments that have finished, in machine arithmetic. */
  lemma NoLostIncrements(ws: seq<World>, v: Value, i: nat)
    requires IsRun(ws, v) && i < |ws| && AllIncs(ws[0]) && !v.Foreign? && (v.Long? ==> Wrap(v.n) == v.n)
    ensures if ws[i].value.Absent? then v.Absent? && DoneSteps(ws[i].procs) == 0
            else ws[i].value == Long(Wrap(Start(v) + DoneSteps(ws[i].procs)))
    ensures forall p | p in ws[i].procs && ws[i].procs[p].phase.Finished? :: ws[i].procs[p].phase.result.Counted?
  {
    hide IsRun, Replay, Wrap;
    RunInv(ws, v, i);
    RunSteps(ws, v, i);
    LogGrows(ws, v, 0, i);
    IncsInLog(ws[i], v);
    ReplaySum(v, ws[i].log);
    forall p | p in ws[i].procs && ws[i].procs[p].phase.Finished?
      ensures ws[i].procs[p].phase.result.Counted?
    {
      PrefixSum(ws, v, i, p);
    }
  }

  lemma CountedAt(v: Value, log: seq<Event>, n: nat)
    requires Legal(v, log) && !v.Foreign? && (v.Long? ==> Wrap(v.n) == v.n) && IncLog(log) && n < |log| && log[n].Did?
    ensures log[n].result == Counted(Wrap(Start(v) + Steps(log[..n + 1])))
  {
    hide Legal, Wrap, Effect, Replay, Steps;
    LegalPrefix(v, log, n);
    ReplaySum(v, log[..n]);
    assert log[..n + 1] == log[..n] + [log[n]];
    StepsNext(log[..n], log[n]);
    LegalAt(v, log, n);
    IncEffect(log[n].op, Replay(v, log[..n]));
    WrapAdd(Start(v) + Steps(log[..n]), log[n].op.step);
  }

  lemma LegalAt(v: Value, log: seq<Event>, n: nat)
    requires Legal(v, log) && n < |log|
    ensures EventOk(log[n], Replay(v, log[..n]))
  {
    hide Replay, EventOk;
  }

  lemma InvLegal(w: World, v: Value)
    requires Inv(w, v)
    ensures Legal(v, w.log)
  {
    hide Legal, LoggedOnce, Present;
  }

  lemma PlaceInLog(w: World, v: Value, p: nat) returns (n: nat)
    requires Inv(w, v) && p in w.procs && w.procs[p].phase.Finished?
    ensures n < |w.log| && w.log[n] == Did(p, w.procs[p].op, w.procs[p].phase.result)
  {
    hide Legal, Present, Replay;
    n :| n < |w.log| && w.log[n] == Did(p, w.procs[p].op, w.procs[p].phase.result);
  }

  /** Each increment returns the sum of the steps up to its own, in one common order. */
  lemma PrefixSum(ws: seq<World>, v: Value, i: nat, p: nat)
    requires IsRun(ws, v) && i < |ws| && AllIncs(ws[0]) && !v.Foreign? && (v.Long? ==> Wrap(v.n) == v.n)
    requires p in ws[i].procs && ws[i].procs[p].phase.Finished?
    ensures exists n: nat :: n < |ws[i].log| && ws[i].log[n].Did? && ws[i].log[n].p == p
                       && ws[i].procs[p].phase.result == Counted(Wrap(Start(v) + Steps(ws[i].log[..n + 1])))
  {
    hide Inv, IsRun, Wrap, Legal, Steps, IncLog;
    RunInv(ws, v, i);
    LogGrows(ws, v, 0, i);
    IncsInLog(ws[i], v);
    InvLegal(ws[i], v);
    var n := PlaceInLog(ws[i], v, p);
    CountedAt(v, ws[i].log, n);
  }
}
