/** Generating an entry under the write lock: callbacks run inside the lock, may use the cache
    and may generate further entries; the lock is taken and released at the outermost level only. */
module EntryLock {
  import opened HeapModel
  import CacheLists
  import opened CacheModel
  import opened LiveKeys
  import CacheState
  import Protocol

  /** A call of apcu_entry: before the lookup, while its callback runs, while it stores the
      result, while it fetches what it found, on the way out. */
  datatype Stage = Entered | Running | Storing(done: bool) | Fetching | Leaving

  datatype Frame = Frame(key: seq<int>, stage: Stage)

  datatype Mode = Reading | Writing

  /** The nesting level that the lock wrappers look at, the calls in progress, innermost last,
      and the other operation in progress, if any. */
  datatype Thread = Thread(level: nat, frames: seq<Frame>, op: Option<Mode>)

  datatype LockEvent = Acquired(p: nat) | Released(p: nat)

  /** The real lock, the threads, the shared cache, and what was done to the write lock. */
  datatype World = World(writer: Option<nat>, readers: set<nat>, threads: map<nat, Thread>, cache: Protocol.World,
                         log: seq<LockEvent>)

  // ----- The lock wrappers -----

  ghost predicate CanWLock(w: World, p: nat)
    requires p in w.threads
  {
    w.threads[p].level == 0 ==> w.writer.None? && w.readers == {}
  }

  function WLock(w: World, p: nat): World
    requires p in w.threads
  {
    if w.threads[p].level == 0 then w.(writer := Some(p), log := w.log + [Acquired(p)]) else w
  }

  function WUnlock(w: World, p: nat): World
    requires p in w.threads
  {
    if w.threads[p].level == 0 then w.(writer := None, log := w.log + [Released(p)]) else w
  }

  ghost predicate CanRLock(w: World, p: nat)
    requires p in w.threads
  {
    w.threads[p].level == 0 ==> w.writer.None?
  }

  function RLock(w: World, p: nat): World
    requires p in w.threads
  {
    if w.threads[p].level == 0 then w.(readers := w.readers + {p}) else w
  }

  function RUnlock(w: World, p: nat): World
    requires p in w.threads
  {
    if w.threads[p].level == 0 then w.(readers := w.readers - {p}) else w
  }

  // ----- Steps -----

  /** Calls: Enter locks and goes one level deeper; Lookup is a hit or starts the callback;
      Return ends the callback, whose result is stored unless it failed; Leave goes one level up
      and unlocks.  Other operations: Start locks, Finish unlocks.  Work is a step of a thread
      on the shared cache. */
  datatype Action =
    | Enter(p: nat, key: seq<int>)
    | Lookup(p: nat, at: int, t: nat)
    | Return(p: nat, ok: bool)
    | Leave(p: nat)
    | Start(p: nat, mode: Mode)
    | Finish(p: nat)
    | Work(p: nat, step: Protocol.Action)

  function Top(t: Thread): Frame
    requires t.frames != []
  {
    t.frames[|t.frames| - 1]
  }

  function WithTop(t: Thread, stage: Stage): Thread
    requires t.frames != []
  {
    t.(frames := t.frames[|t.frames| - 1 := Top(t).(stage := stage)])
  }

  /** Stages in which code of the user may run: the callback itself, serializing its result, or
      unserializing what was found. */
  predicate UserStage(s: Stage) {
    s.Running? || s.Storing? || s.Fetching?
  }

  /** The thread may run code of the user, outside any operation of the cache. */
  predicate InUserCode(t: Thread) {
    t.op.None? && (t.frames == [] || UserStage(Top(t).stage))
  }

  /** The thread is storing the result of its innermost call. */
  predicate StoresResult(t: Thread) {
    t.op.None? && t.frames != [] && Top(t).stage.Storing?
  }

  /** Entries that are not in the cache yet, and references that are given back, need no lock;
      lookups and updates in place need it for reading, all else for writing. */
  predicate Allowed(t: Thread, step: Protocol.Action) {
    match step
    case Create(_, _, _) => true
    case Write(_, _, _) => true
    case Discard(_) => true
    case Unpin(_) => true
    case FindPin(_, _, _) => t.op.Some?
    case VisitPin(_, _, _) => t.op.Some?
    case Update(_, _, _, _) => t.op.Some?
    case Store(_, _, _) => t.op == Some(Writing) || StoresResult(t)
    case Remove(_, _) => t.op == Some(Writing)
    case Expunge(_, _, _, _) => t.op == Some(Writing)
    case Clear(_) => t.op == Some(Writing)
  }

  /** The thread stores an entry under the key of its innermost call, as the result of it. */
  ghost predicate StoresOwn(t: Thread, cache: Protocol.World, step: Protocol.Action) {
    && step.Store? && StoresResult(t) && step.t in cache.pins
    && KeyIn(ItemAt(cache.st, cache.pins[step.t].e)) == Top(t).key
  }

  function Put(w: World, p: nat, t: Thread): World {
    w.(threads := w.threads[p := t])
  }

  ghost predicate Next(cfg: Protocol.Config, w: World, a: Action, w1: World) {
    && a.p in w.threads
    && var t := w.threads[a.p];
    match a
    case Enter(p, key) =>
      && InUserCode(t) && CanWLock(w, p)
      && w1 == Put(WLock(w, p), p, t.(level := t.level + 1, frames := t.frames + [Frame(key, Entered)]))
    case Lookup(p, at, tok) =>
      && t.frames != [] && Top(t).stage == Entered
      && Protocol.Next(cfg, w.cache, Protocol.FindPin(Top(t).key, at, tok), w1.cache)
      && var stage := if Live(cfg, w.cache, Top(t).key, at) then Fetching else Running;
      w1 == Put(w, p, WithTop(t, stage)).(cache := w1.cache)
    case Return(p, ok) =>
      && t.frames != [] && Top(t).stage == Running && t.op.None?
      && w1 == Put(w, p, WithTop(t, if ok then Storing(false) else Leaving))
    case Leave(p) =>
      && t.frames != [] && t.op.None? && t.level > 0
      && (Top(t).stage.Storing? || Top(t).stage.Fetching? || Top(t).stage.Leaving?)
      && w1 == WUnlock(Put(w, p, t.(level := t.level - 1, frames := t.frames[..|t.frames| - 1])), p)
    case Start(p, mode) =>
      && InUserCode(t) && (if mode.Reading? then CanRLock(w, p) else CanWLock(w, p))
      && w1 == Put(if mode.Reading? then RLock(w, p) else WLock(w, p), p, t.(op := Some(mode)))
    case Finish(p) =>
      && t.op.Some?
      && var w2 := Put(w, p, t.(op := None));
      w1 == if t.op.value.Reading? then RUnlock(w2, p) else WUnlock(w2, p)
    case Work(p, step) =>
      && Allowed(t, step) && Protocol.Next(cfg, w.cache, step, w1.cache)
      && w1 == Put(w, p, if StoresOwn(t, w.cache, step) then WithTop(t, Storing(true)) else t).(cache := w1.cache)
  }

  ghost predicate Init(w: World, nslots: nat) {
    && w.writer.None? && w.readers == {} && w.log == [] && Protocol.Init(w.cache, nslots)
    && forall p | p in w.threads :: w.threads[p] == Thread(0, [], None)
  }

  // ----- The invariant -----

  /** The thread must hold the write lock. */
  predicate Inside(t: Thread) {
    t.frames != [] || t.op == Some(Writing)
  }

  ghost predicate ThreadOk(t: Thread) {
    && t.level == |t.frames|
    && (forall i | 0 <= i < |t.frames| - 1 :: UserStage(t.frames[i].stage))
    && (t.op.Some? ==> t.frames == [] || UserStage(Top(t).stage))
  }

  ghost predicate Inv(w: World) {
    && (forall p | p in w.threads :: ThreadOk(w.threads[p]))
    && (forall p | p in w.threads :: w.writer == Some(p) <==> Inside(w.threads[p]))
    && (forall p | p in w.threads :: p in w.readers <==> w.threads[p].frames == [] && w.threads[p].op == Some(Reading))
    && (w.writer.Some? ==> w.readers == {} && w.writer.value in w.threads)
    && w.readers <= w.threads.Keys
  }

  lemma InitInv(w: World, nslots: nat)
    requires Init(w, nslots)
    ensures Inv(w)
  {
  }

  /** A thread that changes only how far its innermost call has come. */
  lemma StageInv(w: World, p: nat, t: Thread, w1: World)
    requires Inv(w) && p in w.threads && w1 == w.(threads := w.threads[p := t], cache := w1.cache)
    requires t.level == w.threads[p].level && t.op == w.threads[p].op && |t.frames| == |w.threads[p].frames|
    requires forall i | 0 <= i < |t.frames| - 1 :: t.frames[i] == w.threads[p].frames[i]
    requires t.op.Some? ==> t.frames == [] || UserStage(Top(t).stage)
    ensures Inv(w1)
  {
  }

  lemma EnterInv(cfg: Protocol.Config, w: World, p: nat, key: seq<int>, w1: World)
    requires Inv(w) && Next(cfg, w, Enter(p, key), w1)
    ensures Inv(w1)
  {
    hide Protocol.Next, Live, Allowed, KeyIn;
  }

  lemma LookupInv(cfg: Protocol.Config, w: World, p: nat, at: int, tok: nat, w1: World)
    requires Inv(w) && Next(cfg, w, Lookup(p, at, tok), w1)
    ensures Inv(w1)
  {
    hide Protocol.Next, Live;
    assert ThreadOk(w.threads[p]);
    StageInv(w, p, w1.threads[p], w1);
  }

  lemma ReturnInv(cfg: Protocol.Config, w: World, p: nat, ok: bool, w1: World)
    requires Inv(w) && Next(cfg, w, Return(p, ok), w1)
    ensures Inv(w1)
  {
    StageInv(w, p, w1.threads[p], w1);
  }

  lemma LeaveInv(cfg: Protocol.Config, w: World, p: nat, w1: World)
    requires Inv(w) && Next(cfg, w, Leave(p), w1)
    ensures Inv(w1)
  {
    hide Protocol.Next, Live, Allowed, KeyIn;
  }

  lemma StartInv(cfg: Protocol.Config, w: World, p: nat, mode: Mode, w1: World)
    requires Inv(w) && Next(cfg, w, Start(p, mode), w1)
    ensures Inv(w1)
  {
    hide Protocol.Next, Live, Allowed, KeyIn;
  }

  lemma FinishInv(cfg: Protocol.Config, w: World, p: nat, w1: World)
    requires Inv(w) && Next(cfg, w, Finish(p), w1)
    ensures Inv(w1)
  {
    hide Protocol.Next, Live, Allowed, KeyIn;
  }

  lemma WorkInv(cfg: Protocol.Config, w: World, p: nat, step: Protocol.Action, w1: World)
    requires Inv(w) && Next(cfg, w, Work(p, step), w1)
    ensures Inv(w1)
  {
    hide Protocol.Next, Allowed, KeyIn;
    assert ThreadOk(w.threads[p]);
    StageInv(w, p, w1.threads[p], w1);
  }

  lemma NextInv(cfg: Protocol.Config, w: World, a: Action, w1: World)
    requires Inv(w) && Next(cfg, w, a, w1)
    ensures Inv(w1)
  {
    hide Inv, Next;
    match a
    case Enter(p, key) => EnterInv(cfg, w, p, key, w1);
    case Lookup(p, at, tok) => LookupInv(cfg, w, p, at, tok, w1);
    case Return(p, ok) => ReturnInv(cfg, w, p, ok, w1);
    case Leave(p) => LeaveInv(cfg, w, p, w1);
    case Start(p, mode) => StartInv(cfg, w, p, mode, w1);
    case Finish(p) => FinishInv(cfg, w, p, w1);
    case Work(p, step) => WorkInv(cfg, w, p, step, w1);
  }

  /** The cache changes by its own steps. */
  lemma NextCache(cfg: Protocol.Config, w: World, a: Action, w1: World)
    requires Protocol.Inv(cfg, w.cache) && Next(cfg, w, a, w1)
    ensures Protocol.Inv(cfg, w1.cache)
  {
    hide Protocol.Inv, Protocol.Next, Live, Allowed;
    if a.Lookup? {
      Protocol.NextInv(cfg, w.cache, Protocol.FindPin(Top(w.threads[a.p]).key, a.at, a.t), w1.cache);
    } else if a.Work? {
      Protocol.NextInv(cfg, w.cache, a.step, w1.cache);
    }
  }

  // ----- Runs -----

  ghost predicate IsRun(cfg: Protocol.Config, nslots: nat, ws: seq<World>, acts: seq<Action>) {
    && |ws| == |acts| + 1 && Init(ws[0], nslots)
    && forall n {:trigger acts[n]} | 0 <= n < |acts| :: Next(cfg, ws[n], acts[n], ws[n + 1])
  }

  lemma {:induction false} RunInv(cfg: Protocol.Config, nslots: nat, ws: seq<World>, acts: seq<Action>, n: nat)
    requires IsRun(cfg, nslots, ws, acts) && n < |ws|
    ensures Inv(ws[n]) && Protocol.Inv(cfg, ws[n].cache)
  {
    hide Inv, Next, Protocol.Inv, Protocol.Init;
    if n == 0 {
      InitInv(ws[0], nslots);
      Protocol.InitInv(cfg, ws[0].cache, nslots);
    } else {
      RunInv(cfg, nslots, ws, acts, n - 1);
      assert Next(cfg, ws[n - 1], acts[n - 1], ws[n]);
      NextInv(cfg, ws[n - 1], acts[n - 1], ws[n]);
      NextCache(cfg, ws[n - 1], acts[n - 1], ws[n]);
    }
  }

  /** While a callback runs, no other thread is in a call or in an operation. */
  lemma CallbackAlone(cfg: Protocol.Config, nslots: nat, ws: seq<World>, acts: seq<Action>, n: nat, p: nat, q: nat)
    requires IsRun(cfg, nslots, ws, acts) && n < |ws| && p in ws[n].threads && q in ws[n].threads && p != q
    requires ws[n].threads[p].frames != []
    ensures ws[n].writer == Some(p) && ws[n].readers == {}
    ensures ws[n].threads[q].frames == [] && ws[n].threads[q].op.None?
  {
    hide IsRun, Protocol.Inv;
    RunInv(cfg, nslots, ws, acts, n);
    assert q !in ws[n].readers && !Inside(ws[n].threads[q]);
    Modes(ws[n].threads[q].op);
  }

  /** While a callback runs, steps of other threads leave the lists alone, and the keys and values
      of what is in them. */
  lemma CallbackUndisturbed(cfg: Protocol.Config, nslots: nat, ws: seq<World>, acts: seq<Action>, n: nat, p: nat,
                            e: nat)
    requires IsRun(cfg, nslots, ws, acts) && n < |acts| && p in ws[n].threads && acts[n].p != p
    requires ws[n].threads[p].frames != [] && !CacheLists.Unlisted(ws[n].cache.st.chains, e)
    ensures ws[n + 1].cache.st.chains == ws[n].cache.st.chains
    ensures var c, c1 := ItemAt(ws[n].cache.st, e), ItemAt(ws[n + 1].cache.st, e);
            KeyIn(c1) == KeyIn(c) && CacheState.BodyOf(c1) == CacheState.BodyOf(c)
  {
    hide Protocol.Inv, Protocol.Next, Live, KeyIn, CacheState.BodyOf, CacheLists.Unlisted;
    assert Next(cfg, ws[n], acts[n], ws[n + 1]);
    CallbackAlone(cfg, nslots, ws, acts, n, p, acts[n].p);
    RunInv(cfg, nslots, ws, acts, n);
    if acts[n].Work? {
      UnlockedKeeps(cfg, ws[n].cache, acts[n].step, ws[n + 1].cache, e);
    }
  }

  lemma Modes(op: Option<Mode>)
    ensures op.None? || op == Some(Reading) || op == Some(Writing)
  {
    if op.Some? {
      match op.value
      case Reading =>
        assert op == Some(Reading);
      case Writing =>
        assert op == Some(Writing);
    }
  }

  // ----- Balanced locking -----

  /** How often the thread has taken the write lock without releasing it. */
  ghost function Open(log: seq<LockEvent>, p: nat): int {
    if log == [] then 0
    else Open(log[..|log| - 1], p) + (match log[|log| - 1] case Acquired(q) => if q == p then 1
                                      else 0 case Released(q) => if q == p then -1 else 0)
  }

  lemma OpenNext(log: seq<LockEvent>, e: LockEvent, p: nat)
    ensures Open(log + [e], p) == Open(log, p) + (match e case Acquired(q) => if q == p then 1
                                                  else 0 case Released(q) => if q == p then -1 else 0)
  {
    assert (log + [e])[..|log|] == log;
  }

  ghost predicate Balanced(w: World) {
    forall p {:trigger Open(w.log, p)} | p in w.threads :: Open(w.log, p) == if Inside(w.threads[p]) then 1 else 0
  }

  lemma ThreadAt(w: World, p: nat)
    requires Inv(w)
    ensures p in w.threads ==> ThreadOk(w.threads[p])
  {
  }

  /** The real lock is taken or released only by a thread that goes in or comes out. */
  ghost predicate LogFits(w: World, w1: World) {
    && w1.threads.Keys == w.threads.Keys
    && (w1.log == w.log ==> forall p | p in w.threads :: Inside(w1.threads[p]) == Inside(w.threads[p]))
    && (w1.log != w.log ==> exists p :: GoesInOrOut(w, w1, p))
  }

  ghost predicate GoesInOrOut(w: World, w1: World, p: nat) {
    && p in w.threads && p in w1.threads && w1.threads.Keys == w.threads.Keys
    && (forall q | q in w.threads && q != p :: w1.threads[q] == w.threads[q])
    && Inside(w1.threads[p]) == !Inside(w.threads[p])
    && w1.log == w.log + [if Inside(w1.threads[p]) then Acquired(p) else Released(p)]
  }

  lemma LogAlone(w: World, p: nat, t: Thread, w1: World)
    requires p in w.threads && w1.threads == w.threads[p := t]
    requires if Inside(t) == Inside(w.threads[p]) then w1.log == w.log
             else w1.log == w.log + [if Inside(t) then Acquired(p) else Released(p)]
    ensures LogFits(w, w1)
  {
    hide Inside;
    if Inside(t) != Inside(w.threads[p]) {
      assert GoesInOrOut(w, w1, p);
    }
  }

  lemma NextLog(cfg: Protocol.Config, w: World, a: Action, w1: World)
    requires Inv(w) && Next(cfg, w, a, w1)
    ensures LogFits(w, w1)
  {
    hide Inv, LogFits, Protocol.Next, Live, Allowed, KeyIn;
    ThreadAt(w, a.p);
    LogAlone(w, a.p, w1.threads[a.p], w1);
  }

  lemma NextBalanced(cfg: Protocol.Config, w: World, a: Action, w1: World)
    requires Inv(w) && Next(cfg, w, a, w1) && Balanced(w)
    ensures Balanced(w1)
  {
    hide Inv, Next, Inside, Open;
    NextLog(cfg, w, a, w1);
    if w1.log != w.log {
      var p :| GoesInOrOut(w, w1, p);
      forall q | q in w1.threads
        ensures Open(w1.log, q) == if Inside(w1.threads[q]) then 1 else 0
      {
        OpenNext(w.log, if Inside(w1.threads[p]) then Acquired(p) else Released(p), q);
      }
    }
  }

  /** Locking is balanced in every run: a thread has taken the real lock exactly once when it
      is inside, however deep it is nested, and has released it as often as it took it else. */
  lemma {:induction false} BalancedLocking(cfg: Protocol.Config, nslots: nat, ws: seq<World>, acts: seq<Action>, n: nat)
    requires IsRun(cfg, nslots, ws, acts) && n < |ws|
    ensures Balanced(ws[n])
  {
    hide Inv, Next, Protocol.Inv;
    if n > 0 {
      BalancedLocking(cfg, nslots, ws, acts, n - 1);
      RunInv(cfg, nslots, ws, acts, n - 1);
      assert Next(cfg, ws[n - 1], acts[n - 1], ws[n]);
      NextBalanced(cfg, ws[n - 1], acts[n - 1], ws[n]);
    } else {
      NobodyInside(ws[0], nslots);
    }
  }

  lemma NobodyInside(w: World, nslots: nat)
    requires Init(w, nslots)
    ensures Balanced(w)
  {
  }

  // ----- Single flight -----

  /** A lookup at the time `at` starts the callback for the key here. */
  ghost predicate Starts(ws: seq<World>, acts: seq<Action>, n: nat, p: nat, key: seq<int>, at: int) {
    && n < |acts| && |ws| == |acts| + 1 && acts[n].Lookup? && acts[n].p == p && acts[n].at == at
    && p in ws[n + 1].threads && ws[n + 1].threads[p].frames != []
    && Top(ws[n + 1].threads[p]) == Frame(key, Running)
  }

  /** The call at depth `d` of thread `p` ends without having stored anything under its key: the
      callback failed, or there was no memory. */
  ghost predicate Failed(w: World, a: Action, p: nat, d: nat) {
    && a.p == p && p in w.threads && |w.threads[p].frames| == d + 1
    && ((a.Return? && !a.ok) || (a.Leave? && Top(w.threads[p]).stage == Storing(false)))
  }

  /** The call stores its result, but at the time `at` the time to live is over, of the result
      or of the entry that is under the key already. */
  ghost predicate Outlived(cfg: Protocol.Config, w: World, a: Action, p: nat, d: nat, key: seq<int>, at: int) {
    && a.Work? && a.p == p && p in w.threads && |w.threads[p].frames| == d + 1
    && StoresOwn(w.threads[p], w.cache, a.step) && Top(w.threads[p]).key == key
    && var c := ItemAt(w.cache.st, w.cache.pins[a.step.t].e);
    HardExpired(c, at)
    || (Taken(w.cache.st, cfg.hash, key, Field(c, CacheLists.CTIME)) && !Taken(w.cache.st, cfg.hash, key, at))
  }

  /** A step on the cache that may take the key away. */
  ghost predicate Loses(cfg: Protocol.Config, w: World, a: Action, w1: World, key: seq<int>, at: int) {
    a.Work? && MayLose(cfg, w.cache, a.step, w1.cache, key, at)
  }

  ghost predicate Lost(cfg: Protocol.Config, w: World, a: Action, w1: World, p: nat, d: nat, key: seq<int>, at: int) {
    Loses(cfg, w, a, w1, key, at) || Failed(w, a, p, d) || Outlived(cfg, w, a, p, d, key, at)
  }

  /** The call has not stored its result yet. */
  ghost predicate OnItsWay(w: World, p: nat, d: nat, key: seq<int>) {
    && p in w.threads && |w.threads[p].frames| > d
    && (w.threads[p].frames[d] == Frame(key, Running) || w.threads[p].frames[d] == Frame(key, Storing(false)))
  }

  /** The call is still on its way, or the key is there. */
  ghost predicate InFlight(cfg: Protocol.Config, w: World, p: nat, d: nat, key: seq<int>, at: int) {
    OnItsWay(w, p, d, key) || Live(cfg, w.cache, key, at)
  }

  /** A key that is found stays found. */
  lemma NextLive(cfg: Protocol.Config, w: World, a: Action, w1: World, key: seq<int>, at: int)
    requires Protocol.Inv(cfg, w.cache) && Next(cfg, w, a, w1) && Live(cfg, w.cache, key, at)
    requires !Loses(cfg, w, a, w1, key, at)
    ensures Live(cfg, w1.cache, key, at)
  {
    hide Protocol.Inv, Protocol.Next, Live, Allowed, MayLose;
    if a.Lookup? {
      FindPinLoses(cfg, w.cache, Top(w.threads[a.p]).key, a.at, a.t, w1.cache, key, at);
      StaysLive(cfg, w.cache, Protocol.FindPin(Top(w.threads[a.p]).key, a.at, a.t), w1.cache, key, at);
    } else if a.Work? {
      StaysLive(cfg, w.cache, a.step, w1.cache, key, at);
    }
  }

  lemma FindPinLoses(cfg: Protocol.Config, w: Protocol.World, key1: seq<int>, at1: int, tok: nat, w1: Protocol.World,
                     key: seq<int>, at: int)
    ensures !MayLose(cfg, w, Protocol.FindPin(key1, at1, tok), w1, key, at)
  {
  }

  /** Storing the result makes the key one that is found. */
  lemma ResultLive(cfg: Protocol.Config, w: World, p: nat, step: Protocol.Action, w1: World, d: nat, key: seq<int>,
                   at: int)
    requires Protocol.Inv(cfg, w.cache) && Next(cfg, w, Work(p, step), w1)
    requires |w.threads[p].frames| == d + 1 && StoresOwn(w.threads[p], w.cache, step) && Top(w.threads[p]).key == key
    requires !Outlived(cfg, w, Work(p, step), p, d, key, at)
    ensures Live(cfg, w1.cache, key, at)
  {
    hide Protocol.Inv, Live, Allowed, KeyIn, Field, HardExpired, Taken, Insert, ItemOk;
    var e := w.cache.pins[step.t].e;
    LooseFresh(cfg, w.cache, e);
    InvSized(cfg, w.cache);
    Protocol.NextInv(cfg, w.cache, step, w1.cache);
    LiveIffTaken(cfg, w1.cache, key, at);
    StoreBinds(cfg, w.cache.st, e, step.exclusive, step.now, key, at);
  }

  lemma NextOnItsWay(cfg: Protocol.Config, w: World, a: Action, w1: World, p: nat, d: nat, key: seq<int>, at: int)
    requires Inv(w) && Protocol.Inv(cfg, w.cache) && Next(cfg, w, a, w1) && OnItsWay(w, p, d, key)
    requires !Failed(w, a, p, d) && !Outlived(cfg, w, a, p, d, key, at)
    ensures OnItsWay(w1, p, d, key) || Live(cfg, w1.cache, key, at)
  {
    hide Protocol.Inv, Protocol.Next, Live, Allowed, KeyIn, Outlived;
    if a.Work? && a.p == p && |w.threads[p].frames| == d + 1 && StoresOwn(w.threads[p], w.cache, a.step) {
      ResultLive(cfg, w, p, a.step, w1, d, key, at);
    }
  }

  lemma NextInFlight(cfg: Protocol.Config, w: World, a: Action, w1: World, p: nat, d: nat, key: seq<int>, at: int)
    requires Inv(w) && Protocol.Inv(cfg, w.cache) && Next(cfg, w, a, w1) && InFlight(cfg, w, p, d, key, at)
    requires !Lost(cfg, w, a, w1, p, d, key, at)
    ensures InFlight(cfg, w1, p, d, key, at)
  {
    hide Inv, Protocol.Inv, Next, Live, OnItsWay, Loses, Failed, Outlived;
    if OnItsWay(w, p, d, key) {
      NextOnItsWay(cfg, w, a, w1, p, d, key, at);
    } else {
      NextLive(cfg, w, a, w1, key, at);
    }
  }

  lemma {:induction false} StaysInFlight(cfg: Protocol.Config, nslots: nat, ws: seq<World>, acts: seq<Action>, i: nat,
                                         j: nat, p: nat, d: nat, key: seq<int>, at: int)
    requires IsRun(cfg, nslots, ws, acts) && i <= j < |ws| && InFlight(cfg, ws[i], p, d, key, at)
    requires forall n | i <= n < j :: !Lost(cfg, ws[n], acts[n], ws[n + 1], p, d, key, at)
    ensures InFlight(cfg, ws[j], p, d, key, at)
    decreases j
  {
    hide Inv, Protocol.Inv, Next, InFlight, Lost;
    if i < j {
      StaysInFlight(cfg, nslots, ws, acts, i, j - 1, p, d, key, at);
      RunInv(cfg, nslots, ws, acts, j - 1);
      assert Next(cfg, ws[j - 1], acts[j - 1], ws[j]);
      assert !Lost(cfg, ws[j - 1], acts[j - 1], ws[j - 1 + 1], p, d, key, at);
      NextInFlight(cfg, ws[j - 1], acts[j - 1], ws[j], p, d, key, at);
    }
  }

  /** A lookup starts the callback if and only if the cache does not find the key. */
  lemma StartsIff(cfg: Protocol.Config, nslots: nat, ws: seq<World>, acts: seq<Action>, n: nat)
    requires IsRun(cfg, nslots, ws, acts) && n < |acts| && acts[n].Lookup?
    ensures var p, at := acts[n].p, acts[n].at;
            && p in ws[n].threads && ws[n].threads[p].frames != []
            && (Starts(ws, acts, n, p, Top(ws[n].threads[p]).key, at) <==>
                  !Live(cfg, ws[n].cache, Top(ws[n].threads[p]).key, at))
            && (Live(cfg, ws[n].cache, Top(ws[n].threads[p]).key, at) ==>
                  p in ws[n + 1].threads && |ws[n + 1].threads[p].frames| == |ws[n].threads[p].frames|
                  && Top(ws[n + 1].threads[p]) == Frame(Top(ws[n].threads[p]).key, Fetching))
  {
    hide Protocol.Inv, Protocol.Next, Live, Allowed;
    assert Next(cfg, ws[n], acts[n], ws[n + 1]);
  }

  /** Where a callback is started the key is not found, and its thread holds the lock. */
  lemma StartFacts(cfg: Protocol.Config, nslots: nat, ws: seq<World>, acts: seq<Action>, n: nat, p: nat, key: seq<int>,
                   at: int)
    requires IsRun(cfg, nslots, ws, acts) && Starts(ws, acts, n, p, key, at)
    ensures !Live(cfg, ws[n].cache, key, at) && p in ws[n].threads && ws[n].threads[p].frames != []
    ensures ws[n].writer == Some(p)
    ensures OnItsWay(ws[n + 1], p, |ws[n].threads[p].frames| - 1, key)
  {
    hide Protocol.Inv, Protocol.Next, Live, Allowed;
    assert Next(cfg, ws[n], acts[n], ws[n + 1]);
    RunInv(cfg, nslots, ws, acts, n);
  }

  /** Single flight: if a thread started the callback for a key, another one starts it later
      only if meanwhile the first call failed to store anything, what it stored has outlived
      its time, or a step was made that may take the key away. */
  lemma SingleFlight(cfg: Protocol.Config, nslots: nat, ws: seq<World>, acts: seq<Action>, i: nat, j: nat, p: nat,
                     q: nat, key: seq<int>, at0: int, at: int)
    requires IsRun(cfg, nslots, ws, acts) && i < j && p != q
    requires Starts(ws, acts, i, p, key, at0) && Starts(ws, acts, j, q, key, at)
    ensures p in ws[i].threads
    ensures exists n :: i < n < j && Lost(cfg, ws[n], acts[n], ws[n + 1], p, |ws[i].threads[p].frames| - 1, key, at)
  {
    hide IsRun, Lost, Live, Protocol.Inv, Starts;
    StartBefore(cfg, ws, acts, i, p, key, at0);
    StartBefore(cfg, ws, acts, j, q, key, at);
    StartFacts(cfg, nslots, ws, acts, i, p, key, at0);
    StartFacts(cfg, nslots, ws, acts, j, q, key, at);
    var d := |ws[i].threads[p].frames| - 1;
    if forall n | i < n < j :: !Lost(cfg, ws[n], acts[n], ws[n + 1], p, d, key, at) {
      StaysInFlight(cfg, nslots, ws, acts, i + 1, j, p, d, key, at);
      RunInv(cfg, nslots, ws, acts, j);
      assert false;
    }
  }

  lemma StartBefore(cfg: Protocol.Config, ws: seq<World>, acts: seq<Action>, j: nat, q: nat, key: seq<int>, at: int)
    requires Starts(ws, acts, j, q, key, at)
    ensures j < |acts| && |ws| == |acts| + 1
  {
  }

  /** While no step is made that may take the key away, nobody starts its callback, the thread
      that stored it included. */
  lemma PresentKeyHits(cfg: Protocol.Config, nslots: nat, ws: seq<World>, acts: seq<Action>, i: nat, j: nat, q: nat,
                       key: seq<int>, at: int)
    requires IsRun(cfg, nslots, ws, acts) && i <= j < |acts| && Live(cfg, ws[i].cache, key, at)
    requires forall n | i <= n < j :: !Loses(cfg, ws[n], acts[n], ws[n + 1], key, at)
    ensures !Starts(ws, acts, j, q, key, at)
  {
    hide IsRun, Live, Starts, Loses;
    RunLength(cfg, nslots, ws, acts);
    KeyStays(cfg, nslots, ws, acts, i, j, key, at);
    if Starts(ws, acts, j, q, key, at) {
      StartFacts(cfg, nslots, ws, acts, j, q, key, at);
      assert false;
    }
  }

  lemma RunLength(cfg: Protocol.Config, nslots: nat, ws: seq<World>, acts: seq<Action>)
    requires IsRun(cfg, nslots, ws, acts)
    ensures |ws| == |acts| + 1
  {
  }

  lemma {:induction false} KeyStays(cfg: Protocol.Config, nslots: nat, ws: seq<World>, acts: seq<Action>, i: nat,
                                    j: nat, key: seq<int>, at: int)
    requires IsRun(cfg, nslots, ws, acts) && i <= j < |ws| && Live(cfg, ws[i].cache, key, at)
    requires forall n | i <= n < j :: !Loses(cfg, ws[n], acts[n], ws[n + 1], key, at)
    ensures Live(cfg, ws[j].cache, key, at)
    decreases j
  {
    hide Inv, Protocol.Inv, Next, Live, Loses;
    if i < j {
      KeyStays(cfg, nslots, ws, acts, i, j - 1, key, at);
      RunInv(cfg, nslots, ws, acts, j - 1);
      assert Next(cfg, ws[j - 1], acts[j - 1], ws[j]);
      assert !Loses(cfg, ws[j - 1], acts[j - 1], ws[j - 1 + 1], key, at);
      NextLive(cfg, ws[j - 1], acts[j - 1], ws[j], key, at);
    }
  }
}
