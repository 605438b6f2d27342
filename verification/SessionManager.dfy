/** The session manager as a protocol between threads: a shared index of sessions, a stub
    for every thread that owns sessions, housekeeping timers and posted close tasks
    (src/wfde/WfdeSessionManager.cpp, src/wfde/WfdeSessionManager.h). */
module SessionManager {
  type Id = nat    // a session's uuid: never given twice
  type Tid = nat   // a thread of the pool

  // ---------- state ----------

  /** A call that is suspended between two of its lock regions. */
  datatype Call =
    | Attached(id: Id)  // CreateSession: in the stub, not yet in the index
    | Found(id: Id)     // CloseSession: looked up
    | Erased(id: Id)    // CloseSession: out of the index, still in the stub

  datatype Manager = Manager(
    threads: nat,                // size of the pool
    index: set<Id>,              // sessions_
    stubs: map<Tid, seq<Id>>,    // stubs_: the threads that have one, and the sessions it owns
    timers: map<Tid, nat>,       // pending housekeeping timers
    posted: map<Tid, seq<Id>>,   // pending close tasks of a thread, the oldest first
    calls: map<Tid, Call>,       // the call that a thread is in
    home: map<Id, Tid>,          // the thread of every session ever created
    gone: set<Id>,               // the sessions that were detached
    fault: bool)                 // an assert failed, or a slot was missing

  function Start(threads: nat): Manager {
    Manager(threads, {}, map[], map[], map[], map[], map[], {}, false)
  }

  function Timers(m: Manager, t: Tid): nat { if t in m.timers then m.timers[t] else 0 }

  function Tasks(m: Manager, t: Tid): seq<Id> { if t in m.posted then m.posted[t] else [] }

  function Assert(m: Manager, condition: bool): Manager { m.(fault := m.fault || !condition) }

  // ---------- the operations, by lock region ----------

  function ScheduleThdTimer(m: Manager, t: Tid): Manager {
    Assert(m, t < m.threads && t in m.stubs).(timers := m.timers[t := Timers(m, t) + 1])
  }

  /** A thread gets its stub, and the timer that goes with it, with its first session. */
  function EnsureStub(m: Manager, t: Tid): (r: Manager)
    ensures t in r.stubs
  {
    if t in m.stubs then m else ScheduleThdTimer(m.(stubs := m.stubs[t := []]), t)
  }

  /** CreateSession up to its lock: make sure of the stub, attach the session. */
  function Attach(m: Manager, t: Tid, id: Id): Manager {
    var ready := EnsureStub(m, t);
    ready.(stubs := ready.stubs[t := ready.stubs[t] + [id]], home := m.home[id := t],
           calls := m.calls[t := Attached(id)])
  }

  function Register(m: Manager, t: Tid, id: Id): Manager {
    m.(index := m.index + {id}, calls := m.calls - {t})
  }

  /** CloseSession: the look-up, which fails for a session that is not indexed. */
  function Find(m: Manager, t: Tid, id: Id): Manager {
    if id in m.index then m.(calls := m.calls[t := Found(id)]) else m
  }

  /** The asserts behind the look-up, and the second lock region. */
  function Unregister(m: Manager, t: Tid, id: Id): Manager {
    var slotThere := id in m.home && m.home[id] < m.threads && m.home[id] in m.stubs;
    Assert(m, slotThere).(index := m.index - {id}, calls := m.calls[t := Erased(id)])
  }

  function RemoveFirst(s: seq<Id>, id: Id): seq<Id> {
    if s == [] then [] else if s[0] == id then s[1..] else [s[0]] + RemoveFirst(s[1..], id)
  }

  function Detach(m: Manager, t: Tid, id: Id): Manager {
    if id in m.home && m.home[id] in m.stubs then
      var slot := m.home[id];
      m.(stubs := m.stubs[slot := RemoveFirst(m.stubs[slot], id)], gone := m.gone + {id},
         calls := m.calls - {t})
    else Assert(m, false).(calls := m.calls - {t})
  }

  /** The sessions that have been idle for too long. */
  function IdleOf(ids: seq<Id>, idle: set<Id>): seq<Id> {
    if ids == [] then []
    else (if ids[0] in idle then [ids[0]] else []) + IdleOf(ids[1..], idle)
  }

  function Housekeep(m: Manager, t: Tid, idle: set<Id>): Manager
    requires t in m.stubs
  {
    ScheduleThdTimer(m.(posted := m.posted[t := Tasks(m, t) + IdleOf(m.stubs[t], idle)]), t)
  }

  /** The timer of a thread: drop an empty stub, or post a close for every session that has
      been idle for too long, and go on. */
  function OnThdTimer(m: Manager, t: Tid, idle: set<Id>): Manager
    requires Timers(m, t) > 0
  {
    var due := Assert(m, t < m.threads).(timers := m.timers[t := Timers(m, t) - 1]);
    if t !in m.stubs then Assert(due, false)
    else if m.stubs[t] == [] then due.(stubs := m.stubs - {t})
    else Housekeep(due, t, idle)
  }

  function TakeTask(m: Manager, t: Tid): Manager
    requires Tasks(m, t) != []
  {
    m.(posted := m.posted[t := Tasks(m, t)[1..]])
  }

  // ---------- steps ----------

  datatype Event =
    | CreateBegins(t: Tid, id: Id)
    | CreateEnds(t: Tid)
    | CloseBegins(t: Tid, id: Id)
    | PostedCloseBegins(t: Tid)
    | CloseGoesOn(t: Tid)
    | CloseEnds(t: Tid)
    | TimerFires(t: Tid, idle: set<Id>)

  /** A thread runs one call at a time, and only the thread of a session creates or closes
      it; calls of different threads interleave freely.  Posted tasks run in their order, and
      ahead of the timer that was set behind them. */
  predicate Enabled(m: Manager, e: Event) {
    match e
    case CreateBegins(t, id) => t < m.threads && t !in m.calls && id !in m.home
    case CreateEnds(t) => t in m.calls && m.calls[t].Attached?
    case CloseBegins(t, id) => t < m.threads && t !in m.calls && (id in m.home ==> m.home[id] == t)
    case PostedCloseBegins(t) => t !in m.calls && Tasks(m, t) != []
    case CloseGoesOn(t) => t in m.calls && m.calls[t].Found?
    case CloseEnds(t) => t in m.calls && m.calls[t].Erased?
    case TimerFires(t, _) => t !in m.calls && Timers(m, t) > 0 && Tasks(m, t) == []
  }

  function Next(m: Manager, e: Event): Manager
    requires Enabled(m, e)
  {
    match e
    case CreateBegins(t, id) => Attach(m, t, id)
    case CreateEnds(t) => Register(m, t, m.calls[t].id)
    case CloseBegins(t, id) => Find(m, t, id)
    case PostedCloseBegins(t) => Find(TakeTask(m, t), t, Tasks(m, t)[0])
    case CloseGoesOn(t) => Unregister(m, t, m.calls[t].id)
    case CloseEnds(t) => Detach(m, t, m.calls[t].id)
    case TimerFires(t, idle) => OnThdTimer(m, t, idle)
  }

  /** m leads to m' by these events. */
  ghost predicate Runs(m: Manager, events: seq<Event>, m': Manager)
    decreases |events|
  {
    if events == [] then m == m'
    else Enabled(m, events[0]) && Runs(Next(m, events[0]), events[1..], m')
  }

  ghost predicate Reachable(threads: nat, m: Manager) {
    exists events :: Runs(Start(threads), events, m)
  }

  // ---------- the invariant ----------

  ghost predicate Distinct(s: seq<Id>) {
    forall i, j :: 0 <= i < j < |s| ==> s[i] != s[j]
  }

  /** The session is owned by the stub of its own thread, which is there. */
  predicate Owned(m: Manager, id: Id) {
    id in m.home && m.home[id] in m.stubs && id in m.stubs[m.home[id]]
  }

  /** A stub belongs to a thread of the pool and owns sessions of that thread, each once. */
  ghost predicate StubIsSound(m: Manager, t: Tid)
    requires t in m.stubs
  {
    && t < m.threads && Distinct(m.stubs[t])
    && forall id :: id in m.stubs[t] ==> id in m.home && m.home[id] == t
  }

  ghost predicate StubsAreSound(m: Manager) {
    forall t :: t in m.stubs ==> StubIsSound(m, t)
  }

  /** What a suspended call knows: nobody else touches its session. */
  predicate CallIsSound(m: Manager, t: Tid)
    requires t in m.calls
  {
    var id := m.calls[t].id;
    id in m.home && m.home[id] == t && Owned(m, id) && (id in m.index <==> m.calls[t].Found?)
  }

  /** A session that is owned but not indexed is being created or closed right now. */
  predicate InTransit(m: Manager, id: Id)
    requires id in m.home
  {
    m.home[id] in m.calls && m.calls[m.home[id]].id == id && !m.calls[m.home[id]].Found?
  }

  /** Every session that was ever created is owned, or it is gone. */
  ghost predicate Accounted(m: Manager) {
    && (forall id :: id in m.home ==> (Owned(m, id) <==> id !in m.gone))
    && (forall id :: id in m.gone ==> id in m.home)
  }

  ghost predicate IndexIsSound(m: Manager) {
    && (forall id :: id in m.index ==> Owned(m, id))
    && (forall id :: id in m.home && Owned(m, id) && id !in m.index ==> InTransit(m, id))
  }

  ghost predicate CallsAreSound(m: Manager) {
    forall t :: t in m.calls ==> CallIsSound(m, t)
  }

  ghost predicate TasksAreSound(m: Manager) {
    && (forall t :: Timers(m, t) == if t in m.stubs then 1 else 0)
    && (forall t :: t in m.posted && m.posted[t] != [] ==> t in m.stubs)
    && (forall t, id :: t in m.posted && id in m.posted[t] ==> id in m.home && m.home[id] == t)
  }

  ghost predicate Inv(m: Manager) {
    && !m.fault
    && StubsAreSound(m) && Accounted(m) && IndexIsSound(m) && CallsAreSound(m) && TasksAreSound(m)
  }
}
