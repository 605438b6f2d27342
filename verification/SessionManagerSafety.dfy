/** What every run of the session manager keeps, however its threads interleave. */
module SessionManagerSafety {
  import opened SessionManager

  lemma {:induction false} RemoveFirstRemoves(s: seq<Id>, id: Id)
    requires Distinct(s)
    ensures Distinct(RemoveFirst(s, id))
    ensures forall x :: x in RemoveFirst(s, id) <==> x in s && x != id
  {
    if s != [] {
      assert Distinct(s[1..]) by {
        assert forall i :: 0 <= i < |s[1..]| ==> s[1..][i] == s[i + 1];
      }
      RemoveFirstRemoves(s[1..], id);
      var r := RemoveFirst(s[1..], id);
      assert forall x :: x in s <==> x == s[0] || x in s[1..];
      if s[0] != id {
        assert s[0] !in s[1..];
        forall j | 0 < j < |[s[0]] + r| ensures ([s[0]] + r)[j] != s[0] {
          assert ([s[0]] + r)[j] == r[j - 1] && r[j - 1] in r;
        }
        assert forall i, j :: 0 < i < j < |[s[0]] + r| ==> ([s[0]] + r)[i] == r[i - 1] && ([s[0]] + r)[j] == r[j - 1];
      }
    }
  }

  /** A close is posted exactly for the idle sessions of the stub, for each of them once. */
  lemma {:induction false} IdleExactly(ids: seq<Id>, idle: set<Id>)
    ensures forall id :: id in IdleOf(ids, idle) <==> id in ids && id in idle
    ensures Distinct(ids) ==> Distinct(IdleOf(ids, idle))
  {
    if ids != [] {
      IdleExactly(ids[1..], idle);
      assert ids == [ids[0]] + ids[1..];
      var rest := IdleOf(ids[1..], idle);
      if Distinct(ids) {
        assert forall i :: 0 < i < |ids| ==> ids[1..][i - 1] == ids[i] != ids[0];
        assert Distinct(ids[1..]);
        assert ids[0] !in rest;
        forall i, j | 0 <= i < j < |IdleOf(ids, idle)| ensures IdleOf(ids, idle)[i] != IdleOf(ids, idle)[j] {
          if ids[0] in idle {
            assert IdleOf(ids, idle)[j] == rest[j - 1] && (i > 0 ==> IdleOf(ids, idle)[i] == rest[i - 1]);
          }
        }
      }
    }
  }

  lemma AttachForm(m: Manager, t: Tid, id: Id)
    requires t < m.threads && Timers(m, t) == if t in m.stubs then 1 else 0
    ensures var n, owned := Attach(m, t, id), if t in m.stubs then m.stubs[t] else [];
            && n.fault == m.fault && n.threads == m.threads
            && n.stubs == m.stubs[t := owned + [id]]
            && n.index == m.index && n.gone == m.gone && n.posted == m.posted
            && n.home == m.home[id := t] && n.calls == m.calls[t := Attached(id)]
            && (n.timers == m.timers[t := 1] || n.timers == m.timers) && Timers(n, t) == 1
  {
    if t !in m.stubs {
      assert m.stubs[t := []][t := [id]] == m.stubs[t := [id]];
    }
  }

  lemma AttachChanges(m: Manager, t: Tid, id: Id)
    requires Inv(m) && Enabled(m, CreateBegins(t, id))
    ensures var n := Attach(m, t, id);
            && StubsAreSound(n)
            && (forall x :: Owned(n, x) <==> x == id || Owned(m, x))
            && (forall x :: Timers(n, x) == if x in n.stubs then 1 else 0)
  {
    hide Attach;
    AttachForm(m, t, id);
    var n := Attach(m, t, id);
    var owned := if t in m.stubs then m.stubs[t] else [];
    assert t in m.stubs ==> StubIsSound(m, t);
    assert forall x :: x in owned ==> x in m.home && x != id;
    forall s | s in n.stubs ensures StubIsSound(n, s) {
      if s != t {
        assert StubIsSound(m, s);
      }
    }
  }

  lemma AttachKeepsTasks(m: Manager, t: Tid, id: Id)
    requires Inv(m) && Enabled(m, CreateBegins(t, id))
    ensures TasksAreSound(Attach(m, t, id))
  {
    AttachChanges(m, t, id);
    hide Attach, StubsAreSound, Accounted, IndexIsSound, CallsAreSound;
    TimerIsSingle(m, t);
    AttachForm(m, t, id);
  }

  /** A new session, owned and in transit. */
  ghost predicate OneMore(m: Manager, n: Manager, t: Tid, id: Id) {
    && id !in m.home && t !in m.calls && n.home == m.home[id := t] && n.calls == m.calls[t := Attached(id)]
    && n.index == m.index && n.gone == m.gone && t in n.stubs && id in n.stubs[t]
    && forall x :: Owned(n, x) <==> x == id || Owned(m, x)
  }

  lemma OneMoreIsAccounted(m: Manager, n: Manager, t: Tid, id: Id)
    requires Accounted(m) && OneMore(m, n, t, id)
    ensures Accounted(n)
  {
    hide Owned;
  }

  lemma OneMoreIsInTransit(m: Manager, n: Manager, t: Tid, id: Id)
    requires Accounted(m) && IndexIsSound(m) && OneMore(m, n, t, id)
    ensures IndexIsSound(n)
  {
    hide Owned;
  }

  lemma OneMoreCall(m: Manager, n: Manager, t: Tid, id: Id)
    requires IndexIsSound(m) && CallsAreSound(m) && OneMore(m, n, t, id)
    ensures CallsAreSound(n)
  {
    assert !Owned(m, id);
    hide Owned;
    forall u | u in n.calls ensures CallIsSound(n, u) {
      if u != t {
        assert CallIsSound(m, u);
      }
    }
  }

  lemma AttachKeepsInv(m: Manager, t: Tid, id: Id)
    requires Inv(m) && Enabled(m, CreateBegins(t, id))
    ensures Inv(Attach(m, t, id))
  {
    TimerIsSingle(m, t);
    AttachKeepsTasks(m, t, id);
    AttachForm(m, t, id);
    AttachChanges(m, t, id);
    hide Attach, StubsAreSound, TasksAreSound, Accounted, IndexIsSound, CallsAreSound, Owned;
    var n := Attach(m, t, id);
    OneMoreIsAccounted(m, n, t, id);
    OneMoreIsInTransit(m, n, t, id);
    OneMoreCall(m, n, t, id);
  }

  lemma RegisterKeepsInv(m: Manager, t: Tid)
    requires Inv(m) && Enabled(m, CreateEnds(t))
    ensures Inv(Register(m, t, m.calls[t].id))
  {
    hide StubsAreSound, TasksAreSound;
    var n := Register(m, t, m.calls[t].id);
    assert CallIsSound(m, t);
    SameStubs(m, n);
    SameTasks(m, n);
  }

  /** Steps that leave the stubs alone. */
  lemma SameStubs(m: Manager, n: Manager)
    requires n.stubs == m.stubs && n.home == m.home && n.threads == m.threads
    ensures forall x :: Owned(n, x) <==> Owned(m, x)
    ensures StubsAreSound(m) ==> StubsAreSound(n)
  {
    if StubsAreSound(m) {
      forall t | t in n.stubs ensures StubIsSound(n, t) {
        assert StubIsSound(m, t);
      }
    }
  }

  lemma SameTasks(m: Manager, n: Manager)
    requires n.stubs == m.stubs && n.home == m.home && n.timers == m.timers && n.posted == m.posted
    ensures TasksAreSound(m) ==> TasksAreSound(n)
  {
  }

  lemma FindKeepsInv(m: Manager, t: Tid, id: Id)
    requires Inv(m) && t !in m.calls && (id in m.home ==> m.home[id] == t)
    ensures Inv(Find(m, t, id))
  {
    hide StubsAreSound;
    SameStubs(m, Find(m, t, id));
  }

  lemma UnregisterKeepsInv(m: Manager, t: Tid)
    requires Inv(m) && Enabled(m, CloseGoesOn(t))
    ensures Inv(Unregister(m, t, m.calls[t].id))
  {
    assert CallIsSound(m, t);
    assert StubIsSound(m, t);
    hide StubsAreSound, TasksAreSound;
    SameStubs(m, Unregister(m, t, m.calls[t].id));
    SameTasks(m, Unregister(m, t, m.calls[t].id));
  }

  lemma DetachChanges(m: Manager, t: Tid)
    requires Inv(m) && Enabled(m, CloseEnds(t))
    ensures var id := m.calls[t].id;
            var n := Detach(m, t, id);
            && !n.fault && StubsAreSound(n) && t in m.stubs && n.stubs.Keys == m.stubs.Keys
            && n.index == m.index && n.gone == m.gone + {id} && n.posted == m.posted
            && n.home == m.home && n.calls == m.calls - {t} && n.timers == m.timers
            && (forall x :: Owned(n, x) <==> x != id && Owned(m, x))
  {
    var id := m.calls[t].id;
    var n := Detach(m, t, id);
    assert CallIsSound(m, t);
    assert StubIsSound(m, t);
    RemoveFirstRemoves(m.stubs[t], id);
    assert n.stubs == m.stubs[t := RemoveFirst(m.stubs[t], id)];
    forall s | s in n.stubs ensures StubIsSound(n, s) {
      assert StubIsSound(m, s);
    }
  }

  lemma DetachKeepsInv(m: Manager, t: Tid)
    requires Inv(m) && Enabled(m, CloseEnds(t))
    ensures Inv(Detach(m, t, m.calls[t].id))
  {
    hide Detach, StubsAreSound;
    assert CallIsSound(m, t);
    DetachChanges(m, t);
  }

  lemma TimerForm(m: Manager, t: Tid, idle: set<Id>)
    requires t < m.threads && t in m.stubs && Timers(m, t) == 1
    ensures var n := OnThdTimer(m, t, idle);
            && n.fault == m.fault && n.threads == m.threads
            && n.index == m.index && n.gone == m.gone && n.home == m.home && n.calls == m.calls
            && n.stubs == (if m.stubs[t] == [] then m.stubs - {t} else m.stubs)
            && n.timers == m.timers[t := if m.stubs[t] == [] then 0 else 1]
            && n.posted == (if m.stubs[t] == [] then m.posted
                            else m.posted[t := Tasks(m, t) + IdleOf(m.stubs[t], idle)])
  {
    assert m.timers[t := 0][t := 1] == m.timers[t := 1];
  }

  lemma TimerKeepsTasks(m: Manager, t: Tid, idle: set<Id>)
    requires Inv(m) && Enabled(m, TimerFires(t, idle)) && t < m.threads && t in m.stubs
    ensures TasksAreSound(OnThdTimer(m, t, idle))
  {
    assert StubIsSound(m, t);
    hide OnThdTimer, StubsAreSound, Accounted, IndexIsSound, CallsAreSound;
    TimerForm(m, t, idle);
    IdleExactly(m.stubs[t], idle);
    var n := OnThdTimer(m, t, idle);
    forall u, id | u in n.posted && id in n.posted[u] ensures id in n.home && n.home[id] == u {
      if u == t {
        assert id in m.stubs[t];
      }
    }
    forall u | u in n.posted && n.posted[u] != [] ensures u in n.stubs {
      if u != t {
        assert u in m.posted;
      }
    }
  }

  lemma TimerChanges(m: Manager, t: Tid, idle: set<Id>)
    requires Inv(m) && Enabled(m, TimerFires(t, idle))
    ensures t in m.stubs && t < m.threads
    ensures var n := OnThdTimer(m, t, idle);
            && StubsAreSound(n) && TasksAreSound(n)
            && (forall x :: Owned(n, x) <==> Owned(m, x))
  {
    hide OnThdTimer, TasksAreSound, Accounted, IndexIsSound, CallsAreSound;
    TimerIsSingle(m, t);
    assert StubIsSound(m, t);
    TimerKeepsTasks(m, t, idle);
    TimerForm(m, t, idle);
    var n := OnThdTimer(m, t, idle);
    forall s | s in n.stubs ensures StubIsSound(n, s) {
      assert StubIsSound(m, s);
    }
  }

  lemma TimerKeepsInv(m: Manager, t: Tid, idle: set<Id>)
    requires Inv(m) && Enabled(m, TimerFires(t, idle))
    ensures Inv(OnThdTimer(m, t, idle))
  {
    hide OnThdTimer, StubsAreSound, TasksAreSound;
    TimerChanges(m, t, idle);
    TimerIsSingle(m, t);
    TimerForm(m, t, idle);
  }

  lemma TimerIsSingle(m: Manager, t: Tid)
    requires Inv(m)
    ensures Timers(m, t) == if t in m.stubs then 1 else 0
  {
  }

  lemma TakePosted(m: Manager, t: Tid)
    requires Inv(m) && Tasks(m, t) != []
    ensures Inv(TakeTask(m, t))
  {
    hide StubsAreSound;
    SameStubs(m, TakeTask(m, t));
  }

  lemma StepKeepsInv(m: Manager, e: Event)
    requires Inv(m) && Enabled(m, e)
    ensures Inv(Next(m, e))
  {
    hide Inv, Attach, Register, Find, Unregister, Detach, OnThdTimer;
    match e
    case CreateBegins(t, id) => AttachKeepsInv(m, t, id);
    case CreateEnds(t) => RegisterKeepsInv(m, t);
    case CloseBegins(t, id) => FindKeepsInv(m, t, id);
    case PostedCloseBegins(t) =>
      TakePosted(m, t);
      PostedIsOwn(m, t);
      FindKeepsInv(TakeTask(m, t), t, Tasks(m, t)[0]);
    case CloseGoesOn(t) => UnregisterKeepsInv(m, t);
    case CloseEnds(t) => DetachKeepsInv(m, t);
    case TimerFires(t, idle) => TimerKeepsInv(m, t, idle);
  }

  lemma PostedIsOwn(m: Manager, t: Tid)
    requires Inv(m) && Tasks(m, t) != []
    ensures Tasks(m, t)[0] in m.home && m.home[Tasks(m, t)[0]] == t
  {
  }

  lemma {:induction false} RunsKeepInv(m: Manager, events: seq<Event>, n: Manager)
    requires Inv(m) && Runs(m, events, n)
    ensures Inv(n)
    decreases |events|
  {
    hide Inv, Next, Enabled;
    if events != [] {
      StepKeepsInv(m, events[0]);
      RunsKeepInv(Next(m, events[0]), events[1..], n);
    }
  }

  lemma ReachableIsSound(threads: nat, m: Manager)
    requires Reachable(threads, m)
    ensures Inv(m)
  {
    assert Inv(Start(threads));
    var events :| Runs(Start(threads), events, m);
    RunsKeepInv(Start(threads), events, m);
  }

  // ---------- what the calls rely on ----------

  lemma AttachedIsOwned(m: Manager, t: Tid, id: Id)
    requires Inv(m) && Enabled(m, CreateBegins(t, id))
    ensures var n := Attach(m, t, id); t in n.stubs && id in n.stubs[t] && t in n.timers && n.timers[t] == 1
  {
    TimerIsSingle(m, t);
    AttachForm(m, t, id);
  }

  lemma CallHasItsSlot(m: Manager, t: Tid)
    requires Inv(m) && t in m.calls
    ensures var id := m.calls[t].id;
            id in m.home && m.home[id] == t && t < m.threads && t in m.stubs && id in m.stubs[t]
  {
    assert CallIsSound(m, t);
    assert StubIsSound(m, t);
  }

  lemma DetachedIsFree(m: Manager, t: Tid)
    requires Inv(m) && Enabled(m, CloseEnds(t))
    ensures var id := m.calls[t].id;
            var n := Detach(m, t, id);
            forall u :: u in n.stubs ==> id !in n.stubs[u]
  {
    hide Detach;
    DetachChanges(m, t);
    var id := m.calls[t].id;
    var n := Detach(m, t, id);
    forall u | u in n.stubs ensures id !in n.stubs[u] {
      assert StubIsSound(n, u) && !Owned(n, id);
    }
  }

  lemma TaskHasItsStub(m: Manager, t: Tid)
    requires Inv(m) && Tasks(m, t) != []
    ensures t in m.stubs
  {
    assert t in m.posted && m.posted[t] != [];
  }

  lemma TimerMeetsStub(m: Manager, t: Tid, idle: set<Id>)
    requires Inv(m) && Enabled(m, TimerFires(t, idle))
    ensures t < m.threads && t in m.stubs && Timers(m, t) == 1
    ensures var n := OnThdTimer(m, t, idle);
            && (t in n.stubs <==> m.stubs[t] != [])
            && t in n.timers && (n.timers[t] == if t in n.stubs then 1 else 0)
  {
    hide OnThdTimer;
    TimerIsSingle(m, t);
    assert StubIsSound(m, t);
    TimerForm(m, t, idle);
  }

  lemma TimerPosts(m: Manager, t: Tid, idle: set<Id>)
    requires Inv(m) && Enabled(m, TimerFires(t, idle))
    ensures t in m.stubs
    ensures var tasks := Tasks(OnThdTimer(m, t, idle), t);
            Distinct(tasks) && forall id :: id in tasks <==> id in m.stubs[t] && id in idle
  {
    hide OnThdTimer;
    TimerIsSingle(m, t);
    assert StubIsSound(m, t);
    TimerForm(m, t, idle);
    IdleExactly(m.stubs[t], idle);
    assert [] + IdleOf(m.stubs[t], idle) == IdleOf(m.stubs[t], idle);
  }

  /** A creation that nothing interrupts: the session is in the index and in its stub. */
  lemma CreateIsWhole(m: Manager, t: Tid, id: Id)
    requires Inv(m) && Enabled(m, CreateBegins(t, id))
    ensures Enabled(Next(m, CreateBegins(t, id)), CreateEnds(t))
    ensures Next(m, CreateBegins(t, id)).calls[t].id == id
    ensures var n := Next(Next(m, CreateBegins(t, id)), CreateEnds(t));
            && n.index == m.index + {id} && n.calls == m.calls && n.home == m.home[id := t]
            && t in n.stubs && id in n.stubs[t]
            && forall x :: Owned(n, x) <==> x == id || Owned(m, x)
  {
    hide Attach, StubsAreSound;
    TimerIsSingle(m, t);
    AttachForm(m, t, id);
    AttachChanges(m, t, id);
    var b := Attach(m, t, id);
    SameStubs(b, Register(b, t, id));
    assert m.calls[t := Attached(id)] - {t} == m.calls;
  }

  /** A close that nothing interrupts: behind it the session is out of the index and out of
      its stub, for good, and every other session is where it was. */
  lemma CloseIsWhole(m: Manager, t: Tid, id: Id)
    requires Inv(m) && Enabled(m, CloseBegins(t, id))
    ensures id !in m.index ==> Next(m, CloseBegins(t, id)) == m
    ensures id in m.index ==>
              && Enabled(Next(m, CloseBegins(t, id)), CloseGoesOn(t))
              && Next(m, CloseBegins(t, id)).calls[t].id == id
    ensures id in m.index ==>
              var b := Next(Next(m, CloseBegins(t, id)), CloseGoesOn(t));
              && Enabled(b, CloseEnds(t)) && b.calls[t].id == id
    ensures id in m.index ==>
              var n := Next(Next(Next(m, CloseBegins(t, id)), CloseGoesOn(t)), CloseEnds(t));
              && n.index == m.index - {id} && n.gone == m.gone + {id} && n.calls == m.calls
              && forall x :: Owned(n, x) <==> x != id && Owned(m, x)
  {
    hide Detach, Inv, StubsAreSound, Owned;
    if id in m.index {
      var a, b := Find(m, t, id), Unregister(Find(m, t, id), t, id);
      FindKeepsInv(m, t, id);
      UnregisterKeepsInv(a, t);
      SameStubs(m, b);
      DetachChanges(b, t);
      assert m.calls[t := Found(id)][t := Erased(id)] - {t} == m.calls;
    }
  }

  // ---------- main results ----------

  /** In every reachable state an indexed session is owned, exactly once, by the stub of its
      own thread, which is alive; no slot was ever missing and no timer met a null stub;
      and whatever was created is owned or was detached. */
  lemma IndexedIsOwnedOnce(threads: nat, m: Manager, id: Id)
    requires Reachable(threads, m)
    ensures !m.fault
    ensures id in m.index ==> id in m.home && m.home[id] in m.stubs
    ensures id in m.index ==>
              exists i :: && 0 <= i < |m.stubs[m.home[id]]| && m.stubs[m.home[id]][i] == id
                          && forall t, j :: t in m.stubs && 0 <= j < |m.stubs[t]| && m.stubs[t][j] == id
                               ==> t == m.home[id] && j == i
    ensures id in m.home ==> (id in m.gone <==> forall t :: t in m.stubs ==> id !in m.stubs[t])
  {
    ReachableIsSound(threads, m);
    if id in m.index {
      var home := m.home[id];
      assert Owned(m, id);
      var i :| 0 <= i < |m.stubs[home]| && m.stubs[home][i] == id;
      forall t, j | t in m.stubs && 0 <= j < |m.stubs[t]| && m.stubs[t][j] == id
        ensures t == home && j == i
      {
        assert StubIsSound(m, t) && m.stubs[t][j] in m.stubs[t];
      }
    }
    if id in m.home && id in m.gone {
      forall t | t in m.stubs ensures id !in m.stubs[t] {
        assert StubIsSound(m, t) && !Owned(m, id);
      }
    }
  }

  /** The index and the owners differ only by the sessions of the calls in progress; between
      calls they are equal. */
  lemma IndexIsOwners(threads: nat, m: Manager)
    requires Reachable(threads, m)
    ensures forall id :: id in m.home ==>
              (Owned(m, id) && id !in m.index <==>
                 m.home[id] in m.calls && m.calls[m.home[id]].id == id && !m.calls[m.home[id]].Found?)
    ensures m.calls == map[] ==> forall id :: id in m.index <==> Owned(m, id)
  {
    ReachableIsSound(threads, m);
    forall id | id in m.home && InTransit(m, id) ensures Owned(m, id) && id !in m.index {
      assert CallIsSound(m, m.home[id]);
    }
  }

  /** A close that comes late or again finds nothing and changes nothing. */
  lemma LateCloseDoesNothing(threads: nat, m: Manager, t: Tid)
    requires Reachable(threads, m) && Enabled(m, PostedCloseBegins(t)) && Tasks(m, t)[0] in m.gone
    ensures Next(m, PostedCloseBegins(t)) == m.(posted := m.posted[t := m.posted[t][1..]])
  {
    ReachableIsSound(threads, m);
    assert !Owned(m, Tasks(m, t)[0]);
  }

  /** A posted close goes through the stub that posted it; that is still there, because no
      step drops the stub of a thread while a task of the thread is pending. */
  lemma PostedCloseHasItsStub(threads: nat, m: Manager, t: Tid, e: Event)
    requires Reachable(threads, m) && Tasks(m, t) != [] && Enabled(m, e)
    ensures t in m.stubs && t in Next(m, e).stubs
  {
    hide Inv, Next, Enabled;
    ReachableIsSound(threads, m);
    TaskHasItsStub(m, t);
    StubStays(m, t, e);
  }

  lemma StubStays(m: Manager, t: Tid, e: Event)
    requires t in m.stubs && Tasks(m, t) != [] && Enabled(m, e)
    ensures t in Next(m, e).stubs
  {
  }

  /** Each thread has exactly one housekeeping timer while it has a stub and none otherwise;
      so a timer never meets a null stub, and it drops a stub only if that owns nothing. */
  lemma OneTimerPerStub(threads: nat, m: Manager, t: Tid, idle: set<Id>)
    requires Reachable(threads, m)
    ensures Timers(m, t) == if t in m.stubs then 1 else 0
    ensures Enabled(m, TimerFires(t, idle)) ==>
              var n := Next(m, TimerFires(t, idle));
              t in m.stubs && (t in n.stubs <==> m.stubs[t] != []) && (t in n.stubs ==> n.stubs[t] == m.stubs[t])
  {
    ReachableIsSound(threads, m);
  }

  /** A close of an indexed session by its own thread, whatever else happened before: the
      steps of the call follow each other, and behind them the session is out of the index
      and out of its stub, for good, and every other session is where it was. */
  lemma CloseDetaches(threads: nat, m: Manager, id: Id)
    requires Reachable(threads, m) && id in m.index && id in m.home && m.home[id] !in m.calls
    ensures Enabled(m, CloseBegins(m.home[id], id))
    ensures Enabled(Next(m, CloseBegins(m.home[id], id)), CloseGoesOn(m.home[id]))
    ensures var b := Next(Next(m, CloseBegins(m.home[id], id)), CloseGoesOn(m.home[id]));
            Enabled(b, CloseEnds(m.home[id]))
    ensures var b := Next(Next(m, CloseBegins(m.home[id], id)), CloseGoesOn(m.home[id]));
            var n := Next(b, CloseEnds(m.home[id]));
            && n.index == m.index - {id} && n.gone == m.gone + {id} && n.calls == m.calls
            && forall x :: Owned(n, x) <==> x != id && Owned(m, x)
  {
    hide Inv, Next;
    ReachableIsSound(threads, m);
    IndexedHasThread(m, id);
    CloseIsWhole(m, m.home[id], id);
  }

  lemma IndexedHasThread(m: Manager, id: Id)
    requires Inv(m) && id in m.index
    ensures id in m.home && m.home[id] < m.threads
  {
    assert Owned(m, id);
    assert StubIsSound(m, m.home[id]);
  }
}
