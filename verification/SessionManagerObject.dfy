/** The session manager as objects.  Their methods, from one lock region to the next, keep the
    invariant of the manager; the asserts of the code hold in them, in every schedule. */
module SessionManagerObject {
  import opened Common
  import P = SessionManager
  import S = SessionManagerSafety

  /** The part of the session manager for a thread that owns sessions. */
  class ThreadStub {
    var sessions: seq<P.Id>

    constructor ()
      ensures sessions == []
    {
      sessions := [];
    }

    method AttachSession(id: P.Id)
      modifies this
      ensures sessions == old(sessions) + [id]
    {
      sessions := sessions + [id];
    }

    /** Erase the first occurrence; an unknown session changes nothing. */
    method DetachSession(id: P.Id)
      modifies this
      ensures sessions == P.RemoveFirst(old(sessions), id)
    {
      hide P.RemoveFirst;
      var it := 0;
      assert sessions[..0] + P.RemoveFirst(sessions[0..], id) == P.RemoveFirst(sessions, id) by {
        assert sessions[0..] == sessions;
        assert [] + P.RemoveFirst(sessions, id) == P.RemoveFirst(sessions, id);
      }
      while it < |sessions| && sessions[it] != id
        invariant 0 <= it <= |sessions| && sessions == old(sessions)
        invariant sessions[..it] + P.RemoveFirst(sessions[it..], id) == P.RemoveFirst(sessions, id)
      {
        RemoveStep(sessions, it, id);
        it := it + 1;
      }
      RemoveStep(sessions, it, id);
      assert it == |sessions| ==> sessions == P.RemoveFirst(sessions, id);
      if it < |sessions| {
        assert sessions[..it] + sessions[it + 1..] == P.RemoveFirst(sessions, id);
        sessions := sessions[..it] + sessions[it + 1..];
      }
    }

    predicate IsEmpty() reads this { sessions == [] }

    /** Post a close task for every session that has been idle for too long. */
    method OnThdTimer(idle: set<P.Id>) returns (posted: seq<P.Id>)
      ensures posted == P.IdleOf(sessions, idle)
    {
      hide P.IdleOf;
      posted := [];
      assert sessions[0..] == sessions;
      var i := 0;
      while i < |sessions|
        invariant 0 <= i <= |sessions|
        invariant posted + P.IdleOf(sessions[i..], idle) == P.IdleOf(sessions, idle)
      {
        assert sessions[i..][1..] == sessions[i + 1..];
        IdleStep(posted, sessions[i..], idle);
        if sessions[i] in idle {
          posted := posted + [sessions[i]];
        }
        i := i + 1;
      }
      assert sessions[i..] == [];
      NoneIdle(idle);
    }
  }

  /** The search goes on, finds the session, or reaches the end. */
  lemma {:induction false} RemoveStep(s: seq<P.Id>, it: nat, id: P.Id)
    requires it <= |s|
    ensures it < |s| && s[it] != id ==>
              s[..it] + P.RemoveFirst(s[it..], id) == s[..it + 1] + P.RemoveFirst(s[it + 1..], id)
    ensures it < |s| && s[it] == id ==> P.RemoveFirst(s[it..], id) == s[it + 1..]
    ensures it == |s| ==> s[..it] + P.RemoveFirst(s[it..], id) == s
  {
    if it < |s| {
      var rest := P.RemoveFirst(s[it + 1..], id);
      assert s[it..][1..] == s[it + 1..];
      assert s[..it] + ([s[it]] + rest) == s[..it + 1] + rest;
    } else {
      assert s[it..] == [] && s[..it] + [] == s;
    }
  }

  lemma NoneIdle(idle: set<P.Id>)
    ensures P.IdleOf([], idle) == []
  {
  }

  lemma {:induction false} IdleStep(posted: seq<P.Id>, ids: seq<P.Id>, idle: set<P.Id>)
    requires ids != []
    ensures posted + P.IdleOf(ids, idle)
            == (if ids[0] in idle then posted + [ids[0]] else posted) + P.IdleOf(ids[1..], idle)
  {
    var rest := P.IdleOf(ids[1..], idle);
    if ids[0] in idle {
      Regroup(posted, [ids[0]], rest);
    } else {
      assert [] + rest == rest;
    }
  }

  class Manager {
    const threads: nat
    var sessions: set<P.Id>
    var stubs: map<P.Tid, ThreadStub>
    var timers: map<P.Tid, nat>
    var posted: map<P.Tid, seq<P.Id>>
    var home: map<P.Id, P.Tid>         // what GetThreadId() of a session answers
    var calls: map<P.Tid, P.Call>      // what a call in progress remembers
    ghost var gone: set<P.Id>

    ghost predicate Apart()
      reads this
    {
      forall t, u :: t in stubs && u in stubs && t != u ==> stubs[t] != stubs[u]
    }

    /** Stubs are made here and not shared. */
    twostate predicate NoStrangers()
      reads this
    {
      forall u :: u in stubs ==> fresh(stubs[u]) || stubs[u] in old(stubs.Values)
    }

    ghost function Value(): P.Manager
      reads this, stubs.Values
    {
      P.Manager(threads, sessions, map t | t in stubs :: stubs[t].sessions, timers, posted, calls,
                home, gone, false)
    }

    ghost predicate Valid()
      reads this, stubs.Values
    {
      Apart() && P.Inv(Value())
    }

    /** The step is one that the threads can take now. */
    ghost predicate Can(e: P.Event)
      reads this, stubs.Values
    {
      Valid() && P.Enabled(Value(), e)
    }

    constructor (threads: nat)
      ensures Valid() && Value() == P.Start(threads) && stubs == map[]
    {
      this.threads := threads;
      sessions, stubs, timers, posted, home := {}, map[], map[], map[], map[];
      calls, gone := map[], {};
    }

    method ScheduleTimer(t: P.Tid)
      requires t < threads && t in stubs
      modifies this`timers
      ensures Value() == P.ScheduleThdTimer(old(Value()), t)
    {
      assert t < threads;
      assert t in stubs;
      timers := timers[t := (if t in timers then timers[t] else 0) + 1];
    }

    method EnsureStub(t: P.Tid)
      requires Apart() && t < threads
      modifies this`stubs, this`timers
      ensures Apart() && t in stubs && Value() == P.EnsureStub(old(Value()), t)
      ensures NoStrangers()
    {
      hide P.ScheduleThdTimer;
      if t !in stubs {
        var stub := new ThreadStub();
        stubs := stubs[t := stub];
        assert Value() == old(Value()).(stubs := old(Value()).stubs[t := []]);
        ScheduleTimer(t);
      }
    }

    method AttachNew(t: P.Tid, id: P.Id)
      requires Apart() && t < threads
      modifies this, stubs.Values
      ensures Apart() && Value() == P.Attach(old(Value()), t, id) && NoStrangers()
    {
      hide P.EnsureStub;
      EnsureStub(t);
      ghost var ready := Value();
      home := home[id := t];
      stubs[t].AttachSession(id);
      calls := calls[t := P.Attached(id)];
      assert Value().stubs == ready.stubs[t := ready.stubs[t] + [id]];
    }

    /** CreateSession up to its lock: the session is owned, by a stub that has its timer. */
    method BeginCreate(t: P.Tid, id: P.Id)
      requires Can(P.CreateBegins(t, id))
      modifies this, stubs.Values
      ensures Valid() && Value() == P.Next(old(Value()), P.CreateBegins(t, id)) && NoStrangers()
      ensures t in stubs && id in stubs[t].sessions && t in timers && timers[t] == 1
    {
      hide P.Inv, P.Attach;
      ghost var m := Value();
      AttachNew(t, id);
      S.StepKeepsInv(m, P.CreateBegins(t, id));
      S.AttachedIsOwned(m, t, id);
    }

    /** The lock region of CreateSession. */
    method EndCreate(t: P.Tid, id: P.Id)
      requires Can(P.CreateEnds(t)) && calls[t].id == id
      modifies this`sessions, this`calls
      ensures Valid() && Value() == P.Next(old(Value()), P.CreateEnds(t))
    {
      hide P.Inv;
      ghost var m := Value();
      sessions := sessions + {id};
      calls := calls - {t};
      assert Value().stubs == m.stubs;
      S.StepKeepsInv(m, P.CreateEnds(t));
    }

    /** The look-up of CloseSession. */
    method Find(t: P.Tid, id: P.Id) returns (found: bool)
      modifies this`calls
      ensures found <==> id in sessions
      ensures Value() == P.Find(old(Value()), t, id)
    {
      found := id in sessions;
      if found {
        calls := calls[t := P.Found(id)];
      }
    }

    method FindSession(t: P.Tid, id: P.Id) returns (found: bool)
      requires Can(P.CloseBegins(t, id))
      modifies this`calls
      ensures Valid() && Value() == P.Next(old(Value()), P.CloseBegins(t, id))
      ensures found <==> id in sessions
    {
      hide P.Inv, P.Find;
      ghost var m := Value();
      found := Find(t, id);
      S.StepKeepsInv(m, P.CloseBegins(t, id));
    }

    /** A posted close begins; the stub that posted it is still there. */
    method BeginPostedClose(t: P.Tid) returns (id: P.Id, found: bool)
      requires Can(P.PostedCloseBegins(t))
      modifies this`calls, this`posted
      ensures Valid() && Value() == P.Next(old(Value()), P.PostedCloseBegins(t))
      ensures [id] + posted[t] == old(posted)[t] && (found <==> id in sessions)
      ensures t in stubs
    {
      hide P.Inv, P.Find;
      ghost var m := Value();
      S.StepKeepsInv(m, P.PostedCloseBegins(t));
      S.TaskHasItsStub(m, t);
      assert t in stubs;  // the task goes through the stub
      id := posted[t][0];
      posted := posted[t := posted[t][1..]];
      assert Value() == P.TakeTask(m, t);
      found := Find(t, id);
    }

    /** The asserts of CloseSession hold, so its second lock region is reached: the thread of
        the session has a slot, and a stub in it. */
    method Unregister(t: P.Tid, id: P.Id)
      requires Can(P.CloseGoesOn(t)) && calls[t].id == id
      modifies this`sessions, this`calls
      ensures Valid() && Value() == P.Next(old(Value()), P.CloseGoesOn(t))
      ensures id in home && home[id] < threads && home[id] in stubs
    {
      hide P.Inv;
      ghost var m := Value();
      S.StepKeepsInv(m, P.CloseGoesOn(t));
      S.CallHasItsSlot(m, t);
      assert home[id] < threads;
      assert home[id] in stubs;
      sessions := sessions - {id};
      calls := calls[t := P.Erased(id)];
      assert Value().stubs == m.stubs;
    }

    method Detach(t: P.Tid, id: P.Id)
      requires Apart() && id in home && home[id] in stubs
      modifies this`calls, this`gone, stubs.Values
      ensures Apart() && Value() == P.Detach(old(Value()), t, id)
    {
      stubs[home[id]].DetachSession(id);
      gone := gone + {id};
      calls := calls - {t};
    }

    /** The rest of CloseSession: the slot is not missing, and no stub owns the session any
        more. */
    method EndClose(t: P.Tid, id: P.Id)
      requires Can(P.CloseEnds(t)) && calls[t].id == id
      modifies this`calls, this`gone, stubs.Values
      ensures Valid() && Value() == P.Next(old(Value()), P.CloseEnds(t))
      ensures forall u :: u in stubs ==> id !in stubs[u].sessions
    {
      hide P.Inv, P.Detach;
      ghost var m := Value();
      S.StepKeepsInv(m, P.CloseEnds(t));
      S.CallHasItsSlot(m, t);
      if id in home && home[id] in stubs {
        Detach(t, id);
      } else {
        assert false;
      }
      S.DetachedIsFree(m, t);
      forall u | u in stubs ensures id !in stubs[u].sessions {
        assert Value().stubs[u] == stubs[u].sessions;
      }
    }

    method Housekeep(t: P.Tid, idle: set<P.Id>)
      requires t < threads && t in stubs
      modifies this`posted, this`timers
      ensures Value() == P.Housekeep(old(Value()), t, idle)
    {
      hide P.ScheduleThdTimer, P.IdleOf;
      var tasks := stubs[t].OnThdTimer(idle);
      posted := posted[t := (if t in posted then posted[t] else []) + tasks];
      assert Value().stubs == old(Value()).stubs;
      assert Value() == old(Value()).(posted := old(Value()).posted[t := P.Tasks(old(Value()), t) + tasks]);
      ScheduleTimer(t);
    }

    /** The timer that fires is no longer pending. */
    method TakeTimer(t: P.Tid)
      requires t < threads && P.Timers(Value(), t) > 0
      modifies this`timers
      ensures var m := old(Value());
              Value() == P.Assert(m, t < m.threads).(timers := m.timers[t := P.Timers(m, t) - 1])
    {
      assert t < threads;
      timers := timers[t := timers[t] - 1];
    }

    method DropStub(t: P.Tid)
      requires Apart()
      modifies this`stubs
      ensures Apart() && Value() == old(Value()).(stubs := old(Value()).stubs - {t}) && NoStrangers()
    {
      stubs := stubs - {t};
    }

    method RunTimer(t: P.Tid, idle: set<P.Id>)
      requires Apart() && t < threads && t in stubs && P.Timers(Value(), t) > 0
      modifies this
      ensures Apart() && Value() == P.OnThdTimer(old(Value()), t, idle) && NoStrangers()
    {
      hide P.Housekeep, P.ScheduleThdTimer, P.IdleOf;
      TakeTimer(t);
      if t !in stubs {
        assert false;
      }
      if stubs[t].IsEmpty() {
        DropStub(t);
        return;
      }
      Housekeep(t, idle);
    }

    /** A timer never meets a missing stub; it drops the stub exactly if that is empty, and
        is set again exactly if the stub stays; and it posts one close for every session of
        the stub that is idle, and no other. */
    method OnTimer(t: P.Tid, idle: set<P.Id>)
      requires Can(P.TimerFires(t, idle))
      modifies this
      ensures Valid() && Value() == P.Next(old(Value()), P.TimerFires(t, idle)) && NoStrangers()
      ensures t in old(stubs) && (t in stubs <==> old(stubs[t].sessions) != [])
      ensures t in timers && (timers[t] == if t in stubs then 1 else 0)
      ensures var tasks := P.Tasks(Value(), t);
              P.Distinct(tasks) && forall id :: id in tasks <==> id in old(stubs[t].sessions) && id in idle
    {
      hide P.Inv, P.OnThdTimer;
      ghost var m := Value();
      S.TimerPosts(m, t, idle);
      S.StepKeepsInv(m, P.TimerFires(t, idle));
      S.TimerMeetsStub(m, t, idle);
      RunTimer(t, idle);
    }

    // ---------- whole calls, and all of them ----------

    /** A call of CreateSession that nothing interrupts. */
    method CreateSession(t: P.Tid, id: P.Id)
      requires Can(P.CreateBegins(t, id))
      modifies this, stubs.Values
      ensures Valid() && sessions == old(sessions) + {id} && calls == old(calls)
      ensures t in stubs && id in stubs[t].sessions
      ensures forall x :: P.Owned(Value(), x) <==> x == id || P.Owned(old(Value()), x)
    {
      hide P.Inv, P.Attach, P.Owned;
      ghost var m := Value();
      S.CreateIsWhole(m, t, id);
      BeginCreate(t, id);
      EndCreate(t, id);
    }

    /** A call of CloseSession that nothing interrupts; it finds exactly the indexed sessions. */
    method CloseSession(t: P.Tid, id: P.Id) returns (found: bool)
      requires Can(P.CloseBegins(t, id))
      modifies this, stubs.Values
      ensures Valid() && calls == old(calls) && (found <==> id in old(sessions))
      ensures sessions == old(sessions) - {id}
      ensures found ==> forall x :: P.Owned(Value(), x) <==> x != id && P.Owned(old(Value()), x)
      ensures !found ==> Value() == old(Value())
    {
      hide P.Inv, P.Detach, P.Owned, P.Unregister, P.Find;
      ghost var m := Value();
      found := FindSession(t, id);
      S.CloseIsWhole(m, t, id);
      if found {
        Unregister(t, id);
        EndClose(t, id);
      }
    }

    /** The next lock region of a call, task or timer. */
    method Step(e: P.Event)
      requires Can(e)
      modifies this, stubs.Values
      ensures Valid() && Value() == P.Next(old(Value()), e) && NoStrangers()
    {
      hide P.Inv, P.Next;
      match e {
        case CreateBegins(t, id) => BeginCreate(t, id);
        case CreateEnds(t) => EndCreate(t, calls[t].id);
        case CloseBegins(t, id) => var found := FindSession(t, id);
        case PostedCloseBegins(t) => var id, found := BeginPostedClose(t);
        case CloseGoesOn(t) => Unregister(t, calls[t].id);
        case CloseEnds(t) => EndClose(t, calls[t].id);
        case TimerFires(t, idle) => OnTimer(t, idle);
      }
    }
  }

  /** A manager, driven through any schedule of its threads: no assert fails on the way, and
      in the end the index has exactly the sessions that are owned and not being created or
      closed. */
  method RunSchedule(threads: nat, events: seq<P.Event>, ghost end: P.Manager) returns (manager: Manager)
    requires P.Runs(P.Start(threads), events, end)
    ensures fresh(manager) && manager.Valid() && manager.Value() == end
    ensures manager.calls == map[] ==> forall id :: id in manager.sessions <==> P.Owned(manager.Value(), id)
  {
    hide P.Inv, P.Next, P.Enabled;
    manager := new Manager(threads);
    var i := 0;
    assert events[0..] == events;
    while i < |events|
      invariant 0 <= i <= |events| && fresh(manager) && manager.Valid()
      invariant forall t :: t in manager.stubs ==> fresh(manager.stubs[t])
      invariant P.Runs(manager.Value(), events[i..], end)
    {
      assert events[i..][0] == events[i] && events[i..][1..] == events[i + 1..];
      manager.Step(events[i]);
      i := i + 1;
    }
    assert P.Reachable(threads, end);
    S.IndexIsOwners(threads, end);
  }
}
