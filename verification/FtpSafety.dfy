/** What holds in every state that a run of the FTP session can reach. */
module FtpSafety {
  import opened Common
  import opened FtpSession

  // ---------- the invariant ----------

  /** The transfer coroutine, the transfer state and the objects they share agree. */
  predicate Coherent(f: FtpState, w: Worker) {
    && (w.at == Idle <==> f.transfer == NoTransfer)
    && (f.transfer != NoTransfer ==> f.loggedIn && f.initiation != NoInitiation
                                     && w.currentFile == Some(f.transfer))
    && (w.at == Idle ==> w.currentFile == None)
    && (w.socket.Some? <==> w.at in {Moving, ShuttingDown, Aborted, Closing})
    && (f.initiation == PASV ==> f.pasv.Some?)
    && (w.at == Connecting ==> f.initiation == PORT)
    && (w.at == Accepting ==> f.initiation == PASV)
  }

  // ---------- every transfer has its own PORT or PASV ----------

  datatype Phase = MustChoose | MayStart | Running | OutOfOrder

  function PhaseAfter(p: Phase, m: Mark): Phase {
    match m
    case Chosen => if p == MustChoose || p == MayStart then MayStart else OutOfOrder
    case Started => if p == MayStart then Running else OutOfOrder
    case Ended => if p == Running then MustChoose else OutOfOrder
  }

  function PhaseOf(trace: seq<Mark>): Phase {
    if trace == [] then MustChoose
    else PhaseAfter(PhaseOf(trace[..|trace| - 1]), trace[|trace| - 1])
  }

  predicate InPhase(f: FtpState, p: Phase) {
    p == if f.transfer != NoTransfer then Running
         else if f.initiation != NoInitiation then MayStart else MustChoose
  }

  // ---------- the order of replies ----------

  /** The control connection works and will not be closed by the server. */
  predicate Live(l: Line) {
    !l.replyFailed && l.socketOpen && !l.closePending && !l.closed
  }

  const DONE_LOGS: set<seq<nat>> := {[150, 226], [150, 425], [150, 426], [150, 426, 226]}

  predicate LogAt(at: TransferAt, log: seq<nat>) {
    match at
    case Idle => true
    case Spawned => log == []
    case Refused => log == [150, 425]
    case Aborted => log == [150, 426]
    case Closing => log == [150, 226] || log == [150, 426] || log == [150, 426, 226]
    case _ => log == [150]
  }

  predicate Orderly(s: State) {
    && (Live(s.line) && s.ftp.transfer == Outgoing ==> LogAt(s.worker.at, s.transferLog))
    && (s.line.expired ==> !s.line.socketOpen)
  }

  predicate Inv(s: State) {
    !s.fault && Coherent(s.ftp, s.worker) && InPhase(s.ftp, PhaseOf(s.trace)) && Orderly(s)
  }

  // ---------- it is kept by every step ----------

  lemma PhaseStep(trace: seq<Mark>, m: Mark)
    ensures PhaseOf(trace + [m]) == PhaseAfter(PhaseOf(trace), m)
  {
    assert (trace + [m])[..|trace|] == trace;
  }

  /** Steps that leave alone what the invariant and a running transfer depend on. */
  predicate Undisturbed(s: State, t: State) {
    && t.ftp.transfer == s.ftp.transfer && t.ftp.initiation == s.ftp.initiation
    && t.ftp.portEndpoint == s.ftp.portEndpoint && t.ftp.pasv == s.ftp.pasv
    && (s.ftp.loggedIn ==> t.ftp.loggedIn)
    && t.worker.at == s.worker.at && t.worker.currentFile == s.worker.currentFile
    && t.worker.socket.Some? == s.worker.socket.Some?
    && (Live(t.line) ==> Live(s.line)) && (t.line.expired ==> !t.line.socketOpen)
    && t.transferLog == s.transferLog && t.trace == s.trace && t.fault == s.fault
  }

  lemma UndisturbedKeepsInv(s: State, t: State)
    requires Inv(s) && Undisturbed(s, t)
    ensures Inv(t)
  {
  }

  /** Replies, callbacks and the rest of a command's clean-up disturb nothing. */
  lemma ReplyUndisturbed(s: State, code: nat, sent: bool)
    requires s.line.expired ==> !s.line.socketOpen
    ensures Undisturbed(s, Reply(s, code, sent))
  {
  }

  /** Fields that neither the invariant nor a running transfer depends on. */
  lemma BookkeepingUndisturbed(s: State, prevCmd: string, control: ControlAt)
    requires s.line.expired ==> !s.line.socketOpen
    ensures Undisturbed(s, s.(prevCmd := prevCmd)) && Undisturbed(s, s.(control := control))
  {
  }

  lemma UndisturbedTrans(s: State, t: State, u: State)
    requires Undisturbed(s, t) && Undisturbed(t, u)
    ensures Undisturbed(s, u)
  {
  }

  lemma FinishUndisturbed(done: Done, c: Command, sent: bool)
    requires done.s.line.expired ==> !done.s.line.socketOpen
    ensures Undisturbed(done.s, Finish(done, c, sent))
  {
    hide Reply, AbortIfPending, Undisturbed;
    var s := done.s.(prevCmd := Name(c));
    BookkeepingUndisturbed(done.s, Name(c), Waiting);
    match done.reply
    case Replies(code) =>
      AnsweredUndisturbed(s, code, sent, Quitting);
      UndisturbedTrans(done.s, s, Finish(done, c, sent));
    case Silent =>
      AbortUndisturbed(s);
      UndisturbedTrans(done.s, s, Finish(done, c, sent));
    case Throws =>
      AnsweredUndisturbed(done.s, RC_BYE, sent, Failing);
  }

  lemma AnsweredUndisturbed(s: State, code: nat, sent: bool, control: ControlAt)
    requires s.line.expired ==> !s.line.socketOpen
    ensures Undisturbed(s, Reply(s, code, sent)) && Undisturbed(s, Reply(s, code, sent).(control := control))
  {
    hide Undisturbed;
    var t := Reply(s, code, sent);
    ReplyUndisturbed(s, code, sent);
    BookkeepingUndisturbed(t, "", control);
    UndisturbedTrans(s, t, t.(control := control));
  }

  lemma AbortUndisturbed(s: State)
    requires s.line.expired ==> !s.line.socketOpen
    ensures Undisturbed(s, AbortIfPending(s))
  {
  }

  lemma DoCloseUndisturbed(s: State)
    requires s.line.expired ==> !s.line.socketOpen
    ensures Undisturbed(s, DoClose(s))
  {
  }

  /** A command that passed the checks during a transfer leaves the transfer alone. */
  lemma OnCmdInTransfer(s: State, c: Command)
    requires Inv(s) && Refusal(s, c) == None && s.ftp.transfer != NoTransfer
    ensures Undisturbed(s, OnCmd(s, c).s) && OnCmd(s, c).s.line == s.line
    ensures OnCmd(s, c).s.ftp.rest == s.ftp.rest && OnCmd(s, c).s.ftp.allo == s.ftp.allo
  {
    hide PhaseOf;
  }

  lemma OpenAndStartKeepsInv(s: State, restOk: bool, opens: bool, direction: Transfer)
    requires Inv(s) && s.ftp.transfer == NoTransfer && s.ftp.loggedIn && s.ftp.initiation != NoInitiation
    requires direction != NoTransfer
    ensures Inv(OpenAndStart(s, restOk, opens, direction).s)
    ensures OpenAndStart(s, restOk, opens, direction).s.line == s.line
  {
    hide PhaseOf;
    PhaseStep(s.trace, Started);
  }

  lemma ChoosingKeepsInv(s: State, endpoint: nat)
    requires Inv(s) && s.ftp.transfer == NoTransfer
    ensures Inv(SetPort(s, endpoint)) && Inv(Listen(s)) && Inv(SetPasv(Listen(s)))
    ensures SetPort(s, endpoint).line == Listen(s).line == SetPasv(Listen(s)).line == s.line
  {
    hide PhaseOf;
    PhaseStep(s.trace, Chosen);
  }

  lemma OtherUndisturbed(s: State, c: Command)
    requires !StartsTransfer(c) && !c.PORT_? && !c.PASV_? && (s.line.expired ==> !s.line.socketOpen)
    ensures Undisturbed(s, OnOther(s, c).s) && OnOther(s, c).s.line == s.line
  {
  }

  lemma OtherBetweenTransfers(s: State, c: Command)
    requires Inv(s) && !StartsTransfer(c) && s.ftp.transfer == NoTransfer
    ensures Inv(OnOther(s, c).s) && OnOther(s, c).s.line == s.line
  {
    assert s.line.expired ==> !s.line.socketOpen;
    hide Inv, SetPort, SetPasv, Listen, Undisturbed;
    if c.PORT_? {
      ChoosingKeepsInv(s, if c.endpoint.Some? then c.endpoint.value else 0);
    } else if c.PASV_? {
      ChoosingKeepsInv(s, 0);
    } else {
      OtherUndisturbed(s, c);
      UndisturbedKeepsInv(s, OnOther(s, c).s);
    }
  }

  lemma OnCmdBetweenTransfers(s: State, c: Command)
    requires Inv(s) && Refusal(s, c) == None && s.ftp.transfer == NoTransfer
    ensures Inv(OnCmd(s, c).s) && OnCmd(s, c).s.line == s.line
  {
    hide Inv, OnStart, OnOther, StartsTransfer, Refusal;
    if StartsTransfer(c) {
      RefusedWithout(s, c);
      StartingKeepsInv(s, c);
    } else {
      OtherBetweenTransfers(s, c);
    }
  }

  lemma RefusedWithout(s: State, c: Command)
    requires Refusal(s, c) == None && StartsTransfer(c)
    ensures s.ftp.loggedIn && s.ftp.initiation != NoInitiation
  {
  }

  lemma FlagsKeepInv(s: State, flag: bool)
    requires Inv(s)
    ensures Inv(ShowHidden(s, flag)) && Inv(OverrideAsBinary(s, flag))
  {
    hide PhaseOf;
  }

  lemma StartingKeepsInv(s: State, c: Command)
    requires Inv(s) && s.ftp.loggedIn && s.ftp.initiation != NoInitiation
    requires s.ftp.transfer == NoTransfer && StartsTransfer(c)
    ensures Inv(OnStart(s, c).s) && OnStart(s, c).s.line == s.line
  {
    hide Inv, OpenAndStart;
    var binary := s.ftp.rest == 0 || GetType(s.ftp) == BIN;
    match c
    case RETR(opens) => OpenAndStartKeepsInv(s, binary, opens, Outgoing);
    case STOR(opens) => OpenAndStartKeepsInv(s, binary, opens, Incoming);
    case STOU(opens) => OpenAndStartKeepsInv(s, s.ftp.rest == 0, opens, Incoming);
    case APPE(opens) => OpenAndStartKeepsInv(s, s.ftp.rest == 0, opens, Incoming);
    case LIST(opens, hidden) =>
      FlagsKeepInv(s, hidden);
      OpenAndStartKeepsInv(ShowHidden(s, hidden), true, opens, Outgoing);
    case NLST(opens) => OpenAndStartKeepsInv(s, true, opens, Outgoing);
    case MLSD(opens) =>
      FlagsKeepInv(s, opens);
      OpenAndStartKeepsInv(OverrideAsBinary(s, opens), true, opens, Outgoing);
  }

  lemma ControlKeepsInv(s: State, e: Event)
    requires Inv(s) && Enabled(s, e) && IsControl(e)
    ensures Inv(Next(s, e))
    ensures s.ftp.transfer != NoTransfer ==> Undisturbed(s, Next(s, e))
    ensures s.ftp.transfer != NoTransfer ==>
              Next(s, e).ftp.rest == s.ftp.rest && Next(s, e).ftp.allo == s.ftp.allo
  {
    hide Inv, OnCmd, Undisturbed, Reply, Finish, DoClose;
    match e
    case Execute(c, syntaxOk, sent) => ExecuteKeepsInv(s, c, syntaxOk, sent);
    case Unrecognized(sent) => QuietKeepsInv(s, RC_SYNTAX_ERROR, sent);
    case EndControl => QuietKeepsInv(s, 0, true);
  }

  lemma QuietKeepsInv(s: State, code: nat, sent: bool)
    requires Inv(s)
    ensures Inv(Reply(s, code, sent)) && Undisturbed(s, Reply(s, code, sent))
    ensures Reply(s, code, sent).ftp == s.ftp
    ensures Inv(DoClose(s)) && Undisturbed(s, DoClose(s)) && DoClose(s).ftp == s.ftp
  {
    hide PhaseOf;
    ReplyUndisturbed(s, code, sent);
    DoCloseUndisturbed(s);
    UndisturbedKeepsInv(s, Reply(s, code, sent));
    UndisturbedKeepsInv(s, DoClose(s));
  }

  lemma ExecuteKeepsInv(s: State, c: Command, syntaxOk: bool, sent: bool)
    requires Inv(s)
    ensures var t := OnCommand(s, c, syntaxOk, sent);
            && Inv(t)
            && (s.ftp.transfer != NoTransfer ==>
                  Undisturbed(s, t) && t.ftp.rest == s.ftp.rest && t.ftp.allo == s.ftp.allo)
  {
    hide PhaseOf, OnCmd, Reply, DoClose, Refusal;
    assert Undisturbed(s, s);
    if s.line.expired {
    } else if Refusal(s, c).Some? {
      QuietKeepsInv(s, Refusal(s, c).value, sent);
    } else if !syntaxOk {
      QuietKeepsInv(s, RC_SYNTAX_ERROR_IN_PARAMS, sent);
    } else {
      var done := OnCmd(s, c);
      if s.ftp.transfer != NoTransfer {
        OnCmdInTransfer(s, c);
        UndisturbedKeepsInv(s, done.s);
      } else {
        OnCmdBetweenTransfers(s, c);
      }
      FinishUndisturbed(done, c, sent);
      FinishKeepsNumbers(done, c, sent);
      UndisturbedKeepsInv(done.s, Finish(done, c, sent));
    }
  }

  lemma FinishKeepsNumbers(done: Done, c: Command, sent: bool)
    ensures Finish(done, c, sent).ftp == done.s.ftp
  {
  }

  lemma BeginKeepsInv(s: State, sent: bool)
    requires Inv(s) && s.worker.at == Spawned
    ensures Inv(Begin(s, sent))
  {
    hide PhaseOf;
  }

  lemma OpenKeepsInv(s: State)
    requires Inv(s) && s.worker.at == Opening
    ensures Inv(OpenConnection(s))
  {
    hide PhaseOf;
    PhaseStep(s.trace, Ended);
  }

  lemma ConnectedKeepsInv(s: State, ok: bool, open: bool, sent: bool)
    requires Inv(s) && (s.worker.at == Connecting || s.worker.at == Accepting)
    ensures Inv(Connected(s, ok, open, sent))
  {
    hide PhaseOf;
  }

  lemma NotifyKeepsInv(s: State, sent: bool)
    requires Inv(s) && (s.worker.at == Moving || s.worker.at == ShuttingDown)
    ensures Inv(NotifyFailed(s, sent))
  {
    hide PhaseOf;
  }

  lemma MoveKeepsInv(s: State, o: Outcome, sent: bool)
    requires Inv(s) && Enabled(s, DataMoves(o, sent))
    ensures Inv(Move(s, o, sent))
  {
    hide PhaseOf, NotifyFailed;
    NotifyKeepsInv(s, sent);
    assert Assert(s, true) == s;
  }

  lemma ShutdownKeepsInv(s: State, ok: bool, sent: bool)
    requires Inv(s) && s.worker.at == ShuttingDown
    ensures Inv(Shutdown(s, ok, sent))
  {
    hide PhaseOf, NotifyFailed;
    NotifyKeepsInv(s, sent);
    assert Assert(s, true) == s;
  }

  lemma ConfirmKeepsInv(s: State, sent: bool)
    requires Inv(s) && s.worker.at == Aborted
    ensures Inv(ConfirmAbort(s, sent))
  {
    hide PhaseOf;
  }

  lemma CleanupKeepsInv(s: State)
    requires Inv(s) && s.ftp.transfer != NoTransfer
    ensures Inv(CleanupTransfer(s))
  {
    hide PhaseOf;
    PhaseStep(s.trace, Ended);
  }

  lemma TransferKeepsInv(s: State, e: Event)
    requires Inv(s) && Enabled(s, e) && !IsControl(e)
    ensures Inv(Next(s, e))
  {
    hide PhaseOf, Begin, OpenConnection, Connected, Move, Shutdown, ConfirmAbort, CleanupTransfer;
    match e
    case TransferBegins(sent) => BeginKeepsInv(s, sent);
    case TransferOpens => OpenKeepsInv(s);
    case ConnectionDecided(ok, open, sent) => ConnectedKeepsInv(s, ok, open, sent);
    case DataMoves(o, sent) => MoveKeepsInv(s, o, sent);
    case ShutdownEnds(ok, sent) => ShutdownKeepsInv(s, ok, sent);
    case AbortConfirmed(sent) => ConfirmKeepsInv(s, sent);
    case TransferEnds =>
      CleanupKeepsInv(s);
      CleanupKeepsInv(s.(worker := s.worker.(abortTransfer := NoCallback)));
    case SocketDies => UndisturbedKeepsInv(s, Next(s, e));
    case SessionExpires => UndisturbedKeepsInv(s, Next(s, e));
  }

  lemma {:induction false} RunsKeepInv(events: seq<Event>)
    requires IsRun(events)
    ensures Inv(Run(INITIAL, events))
    decreases |events|
  {
    if events != [] {
      var before, e := events[..|events| - 1], events[|events| - 1];
      RunsKeepInv(before);
      var s := Run(INITIAL, before);
      if IsControl(e) {
        ControlKeepsInv(s, e);
      } else {
        TransferKeepsInv(s, e);
      }
    }
  }

  /** The last step of a run. */
  lemma LastStep(events: seq<Event>, e: Event)
    requires IsRun(events + [e])
    ensures var s := Run(INITIAL, events);
            IsRun(events) && Inv(s) && Enabled(s, e) && Run(INITIAL, events + [e]) == Next(s, e)
  {
    assert (events + [e])[..|events|] == events;
    RunsKeepInv(events);
  }

  // ---------- main results ----------

  /** In every reachable state: no assert has failed and no null acceptor was used; a
      transfer is under way only for a client that is logged in and chose PORT or PASV,
      with a current file of its direction; a chosen PASV has an acceptor. */
  lemma InterleavingIsSafe(events: seq<Event>)
    requires IsRun(events)
    ensures var s := Run(INITIAL, events);
            && !s.fault
            && (s.ftp.transfer != NoTransfer ==>
                  s.ftp.loggedIn && s.ftp.initiation != NoInitiation
                  && s.worker.currentFile == Some(s.ftp.transfer))
            && (s.ftp.transfer == NoTransfer ==>
                  s.worker.at == Idle && s.worker.currentFile == None && s.worker.socket == None)
            && (s.ftp.initiation == PASV ==> s.ftp.pasv.Some?)
  {
    RunsKeepInv(events);
  }

  /** Nobody is logged in, and so nobody transfers anything, before a USER or PASS has been
      executed whose credentials were accepted. */
  lemma {:induction false} LoginNeedsCredentials(events: seq<Event>)
    requires IsRun(events) && Run(INITIAL, events).ftp.loggedIn
    ensures exists i :: 0 <= i < |events| && events[i].Execute?
                        && (events[i].c == USER(true) || events[i].c == PASS(true))
    decreases |events|
  {
    var before, e := events[..|events| - 1], events[|events| - 1];
    if Run(INITIAL, before).ftp.loggedIn {
      LoginNeedsCredentials(before);
      var i :| 0 <= i < |before| && before[i].Execute?
               && (before[i].c == USER(true) || before[i].c == PASS(true));
      assert events[i] == before[i];
    } else {
      LoginStep(Run(INITIAL, before), e);
      assert events[|events| - 1] == e;
    }
  }

  lemma LoginStep(s: State, e: Event)
    requires !s.ftp.loggedIn && Next(s, e).ftp.loggedIn
    ensures e.Execute? && (e.c == USER(true) || e.c == PASS(true))
  {
    hide Reply, OnCmd, Finish, DoClose;
    if e.Execute? {
      ReplyKeepsFtp(s, RC_SYNTAX_ERROR_IN_PARAMS, e.sent);
      if Refusal(s, e.c).Some? {
        ReplyKeepsFtp(s, Refusal(s, e.c).value, e.sent);
      }
      FinishKeepsNumbers(OnCmd(s, e.c), e.c, e.sent);
      LoggedInBy(s, e.c);
    } else {
      OthersLogNobodyIn(s, e);
    }
  }

  lemma LoggedInBy(s: State, c: Command)
    ensures OnCmd(s, c).s.ftp.loggedIn ==> s.ftp.loggedIn || c == USER(true) || c == PASS(true)
  {
    hide StartsTransfer, OnStart, OnOther;
    if StartsTransfer(c) {
      OpeningLogsNobodyIn(s, c);
    } else {
      OtherLogsIn(s, c);
    }
  }

  lemma OtherLogsIn(s: State, c: Command)
    requires !StartsTransfer(c)
    ensures OnOther(s, c).s.ftp.loggedIn ==> s.ftp.loggedIn || c == USER(true) || c == PASS(true)
  {
  }

  lemma OpeningLogsNobodyIn(s: State, c: Command)
    requires StartsTransfer(c)
    ensures OnStart(s, c).s.ftp.loggedIn == s.ftp.loggedIn
  {
  }

  lemma OthersLogNobodyIn(s: State, e: Event)
    requires !e.Execute?
    ensures Next(s, e).ftp.loggedIn == s.ftp.loggedIn
  {
    hide Reply, Begin, OpenConnection, Connected, Move, Shutdown, ConfirmAbort, CleanupTransfer, NotifyFailed;
    match e
    case Unrecognized(sent) => ReplyKeepsFtp(s, RC_SYNTAX_ERROR, sent);
    case TransferBegins(sent) => OpeningKeepsLogin(s, true, true, sent);
    case TransferOpens => OpeningKeepsLogin(s, true, true, true);
    case ConnectionDecided(ok, open, sent) => OpeningKeepsLogin(s, ok, open, sent);
    case DataMoves(o, sent) => MovingKeepsLogin(s, o, true, sent);
    case ShutdownEnds(ok, sent) => MovingKeepsLogin(s, Progress, ok, sent);
    case AbortConfirmed(sent) => ClosingKeepsLogin(s, sent);
    case TransferEnds =>
      ClosingKeepsLogin(s, true);
      ClosingKeepsLogin(s.(worker := s.worker.(abortTransfer := NoCallback)), true);
    case _ =>
  }

  lemma OpeningKeepsLogin(s: State, ok: bool, open: bool, sent: bool)
    ensures Begin(s, sent).ftp.loggedIn == OpenConnection(s).ftp.loggedIn
            == Connected(s, ok, open, sent).ftp.loggedIn == s.ftp.loggedIn
  {
  }

  lemma MovingKeepsLogin(s: State, o: Outcome, ok: bool, sent: bool)
    ensures Move(s, o, sent).ftp.loggedIn == Shutdown(s, ok, sent).ftp.loggedIn == s.ftp.loggedIn
  {
  }

  lemma ClosingKeepsLogin(s: State, sent: bool)
    ensures ConfirmAbort(s, sent).ftp.loggedIn == CleanupTransfer(s).ftp.loggedIn == s.ftp.loggedIn
  {
  }

  /** Only a command that needs a login and PORT or PASV starts a transfer. */
  lemma StartingStep(s: State, e: Event)
    requires e.Execute?
    ensures var t := Next(s, e);
            s.ftp.transfer == NoTransfer && t.ftp.transfer != NoTransfer ==>
              && StartsTransfer(e.c) && s.ftp.loggedIn && s.ftp.initiation != NoInitiation
              && t.worker.at == Spawned && t.worker.currentFile == Some(t.ftp.transfer)
  {
    hide Reply, OnCmd, Finish, StartsTransfer;
    ReplyKeepsFtp(s, 0, e.sent);
    if Refusal(s, e.c) == None && s.ftp.transfer == NoTransfer {
      FinishKeepsNumbers(OnCmd(s, e.c), e.c, e.sent);
      FinishKeepsFile(OnCmd(s, e.c), e.c, e.sent);
      if OnCmd(s, e.c).s.ftp.transfer != NoTransfer {
        StartedBy(s, e.c);
        RefusedWithout(s, e.c);
      }
    }
    if Refusal(s, e.c).Some? {
      ReplyKeepsFtp(s, Refusal(s, e.c).value, e.sent);
    }
    ReplyKeepsFtp(s, RC_SYNTAX_ERROR_IN_PARAMS, e.sent);
  }

  lemma ReplyKeepsFtp(s: State, code: nat, sent: bool)
    ensures Reply(s, code, sent).ftp == s.ftp
  {
  }

  lemma FinishKeepsFile(done: Done, c: Command, sent: bool)
    ensures Finish(done, c, sent).worker.at == done.s.worker.at
    ensures Finish(done, c, sent).worker.currentFile == done.s.worker.currentFile
  {
  }

  lemma StartedBy(s: State, c: Command)
    requires s.ftp.transfer == NoTransfer && OnCmd(s, c).s.ftp.transfer != NoTransfer
    ensures StartsTransfer(c)
    ensures var t := OnCmd(s, c).s; t.worker.at == Spawned && t.worker.currentFile == Some(t.ftp.transfer)
  {
    hide StartsTransfer, OnStart, OnOther;
    if StartsTransfer(c) {
      StartedByOpening(s, c);
    } else {
      OtherStartsNone(s, c);
    }
  }

  lemma OtherStartsNone(s: State, c: Command)
    requires !StartsTransfer(c)
    ensures OnOther(s, c).s.ftp.transfer == s.ftp.transfer
  {
  }

  lemma StartedByOpening(s: State, c: Command)
    requires StartsTransfer(c) && s.ftp.transfer == NoTransfer && OnStart(s, c).s.ftp.transfer != NoTransfer
    ensures var t := OnStart(s, c).s; t.worker.at == Spawned && t.worker.currentFile == Some(t.ftp.transfer)
  {
  }

  /** What the transfer coroutine asserts, wherever it stands. */
  lemma AssertsHold(s: State)
    requires Inv(s)
    ensures s.worker.at == Spawned ==> s.worker.currentFile.Some? && s.worker.socket.None?
    ensures s.worker.at == Opening ==> s.worker.currentFile.Some? && s.worker.socket.None?
                                       && (s.ftp.initiation != PORT ==> s.ftp.pasv.Some?)
    ensures s.worker.at == Connecting ==> s.ftp.initiation == PORT
    ensures s.worker.at == Accepting ==> s.ftp.initiation == PASV && s.ftp.pasv.Some?
    ensures s.worker.at == Refused ==> s.worker.socket.None?
    ensures s.worker.at == Moving || s.worker.at == ShuttingDown ==>
              s.worker.socket.Some? && s.worker.currentFile == Some(s.ftp.transfer)
    ensures s.worker.at == Idle ==> s.ftp.transfer == NoTransfer && s.worker.currentFile.None?
  {
    hide PhaseOf;
  }

  lemma BeginOpens(s: State, sent: bool)
    ensures Begin(s, sent).worker.at == Opening
  {
  }

  lemma ConfirmedReplies(s: State, sent: bool)
    requires Inv(s) && s.worker.at == Aborted
    ensures var t := ConfirmAbort(s, sent);
            && !t.ftp.abortPending
            && (Live(t.line) && t.ftp.transfer == Outgoing ==>
                  t.transferLog == if s.ftp.abortPending then [150, 426, 226] else [150, 426])
  {
    hide PhaseOf;
  }

  lemma ShutdownReplies(s: State, ok: bool, sent: bool)
    requires Inv(s) && s.worker.at == ShuttingDown
    ensures var t := Shutdown(s, ok, sent);
            Live(t.line) && t.ftp.transfer == Outgoing ==> t.transferLog == [150, 226]
  {
    hide PhaseOf, NotifyFailed;
    assert [150] + [226] == [150, 226];
    NotifyKeepsTransfer(s, sent);
    assert Assert(s, true) == s;
  }

  lemma NotifyKeepsTransfer(s: State, sent: bool)
    ensures NotifyFailed(s, sent).ftp == s.ftp
  {
  }

  lemma EndedInOrder(s: State)
    requires Inv(s) && (s.worker.at == Closing || s.worker.at == Refused)
    ensures Live(s.line) && s.ftp.transfer == Outgoing ==> s.transferLog in DONE_LOGS
  {
    hide PhaseOf;
  }

  /** While a transfer runs, nothing that the control coroutine does touches what the
      transfer depends on. */
  lemma ControlLeavesTransferAlone(events: seq<Event>, e: Event)
    requires IsRun(events + [e]) && IsControl(e)
    requires Run(INITIAL, events).ftp.transfer != NoTransfer
    ensures var s, t := Run(INITIAL, events), Run(INITIAL, events + [e]);
            && t.ftp.transfer == s.ftp.transfer && t.ftp.initiation == s.ftp.initiation
            && t.ftp.portEndpoint == s.ftp.portEndpoint && t.ftp.pasv == s.ftp.pasv
            && t.ftp.rest == s.ftp.rest && t.ftp.allo == s.ftp.allo
            && t.worker.currentFile == s.worker.currentFile && t.worker.at == s.worker.at
            && t.transferLog == s.transferLog && t.trace == s.trace
  {
    hide Next, Run, IsRun, Inv;
    LastStep(events, e);
    ControlKeepsInv(Run(INITIAL, events), e);
  }

  /** Only the transfer coroutine ends a transfer. */
  lemma EndingStep(s: State, e: Event)
    requires Inv(s) && Enabled(s, e) && s.ftp.transfer != NoTransfer && Next(s, e).ftp.transfer == NoTransfer
    ensures e.TransferOpens? || e.TransferEnds?
    ensures e.TransferOpens? ==> !Live(s.line) || s.line.expired
    ensures var t := Next(s, e);
            && t.ftp.initiation == NoInitiation && t.ftp.pasv == None && t.ftp.rest == 0 && t.ftp.allo == 0
            && !t.ftp.overrideAsBinary && !t.ftp.listHiddenFiles
            && t.worker.currentFile == None && t.worker.socket == None && t.worker.at == Idle
            && t.transferLog == s.transferLog && t.line == s.line
  {
    hide PhaseOf;
    if IsControl(e) {
      ControlKeepsInv(s, e);
    }
  }

  /** When a transfer ends, everything that belonged to it is cleared. */
  lemma TransferEndsClean(events: seq<Event>, e: Event)
    requires IsRun(events + [e])
    requires Run(INITIAL, events).ftp.transfer != NoTransfer
    requires Run(INITIAL, events + [e]).ftp.transfer == NoTransfer
    ensures var t := Run(INITIAL, events + [e]);
            && t.ftp.initiation == NoInitiation && t.ftp.pasv == None && t.ftp.rest == 0 && t.ftp.allo == 0
            && !t.ftp.overrideAsBinary && !t.ftp.listHiddenFiles
            && t.worker.currentFile == None && t.worker.socket == None && t.worker.at == Idle
  {
    hide Next, Run, IsRun, Inv;
    LastStep(events, e);
    EndingStep(Run(INITIAL, events), e);
  }

  /** On a connection that is alive to the end, an outgoing transfer has sent 150 and then
      exactly one of 226, 425, 426, and 426 followed by 226. */
  lemma OutgoingRepliesInOrder(events: seq<Event>, e: Event)
    requires IsRun(events + [e])
    requires Run(INITIAL, events).ftp.transfer == Outgoing
    requires var t := Run(INITIAL, events + [e]); t.ftp.transfer == NoTransfer && Live(t.line)
    ensures Run(INITIAL, events + [e]).transferLog in DONE_LOGS
  {
    hide Next, Run, IsRun, PhaseOf;
    LastStep(events, e);
    EndingStep(Run(INITIAL, events), e);
  }

  /** The second reply behind a 426 is sent exactly if an abort is pending by then. */
  lemma AbortIsConfirmed(events: seq<Event>, sent: bool)
    requires IsRun(events + [AbortConfirmed(sent)])
    requires var t := Run(INITIAL, events + [AbortConfirmed(sent)]); Live(t.line) && t.ftp.transfer == Outgoing
    ensures var s, t := Run(INITIAL, events), Run(INITIAL, events + [AbortConfirmed(sent)]);
            && t.transferLog == (if s.ftp.abortPending then [150, 426, 226] else [150, 426])
            && !t.ftp.abortPending
  {
    hide Run, IsRun, PhaseOf;
    LastStep(events, AbortConfirmed(sent));
  }

  /** A trace in phase: between two starts the first transfer ends, and behind that a PORT
      or PASV is executed. */
  lemma {:induction false} StartsAreApart(trace: seq<Mark>, i: nat, j: nat)
    requires PhaseOf(trace) != OutOfOrder && i < j < |trace|
    requires trace[i] == trace[j] == Started
    ensures exists k, m :: i < k < m < j && trace[k] == Ended && trace[m] == Chosen
    decreases |trace|
  {
    var n := |trace| - 1;
    if j < n {
      StartsAreApart(trace[..n], i, j);
      var k, m :| i < k < m < j && trace[..n][k] == Ended && trace[..n][m] == Chosen;
      assert trace[k] == Ended && trace[m] == Chosen;
    } else {
      ChosenBefore(trace[..n], i);
      var k, m :| i < k < m < n && trace[..n][k] == Ended && trace[..n][m] == Chosen;
      assert trace[k] == Ended && trace[m] == Chosen;
    }
  }

  lemma {:induction false} ChosenBefore(trace: seq<Mark>, i: nat)
    requires i < |trace| && trace[i] == Started
    requires PhaseOf(trace) == MayStart
    ensures exists k, m :: i < k < m < |trace| && trace[k] == Ended && trace[m] == Chosen
    decreases |trace|
  {
    var n := |trace| - 1;
    var before := trace[..n];
    assert trace[n] == Chosen && i < n;
    if PhaseOf(before) == MayStart {
      ChosenBefore(before, i);
      var k, m :| i < k < m < n && before[k] == Ended && before[m] == Chosen;
      assert trace[k] == Ended && trace[m] == Chosen;
    } else {
      EndedBefore(before, i);
      var k :| i < k < n && before[k] == Ended;
      assert trace[k] == Ended && trace[n] == Chosen;
    }
  }

  lemma EndedBefore(trace: seq<Mark>, i: nat)
    requires i < |trace| && trace[i] == Started && PhaseOf(trace) == MustChoose
    ensures exists k :: i < k < |trace| && trace[k] == Ended
  {
    assert trace[|trace| - 1] == Ended;
  }

  /** In any run, every transfer consumes a PORT or PASV of its own. */
  lemma EachTransferHasItsOwnConnection(events: seq<Event>, i: nat, j: nat)
    requires IsRun(events)
    requires var trace := Run(INITIAL, events).trace; i < j < |trace| && trace[i] == trace[j] == Started
    ensures var trace := Run(INITIAL, events).trace;
            exists k, m :: i < k < m < j && trace[k] == Ended && trace[m] == Chosen
  {
    RunsKeepInv(events);
    StartsAreApart(Run(INITIAL, events).trace, i, j);
  }

  // ---------- a run, step by step ----------

  /** The state behind these events is s. */
  ghost predicate Reaches(events: seq<Event>, s: State) {
    IsRun(events) && Run(INITIAL, events) == s
  }

  lemma Extend(events: seq<Event>, s: State, e: Event)
    requires Reaches(events, s) && Enabled(s, e)
    ensures Reaches(events + [e], Next(s, e))
  {
    assert (events + [e])[..|events|] == events;
  }

  const ASKED := INITIAL.(
    ftp := INITIAL.ftp.(loggedIn := true, transfer := Outgoing, initiation := PASV, pasv := Some(0)),
    worker := Worker(Spawned, Some(Outgoing), None, NoCallback, ASCII), prevCmd := "other", acceptors := 1,
    log := [230, 227], trace := [Chosen, Started])

  const SENDING := ASKED.(
    worker := Worker(Moving, Some(Outgoing), Some(true), CloseSocket, ASCII),
    log := [230, 227, 150], transferLog := [150])

  const CONFIRMED := SENDING.(
    worker := Worker(Closing, Some(Outgoing), Some(false), NoCallback, ASCII),
    log := [230, 227, 150, 426, 226], transferLog := [150, 426, 226])

  const LOGGED_IN := INITIAL.(ftp := INITIAL.ftp.(loggedIn := true), prevCmd := "USER", log := [230])

  const PASSIVE := LOGGED_IN.(
    ftp := LOGGED_IN.ftp.(initiation := PASV, pasv := Some(0)), acceptors := 1, prevCmd := "other",
    log := [230, 227], trace := [Chosen])

  lemma ClientLogsIn()
    ensures Reaches([] + [Execute(USER(true), true, true)], LOGGED_IN)
  {
    NoEvents();
    hide Reaches;
    Extend([], INITIAL, Execute(USER(true), true, true));
    assert OnCmd(INITIAL, USER(true)).s == LogIn(INITIAL, true);
    assert [] + [230] == [230];
  }

  lemma ClientChoosesPasv(events: seq<Event>)
    requires Reaches(events, LOGGED_IN)
    ensures Reaches(events + [Execute(PASV_(true), true, true)], PASSIVE)
  {
    hide Reaches;
    Extend(events, LOGGED_IN, Execute(PASV_(true), true, true));
    assert [230] + [227] == [230, 227] && [] + [Chosen] == [Chosen];
  }

  lemma ClientAsks(events: seq<Event>)
    requires Reaches(events, PASSIVE)
    ensures Reaches(events + [Execute(RETR(true), true, true)], ASKED)
  {
    hide Reaches;
    Extend(events, PASSIVE, Execute(RETR(true), true, true));
    assert [Chosen] + [Started] == [Chosen, Started];
  }

  lemma NoEvents()
    ensures Reaches([], INITIAL)
  {
  }

  lemma DownloadIsSent(events: seq<Event>)
    requires Reaches(events, ASKED)
    ensures Reaches(events + [TransferBegins(true)] + [TransferOpens] + [ConnectionDecided(true, true, true)], SENDING)
  {
    hide Reaches;
    Extend(events, ASKED, TransferBegins(true));
    var s1 := ASKED.(worker := ASKED.worker.(at := Opening), log := [230, 227, 150], transferLog := [150]);
    assert Next(ASKED, TransferBegins(true)) == s1;
    Extend(events + [TransferBegins(true)], s1, TransferOpens);
    var s2 := s1.(worker := s1.worker.(at := Accepting, abortTransfer := CloseAcceptor));
    assert Next(s1, TransferOpens) == s2;
    Extend(events + [TransferBegins(true)] + [TransferOpens], s2, ConnectionDecided(true, true, true));
  }

  const ABORTING := SENDING.(
    ftp := SENDING.ftp.(abortPending := true), worker := CONFIRMED.worker.(at := Moving))

  lemma ClientAborts(events: seq<Event>)
    requires Reaches(events, SENDING)
    ensures Reaches(events + [Execute(ABOR, true, true)], ABORTING)
  {
    hide Reaches;
    Extend(events, SENDING, Execute(ABOR, true, true));
  }

  lemma AbortIsAnswered(events: seq<Event>)
    requires Reaches(events, ABORTING)
    ensures Reaches(events + [DataMoves(Broken, true)] + [AbortConfirmed(true)], CONFIRMED)
  {
    hide Reaches;
    Extend(events, ABORTING, DataMoves(Broken, true));
    var s := ABORTING.(
      worker := ABORTING.worker.(at := Aborted), log := [230, 227, 150, 426], transferLog := [150, 426]);
    assert [230, 227, 150] + [426] == [230, 227, 150, 426] && [150] + [426] == [150, 426];
    assert Next(ABORTING, DataMoves(Broken, true)) == s;
    Extend(events + [DataMoves(Broken, true)], s, AbortConfirmed(true));
    assert [230, 227, 150, 426] + [226] == [230, 227, 150, 426, 226] && [150, 426] + [226] == [150, 426, 226];
    assert Next(s, AbortConfirmed(true)) == CONFIRMED;
  }

  /** The dialogue of an aborted download can take place: the client logs in, chooses PASV,
      asks for a file and sends ABOR while it is being sent; it gets 150, 426 and 226, and
      the session is ready for its next PORT or PASV. */
  lemma AnAbortedDownload() returns (events: seq<Event>)
    ensures Reaches(events, Next(CONFIRMED, TransferEnds))
    ensures var t := Next(CONFIRMED, TransferEnds);
            && t.transferLog == [150, 426, 226] && t.trace == [Chosen, Started, Ended] && Live(t.line)
            && t.ftp == INITIAL.ftp.(loggedIn := true) && t.worker == INITIAL.worker
  {
    hide Reaches;
    ClientLogsIn();
    events := [] + [Execute(USER(true), true, true)];
    ClientChoosesPasv(events);
    events := events + [Execute(PASV_(true), true, true)];
    ClientAsks(events);
    events := events + [Execute(RETR(true), true, true)];
    DownloadIsSent(events);
    events := events + [TransferBegins(true)] + [TransferOpens] + [ConnectionDecided(true, true, true)];
    ClientAborts(events);
    events := events + [Execute(ABOR, true, true)];
    AbortIsAnswered(events);
    events := events + [DataMoves(Broken, true)] + [AbortConfirmed(true)];
    Extend(events, CONFIRMED, TransferEnds);
    events := events + [TransferEnds];
  }

  // ---------- a callback that is left behind ----------

  /** The step calls the abort callback, if there is one. */
  predicate CallsAbort(s: State, e: Event) {
    match e
    case Execute(c, syntaxOk, _) =>
      && !s.line.expired && Refusal(s, c) == None && syntaxOk
      && OnCmd(s, c).reply == Silent && OnCmd(s, c).s.ftp.abortPending
    case EndControl => !s.line.closed && !s.line.expired
    case _ => false
  }

  /** The callback that closes the acceptor is called, and there is no acceptor. */
  predicate MissesAcceptor(s: State, e: Event) {
    CallsAbort(s, e) && s.worker.abortTransfer == CloseAcceptor && s.ftp.pasv == None
  }

  /** The step sets the callback or clears it. */
  predicate Replaces(s: State, e: Event) {
    || (e.TransferOpens? && Next(s, e).worker.at == Accepting)
    || (e.ConnectionDecided? && Next(s, e).worker.at == Moving)
    || (e.TransferEnds? && s.worker.at == Closing)
    || (e.Execute? && CallsAbort(s, e))
  }

  /** The i-th event refused the client's connection, and nothing has replaced the callback
      since then. */
  ghost predicate LeftBy(events: seq<Event>, i: nat) {
    && i < |events| && events[i].ConnectionDecided?
    && Run(INITIAL, events[..i]).worker.at == Accepting
    && Run(INITIAL, events[..i]).worker.abortTransfer == CloseAcceptor
    && Run(INITIAL, events[..i + 1]).worker.at == Refused
    && forall j :: i < j < |events| ==> !Replaces(Run(INITIAL, events[..j]), events[j])
  }

  predicate LeftBehind(w: Worker) {
    w.abortTransfer == CloseAcceptor && w.at != Accepting
  }

  lemma RepliesKeepWorker(s: State, code: nat, sent: bool)
    ensures Reply(s, code, sent).worker == TransferReply(s, code, sent).worker == s.worker
  {
  }

  lemma OnCmdKeepsCallback(s: State, c: Command)
    ensures var w := OnCmd(s, c).s.worker;
            w.abortTransfer == s.worker.abortTransfer && (w.at == s.worker.at || w.at == Spawned)
  {
    hide StartsTransfer, OnStart, OnOther;
    if StartsTransfer(c) {
      StartKeepsCallback(s, c);
    } else {
      OtherKeepsCallback(s, c);
    }
  }

  lemma StartKeepsCallback(s: State, c: Command)
    requires StartsTransfer(c)
    ensures var w := OnStart(s, c).s.worker;
            w.abortTransfer == s.worker.abortTransfer && (w.at == s.worker.at || w.at == Spawned)
  {
  }

  lemma OtherKeepsCallback(s: State, c: Command)
    requires !StartsTransfer(c)
    ensures OnOther(s, c).s.worker == s.worker
  {
  }

  lemma FinishCallsBack(done: Done, c: Command, sent: bool)
    ensures var w := Finish(done, c, sent).worker;
            && w.at == done.s.worker.at
            && w.abortTransfer == if done.reply == Silent && done.s.ftp.abortPending then NoCallback
                                  else done.s.worker.abortTransfer
  {
    hide Reply;
    match done.reply
    case Replies(code) => RepliesKeepWorker(done.s.(prevCmd := Name(c)), code, sent);
    case Throws => RepliesKeepWorker(done.s, RC_BYE, sent);
    case Silent =>
  }

  lemma CommandKeepsCallback(s: State, e: Event)
    requires e.Execute?
    ensures var w := Next(s, e).worker;
            && (w.at == s.worker.at || w.at == Spawned)
            && w.abortTransfer == if CallsAbort(s, e) then NoCallback else s.worker.abortTransfer
  {
    hide Reply, OnCmd, Finish, Refusal;
    RepliesKeepWorker(s, RC_SYNTAX_ERROR_IN_PARAMS, e.sent);
    if Refusal(s, e.c).Some? {
      RepliesKeepWorker(s, Refusal(s, e.c).value, e.sent);
    }
    OnCmdKeepsCallback(s, e.c);
    FinishCallsBack(OnCmd(s, e.c), e.c, e.sent);
  }

  lemma ControlKeepsCallback(s: State, e: Event)
    requires IsControl(e)
    ensures var w := Next(s, e).worker;
            && (w.at == s.worker.at || w.at == Spawned)
            && w.abortTransfer == if Replaces(s, e) then NoCallback else s.worker.abortTransfer
  {
    hide Reply, CallsAbort, OnCommand;
    match e
    case Execute(_, _, _) => CommandKeepsCallback(s, e);
    case Unrecognized(sent) => RepliesKeepWorker(s, RC_SYNTAX_ERROR, sent);
    case EndControl =>
  }

  lemma BeginningKeepsCallback(s: State, ok: bool, open: bool, sent: bool)
    ensures Begin(s, sent).worker == s.worker.(at := Opening)
    ensures var w := OpenConnection(s).worker;
            w.at == Accepting || (w.abortTransfer == s.worker.abortTransfer && w.at in {Idle, Connecting})
    ensures var w := Connected(s, ok, open, sent).worker;
            || (w.at == Moving && w.abortTransfer == CloseSocket)
            || w == s.worker.(at := Refused)
  {
    hide TransferReply;
    var a := Assert(s, s.worker.currentFile.Some? && s.worker.socket.None?);
    RepliesKeepWorker(a, RC_OPENING_CONNECTION, sent);
    RepliesKeepWorker(Assert(s, s.worker.at == Connecting ==> s.ftp.initiation == PORT), RC_CANT_OPEN_DATA_CONN, sent);
  }

  lemma NotifyKeepsCallback(s: State, sent: bool)
    ensures NotifyFailed(s, sent).worker.abortTransfer == s.worker.abortTransfer
            && NotifyFailed(s, sent).worker.at in {Closing, Aborted}
  {
  }

  lemma MovingKeepsCallback(s: State, o: Outcome, ok: bool, sent: bool)
    ensures var w := Move(s, o, sent).worker;
            w.abortTransfer == s.worker.abortTransfer
            && (w.at == s.worker.at || w.at in {Closing, ShuttingDown, Aborted})
    ensures var w := Shutdown(s, ok, sent).worker;
            w.abortTransfer == s.worker.abortTransfer && w.at in {Closing, Aborted}
    ensures ConfirmAbort(s, sent).worker == s.worker.(at := Closing)
    ensures var w := CleanupTransfer(s).worker; w.abortTransfer == s.worker.abortTransfer && w.at == Idle
  {
    hide NotifyFailed, TransferReply;
    var a := Assert(s, s.worker.socket.Some? && s.worker.currentFile.Some?);
    NotifyKeepsCallback(a, sent);
    RepliesKeepWorker(a, RC_TRANSFER_ABORTED, sent);
    RepliesKeepWorker(a.(worker := s.worker.(socket := Some(false))), RC_CLOSING_DATA_CONNECTION, sent);
    RepliesKeepWorker(s.(ftp := s.ftp.(abortPending := false)), RC_CLOSING_DATA_CONNECTION, sent);
  }

  lemma TransferKeepsCallback(s: State, e: Event)
    requires Enabled(s, e) && !IsControl(e)
    ensures var w := Next(s, e).worker;
            && (!Replaces(s, e) ==> w.abortTransfer == s.worker.abortTransfer)
            && (!Replaces(s, e) && w.at == Accepting ==> s.worker.at == Accepting)
            && (!Replaces(s, e) && s.worker.at == Accepting && w.at != Accepting ==>
                  e.ConnectionDecided? && w.at == Refused)
            && (Replaces(s, e) ==> !LeftBehind(w))
  {
    hide Begin, OpenConnection, Connected, Move, Shutdown, ConfirmAbort, CleanupTransfer;
    match e
    case TransferBegins(sent) => BeginningKeepsCallback(s, true, true, sent);
    case TransferOpens => BeginningKeepsCallback(s, true, true, true);
    case ConnectionDecided(ok, open, sent) => BeginningKeepsCallback(s, ok, open, sent);
    case DataMoves(o, sent) => MovingKeepsCallback(s, o, true, sent);
    case ShutdownEnds(ok, sent) => MovingKeepsCallback(s, Progress, ok, sent);
    case AbortConfirmed(sent) => MovingKeepsCallback(s, Progress, true, sent);
    case TransferEnds =>
      MovingKeepsCallback(s, Progress, true, true);
      MovingKeepsCallback(s.(worker := s.worker.(abortTransfer := NoCallback)), Progress, true, true);
    case SocketDies =>
    case SessionExpires =>
  }

  /** One step: a callback is left behind by a refused accept, or was so already. */
  lemma LeftBehindStep(s: State, e: Event)
    requires Inv(s) && Enabled(s, e)
    ensures LeftBehind(Next(s, e).worker) <==>
              || (LeftBehind(s.worker) && !Replaces(s, e))
              || (e.ConnectionDecided? && s.worker.at == Accepting && Next(s, e).worker.at == Refused
                  && s.worker.abortTransfer == CloseAcceptor)
  {
    AssertsHold(s);
    hide Next, Replaces, Inv, Enabled;
    if IsControl(e) {
      ControlKeepsCallback(s, e);
      ControlIsOther(s, e);
      ControlKeepsInv(s, e);
    } else {
      TransferKeepsCallback(s, e);
      RefusalReplacesNothing(s, e);
    }
  }

  lemma ControlIsOther(s: State, e: Event)
    requires IsControl(e) && Inv(s)
    ensures !e.ConnectionDecided? && (s.ftp.transfer == NoTransfer ==> s.worker.at == Idle)
  {
  }

  lemma RefusalReplacesNothing(s: State, e: Event)
    ensures e.ConnectionDecided? && Next(s, e).worker.at == Refused ==> !Replaces(s, e)
  {
    hide Next;
  }

  lemma PrefixRun(events: seq<Event>, i: nat)
    requires i < |events|
    ensures events[..|events| - 1][..i] == events[..i]
  {
  }

  /** The last event has refused an accept. */
  lemma LeftByLast(events: seq<Event>)
    requires events != []
    ensures var s, e := Run(INITIAL, events[..|events| - 1]), events[|events| - 1];
            LeftBy(events, |events| - 1) <==>
              e.ConnectionDecided? && s.worker.at == Accepting && Next(s, e).worker.at == Refused
              && s.worker.abortTransfer == CloseAcceptor
  {
    hide Replaces, Next;
    assert events[..|events|] == events;
  }

  lemma LeftByStep(events: seq<Event>)
    requires events != []
    ensures var n := |events| - 1;
            (exists i: nat :: LeftBy(events, i)) <==>
              || LeftBy(events, n)
              || ((exists i: nat :: LeftBy(events[..n], i)) && !Replaces(Run(INITIAL, events[..n]), events[n]))
  {
    hide LeftBy, Replaces, Run;
    var n := |events| - 1;
    var before := events[..n];
    LeftByIsInside(events);
    LeftByIsInside(before);
    forall i: nat | i < n
      ensures LeftBy(events, i) <==> LeftBy(before, i) && !Replaces(Run(INITIAL, before), events[n])
    {
      LeftByMore(events, i);
    }
    if i: nat :| LeftBy(events, i) && i != n {
      assert LeftBy(before, i);
    }
    if i: nat :| LeftBy(before, i) {
      assert i < n;
    }
  }

  lemma LeftByIsInside(events: seq<Event>)
    ensures forall i: nat :: LeftBy(events, i) ==> i < |events|
  {
  }

  /** In every run: a callback that closes the acceptor is left behind exactly if the accept
      of some transfer was refused and no step has replaced the callback since then. */
  lemma {:induction false} LeftBehindByRefusal(events: seq<Event>)
    requires IsRun(events)
    ensures LeftBehind(Run(INITIAL, events).worker) <==> exists i: nat :: LeftBy(events, i)
    decreases |events|
  {
    hide LeftBy, Replaces, Enabled, Next, Inv;
    if events == [] {
      assert Run(INITIAL, events) == INITIAL;
      LeftByIsInside(events);
    } else {
      var n := |events| - 1;
      var before, e := events[..n], events[n];
      RunsKeepInv(before);
      LeftBehindByRefusal(before);
      LeftBehindStep(Run(INITIAL, before), e);
      LeftByStep(events);
      LeftByLast(events);
    }
  }

  lemma LeftByMore(events: seq<Event>, i: nat)
    requires i < |events| - 1
    ensures var before := events[..|events| - 1];
            LeftBy(events, i) <==> LeftBy(before, i) && !Replaces(Run(INITIAL, before), events[|events| - 1])
  {
    hide Run, Replaces;
    var n := |events| - 1;
    var before := events[..n];
    PrefixRun(events, i);
    assert before[..i + 1] == events[..i + 1];
    forall j | 0 <= j < n ensures before[..j] == events[..j] && before[j] == events[j] {
    }
  }

  /** In every run: the abort callback is called without an acceptor exactly if it is called
      while there is none, and a refused accept has left it behind. */
  lemma AcceptorIsMissed(events: seq<Event>, e: Event)
    requires IsRun(events + [e])
    ensures var s := Run(INITIAL, events);
            MissesAcceptor(s, e)
            <==> CallsAbort(s, e) && s.ftp.pasv == None && exists i: nat :: LeftBy(events, i)
  {
    hide Run, IsRun, CallsAbort, Next;
    LastStep(events, e);
    LeftBehindByRefusal(events);
    AssertsHold(Run(INITIAL, events));
  }

  const LEFT := ASKED.(
    ftp := INITIAL.ftp.(loggedIn := true), worker := INITIAL.worker.(abortTransfer := CloseAcceptor),
    log := [230, 227, 150, 425], transferLog := [150, 425], trace := [Chosen, Started, Ended])

  const ACCEPTING := ASKED.(
    worker := ASKED.worker.(at := Accepting, abortTransfer := CloseAcceptor),
    log := [230, 227, 150], transferLog := [150])

  lemma AcceptIsAwaited(events: seq<Event>)
    requires Reaches(events, ASKED)
    ensures Reaches(events + [TransferBegins(true)] + [TransferOpens], ACCEPTING)
  {
    hide Reaches;
    Extend(events, ASKED, TransferBegins(true));
    var s := ASKED.(worker := ASKED.worker.(at := Opening), log := [230, 227, 150], transferLog := [150]);
    assert [230, 227] + [150] == [230, 227, 150] && [] + [150] == [150];
    assert Next(ASKED, TransferBegins(true)) == s;
    Extend(events + [TransferBegins(true)], s, TransferOpens);
  }

  lemma AcceptIsRefused(events: seq<Event>)
    requires Reaches(events, ACCEPTING)
    ensures Reaches(events + [ConnectionDecided(false, true, true)] + [TransferEnds], LEFT)
  {
    hide Reaches;
    Extend(events, ACCEPTING, ConnectionDecided(false, true, true));
    var s := ACCEPTING.(
      worker := ACCEPTING.worker.(at := Refused), log := [230, 227, 150, 425], transferLog := [150, 425]);
    assert [230, 227, 150] + [425] == [230, 227, 150, 425] && [150] + [425] == [150, 425];
    assert Next(ACCEPTING, ConnectionDecided(false, true, true)) == s;
    Extend(events + [ConnectionDecided(false, true, true)], s, TransferEnds);
    assert [Chosen, Started] + [Ended] == [Chosen, Started, Ended];
  }

  /** It can happen: behind a download that the client did not connect for, ABOR calls the
      callback that is left behind, and there is no acceptor. */
  lemma AbortMissesAcceptor() returns (events: seq<Event>)
    ensures IsRun(events) && Enabled(Run(INITIAL, events), Execute(ABOR, true, true))
    ensures MissesAcceptor(Run(INITIAL, events), Execute(ABOR, true, true))
  {
    hide Reaches;
    ClientLogsIn();
    events := [] + [Execute(USER(true), true, true)];
    ClientChoosesPasv(events);
    events := events + [Execute(PASV_(true), true, true)];
    ClientAsks(events);
    events := events + [Execute(RETR(true), true, true)];
    AcceptIsAwaited(events);
    events := events + [TransferBegins(true)] + [TransferOpens];
    AcceptIsRefused(events);
    events := events + [ConnectionDecided(false, true, true)] + [TransferEnds];
    ReachedRun(events, LEFT);
  }

  lemma ReachedRun(events: seq<Event>, s: State)
    requires Reaches(events, s)
    ensures IsRun(events) && Run(INITIAL, events) == s
  {
  }
}
