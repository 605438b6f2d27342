/** What the client of a transfer is told, by what became of the transfer. */
module FtpOutcomes {
  import opened Common
  import opened FtpSession
  import opened FtpSafety
  import opened FtpHistory

  // ---------- what became of a transfer, by its events ----------

  datatype Fate =
    | Underway
    | NotConnected             // the data connection was refused
    | LoopEnded(how: Outcome)  // the send or receive loop ended in this way

  /** Of the transfer that began last. */
  function FateOf(events: seq<Event>): Fate
    decreases |events|
  {
    if events == [] || Last(events).TransferBegins? then Underway
    else if Last(events).ConnectionDecided? && !Last(events).ok then NotConnected
    else if Last(events).DataMoves? && Last(events).o != Progress then LoopEnded(Last(events).o)
    else FateOf(Before(events))
  }

  /** The data connection was shut down as it should be. */
  predicate ShutdownOk(events: seq<Event>)
    decreases |events|
  {
    events != [] && !Last(events).TransferBegins?
    && (if Last(events).ShutdownEnds? then Last(events).ok else ShutdownOk(Before(events)))
  }

  /** An abort was pending when the 426 had been sent. */
  predicate AbortWasPending(events: seq<Event>)
    decreases |events|
  {
    events != [] && !Last(events).TransferBegins?
    && (if Last(events).AbortConfirmed? then AbortAsked(Before(events)) else AbortWasPending(Before(events)))
  }

  /** Pieces of an upload that came in although an abort had closed the socket; each of them
      is answered. */
  function Strays(events: seq<Event>): nat
    decreases |events|
  {
    if events == [] || Last(events).TransferBegins? then 0
    else
      var s := Run(INITIAL, Before(events));
      Strays(Before(events)) +
      if Last(events).DataMoves? && Last(events).o == Progress && s.ftp.transfer == Incoming
         && s.worker.socket == Some(false) then 1 else 0
  }

  /** What the end of a transfer adds to its replies. */
  function Ending(direction: Transfer, fate: Fate, shutdownOk: bool, confirmed: bool): seq<nat> {
    match fate
    case Underway => []
    case NotConnected => [425]
    case LoopEnded(how) =>
      if how == EndOfFile && (direction == Outgoing || shutdownOk) then [226]
      else if how == FileFailed || !confirmed then [426]
      else [426, 226]
  }

  function Copies(code: nat, n: nat): (codes: seq<nat>)
    ensures |codes| == n
  {
    seq(n, i => code)
  }

  // ---------- the replies so far ----------

  predicate ToldAt(at: TransferAt, direction: Transfer, log: seq<nat>, events: seq<Event>) {
    var fate, strays := FateOf(events), [150] + Copies(426, Strays(events));
    match at
    case Idle => true
    case Spawned => log == []
    case Refused => fate == NotConnected && log == [150, 425] && Strays(events) == 0
    case Moving => fate == Underway && log == strays
    case ShuttingDown => fate == LoopEnded(EndOfFile) && log == strays
    case Aborted =>
      && log == strays + [426]
      && (fate == LoopEnded(Broken) || (fate == LoopEnded(EndOfFile) && direction == Incoming && !ShutdownOk(events)))
    case Closing =>
      && fate in {LoopEnded(Broken), LoopEnded(FileFailed), LoopEnded(EndOfFile)}
      && log == strays + Ending(direction, fate, ShutdownOk(events), AbortWasPending(events))
    case _ => fate == Underway && log == [150] && Strays(events) == 0
  }

  ghost predicate Told(s: State, events: seq<Event>) {
    Live(s.line) && s.ftp.transfer != NoTransfer ==>
      && ToldAt(s.worker.at, s.ftp.transfer, s.transferLog, events)
      && (s.ftp.transfer == Outgoing && s.worker.at != Spawned ==> Strays(events) == 0)
  }

  // ---------- one step ----------

  ghost predicate TellingStep(events: seq<Event>, s: State, t: State) {
    && events != [] && s == Run(INITIAL, Before(events)) && t == Next(s, Last(events))
    && Enabled(s, Last(events)) && Inv(s) && Inv(t) && Told(s, Before(events))
    && s.ftp.abortPending == AbortAsked(Before(events))
    && Live(t.line) && t.ftp.transfer != NoTransfer
  }

  /** A transfer that has just started has told nothing. */
  lemma StartTellsNothing(s: State, c: Command)
    requires s.ftp.transfer == NoTransfer && OnCmd(s, c).s.ftp.transfer != NoTransfer
    ensures OnCmd(s, c).s.transferLog == [] && OnCmd(s, c).s.worker.at == Spawned
  {
    hide StartsTransfer, OnStart, OnOther;
    StartedBy(s, c);
    StartClearsLog(s, c);
  }

  lemma StartClearsLog(s: State, c: Command)
    requires StartsTransfer(c) && s.ftp.transfer == NoTransfer && OnStart(s, c).s.ftp.transfer != NoTransfer
    ensures OnStart(s, c).s.transferLog == []
  {
  }

  lemma CommandStartTellsNothing(s: State, e: Event)
    requires e.Execute? && s.ftp.transfer == NoTransfer && Next(s, e).ftp.transfer != NoTransfer
    ensures Next(s, e).transferLog == [] && Next(s, e).worker.at == Spawned
  {
    hide Reply, OnCmd, Finish, Refusal;
    ReplyKeepsFtp(s, RC_SYNTAX_ERROR_IN_PARAMS, e.sent);
    if Refusal(s, e.c).Some? {
      ReplyKeepsFtp(s, Refusal(s, e.c).value, e.sent);
    }
    var d := OnCmd(s, e.c);
    FinishKeepsNumbers(d, e.c, e.sent);
    FinishKeepsLog(d, e.c, e.sent);
    StartTellsNothing(s, e.c);
  }

  lemma FinishKeepsLog(d: Done, c: Command, sent: bool)
    ensures Finish(d, c, sent).transferLog == d.s.transferLog && Finish(d, c, sent).worker.at == d.s.worker.at
  {
  }

  lemma ControlTells(events: seq<Event>, s: State, t: State)
    requires TellingStep(events, s, t) && IsControl(Last(events))
    ensures Told(t, events)
  {
    var e := Last(events);
    hide Run, Inv, Enabled, Ending;
    assert Strays(events) == Strays(Before(events)) + 0;
    if s.ftp.transfer != NoTransfer {
      hide Next;
      ControlKeepsInv(s, e);
    } else {
      assert e.Execute? by {
        hide Reply, DoClose, OnCommand;
        ReplyKeepsFtp(s, RC_SYNTAX_ERROR, true);
        ReplyKeepsFtp(s, RC_SYNTAX_ERROR, false);
        CloseKeepsFtp(s);
      }
      hide Next;
      CommandStartTellsNothing(s, e);
    }
  }

  lemma CloseKeepsFtp(s: State)
    ensures DoClose(s).ftp == s.ftp
  {
  }

  /** Up to the data connection: 150, and 425 if there is none. */
  lemma OpeningSays(s: State, e: Event)
    requires Inv(s) && Enabled(s, e) && (e.TransferBegins? || e.TransferOpens? || e.ConnectionDecided?)
    ensures var t := Next(s, e);
            Live(t.line) && t.ftp.transfer != NoTransfer ==>
              && t.ftp.transfer == s.ftp.transfer && Live(s.line)
              && t.worker.at in (match e
                                 case TransferBegins(_) => {Opening}
                                 case TransferOpens => {Connecting, Accepting}
                                 case _ => if e.ok then {Moving} else {TransferAt.Refused})
              && t.transferLog == s.transferLog + (match e
                                                   case TransferBegins(_) => [150]
                                                   case TransferOpens => []
                                                   case _ => if e.ok then [] else [425])
  {
    hide PhaseOf;
    assert s.transferLog + [] == s.transferLog;
  }

  lemma OpeningTells(events: seq<Event>, s: State, t: State)
    requires TellingStep(events, s, t)
    requires var e := Last(events); e.TransferBegins? || e.TransferOpens? || e.ConnectionDecided?
    ensures Told(t, events)
  {
    OpeningSays(s, Last(events));
    NoCopies();
    hide Run, Inv, Next, Ending, Copies;
    assert [] + [150] == [150] && [150] + [425] == [150, 425];
  }

  lemma NoCopies()
    ensures [150] + Copies(426, 0) == [150]
  {
  }

  lemma OneMoreCopy(n: nat)
    ensures [150] + Copies(426, n) + [426] == [150] + Copies(426, n + 1)
  {
  }

  /** One round of the loop: what it tells, and where it leads. */
  lemma MoveTells(s: State, o: Outcome, sent: bool)
    requires Inv(s) && Enabled(s, DataMoves(o, sent))
    ensures var t := Move(s, o, sent);
            Live(t.line) ==>
              && t.ftp == s.ftp && Live(s.line) && o != SessionGone
              && t.worker.at == (match o
                                 case Progress => Moving
                                 case Broken => Aborted
                                 case EndOfFile => ShuttingDown
                                 case _ => Closing)
              && t.transferLog == s.transferLog + (
                   if o == Broken || o == FileFailed
                      || (o == Progress && s.ftp.transfer == Incoming && s.worker.socket == Some(false)) then [426]
                   else [])
  {
    hide PhaseOf;
    assert s.transferLog + [] == s.transferLog;
  }

  /** Only an upload fails because its connection cannot be shut down. */
  lemma ShutdownTells(s: State, ok: bool, sent: bool)
    requires Inv(s) && s.worker.at == ShuttingDown
    ensures var t := Shutdown(s, ok, sent);
            Live(t.line) ==>
              && t.ftp == s.ftp && Live(s.line)
              && (if ok || s.ftp.transfer == Outgoing
                  then t.worker.at == Closing && t.transferLog == s.transferLog + [226]
                  else t.worker.at == Aborted && t.transferLog == s.transferLog + [426])
  {
    hide PhaseOf;
  }

  lemma ConfirmTells(s: State, sent: bool)
    ensures var t := ConfirmAbort(s, sent);
            Live(t.line) ==>
              && t.ftp.transfer == s.ftp.transfer && Live(s.line) && t.worker.at == Closing
              && t.transferLog == s.transferLog + (if s.ftp.abortPending then [226] else [])
  {
    assert s.transferLog + [] == s.transferLog;
  }

  lemma MovingTells(events: seq<Event>, s: State, t: State)
    requires TellingStep(events, s, t) && Last(events).DataMoves?
    ensures Told(t, events)
  {
    MoveTells(s, Last(events).o, Last(events).sent);
    OneMoreCopy(Strays(Before(events)));
    hide Run, Inv, Move, Copies, ShutdownOk, AbortWasPending;
    assert s.transferLog + [] == s.transferLog;
  }

  lemma ShuttingTells(events: seq<Event>, s: State, t: State)
    requires TellingStep(events, s, t) && Last(events).ShutdownEnds?
    ensures Told(t, events)
  {
    ShutdownTells(s, Last(events).ok, Last(events).sent);
    assert FateOf(events) == FateOf(Before(events)) && Strays(events) == Strays(Before(events))
           && ShutdownOk(events) == Last(events).ok;
    hide Run, Inv, Shutdown, Copies, AbortWasPending, FateOf, Strays, ShutdownOk;
  }

  lemma ConfirmingTells(events: seq<Event>, s: State, t: State)
    requires TellingStep(events, s, t) && Last(events).AbortConfirmed?
    ensures Told(t, events)
  {
    ConfirmTells(s, Last(events).sent);
    assert FateOf(events) == FateOf(Before(events)) && Strays(events) == Strays(Before(events))
           && ShutdownOk(events) == ShutdownOk(Before(events)) && AbortWasPending(events) == AbortAsked(Before(events));
    hide Run, Inv, ConfirmAbort, Copies, FateOf, Strays, ShutdownOk, AbortWasPending, AbortAsked, Ending;
    var strays, confirmed := [150] + Copies(426, Strays(events)), AbortWasPending(events);
    AbortedEnding(s.ftp.transfer, FateOf(events), ShutdownOk(events), confirmed);
    assert strays + [426] + (if confirmed then [226] else []) == strays + ([426] + if confirmed then [226] else []);
  }

  lemma AbortedEnding(direction: Transfer, fate: Fate, shutdownOk: bool, confirmed: bool)
    ensures fate == LoopEnded(Broken) || (fate == LoopEnded(EndOfFile) && direction == Incoming && !shutdownOk) ==>
              Ending(direction, fate, shutdownOk, confirmed) == [426] + if confirmed then [226] else []
  {
  }

  lemma OneMoreTold(events: seq<Event>, s: State, t: State)
    requires TellingStep(events, s, t)
    ensures Told(t, events)
  {
    var e := Last(events);
    if IsControl(e) {
      ControlTells(events, s, t);
    } else if e.TransferBegins? || e.TransferOpens? || e.ConnectionDecided? {
      OpeningTells(events, s, t);
    } else if e.DataMoves? {
      MovingTells(events, s, t);
    } else if e.ShutdownEnds? {
      ShuttingTells(events, s, t);
    } else if e.AbortConfirmed? {
      ConfirmingTells(events, s, t);
    } else {
      NoTransferBehind(s, e);
      assert false;
    }
  }

  lemma NoTransferBehind(s: State, e: Event)
    requires Inv(s) && Enabled(s, e) && (e.TransferEnds? || e.SocketDies? || e.SessionExpires?)
    ensures Next(s, e).ftp.transfer == NoTransfer || !Live(Next(s, e).line)
  {
    hide PhaseOf;
  }

  lemma {:induction false} AlwaysTold(events: seq<Event>)
    requires IsRun(events)
    ensures Told(Run(INITIAL, events), events)
    decreases |events|
  {
    hide Told, Next, Enabled, Inv, IsControl;
    if events == [] {
      assert Run(INITIAL, events) == INITIAL;
      NothingToTell(events);
    } else {
      var before, e := Before(events), Last(events);
      assert events == before + [e];
      LastStep(before, e);
      RunsKeepInv(events);
      AlwaysTold(before);
      SettingsFollowEvents(before);
      var s, t := Run(INITIAL, before), Run(INITIAL, events);
      if Live(t.line) && t.ftp.transfer != NoTransfer {
        OneMoreTold(events, s, t);
      } else {
        NothingToSay(t, events);
      }
    }
  }

  lemma NothingToTell(events: seq<Event>)
    ensures Told(INITIAL, events)
  {
  }

  lemma NothingToSay(s: State, events: seq<Event>)
    requires !Live(s.line) || s.ftp.transfer == NoTransfer
    ensures Told(s, events)
  {
  }

  // ---------- main results ----------

  /** Before it cleans up, on a line that is alive, a transfer has sent 150, a 426 for every
      stray piece, and what its fate says. */
  lemma TransferIsTold(events: seq<Event>)
    requires IsRun(events + [TransferEnds]) && Live(Run(INITIAL, events + [TransferEnds]).line)
    ensures var s, fate := Run(INITIAL, events), FateOf(events);
            && fate in {NotConnected, LoopEnded(Broken), LoopEnded(FileFailed), LoopEnded(EndOfFile)}
            && Run(INITIAL, events + [TransferEnds]).transferLog == s.transferLog
            && s.transferLog == [150] + Copies(426, Strays(events))
                              + Ending(TransferNow(events), fate, ShutdownOk(events), AbortWasPending(events))
            && (TransferNow(events) == Outgoing ==> Strays(events) == 0)
  {
    hide IsRun, Run, PhaseOf, TransferNow, FateOf, Strays;
    LastStep(events, TransferEnds);
    AlwaysTold(events);
    SettingsFollowEvents(events);
    assert [150] + Copies(426, 0) + [425] == [150, 425];
  }

  /** A download or listing on a line that is alive to the end: 226 exactly if the file was
      sent to its end, 425 exactly if there was no connection, and 426 exactly if a write or
      the file failed, followed by 226 exactly if a write failed and an abort was pending. */
  lemma DownloadIsTold(events: seq<Event>)
    requires IsRun(events + [TransferEnds]) && TransferNow(events) == Outgoing
    requires Live(Run(INITIAL, events + [TransferEnds]).line)
    ensures var log, fate := Run(INITIAL, events + [TransferEnds]).transferLog, FateOf(events);
            && (log == [150, 226] <==> fate == LoopEnded(EndOfFile))
            && (log == [150, 425] <==> fate == NotConnected)
            && ([150, 426] <= log <==> fate == LoopEnded(Broken) || fate == LoopEnded(FileFailed))
            && (log == [150, 426, 226] <==> fate == LoopEnded(Broken) && AbortWasPending(events))
  {
    hide IsRun, Run, TransferNow, FateOf, Strays;
    TransferIsTold(events);
    assert [150] + Copies(426, 0) == [150];
    var log := Run(INITIAL, events + [TransferEnds]).transferLog;
    var fate := FateOf(events);
    assert fate == LoopEnded(EndOfFile) ==> log == [150, 226];
    assert fate == NotConnected ==> log == [150, 425];
    assert fate == LoopEnded(FileFailed) ==> log == [150, 426];
    assert fate == LoopEnded(Broken) ==> log == if AbortWasPending(events) then [150, 426, 226] else [150, 426];
  }

  /** An upload without stray pieces: 226 exactly if it was received to its end and the
      connection could be shut down. */
  lemma UploadIsTold(events: seq<Event>)
    requires IsRun(events + [TransferEnds]) && TransferNow(events) == Incoming && Strays(events) == 0
    requires Live(Run(INITIAL, events + [TransferEnds]).line)
    ensures var log, fate := Run(INITIAL, events + [TransferEnds]).transferLog, FateOf(events);
            && (log == [150, 226] <==> fate == LoopEnded(EndOfFile) && ShutdownOk(events))
            && (log == [150, 425] <==> fate == NotConnected)
            && ([150, 426] <= log <==> || fate == LoopEnded(Broken) || fate == LoopEnded(FileFailed)
                                       || (fate == LoopEnded(EndOfFile) && !ShutdownOk(events)))
  {
    hide IsRun, Run, TransferNow, FateOf, Strays;
    TransferIsTold(events);
    assert [150] + Copies(426, 0) == [150];
    var log := Run(INITIAL, events + [TransferEnds]).transferLog;
    var fate := FateOf(events);
    assert fate == LoopEnded(EndOfFile) && ShutdownOk(events) ==> log == [150, 226];
    assert fate == NotConnected ==> log == [150, 425];
    assert fate == LoopEnded(FileFailed) ==> log == [150, 426];
    assert fate == LoopEnded(Broken) || (fate == LoopEnded(EndOfFile) && !ShutdownOk(events)) ==>
        log == if AbortWasPending(events) then [150, 426, 226] else [150, 426];
  }

  // ---------- a download that is sent ----------

  const SENT := SENDING.(
    worker := Worker(Closing, Some(Outgoing), Some(false), CloseSocket, ASCII),
    log := [230, 227, 150, 226], transferLog := [150, 226])

  lemma FileIsSent(events: seq<Event>)
    requires Reaches(events, SENDING)
    ensures Reaches(events + [DataMoves(EndOfFile, true)] + [ShutdownEnds(true, true)], SENT)
  {
    hide Reaches;
    Extend(events, SENDING, DataMoves(EndOfFile, true));
    var s := SENDING.(worker := SENDING.worker.(at := ShuttingDown));
    assert Next(SENDING, DataMoves(EndOfFile, true)) == s;
    Extend(events + [DataMoves(EndOfFile, true)], s, ShutdownEnds(true, true));
    assert [230, 227, 150] + [226] == [230, 227, 150, 226] && [150] + [226] == [150, 226];
    assert Next(s, ShutdownEnds(true, true)) == SENT;
  }

  /** A download can be completed: the client logs in, chooses PASV, asks for a file, gets all
      of it and is told 150 and 226; the session is ready for its next PORT or PASV. */
  lemma ACompletedDownload() returns (events: seq<Event>)
    ensures Reaches(events, Next(SENT, TransferEnds))
    ensures var t := Next(SENT, TransferEnds);
            && t.transferLog == [150, 226] && Live(t.line)
            && t.ftp == INITIAL.ftp.(loggedIn := true) && t.worker == INITIAL.worker
  {
    hide Reaches;
    ClientLogsIn();
    events := [] + [Execute(USER(true), true, true)];
    ClientChoosesPasv(events);
    events := events + [Execute(PASV_(true), true, true)];
    ClientAsks(events);
    events := events + [Execute(RETR(true), true, true)];
    DownloadIsSent(events);
    events := events + [TransferBegins(true)] + [TransferOpens] + [ConnectionDecided(true, true, true)];
    FileIsSent(events);
    events := events + [DataMoves(EndOfFile, true)] + [ShutdownEnds(true, true)];
    Extend(events, SENT, TransferEnds);
    events := events + [TransferEnds];
  }
}
