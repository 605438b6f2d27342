/** The FTP session as two coroutines that interleave wherever one of them yields: the
    control coroutine executes commands, the transfer coroutine moves a file
    (src/wfde/ftp/WfdeFtpSession.cpp, src/wfde/ftp/wfde_ftp_commands.cpp,
    include/wfde/ftp_protocol.h). */
module FtpSession {
  import opened Common

  // ---------- state ----------

  datatype Initiation = NoInitiation | PORT | PASV

  datatype Transfer = NoTransfer | Incoming | Outgoing

  /** The abort callback: what it closes when it is called. */
  datatype Callback = NoCallback | CloseAcceptor | CloseSocket

  /** Where the transfer coroutine is suspended. */
  datatype TransferAt =
    | Idle          // there is none
    | Spawned       // not begun
    | Opening       // behind the 150 reply
    | Connecting    // in DoPort
    | Accepting     // in async_accept
    | Refused       // behind the 425 reply
    | Moving        // in the send or receive loop
    | ShuttingDown  // in AsyncShutdown
    | Aborted       // behind the 426 reply of NotifyFailed
    | Closing       // behind the last reply of the transfer

  datatype ControlAt = Waiting | Quitting | Failing | Over

  /** What the trace of a run records. */
  datatype Mark = Chosen | Started | Ended

  /** The state of the protocol. */
  datatype FtpState = FtpState(
    loggedIn: bool,
    transfer: Transfer,
    initiation: Initiation,
    ttype: TransferType,
    portEndpoint: nat,
    pasv: Option<nat>,          // the acceptor object, by identity
    rest: nat,
    allo: nat,
    overrideAsBinary: bool,
    listHiddenFiles: bool,
    abortPending: bool)

  /** The control connection and what the session knows about it. */
  datatype Line = Line(
    socketOpen: bool,
    replyFailed: bool,
    closePending: bool,
    closed: bool,
    expired: bool)              // the session object is gone

  /** The transfer coroutine and its objects. */
  datatype Worker = Worker(
    at: TransferAt,
    currentFile: Option<Transfer>,  // the direction that its operation asks for
    socket: Option<bool>,           // present, and whether it is open
    abortTransfer: Callback,
    fileType: TransferType)         // the form in which the last file is transferred

  datatype State = State(
    ftp: FtpState,
    line: Line,
    worker: Worker,
    control: ControlAt,
    prevCmd: string,
    acceptors: nat,             // acceptor objects created so far
    log: seq<nat>,              // all replies, by code
    transferLog: seq<nat>,      // those of the last transfer
    trace: seq<Mark>,
    fault: bool)                // an assert failed or a null pointer was used

  const INITIAL := State(
    FtpState(false, NoTransfer, NoInitiation, ASCII, 0, None, 0, 0, false, false, false),
    Line(true, false, false, false, false),
    Worker(Idle, None, None, NoCallback, ASCII),
    Waiting, "", 0, [], [], [], false)

  // ---------- replies ----------

  const RC_OPENING_CONNECTION := 150
  const RC_OK := 200
  const RC_BYE := 221
  const RC_CLOSING_DATA_CONNECTION := 226
  const RC_PASSIVE := 227
  const RC_LOGGED_IN := 230
  const RC_NEED_PASSWD := 331
  const RC_FILE_ACTION_PENDING_INFO := 350
  const RC_CANT_OPEN_DATA_CONN := 425
  const RC_TRANSFER_ABORTED := 426
  const RC_ACTION_FAILED := 450
  const RC_SYNTAX_ERROR := 500
  const RC_SYNTAX_ERROR_IN_PARAMS := 501
  const RC_BAD_SEQUENCE_OF_COMMANDS := 503
  const RC_NOT_LOGGED_ON := 530
  const RC_ACTION_NOT_TAKEN := 550

  predicate Dead(l: Line) { l.replyFailed || !l.socketOpen }

  /** Nothing is sent on a dead connection; a write that fails makes it dead. */
  function Reply(s: State, code: nat, sent: bool): State {
    if Dead(s.line) then s
    else if sent then s.(log := s.log + [code])
    else s.(line := s.line.(replyFailed := true))
  }

  /** A reply of the transfer coroutine. */
  function TransferReply(s: State, code: nat, sent: bool): State {
    if !Dead(s.line) && sent then Reply(s, code, sent).(transferLog := s.transferLog + [code])
    else Reply(s, code, sent)
  }

  // ---------- commands ----------

  datatype Command =
    | USER(accepted: bool)
    | PASS(accepted: bool)
    | PORT_(endpoint: Option<nat>)       // None: not an address
    | PASV_(listens: bool)
    | TYPE(binary: bool)
    | REST(offset: Option<nat>)          // None: not a number that fits
    | ALLO(bytes: Option<nat>)
    | RETR(opens: bool)
    | STOR(opens: bool)
    | STOU(opens: bool)
    | APPE(opens: bool)
    | LIST(opens: bool, hidden: bool)
    | NLST(opens: bool)
    | MLSD(opens: bool)
    | ABOR
    | RNFR(code: nat)
    | RNTO(code: nat)
    | STAT(code: nat, hidden: bool)
    | QUIT
    | Anytime(code: nat)                 // FEAT, NOOP, SYST
    | LoggedIn(code: nat)                // PWD
    | BetweenTransfers(answer: Option<nat>)  // CWD, DELE, HELP, MDTM, ...; None: it throws

  function Name(c: Command): string {
    match c
    case USER(_) => "USER"
    case RNFR(_) => "RNFR"
    case _ => "other"
  }

  function NeedPrevCmd(c: Command): string {
    match c
    case PASS(_) => "USER"
    case RNTO(_) => "RNFR"
    case _ => ""
  }

  predicate StartsTransfer(c: Command) {
    c.RETR? || c.STOR? || c.STOU? || c.APPE? || c.LIST? || c.NLST? || c.MLSD?
  }

  predicate NeedPostOrPasv(c: Command) { StartsTransfer(c) || c.REST? }

  predicate MustNotBeInTransfer(c: Command) {
    || StartsTransfer(c) || c.REST? || c.ALLO? || c.PORT_? || c.PASV_?
    || c.RNFR? || c.RNTO? || c.BetweenTransfers?
  }

  predicate MustBeLoggedIn(c: Command) {
    MustNotBeInTransfer(c) || c.STAT? || c.LoggedIn?
  }

  predicate MustNotBeLoggedIn(c: Command) { c.USER? || c.PASS? }

  function GetType(f: FtpState): TransferType {
    if f.overrideAsBinary then BIN else f.ttype
  }

  function SetPort(s: State, endpoint: nat): State {
    s.(ftp := s.ftp.(portEndpoint := endpoint, initiation := PORT), trace := s.trace + [Chosen])
  }

  function SetPasv(s: State): State {
    s.(ftp := s.ftp.(initiation := PASV), trace := s.trace + [Chosen])
  }

  /** Called after a transfer is done with. */
  function ResetTransfer(s: State): State {
    s.(ftp := s.ftp.(transfer := NoTransfer, initiation := NoInitiation, allo := 0, rest := 0,
                     overrideAsBinary := false, pasv := None, listHiddenFiles := false),
       trace := s.trace + [Ended])
  }

  function StartTransfer(s: State, direction: Transfer): State {
    s.(ftp := s.ftp.(transfer := direction),
       worker := s.worker.(currentFile := Some(direction), at := Spawned, fileType := GetType(s.ftp)),
       transferLog := [], trace := s.trace + [Started])
  }

  /** The state behind a command, and what it replies: a code, nothing, or an exception. */
  datatype Done = Done(s: State, reply: CommandReply)
  datatype CommandReply = Replies(code: nat) | Silent | Throws

  function LogIn(s: State, accepted: bool): State {
    s.(ftp := s.ftp.(loggedIn := s.ftp.loggedIn || accepted))
  }

  function Listen(s: State): State {
    if s.ftp.pasv.Some? then s
    else s.(ftp := s.ftp.(pasv := Some(s.acceptors)), acceptors := s.acceptors + 1)
  }

  function SetRest(s: State, offset: nat): State { s.(ftp := s.ftp.(rest := offset)) }

  function ShowHidden(s: State, hidden: bool): State {
    s.(ftp := s.ftp.(listHiddenFiles := s.ftp.listHiddenFiles || hidden))
  }

  function OverrideAsBinary(s: State, override: bool): State {
    s.(ftp := s.ftp.(overrideAsBinary := s.ftp.overrideAsBinary || override))
  }

  /** Open the file, if that works, and start the transfer; refused with a code before
      that if the restart offset cannot be combined with the command. */
  function OpenAndStart(s: State, restOk: bool, opens: bool, direction: Transfer): Done {
    if !restOk then Done(s, Replies(RC_ACTION_NOT_TAKEN))
    else if opens then Done(StartTransfer(s, direction), Silent)
    else Done(s, Replies(RC_ACTION_FAILED))
  }

  function OnStart(s: State, c: Command): Done
    requires StartsTransfer(c)
  {
    match c
    case RETR(opens) => OpenAndStart(s, s.ftp.rest == 0 || GetType(s.ftp) == BIN, opens, Outgoing)
    case STOR(opens) => OpenAndStart(s, s.ftp.rest == 0 || GetType(s.ftp) == BIN, opens, Incoming)
    case STOU(opens) => OpenAndStart(s, s.ftp.rest == 0, opens, Incoming)
    case APPE(opens) => OpenAndStart(s, s.ftp.rest == 0, opens, Incoming)
    case LIST(opens, hidden) => OpenAndStart(ShowHidden(s, hidden), true, opens, Outgoing)
    case NLST(opens) => OpenAndStart(s, true, opens, Outgoing)
    case MLSD(opens) => OpenAndStart(OverrideAsBinary(s, opens), true, opens, Outgoing)
  }

  function OnOther(s: State, c: Command): Done
    requires !StartsTransfer(c)
  {
    match c
    case USER(accepted) => Done(LogIn(s, accepted), Replies(if accepted then RC_LOGGED_IN else RC_NEED_PASSWD))
    case PASS(accepted) => Done(LogIn(s, accepted), Replies(if accepted then RC_LOGGED_IN else RC_NOT_LOGGED_ON))
    case PORT_(endpoint) =>
      if endpoint.Some? then Done(SetPort(s, endpoint.value), Replies(RC_OK)) else Done(s, Throws)
    case PASV_(listens) =>
      if s.ftp.pasv.Some? || listens then Done(SetPasv(Listen(s)), Replies(RC_PASSIVE))
      else Done(Listen(s), Throws)
    case TYPE(binary) => Done(s.(ftp := s.ftp.(ttype := if binary then BIN else ASCII)), Replies(RC_OK))
    case REST(offset) =>
      if offset.None? then Done(SetRest(s, 0), Replies(RC_SYNTAX_ERROR_IN_PARAMS))
      else if offset.value != 0 && GetType(s.ftp) != BIN then Done(SetRest(s, 0), Replies(RC_ACTION_NOT_TAKEN))
      else Done(SetRest(s, offset.value), Replies(RC_FILE_ACTION_PENDING_INFO))
    case ALLO(bytes) =>
      if bytes.None? then Done(s, Replies(RC_SYNTAX_ERROR_IN_PARAMS))
      else Done(s.(ftp := s.ftp.(allo := bytes.value)), Replies(RC_OK))
    case ABOR => Done(s.(ftp := s.ftp.(abortPending := true)), Silent)
    case RNFR(code) => Done(s, Replies(code))
    case RNTO(code) => Done(s, Replies(code))
    case STAT(code, hidden) => Done(ShowHidden(s, hidden), Replies(code))
    case QUIT => Done(s, Replies(RC_BYE))
    case Anytime(code) => Done(s, Replies(code))
    case LoggedIn(code) => Done(s, Replies(code))
    case BetweenTransfers(answer) =>
      if answer.Some? then Done(s, Replies(answer.value)) else Done(s, Throws)
  }

  function OnCmd(s: State, c: Command): Done {
    if StartsTransfer(c) then OnStart(s, c) else OnOther(s, c)
  }

  /** The first check that refuses a command decides the reply. */
  function Refusal(s: State, c: Command): Option<nat> {
    if NeedPrevCmd(c) != "" && s.prevCmd != NeedPrevCmd(c) then Some(RC_BAD_SEQUENCE_OF_COMMANDS)
    else if MustBeLoggedIn(c) && !s.ftp.loggedIn then Some(RC_NOT_LOGGED_ON)
    else if MustNotBeLoggedIn(c) && s.ftp.loggedIn then Some(RC_ACTION_NOT_TAKEN)
    else if MustNotBeInTransfer(c) && s.ftp.transfer != NoTransfer then Some(RC_ACTION_NOT_TAKEN)
    else if NeedPostOrPasv(c) && s.ftp.initiation == NoInitiation then Some(RC_BAD_SEQUENCE_OF_COMMANDS)
    else None
  }

  /** The abort callback.  One that a refused transfer left behind refers to objects that
      are gone; what it does then is not modelled. */
  function CallAbort(w: Worker): Worker {
    if w.abortTransfer == CloseSocket && w.socket == Some(true) then w.(socket := Some(false)) else w
  }

  /** Behind a command that did not reply, a pending abort calls the callback, once. */
  function AbortIfPending(s: State): State {
    if s.ftp.abortPending && s.worker.abortTransfer != NoCallback
    then s.(worker := CallAbort(s.worker).(abortTransfer := NoCallback)) else s
  }

  /** A command that passed all checks.  The reply yields; what follows it for a QUIT or an
      exception, the closing of the session, runs in one stretch with `DoClose`. */
  function Finish(done: Done, c: Command, sent: bool): State {
    match done.reply
    case Replies(code) =>
      var r := Reply(done.s.(prevCmd := Name(c)), code, sent);
      if c.QUIT? then r.(control := Quitting) else r
    case Silent => AbortIfPending(done.s.(prevCmd := Name(c)))
    case Throws => Reply(done.s, RC_BYE, sent).(control := Failing)
  }

  function OnCommand(s: State, c: Command, syntaxOk: bool, sent: bool): State {
    if s.line.expired then s
    else if Refusal(s, c).Some? then Reply(s, Refusal(s, c).value, sent)
    else if !syntaxOk then Reply(s, RC_SYNTAX_ERROR_IN_PARAMS, sent)
    else Finish(OnCmd(s, c), c, sent)
  }

  /** The end of the control coroutine: what is left of a QUIT or of an internal error once
      its reply is sent, or the end of the input; `Close` or `close_pending_`, the loop
      condition and `DoClose` follow each other without a yield. */
  function DoClose(s: State): State {
    if s.line.closed then s.(control := Over)
    else
      s.(line := s.line.(closePending := true, socketOpen := false, closed := true), control := Over,
         worker := if s.line.expired then s.worker else CallAbort(s.worker))
  }

  // ---------- the transfer coroutine ----------

  function Assert(s: State, condition: bool): State { s.(fault := s.fault || !condition) }

  function GoTo(s: State, at: TransferAt): State { s.(worker := s.worker.(at := at)) }

  function Begin(s: State, sent: bool): State {
    var a := Assert(s, s.worker.currentFile.Some? && s.worker.socket.None?);
    GoTo(TransferReply(a, RC_OPENING_CONNECTION, sent), Opening)
  }

  function OpenConnection(s: State): State {
    if s.line.replyFailed || s.line.expired || s.line.closed || s.line.closePending then
      ResetTransfer(s.(worker := s.worker.(currentFile := None, at := Idle)))
    else if s.ftp.initiation == PORT then GoTo(s, Connecting)
    else
      var a := Assert(s, s.ftp.pasv.Some?);
      a.(worker := s.worker.(abortTransfer := CloseAcceptor, at := Accepting))
  }

  /** The data connection is there, or was refused; `open` unless an abort closed it. */
  function Connected(s: State, ok: bool, open: bool, sent: bool): State {
    var a := Assert(s, s.worker.at == Connecting ==> s.ftp.initiation == PORT);
    if ok && !(s.worker.at == Connecting && s.line.expired) then
      a.(worker := s.worker.(abortTransfer := CloseSocket, socket := Some(open), at := Moving))
    else GoTo(TransferReply(a, RC_CANT_OPEN_DATA_CONN, sent), Refused)
  }

  function CleanupTransfer(s: State): State {
    ResetTransfer(s.(worker := s.worker.(socket := None, currentFile := None, at := Idle)))
  }

  function NotifyFailed(s: State, sent: bool): State {
    if Dead(s.line) then GoTo(s, Closing)
    else GoTo(TransferReply(s, RC_TRANSFER_ABORTED, sent), Aborted)
  }

  /** Behind the 426: an abort that is pending by now is confirmed. */
  function ConfirmAbort(s: State, sent: bool): State {
    if s.ftp.abortPending then
      GoTo(TransferReply(s.(ftp := s.ftp.(abortPending := false)), RC_CLOSING_DATA_CONNECTION, sent), Closing)
    else GoTo(s, Closing)
  }

  datatype Outcome =
    | Progress       // a chunk went through
    | Broken         // the socket is closed or a read or write failed
    | SessionGone    // the session expired meanwhile
    | FileFailed     // an exception from the file
    | EndOfFile      // of the file to send, or of the stream received

  function Move(s: State, o: Outcome, sent: bool): State {
    var a := Assert(s, s.worker.socket.Some? && s.worker.currentFile.Some?);
    match o
    case Progress =>
      if s.ftp.transfer == Incoming && s.worker.socket == Some(false)
      then TransferReply(a, RC_TRANSFER_ABORTED, sent) else a
    case Broken => NotifyFailed(a, sent)
    case SessionGone => GoTo(a, Closing)
    case FileFailed => GoTo(TransferReply(a, RC_TRANSFER_ABORTED, sent), Closing)
    case EndOfFile => GoTo(a, ShuttingDown)
  }

  function Shutdown(s: State, ok: bool, sent: bool): State {
    var a := Assert(s, s.worker.socket.Some? && s.worker.currentFile.Some?);
    if ok || s.ftp.transfer == Outgoing then
      GoTo(TransferReply(a.(worker := s.worker.(socket := Some(false))), RC_CLOSING_DATA_CONNECTION, sent), Closing)
    else NotifyFailed(a, sent)
  }

  // ---------- steps ----------

  datatype Event =
    | Execute(c: Command, syntaxOk: bool, sent: bool)
    | Unrecognized(sent: bool)
    | EndControl
    | TransferBegins(sent: bool)
    | TransferOpens
    | ConnectionDecided(ok: bool, open: bool, sent: bool)
    | DataMoves(o: Outcome, sent: bool)
    | ShutdownEnds(ok: bool, sent: bool)
    | AbortConfirmed(sent: bool)
    | TransferEnds
    | SocketDies
    | SessionExpires

  /** The loop condition of the control coroutine. */
  predicate Listening(s: State) {
    s.control == Waiting && !Dead(s.line) && !s.line.closePending && !s.line.expired
  }

  predicate Enabled(s: State, e: Event) {
    match e
    case Execute(_, _, _) => Listening(s)
    case Unrecognized(_) => Listening(s)
    case EndControl => s.control != Over
    case TransferBegins(_) => s.worker.at == Spawned
    case TransferOpens => s.worker.at == Opening
    case ConnectionDecided(_, _, _) => s.worker.at == Connecting || s.worker.at == Accepting
    case DataMoves(o, _) =>
      && s.worker.at == Moving
      && (o == Progress && s.ftp.transfer == Outgoing ==> s.worker.socket == Some(true))
      && (o == SessionGone ==> s.line.expired)
    case ShutdownEnds(_, _) => s.worker.at == ShuttingDown
    case AbortConfirmed(_) => s.worker.at == Aborted
    case TransferEnds => s.worker.at == Closing || s.worker.at == Refused
    case SocketDies => true
    case SessionExpires => !s.line.socketOpen  // a session closes its socket before it goes
  }

  function Next(s: State, e: Event): State {
    match e
    case Execute(c, syntaxOk, sent) => OnCommand(s, c, syntaxOk, sent)
    case Unrecognized(sent) => Reply(s, RC_SYNTAX_ERROR, sent)
    case EndControl => DoClose(s)
    case TransferBegins(sent) => Begin(s, sent)
    case TransferOpens => OpenConnection(s)
    case ConnectionDecided(ok, open, sent) => Connected(s, ok, open, sent)
    case DataMoves(o, sent) => Move(s, o, sent)
    case ShutdownEnds(ok, sent) => Shutdown(s, ok, sent)
    case AbortConfirmed(sent) => ConfirmAbort(s, sent)
    case TransferEnds =>
      if s.worker.at == Closing then CleanupTransfer(s.(worker := s.worker.(abortTransfer := NoCallback)))
      else CleanupTransfer(s)
    case SocketDies => s.(line := s.line.(socketOpen := false))
    case SessionExpires => s.(line := s.line.(expired := true))
  }

  function Run(s: State, events: seq<Event>): State
    decreases |events|
  {
    if events == [] then s else Next(Run(s, events[..|events| - 1]), events[|events| - 1])
  }

  /** A run of a session: every event is possible when it happens. */
  predicate IsRun(events: seq<Event>)
    decreases |events|
  {
    events == [] || (var before := events[..|events| - 1];
                     IsRun(before) && Enabled(Run(INITIAL, before), events[|events| - 1]))
  }

  predicate IsControl(e: Event) { e.Execute? || e.Unrecognized? || e.EndControl? }
}
