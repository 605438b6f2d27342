/** What the state of a session owes to its events: every setting is that of the last command
    that made it, and the replies of a transfer tell how it ended. */
module FtpHistory {
  import opened Common
  import opened FtpSession
  import opened FtpSafety

  // ---------- events that count ----------

  function Last(events: seq<Event>): Event
    requires events != []
  {
    events[|events| - 1]
  }

  function Before(events: seq<Event>): seq<Event>
    requires events != []
  {
    events[..|events| - 1]
  }

  /** The last event is a command that no check has refused. */
  predicate Executed(events: seq<Event>) {
    events != [] && Last(events).Execute? && Last(events).syntaxOk
    && Refusal(Run(INITIAL, Before(events)), Last(events).c) == None
  }

  /** The last event ends a transfer: behind its last reply, or in silence on a dead line. */
  predicate Ends(events: seq<Event>) {
    && events != []
    && (|| Last(events).TransferEnds?
        || (Last(events).TransferOpens? && DeadEnd(Run(INITIAL, Before(events)).line)))
  }

  predicate DeadEnd(l: Line) { l.replyFailed || l.expired || l.closed || l.closePending }

  // ---------- settings, by the events that make them ----------

  /** TYPE: A or I, whichever came last; A in the beginning. */
  function LastType(events: seq<Event>): TransferType
    decreases |events|
  {
    if events == [] then ASCII
    else if Executed(events) && Last(events).c == TYPE(true) then BIN
    else if Executed(events) && Last(events).c == TYPE(false) then ASCII
    else LastType(Before(events))
  }

  predicate LoginAccepted(events: seq<Event>)
    decreases |events|
  {
    events != []
    && ((Executed(events) && (Last(events).c == USER(true) || Last(events).c == PASS(true)))
        || LoginAccepted(Before(events)))
  }

  /** PORT: the last endpoint that was an address. */
  function LastPort(events: seq<Event>): nat
    decreases |events|
  {
    if events == [] then 0
    else if Executed(events) && Last(events).c.PORT_? && Last(events).c.endpoint.Some?
      then Last(events).c.endpoint.value
    else LastPort(Before(events))
  }

  /** PASV: there is an acceptor from the first one until a transfer has ended. */
  predicate HasAcceptor(events: seq<Event>)
    decreases |events|
  {
    events != [] && !Ends(events)
    && ((Executed(events) && Last(events).c.PASV_?) || HasAcceptor(Before(events)))
  }

  /** PORT or PASV, whichever came last, until a transfer has ended. */
  function LastChoice(events: seq<Event>): Initiation
    decreases |events|
  {
    if events == [] || Ends(events) then NoInitiation
    else if Chooses(events) then (if Last(events).c.PORT_? then PORT else PASV)
    else LastChoice(Before(events))
  }

  /** The last event chooses how to connect. */
  predicate Chooses(events: seq<Event>) {
    Executed(events) &&
    match Last(events).c
    case PORT_(endpoint) => endpoint.Some?
    case PASV_(listens) => listens || HasAcceptor(Before(events))
    case _ => false
  }

  /** MLSD is sent as it is, until its transfer has ended. */
  predicate BinaryForced(events: seq<Event>)
    decreases |events|
  {
    events != [] && !Ends(events)
    && ((Executed(events) && Last(events).c == MLSD(true)) || BinaryForced(Before(events)))
  }

  function TypeNow(events: seq<Event>): TransferType {
    if BinaryForced(events) then BIN else LastType(events)
  }

  /** REST: the last offset, until a transfer has ended; a refused one counts as none. */
  function LastRest(events: seq<Event>): nat
    decreases |events|
  {
    if events == [] || Ends(events) then 0
    else if Executed(events) && Last(events).c.REST? then
      var offset := Last(events).c.offset;
      if offset.Some? && TypeNow(Before(events)) == BIN then offset.value else 0
    else LastRest(Before(events))
  }

  function LastAllo(events: seq<Event>): nat
    decreases |events|
  {
    if events == [] || Ends(events) then 0
    else if Executed(events) && Last(events).c.ALLO? && Last(events).c.bytes.Some? then Last(events).c.bytes.value
    else LastAllo(Before(events))
  }

  predicate HiddenAsked(events: seq<Event>)
    decreases |events|
  {
    events != [] && !Ends(events)
    && ((Executed(events) && ((Last(events).c.LIST? && Last(events).c.hidden)
                              || (Last(events).c.STAT? && Last(events).c.hidden)))
        || HiddenAsked(Before(events)))
  }

  /** ABOR: asked for, and not yet confirmed. */
  predicate AbortAsked(events: seq<Event>)
    decreases |events|
  {
    events != [] && !Last(events).AbortConfirmed?
    && ((Executed(events) && Last(events).c == ABOR) || AbortAsked(Before(events)))
  }

  /** Downloads and listings go out, uploads come in. */
  function DirectionOf(c: Command): Transfer {
    if c.RETR? || c.LIST? || c.NLST? || c.MLSD? then Outgoing
    else if c.STOR? || c.STOU? || c.APPE? then Incoming
    else NoTransfer
  }

  /** The file of the command can be opened, and no offset stands in its way. */
  predicate CanStart(c: Command, rest: nat, ttype: TransferType) {
    match c
    case RETR(opens) => opens && (rest == 0 || ttype == BIN)
    case STOR(opens) => opens && (rest == 0 || ttype == BIN)
    case STOU(opens) => opens && rest == 0
    case APPE(opens) => opens && rest == 0
    case LIST(opens, _) => opens
    case NLST(opens) => opens
    case MLSD(opens) => opens
    case _ => false
  }

  /** The last event starts a transfer. */
  predicate Starts(events: seq<Event>) {
    Executed(events) && CanStart(Last(events).c, LastRest(Before(events)), TypeNow(Before(events)))
  }

  function TransferNow(events: seq<Event>): Transfer
    decreases |events|
  {
    if events == [] || Ends(events) then NoTransfer
    else if Starts(events) then DirectionOf(Last(events).c)
    else TransferNow(Before(events))
  }

  /** The form of the last file: fixed when its transfer starts. */
  function FileType(events: seq<Event>): TransferType
    decreases |events|
  {
    if events == [] then ASCII
    else if Starts(events) then TypeNow(events)
    else FileType(Before(events))
  }

  function TraceOf(events: seq<Event>): seq<Mark>
    decreases |events|
  {
    if events == [] then []
    else
      TraceOf(Before(events)) + (
        if Ends(events) then [Ended]
        else if Starts(events) then [Started]
        else if Chooses(events) then [Chosen]
        else [])
  }

  /** The last event is a command that ends in an exception. */
  predicate Throwing(events: seq<Event>) {
    Executed(events) &&
    match Last(events).c
    case PORT_(endpoint) => endpoint.None?
    case PASV_(listens) => !listens && !HasAcceptor(Before(events))
    case BetweenTransfers(answer) => answer.None?
    case _ => false
  }

  function LastCommand(events: seq<Event>): string
    decreases |events|
  {
    if events == [] then ""
    else if Executed(events) && !Throwing(events) then Name(Last(events).c)
    else LastCommand(Before(events))
  }

  ghost predicate TransferSettled(s: State, events: seq<Event>) {
    && s.ftp.ttype == LastType(events) && s.ftp.overrideAsBinary == BinaryForced(events)
    && s.ftp.loggedIn == LoginAccepted(events) && s.ftp.transfer == TransferNow(events)
    && s.worker.fileType == FileType(events)
  }

  ghost predicate ConnectionSettled(s: State, events: seq<Event>) {
    && s.ftp.portEndpoint == LastPort(events) && s.ftp.pasv.Some? == HasAcceptor(events)
    && s.ftp.initiation == LastChoice(events) && s.trace == TraceOf(events)
  }

  ghost predicate RestSettled(s: State, events: seq<Event>) {
    && s.ftp.rest == LastRest(events) && s.ftp.allo == LastAllo(events)
    && s.ftp.listHiddenFiles == HiddenAsked(events) && s.ftp.abortPending == AbortAsked(events)
    && s.prevCmd == LastCommand(events)
  }

  /** The state is what these events have made it. */
  ghost predicate Settled(s: State, events: seq<Event>) {
    TransferSettled(s, events) && ConnectionSettled(s, events) && RestSettled(s, events)
  }

  // ---------- one command ----------

  lemma StartEffects(s: State, c: Command)
    requires StartsTransfer(c)
    ensures var d := OnStart(s, c);
            var f, t, starts := s.ftp, d.s.ftp, CanStart(c, s.ftp.rest, GetType(s.ftp));
            && (d.reply == Silent <==> starts) && d.reply != Throws
            && t == f.(transfer := if starts then DirectionOf(c) else f.transfer,
                       overrideAsBinary := f.overrideAsBinary || c == MLSD(true),
                       listHiddenFiles := f.listHiddenFiles || (c.LIST? && c.hidden))
            && d.s.trace == s.trace + (if starts then [Started] else [])
            && d.s.worker.fileType == (if starts then (if c.MLSD? then BIN else GetType(f)) else s.worker.fileType)
  {
    assert s.trace + [] == s.trace;
  }

  lemma TypeEffects(s: State, c: Command)
    requires !StartsTransfer(c)
    ensures var f, t := s.ftp, OnOther(s, c).s.ftp;
            && t.transfer == f.transfer && t.overrideAsBinary == f.overrideAsBinary
            && t.ttype == (if c == TYPE(true) then BIN else if c == TYPE(false) then ASCII else f.ttype)
  {
    match c
    case USER(_) =>
    case PASS(_) =>
    case PORT_(_) =>
    case PASV_(_) =>
    case TYPE(_) =>
    case REST(_) =>
    case ALLO(_) =>
    case ABOR =>
    case STAT(_, _) =>
    case BetweenTransfers(_) =>
    case _ =>
  }

  lemma LoginEffects(s: State, c: Command)
    requires !StartsTransfer(c)
    ensures OnOther(s, c).s.ftp.loggedIn == (s.ftp.loggedIn || c == USER(true) || c == PASS(true))
  {
    match c
    case USER(_) =>
    case PASS(_) =>
    case PORT_(_) =>
    case PASV_(_) =>
    case _ =>
  }

  lemma ConnectionEffects(s: State, c: Command)
    requires !StartsTransfer(c)
    ensures var f, t := s.ftp, OnOther(s, c).s.ftp;
            && t.portEndpoint == (if c.PORT_? && c.endpoint.Some? then c.endpoint.value else f.portEndpoint)
            && (t.pasv.Some? <==> c.PASV_? || f.pasv.Some?) && (f.pasv.Some? ==> t.pasv == f.pasv)
  {
    match c
    case USER(_) =>
    case PASS(_) =>
    case PORT_(_) =>
    case PASV_(_) =>
    case TYPE(_) =>
    case REST(_) =>
    case ALLO(_) =>
    case ABOR =>
    case STAT(_, _) =>
    case BetweenTransfers(_) =>
    case _ =>
  }

  lemma OffsetEffects(s: State, c: Command)
    requires !StartsTransfer(c)
    ensures var f, t := s.ftp, OnOther(s, c).s.ftp;
            && t.rest == (if c.REST? then (if c.offset.Some? && (c.offset.value == 0 || GetType(f) == BIN)
                                           then c.offset.value else 0) else f.rest)
            && t.allo == (if c.ALLO? && c.bytes.Some? then c.bytes.value else f.allo)
  {
    match c
    case USER(_) =>
    case PASS(_) =>
    case PORT_(_) =>
    case PASV_(_) =>
    case TYPE(_) =>
    case REST(_) =>
    case ALLO(_) =>
    case ABOR =>
    case STAT(_, _) =>
    case BetweenTransfers(_) =>
    case _ =>
  }

  lemma FlagEffects(s: State, c: Command)
    requires !StartsTransfer(c)
    ensures var f, t := s.ftp, OnOther(s, c).s.ftp;
            && t.listHiddenFiles == (f.listHiddenFiles || (c.STAT? && c.hidden))
            && t.abortPending == (f.abortPending || c == ABOR)
  {
    match c
    case USER(_) =>
    case PASS(_) =>
    case PORT_(_) =>
    case PASV_(_) =>
    case TYPE(_) =>
    case REST(_) =>
    case ALLO(_) =>
    case ABOR =>
    case STAT(_, _) =>
    case BetweenTransfers(_) =>
    case _ =>
  }

  /** Whether it throws, and what it chooses. */
  lemma OtherOutcome(s: State, c: Command)
    requires !StartsTransfer(c)
    ensures var d := OnOther(s, c);
            var chooses := (c.PORT_? && c.endpoint.Some?) || (c.PASV_? && (c.listens || s.ftp.pasv.Some?));
            && d.s.ftp.initiation == (if !chooses then s.ftp.initiation else if c.PORT_? then PORT else PASV)
            && d.s.trace == s.trace + (if chooses then [Chosen] else [])
            && (d.reply == Silent <==> c == ABOR)
            && (d.reply == Throws <==> ((c.PORT_? || c.PASV_?) && !chooses)
                                       || (c.BetweenTransfers? && c.answer.None?))
            && d.s.worker == s.worker
  {
    assert s.trace + [] == s.trace;
    match c
    case USER(_) =>
    case PASS(_) =>
    case PORT_(_) =>
    case PASV_(_) =>
    case TYPE(_) =>
    case REST(_) =>
    case ALLO(_) =>
    case ABOR =>
    case STAT(_, _) =>
    case BetweenTransfers(_) =>
    case _ =>
  }

  // ---------- every other event ----------

  predicate SameSettings(s: State, t: State) {
    t.ftp == s.ftp && t.trace == s.trace && t.prevCmd == s.prevCmd && t.worker.fileType == s.worker.fileType
  }

  lemma RepliesKeepSettings(s: State, code: nat, sent: bool)
    ensures SameSettings(s, Reply(s, code, sent)) && SameSettings(s, TransferReply(s, code, sent))
  {
  }

  predicate Cleared(s: State, t: State) {
    && t.ftp == FtpState(s.ftp.loggedIn, NoTransfer, NoInitiation, s.ftp.ttype, s.ftp.portEndpoint, None, 0, 0,
                         false, false, s.ftp.abortPending)
    && t.trace == s.trace + [Ended] && t.prevCmd == s.prevCmd && t.worker.fileType == s.worker.fileType
  }

  lemma OpeningKeepsSettings(s: State, ok: bool, open: bool, sent: bool)
    ensures SameSettings(s, Begin(s, sent)) && SameSettings(s, Connected(s, ok, open, sent))
    ensures if DeadEnd(s.line) then Cleared(s, OpenConnection(s)) else SameSettings(s, OpenConnection(s))
    ensures Cleared(s, CleanupTransfer(s))
  {
    hide TransferReply;
    RepliesKeepSettings(Assert(s, s.worker.currentFile.Some? && s.worker.socket.None?), RC_OPENING_CONNECTION, sent);
    var a := Assert(s, s.worker.at == Connecting ==> s.ftp.initiation == PORT);
    RepliesKeepSettings(a, RC_CANT_OPEN_DATA_CONN, sent);
  }

  lemma NotifyKeepsSettings(s: State, sent: bool)
    ensures SameSettings(s, NotifyFailed(s, sent))
  {
  }

  lemma MovingKeepsSettings(s: State, o: Outcome, ok: bool, sent: bool)
    ensures SameSettings(s, Move(s, o, sent)) && SameSettings(s, Shutdown(s, ok, sent))
  {
    hide TransferReply, NotifyFailed;
    var a := Assert(s, s.worker.socket.Some? && s.worker.currentFile.Some?);
    NotifyKeepsSettings(a, sent);
    RepliesKeepSettings(a, RC_TRANSFER_ABORTED, sent);
    RepliesKeepSettings(a.(worker := s.worker.(socket := Some(false))), RC_CLOSING_DATA_CONNECTION, sent);
  }

  lemma ConfirmingKeepsSettings(s: State, sent: bool)
    ensures var t := ConfirmAbort(s, sent);
            && t.ftp == s.ftp.(abortPending := false) && t.trace == s.trace && t.prevCmd == s.prevCmd
            && t.worker.fileType == s.worker.fileType
  {
    hide TransferReply;
    RepliesKeepSettings(s.(ftp := s.ftp.(abortPending := false)), RC_CLOSING_DATA_CONNECTION, sent);
  }

  /** Outside of commands, the settings change when a transfer ends and when an abort is
      confirmed. */
  lemma OtherEvents(s: State, e: Event)
    requires Enabled(s, e) && !e.Execute?
    ensures var t := Next(s, e);
            && (e.TransferEnds? || (e.TransferOpens? && DeadEnd(s.line)) ==> Cleared(s, t))
            && (e.AbortConfirmed? ==>
                  && t.ftp == s.ftp.(abortPending := false) && t.trace == s.trace && t.prevCmd == s.prevCmd
                  && t.worker.fileType == s.worker.fileType)
            && (!e.TransferEnds? && !(e.TransferOpens? && DeadEnd(s.line)) && !e.AbortConfirmed? ==>
                  SameSettings(s, t))
  {
    hide Reply, Begin, OpenConnection, Connected, Move, Shutdown, ConfirmAbort, CleanupTransfer;
    match e
    case Unrecognized(sent) => RepliesKeepSettings(s, RC_SYNTAX_ERROR, sent);
    case TransferBegins(sent) => OpeningKeepsSettings(s, true, true, sent);
    case TransferOpens => OpeningKeepsSettings(s, true, true, true);
    case ConnectionDecided(ok, open, sent) => OpeningKeepsSettings(s, ok, open, sent);
    case DataMoves(o, sent) => MovingKeepsSettings(s, o, true, sent);
    case ShutdownEnds(ok, sent) => MovingKeepsSettings(s, Progress, ok, sent);
    case AbortConfirmed(sent) => ConfirmingKeepsSettings(s, sent);
    case TransferEnds =>
      OpeningKeepsSettings(s, true, true, true);
      OpeningKeepsSettings(s.(worker := s.worker.(abortTransfer := NoCallback)), true, true, true);
    case _ =>
  }

  /** A command that is not executed changes none of them. */
  lemma RefusedCommand(s: State, c: Command, syntaxOk: bool, sent: bool)
    requires Refusal(s, c).Some? || !syntaxOk
    ensures SameSettings(s, OnCommand(s, c, syntaxOk, sent))
  {
    hide Reply, Refusal;
    RepliesKeepSettings(s, if Refusal(s, c).Some? then Refusal(s, c).value else 0, sent);
    RepliesKeepSettings(s, RC_SYNTAX_ERROR_IN_PARAMS, sent);
  }

  lemma FinishKeepsSettings(d: Done, c: Command, sent: bool)
    ensures var t := Finish(d, c, sent);
            && t.ftp == d.s.ftp && t.trace == d.s.trace && t.worker.fileType == d.s.worker.fileType
            && t.prevCmd == if d.reply == Throws then d.s.prevCmd else Name(c)
  {
    hide Reply;
    match d.reply
    case Replies(code) => RepliesKeepSettings(d.s.(prevCmd := Name(c)), code, sent);
    case Throws => RepliesKeepSettings(d.s, RC_BYE, sent);
    case Silent =>
  }

  lemma ExecutedCommand(s: State, c: Command, sent: bool)
    requires Refusal(s, c) == None && !s.line.expired
    ensures var t, d := OnCommand(s, c, true, sent), OnCmd(s, c);
            && t.ftp == d.s.ftp && t.trace == d.s.trace && t.worker.fileType == d.s.worker.fileType
            && t.prevCmd == if d.reply == Throws then d.s.prevCmd else Name(c)
  {
    hide OnCmd, Finish, Refusal;
    FinishKeepsSettings(OnCmd(s, c), c, sent);
  }

  /** What a command changes of the settings, and when. */
  lemma CommandEffects(s: State, c: Command, syntaxOk: bool, sent: bool)
    requires !s.line.expired
    ensures var f, t, done := s.ftp, OnCommand(s, c, syntaxOk, sent).ftp, syntaxOk && Refusal(s, c) == None;
            && t.ttype == (if done && c == TYPE(true) then BIN else if done && c == TYPE(false) then ASCII else f.ttype)
            && t.loggedIn == (f.loggedIn || (done && (c == USER(true) || c == PASS(true))))
            && t.portEndpoint == (if done && c.PORT_? && c.endpoint.Some? then c.endpoint.value else f.portEndpoint)
            && (f.pasv.Some? ==> t.pasv == f.pasv)
            && t.transfer == (if done && CanStart(c, f.rest, GetType(f)) then DirectionOf(c) else f.transfer)
            && t.rest == (if done && c.REST? then (if c.offset.Some? && (c.offset.value == 0 || GetType(f) == BIN)
                                                   then c.offset.value else 0) else f.rest)
  {
    if !syntaxOk || Refusal(s, c).Some? {
      RefusedCommand(s, c, syntaxOk, sent);
    } else {
      ExecutedCommand(s, c, sent);
      hide OnCommand, Refusal, OnStart, OnOther, CanStart;
      if StartsTransfer(c) {
        StartEffects(s, c);
      } else {
        NoStart(c, s.ftp.rest, GetType(s.ftp));
        TypeEffects(s, c);
        LoginEffects(s, c);
        ConnectionEffects(s, c);
        OffsetEffects(s, c);
      }
    }
  }

  /** TYPE is never refused. */
  lemma TypeIsTaken(s: State, binary: bool)
    ensures Refusal(s, TYPE(binary)) == None
  {
  }

  /** ABOR is never refused; it closes the data connection, or what would accept it, once. */
  lemma AbortCloses(s: State, sent: bool)
    requires !s.line.expired
    ensures var w := OnCommand(s, ABOR, true, sent).worker;
            && w.abortTransfer == NoCallback
            && w.socket == if s.worker.abortTransfer == CloseSocket && s.worker.socket == Some(true) then Some(false)
                           else s.worker.socket
  {
  }

  // ---------- main result on settings ----------

  /** One more event, from a state that is settled. */
  ghost predicate Step(events: seq<Event>, s: State, t: State) {
    && events != [] && s == Run(INITIAL, Before(events)) && t == Next(s, Last(events))
    && Enabled(s, Last(events)) && Settled(s, Before(events)) && Inv(s)
  }

  lemma StartSettlesTransfer(events: seq<Event>, s: State, t: State)
    requires Step(events, s, t) && Executed(events) && StartsTransfer(Last(events).c)
    ensures TransferSettled(t, events) && ConnectionSettled(t, events)
  {
    StartedStep(events, s, t);
    var c := Last(events).c;
    StartEffects(s, c);
    assert TypeNow(Before(events)) == GetType(s.ftp);
    hide Run, Refusal, OnStart, OnCommand, Inv, Enabled, CanStart, OnCmd, Next, RestSettled;
    assert s.trace + [] == s.trace;
    assert !Starts(events) ==> !Chooses(events);
  }

  lemma StartSettlesRest(events: seq<Event>, s: State, t: State)
    requires Step(events, s, t) && Executed(events) && StartsTransfer(Last(events).c)
    ensures RestSettled(t, events)
  {
    StartedStep(events, s, t);
    StartEffects(s, Last(events).c);
    hide Run, Refusal, OnStart, OnCommand, Inv, Enabled, CanStart, OnCmd, Next, ConnectionSettled;
  }

  lemma StartedStep(events: seq<Event>, s: State, t: State)
    requires Step(events, s, t) && Executed(events) && StartsTransfer(Last(events).c)
    ensures var c, d := Last(events).c, OnStart(s, Last(events).c);
            && t.ftp == d.s.ftp && t.trace == d.s.trace && t.worker.fileType == d.s.worker.fileType
            && (d.reply != Throws ==> t.prevCmd == Name(c)) && s.ftp.transfer == NoTransfer && !Ends(events)
  {
    var c, e := Last(events).c, Last(events);
    assert !s.line.expired && s.ftp.transfer == NoTransfer;
    hide OnStart, OnCommand, Run;
    ExecutedCommand(s, c, e.sent);
    assert OnCmd(s, c) == OnStart(s, c);
  }

  lemma OtherSettlesTransfer(events: seq<Event>, s: State, t: State)
    requires Step(events, s, t) && Executed(events) && !StartsTransfer(Last(events).c)
    ensures TransferSettled(t, events)
  {
    var c := Last(events).c;
    assert !s.line.expired && OnCmd(s, c) == OnOther(s, c) && !Ends(events);
    ExecutedCommand(s, c, Last(events).sent);
    TypeEffects(s, c);
    LoginEffects(s, c);
    OtherOutcome(s, c);
    NoStart(c, LastRest(Before(events)), TypeNow(Before(events)));
    hide Run, Refusal, OnOther, OnCommand, Inv, Enabled, CanStart, OnCmd, Next, ConnectionSettled, RestSettled;
  }

  lemma OtherSettlesConnection(events: seq<Event>, s: State, t: State)
    requires Step(events, s, t) && Executed(events) && !StartsTransfer(Last(events).c)
    ensures ConnectionSettled(t, events)
  {
    var c := Last(events).c;
    assert !s.line.expired && OnCmd(s, c) == OnOther(s, c) && !Ends(events);
    ExecutedCommand(s, c, Last(events).sent);
    ConnectionEffects(s, c);
    OtherOutcome(s, c);
    NoStart(c, LastRest(Before(events)), TypeNow(Before(events)));
    assert s.trace + [] == s.trace;
    hide Run, Refusal, OnOther, OnCommand, Inv, Enabled, CanStart, OnCmd, Next, TransferSettled, RestSettled;
  }

  lemma OtherSettlesRest(events: seq<Event>, s: State, t: State)
    requires Step(events, s, t) && Executed(events) && !StartsTransfer(Last(events).c)
    ensures RestSettled(t, events)
  {
    var c := Last(events).c;
    assert !s.line.expired && OnCmd(s, c) == OnOther(s, c) && !Ends(events);
    ExecutedCommand(s, c, Last(events).sent);
    OffsetEffects(s, c);
    FlagEffects(s, c);
    OtherOutcome(s, c);
    assert TypeNow(Before(events)) == GetType(s.ftp);
    hide Run, Refusal, OnOther, OnCommand, Inv, Enabled, CanStart, OnCmd, Next, TransferSettled;
  }

  lemma NoStart(c: Command, rest: nat, ttype: TransferType)
    requires !StartsTransfer(c)
    ensures !CanStart(c, rest, ttype)
  {
  }

  /** Events that make no setting leave every one as it was. */
  predicate Unmoved(events: seq<Event>) {
    events != [] && !Executed(events) && !Ends(events) && !Last(events).AbortConfirmed?
  }

  lemma UnmovedTransfer(events: seq<Event>, s: State, t: State)
    requires Unmoved(events) && TransferSettled(s, Before(events)) && SameSettings(s, t)
    ensures TransferSettled(t, events)
  {
    hide Executed, Ends, CanStart;
    assert !Starts(events);
  }

  lemma UnmovedConnection(events: seq<Event>, s: State, t: State)
    requires Unmoved(events) && ConnectionSettled(s, Before(events)) && SameSettings(s, t)
    ensures ConnectionSettled(t, events)
  {
    hide Executed, Ends, CanStart;
    assert !Starts(events) && !Chooses(events);
    assert s.trace + [] == s.trace;
  }

  lemma UnmovedRest(events: seq<Event>, s: State, t: State)
    requires Unmoved(events) && RestSettled(s, Before(events)) && SameSettings(s, t)
    ensures RestSettled(t, events)
  {
    hide Executed, Ends, CanStart;
  }

  lemma UnmovedSettles(events: seq<Event>, s: State, t: State)
    requires Unmoved(events) && Settled(s, Before(events)) && SameSettings(s, t)
    ensures Settled(t, events)
  {
    UnmovedTransfer(events, s, t);
    UnmovedConnection(events, s, t);
    UnmovedRest(events, s, t);
    hide TransferSettled, ConnectionSettled, RestSettled;
  }

  lemma RefusedSettles(events: seq<Event>, s: State, t: State)
    requires Step(events, s, t) && Last(events).Execute? && !Executed(events)
    ensures Settled(t, events)
  {
    var e := Last(events);
    RefusedCommand(s, e.c, e.syntaxOk, e.sent);
    hide Run, Refusal, OnCommand, Inv, Enabled, Settled;
    UnmovedSettles(events, s, t);
  }

  lemma OtherEventSettles(events: seq<Event>, s: State, t: State)
    requires Step(events, s, t) && !Last(events).Execute?
    ensures Settled(t, events)
  {
    OtherEvents(s, Last(events));
    hide Run, Refusal, Next, Inv, Enabled;
    if Unmoved(events) {
      hide Settled;
      UnmovedSettles(events, s, t);
    }
  }

  /** In every run every setting is that of the last event that makes it: the type of the last
      TYPE, the endpoint of the last PORT, the offset of the last REST, the login of a USER
      or PASS that was accepted, the direction and the form of the file of the command that
      started the transfer, and so on; what belongs to a transfer lasts until that has ended. */
  lemma {:induction false} SettingsFollowEvents(events: seq<Event>)
    requires IsRun(events)
    ensures Settled(Run(INITIAL, events), events)
    decreases |events|
  {
    hide Settled, TransferSettled, ConnectionSettled, RestSettled, Next, Enabled, Inv, Executed;
    if events == [] {
      NothingIsSettled();
    } else {
      var before, e := Before(events), Last(events);
      assert events == before + [e];
      LastStep(before, e);
      SettingsFollowEvents(before);
      var s, t := Run(INITIAL, before), Run(INITIAL, events);
      assert Step(events, s, t);
      if !e.Execute? {
        OtherEventSettles(events, s, t);
      } else if !Executed(events) {
        RefusedSettles(events, s, t);
      } else if StartsTransfer(e.c) {
        StartSettlesTransfer(events, s, t);
        StartSettlesRest(events, s, t);
        AllSettled(t, events);
      } else {
        OtherSettlesTransfer(events, s, t);
        OtherSettlesConnection(events, s, t);
        OtherSettlesRest(events, s, t);
        AllSettled(t, events);
      }
    }
  }

  lemma AllSettled(s: State, events: seq<Event>)
    requires TransferSettled(s, events) && ConnectionSettled(s, events) && RestSettled(s, events)
    ensures Settled(s, events)
  {
  }

  lemma NothingIsSettled()
    ensures Settled(Run(INITIAL, []), [])
  {
  }

  // ---------- which commands are executed ----------

  /** Commands that are answered at any time: before the login and during a transfer. */
  predicate AnyTime(c: Command) { c.USER? || c.PASS? || c.TYPE? || c.ABOR? || c.QUIT? || c.Anytime? }

  /** PASS comes directly behind USER, and RNTO behind RNFR. */
  predicate InSequence(c: Command, before: seq<Event>) {
    (c.PASS? ==> LastCommand(before) == "USER") && (c.RNTO? ==> LastCommand(before) == "RNFR")
  }

  /** USER and PASS come before the login, and the commands that need one behind it. */
  predicate LoginFits(c: Command, before: seq<Event>) {
    if LoginAccepted(before) then !c.USER? && !c.PASS? else AnyTime(c)
  }

  predicate BetweenTransfersOnly(c: Command) { !AnyTime(c) && !c.STAT? && !c.LoggedIn? }

  predicate NeedsChoice(c: Command) { DirectionOf(c) != NoTransfer || c.REST? }

  /** A command is executed exactly if it is in sequence, fits the login, does not meet a
      transfer that it must not meet, and has the PORT or PASV that it needs; otherwise the
      first of these that it misses is what the client is told. */
  lemma ExecutedExactly(events: seq<Event>, e: Event)
    requires IsRun(events + [e]) && e.Execute?
    ensures Refusal(Run(INITIAL, events), e.c) ==
              if !InSequence(e.c, events) then Some(503)
              else if !LoginFits(e.c, events) then Some(if LoginAccepted(events) then 550 else 530)
              else if BetweenTransfersOnly(e.c) && TransferNow(events) != NoTransfer then Some(550)
              else if NeedsChoice(e.c) && LastChoice(events) == NoInitiation then Some(503)
              else None
  {
    hide Run, IsRun, TransferNow, LastChoice, LastCommand, LoginAccepted, Refusal;
    LastStep(events, e);
    SettingsFollowEvents(events);
    RefusedBy(Run(INITIAL, events), e.c);
  }

  lemma RefusedBy(s: State, c: Command)
    ensures Refusal(s, c) ==
              if (c.PASS? && s.prevCmd != "USER") || (c.RNTO? && s.prevCmd != "RNFR") then Some(503)
              else if s.ftp.loggedIn && (c.USER? || c.PASS?) then Some(550)
              else if !s.ftp.loggedIn && !AnyTime(c) then Some(530)
              else if BetweenTransfersOnly(c) && s.ftp.transfer != NoTransfer then Some(550)
              else if NeedsChoice(c) && s.ftp.initiation == NoInitiation then Some(503)
              else None
  {
    match c
    case PASS(_) =>
    case RNTO(_) =>
    case _ => assert NeedPrevCmd(c) == "";
  }

  // ---------- what the client is told ----------

  /** The reply of a command that is executed tells what it has done: a login, a choice, an
      offset that is kept, or a transfer that starts, which has no reply of its own. */
  predicate Honest(s: State, c: Command, t: State) {
    match c
    case USER(_) => t.log == s.log + [if t.ftp.loggedIn then 230 else 331]
    case PASS(_) => t.log == s.log + [if t.ftp.loggedIn then 230 else 530]
    case PORT_(endpoint) =>
      if endpoint == Some(t.ftp.portEndpoint) then t.log == s.log + [200] && t.ftp.initiation == PORT
      else endpoint.None? && t.log == s.log + [221] && !Listening(t)
    case PASV_(_) =>
      || (t.log == s.log + [227] && t.ftp.initiation == PASV && t.ftp.pasv.Some?)
      || (t.log == s.log + [221] && !Listening(t))
    case TYPE(binary) => t.log == s.log + [200] && t.ftp.ttype == if binary then BIN else ASCII
    case REST(offset) =>
      if offset == Some(t.ftp.rest) then t.log == s.log + [350]
      else t.ftp.rest == 0 && t.log == s.log + [if offset.None? then 501 else 550]
    case ALLO(bytes) => t.log == s.log + [if bytes == Some(t.ftp.allo) then 200 else 501]
    case ABOR => t.log == s.log && t.ftp.abortPending
    case QUIT => t.log == s.log + [221] && !Listening(t)
    case STAT(code, hidden) => t.log == s.log + [code] && (hidden ==> t.ftp.listHiddenFiles)
    case BetweenTransfers(answer) =>
      if answer.Some? then t.log == s.log + [answer.value] else t.log == s.log + [221] && !Listening(t)
    case Anytime(code) => t.log == s.log + [code]
    case LoggedIn(code) => t.log == s.log + [code]
    case RNFR(code) => t.log == s.log + [code] && t.prevCmd == "RNFR"
    case RNTO(code) => t.log == s.log + [code]
    case _ =>
      if t.ftp.transfer == DirectionOf(c) then t.log == s.log && t.worker.at == Spawned
      else t.ftp.transfer == NoTransfer && (t.log == s.log + [450] || t.log == s.log + [550])
  }

  lemma FinishTells(d: Done, c: Command)
    requires !Dead(d.s.line)
    ensures var t := Finish(d, c, true);
            && t.ftp == d.s.ftp && t.worker.at == d.s.worker.at
            && (d.reply != Throws ==> t.prevCmd == Name(c))
            && t.log == d.s.log + (match d.reply case Replies(code) => [code] case Throws => [221] case Silent => [])
            && ((d.reply.Replies? && c.QUIT?) || d.reply == Throws ==> !Listening(t))
  {
    assert d.s.log + [] == d.s.log;
  }

  lemma OtherTells(s: State, c: Command)
    requires !StartsTransfer(c) && (c.USER? || c.PASS? ==> !s.ftp.loggedIn)
    ensures var d := OnOther(s, c);
            var f := d.s.ftp;
            && d.s.log == s.log && d.s.line == s.line
            && d.reply == match c
                          case USER(_) => Replies(if f.loggedIn then 230 else 331)
                          case PASS(_) => Replies(if f.loggedIn then 230 else 530)
                          case PORT_(endpoint) => if endpoint.Some? then Replies(200) else Throws
                          case PASV_(listens) => if listens || s.ftp.pasv.Some? then Replies(227) else Throws
                          case TYPE(_) => Replies(200)
                          case REST(offset) =>
                            if offset == Some(f.rest) then Replies(350)
                            else Replies(if offset.None? then 501 else 550)
                          case ALLO(bytes) => Replies(if bytes == Some(f.allo) then 200 else 501)
                          case ABOR => Silent
                          case QUIT => Replies(221)
                          case STAT(code, _) => Replies(code)
                          case BetweenTransfers(answer) =>
                            if answer.Some? then Replies(answer.value) else Throws
                          case Anytime(code) => Replies(code)
                          case LoggedIn(code) => Replies(code)
                          case RNFR(code) => Replies(code)
                          case RNTO(code) => Replies(code)
  {
  }

  lemma StartTells(s: State, c: Command)
    requires StartsTransfer(c)
    ensures var d := OnStart(s, c);
            && d.s.log == s.log && d.s.line == s.line
            && d.reply in {Silent, Replies(450), Replies(550)} && (d.reply == Silent ==> d.s.worker.at == Spawned)
  {
  }

  lemma OtherIsHonest(s: State, c: Command)
    requires Listening(s) && !StartsTransfer(c) && (c.USER? || c.PASS? ==> !s.ftp.loggedIn)
    ensures Honest(s, c, Finish(OnOther(s, c), c, true))
  {
    OtherTells(s, c);
    FinishTells(OnOther(s, c), c);
    TypeEffects(s, c);
    ConnectionEffects(s, c);
    OffsetEffects(s, c);
    FlagEffects(s, c);
    OtherOutcome(s, c);
    hide OnOther, Finish;
    assert s.log + [] == s.log;
    assert DirectionOf(c) == NoTransfer;
    match c
    case USER(_) =>
    case PASS(_) =>
    case PORT_(_) =>
    case PASV_(_) =>
    case TYPE(_) =>
    case REST(_) =>
    case ALLO(_) =>
    case ABOR =>
    case STAT(_, _) =>
    case BetweenTransfers(_) =>
    case _ =>
  }

  lemma StartIsHonest(s: State, c: Command)
    requires Listening(s) && StartsTransfer(c) && s.ftp.transfer == NoTransfer
    ensures Honest(s, c, Finish(OnStart(s, c), c, true))
  {
    StartTells(s, c);
    StartEffects(s, c);
    FinishTells(OnStart(s, c), c);
    hide OnStart, Finish;
    assert s.log + [] == s.log;
  }

  /** Every command that is executed, on a line that takes its reply, is answered by what it
      has done. */
  lemma RepliesAreHonest(events: seq<Event>, c: Command)
    requires var e := Execute(c, true, true); IsRun(events + [e]) && Executed(events + [e])
    ensures Honest(Run(INITIAL, events), c, Run(INITIAL, events + [Execute(c, true, true)]))
  {
    var e := Execute(c, true, true);
    var s := Run(INITIAL, events);
    assert Before(events + [e]) == events;
    assert Refusal(s, c) == None;
    LastStep(events, e);
    RefusedBy(s, c);
    assert Next(s, e) == Finish(OnCmd(s, c), c, true);
    assert OnCmd(s, c) == if StartsTransfer(c) then OnStart(s, c) else OnOther(s, c);
    hide Run, IsRun, Finish, Refusal, Honest, OnCmd, Inv, Next, Executed;
    if StartsTransfer(c) {
      StartIsHonest(s, c);
    } else {
      OtherIsHonest(s, c);
    }
  }

  // ---------- the end of the dialogue ----------

  /** The control coroutine has been told to end: by QUIT, by a command that threw, or by the
      end of the input. */
  predicate SaysGoodbye(events: seq<Event>) {
    events != [] && ((Executed(events) && Last(events).c == QUIT) || Throwing(events) || Last(events).EndControl?)
  }

  lemma ControlStays(s: State, e: Event)
    requires s.control != Waiting && Enabled(s, e)
    ensures Next(s, e).control != Waiting
  {
  }

  lemma FinishEnds(d: Done, c: Command, sent: bool)
    requires (d.reply.Replies? && c.QUIT?) || d.reply == Throws
    ensures Finish(d, c, sent).control != Waiting
  {
    hide Reply;
  }

  lemma CommandEnds(s: State, c: Command, sent: bool)
    requires Refusal(s, c) == None && !s.line.expired
    requires || c == QUIT || (c.PORT_? && c.endpoint.None?) || (c.BetweenTransfers? && c.answer.None?)
             || (c.PASV_? && !c.listens && s.ftp.pasv.None?)
    ensures OnCommand(s, c, true, sent).control != Waiting
  {
    hide Refusal, Finish;
    FinishEnds(OnCmd(s, c), c, sent);
  }

  lemma AcceptorIsThere(events: seq<Event>)
    requires IsRun(events)
    ensures Run(INITIAL, events).ftp.pasv.Some? == HasAcceptor(events)
  {
    SettingsFollowEvents(events);
  }

  /** The event ends the dialogue in this state. */
  predicate Bye(s: State, e: Event) {
    || e.EndControl?
    || (e.Execute? && e.syntaxOk && Refusal(s, e.c) == None
        && (|| e.c == QUIT || (e.c.PORT_? && e.c.endpoint.None?)
            || (e.c.BetweenTransfers? && e.c.answer.None?)
            || (e.c.PASV_? && !e.c.listens && s.ftp.pasv.None?)))
  }

  lemma ByeEnds(s: State, e: Event)
    requires Bye(s, e) && Enabled(s, e)
    ensures Next(s, e).control != Waiting
  {
    hide Refusal, OnCommand;
    if e.Execute? {
      CommandEnds(s, e.c, e.sent);
    }
  }

  lemma LastOf(events: seq<Event>)
    requires IsRun(events) && events != []
    ensures var s := Run(INITIAL, Before(events));
            IsRun(Before(events)) && Enabled(s, Last(events)) && Run(INITIAL, events) == Next(s, Last(events))
  {
    hide Enabled, Next;
  }

  lemma GoodbyeIsBye(events: seq<Event>)
    requires SaysGoodbye(events) && IsRun(Before(events))
    ensures Bye(Run(INITIAL, Before(events)), Last(events))
  {
    hide Run, IsRun, Refusal, HasAcceptor;
    AcceptorIsThere(Before(events));
  }

  lemma GoodbyeIsSaid(events: seq<Event>)
    requires IsRun(events) && events != [] && SaysGoodbye(events)
    ensures Run(INITIAL, events).control != Waiting
  {
    hide IsRun, Run, Inv, Bye, Next, SaysGoodbye, Enabled;
    LastOf(events);
    GoodbyeIsBye(events);
    ByeEnds(Run(INITIAL, Before(events)), Last(events));
  }

  /** Behind that nothing is read from the client any more. */
  lemma {:induction false} NothingAfterGoodbye(events: seq<Event>, i: nat)
    requires IsRun(events) && i < |events| && SaysGoodbye(events[..i + 1])
    ensures Run(INITIAL, events).control != Waiting
    ensures i < |events| - 1 ==> !Last(events).Execute? && !Last(events).Unrecognized?
    decreases |events|
  {
    hide SaysGoodbye, Enabled, Next;
    if i == |events| - 1 {
      assert events[..i + 1] == events;
      GoodbyeIsSaid(events);
    } else {
      assert Before(events)[..i + 1] == events[..i + 1];
      NothingAfterGoodbye(Before(events), i);
      ControlStays(Run(INITIAL, Before(events)), Last(events));
      OnlyWhenListening(Run(INITIAL, Before(events)), Last(events));
    }
  }

  lemma OnlyWhenListening(s: State, e: Event)
    requires Enabled(s, e) && s.control != Waiting
    ensures !e.Execute? && !e.Unrecognized?
  {
  }
}
