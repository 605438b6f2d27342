/** The FTP session as an object.  Its methods, from one yield to the next, keep the invariant
    of the session; the asserts of the code hold in them, in every schedule. */
module FtpSessionObject {
  import opened Common
  import opened FtpSession
  import opened FtpSafety
  import opened FtpHistory
  import opened FtpOutcomes

  class ProtocolState {
    var isLoggedIn: bool
    var transfer: Transfer
    var initiation: Initiation
    var ttype: TransferType
    var portEndpoint: nat
    var pasv: Option<nat>
    var rest: nat
    var allo: nat
    var overrideAsBinary: bool
    var listHiddenFiles: bool
    var abortPending: bool

    ghost function Value(): FtpState
      reads this
    {
      FtpState(isLoggedIn, transfer, initiation, ttype, portEndpoint, pasv, rest, allo,
               overrideAsBinary, listHiddenFiles, abortPending)
    }

    constructor ()
      ensures Value() == INITIAL.ftp
    {
      isLoggedIn, transfer, initiation, ttype := false, NoTransfer, NoInitiation, ASCII;
      portEndpoint, pasv, rest, allo := 0, None, 0, 0;
      overrideAsBinary, listHiddenFiles, abortPending := false, false, false;
    }

    predicate IsInTransfer() reads this { transfer != NoTransfer }

    predicate HavePasvOrPost() reads this { initiation != NoInitiation }

    method TypeInUse() returns (t: TransferType)
      ensures t == GetType(Value())
    {
      if overrideAsBinary {
        return BIN;
      }
      return ttype;
    }

    method Enter(direction: Transfer)
      modifies this`transfer
      ensures Value() == old(Value()).(transfer := direction)
    {
      transfer := direction;
    }

    method Reset()
      modifies this
      ensures Value() == old(Value()).(transfer := NoTransfer, initiation := NoInitiation, allo := 0,
                rest := 0, overrideAsBinary := false, pasv := None, listHiddenFiles := false)
    {
      transfer := NoTransfer;
      initiation := NoInitiation;
      allo, rest := 0, 0;
      overrideAsBinary := false;
      pasv := None;
      listHiddenFiles := false;
    }
  }

  class Session {
    const state: ProtocolState
    var prevCmdName: string
    var currentFile: Option<Transfer>
    var transferSck: Option<bool>
    var abortTransfer: Callback
    var fileType: TransferType
    var replyFailed: bool
    var closePending: bool
    var closed: bool
    var socketOpen: bool
    var expired: bool
    var acceptors: nat
    var at: TransferAt
    var control: ControlAt
    ghost var log: seq<nat>
    ghost var transferLog: seq<nat>
    ghost var trace: seq<Mark>

    ghost function Value(): State
      reads this, state
    {
      State(state.Value(), Line(socketOpen, replyFailed, closePending, closed, expired),
            Worker(at, currentFile, transferSck, abortTransfer, fileType),
            control, prevCmdName, acceptors, log, transferLog, trace, false)
    }

    ghost predicate Valid()
      reads this, state
    {
      Inv(Value())
    }

    /** The step is one that the coroutines can take now. */
    ghost predicate Can(e: Event)
      reads this, state
    {
      Valid() && Enabled(Value(), e)
    }

    constructor ()
      ensures Valid() && Value() == INITIAL && fresh(state)
    {
      state := new ProtocolState();
      prevCmdName, currentFile, transferSck, abortTransfer := "", None, None, NoCallback;
      fileType := ASCII;
      replyFailed, closePending, closed, socketOpen, expired := false, false, false, true, false;
      acceptors, at, control := 0, Idle, Waiting;
      log, transferLog, trace := [], [], [];
    }

    /** `sent` tells whether the write to the control connection succeeds. */
    method SendReply(code: nat, sent: bool)
      modifies this
      ensures Value() == Reply(old(Value()), code, sent)
    {
      if replyFailed || !socketOpen {
        return;
      }
      if !sent {
        replyFailed := true;
        return;
      }
      log := log + [code];
    }

    method SendTransferReply(code: nat, sent: bool)
      modifies this
      ensures Value() == TransferReply(old(Value()), code, sent)
    {
      if !replyFailed && socketOpen && sent {
        transferLog := transferLog + [code];
      }
      SendReply(code, sent);
    }

    // ---------- the control coroutine ----------

    method BeginTransfer(direction: Transfer)
      modifies this, state
      ensures Value() == StartTransfer(old(Value()), direction)
    {
      fileType := state.TypeInUse();
      currentFile := Some(direction);
      SpawnTransfer(direction);
    }

    method SpawnTransfer(direction: Transfer)
      modifies this, state
      ensures var s := old(Value());
              Value() == s.(ftp := s.ftp.(transfer := direction), worker := s.worker.(at := Spawned),
                            transferLog := [], trace := s.trace + [Started])
    {
      state.Enter(direction);
      at := Spawned;
      transferLog, trace := [], trace + [Started];
    }

    /** RETR, STOR, STOU, APPE and the listings: refused if the restart offset does not go
        with the command, else started if the file can be opened. */
    method OpenFile(restOk: bool, opens: bool, direction: Transfer) returns (reply: CommandReply)
      modifies this, state
      ensures Done(Value(), reply) == OpenAndStart(old(Value()), restOk, opens, direction)
    {
      hide StartTransfer;
      if !restOk {
        return Replies(RC_ACTION_NOT_TAKEN);
      }
      if !opens {
        return Replies(RC_ACTION_FAILED);
      }
      BeginTransfer(direction);
      return Silent;
    }

    method OnTransferCmd(c: Command) returns (reply: CommandReply)
      requires StartsTransfer(c)
      modifies this, state
      ensures Done(Value(), reply) == OnStart(old(Value()), c)
    {
      hide OpenAndStart;
      var ttype := state.TypeInUse();
      match c {
        case RETR(opens) => reply := OpenFile(state.rest == 0 || ttype == BIN, opens, Outgoing);
        case STOR(opens) => reply := OpenFile(state.rest == 0 || ttype == BIN, opens, Incoming);
        case STOU(opens) => reply := OpenFile(state.rest == 0, opens, Incoming);
        case APPE(opens) => reply := OpenFile(state.rest == 0, opens, Incoming);
        case LIST(opens, hidden) =>
          if hidden {
            state.listHiddenFiles := true;
          }
          reply := OpenFile(true, opens, Outgoing);
        case NLST(opens) => reply := OpenFile(true, opens, Outgoing);
        case MLSD(opens) =>
          if opens {
            state.overrideAsBinary := true;
          }
          reply := OpenFile(true, opens, Outgoing);
      }
    }

    method OnLoginCmd(c: Command) returns (reply: CommandReply)
      requires c.USER? || c.PASS?
      modifies state
      ensures Done(Value(), reply) == OnOther(old(Value()), c)
    {
      if c.accepted {
        state.isLoggedIn := true;
        return Replies(RC_LOGGED_IN);
      }
      return Replies(if c.USER? then RC_NEED_PASSWD else RC_NOT_LOGGED_ON);
    }

    method OnConnectionCmd(c: Command) returns (reply: CommandReply)
      requires c.PORT_? || c.PASV_?
      modifies this, state
      ensures Done(Value(), reply) == OnOther(old(Value()), c)
    {
      hide SetPort, SetPasv, Listen;
      if c.PORT_? {
        if c.endpoint.None? {
          return Throws;
        }
        ChoosePort(c.endpoint.value);
        return Replies(RC_OK);
      }
      if state.pasv.None? {
        StartListening();
        if !c.listens {
          return Throws;
        }
      } else {
        ListensAlready(Value());
      }
      ChoosePasv();
      return Replies(RC_PASSIVE);
    }

    method ChoosePort(endpoint: nat)
      modifies this`trace, state
      ensures Value() == SetPort(old(Value()), endpoint)
    {
      state.portEndpoint, state.initiation := endpoint, PORT;
      trace := trace + [Chosen];
    }

    method StartListening()
      requires state.pasv.None?
      modifies this`acceptors, state
      ensures Value() == Listen(old(Value()))
    {
      state.pasv, acceptors := Some(acceptors), acceptors + 1;
    }

    method ChoosePasv()
      modifies this`trace, state
      ensures Value() == SetPasv(old(Value()))
    {
      state.initiation := PASV;
      trace := trace + [Chosen];
    }

    method OnParameterCmd(c: Command) returns (reply: CommandReply)
      requires c.TYPE? || c.REST? || c.ALLO?
      modifies state
      ensures Done(Value(), reply) == OnOther(old(Value()), c)
    {
      match c {
        case TYPE(binary) =>
          state.ttype := if binary then BIN else ASCII;
          return Replies(RC_OK);
        case REST(offset) =>
          state.rest := 0;
          if offset.None? {
            return Replies(RC_SYNTAX_ERROR_IN_PARAMS);
          }
          var ttype := state.TypeInUse();
          if offset.value != 0 && ttype != BIN {
            return Replies(RC_ACTION_NOT_TAKEN);
          }
          state.rest := offset.value;
          return Replies(RC_FILE_ACTION_PENDING_INFO);
        case ALLO(bytes) =>
          if bytes.None? {
            return Replies(RC_SYNTAX_ERROR_IN_PARAMS);
          }
          state.allo := bytes.value;
          return Replies(RC_OK);
      }
    }

    method OnOtherCmd(c: Command) returns (reply: CommandReply)
      requires !StartsTransfer(c) && !c.USER? && !c.PASS? && !c.PORT_? && !c.PASV_?
      requires !c.TYPE? && !c.REST? && !c.ALLO?
      modifies state
      ensures Done(Value(), reply) == OnOther(old(Value()), c)
    {
      match c {
        case ABOR =>
          state.abortPending := true;
          return Silent;
        case STAT(code, hidden) =>
          if hidden {
            state.listHiddenFiles := true;
          }
          return Replies(code);
        case QUIT => return Replies(RC_BYE);
        case RNFR(code) => return Replies(code);
        case RNTO(code) => return Replies(code);
        case Anytime(code) => return Replies(code);
        case LoggedIn(code) => return Replies(code);
        case BetweenTransfers(answer) =>
          if answer.None? {
            return Throws;
          }
          return Replies(answer.value);
      }
    }

    method Dispatch(c: Command) returns (reply: CommandReply)
      modifies this, state
      ensures Done(Value(), reply) == OnCmd(old(Value()), c)
    {
      hide OnStart, OnOther, StartsTransfer;
      OtherKinds(c);
      if StartsTransfer(c) {
        reply := OnTransferCmd(c);
      } else if c.USER? || c.PASS? {
        reply := OnLoginCmd(c);
      } else if c.PORT_? || c.PASV_? {
        reply := OnConnectionCmd(c);
      } else if c.TYPE? || c.REST? || c.ALLO? {
        reply := OnParameterCmd(c);
      } else {
        reply := OnOtherCmd(c);
      }
    }

    /** The checks that come before a command, in their order. */
    method Check(c: Command) returns (refused: Option<nat>)
      ensures refused == Refusal(Value(), c)
    {
      if NeedPrevCmd(c) != "" {
        if prevCmdName != NeedPrevCmd(c) {
          return Some(RC_BAD_SEQUENCE_OF_COMMANDS);
        }
      }
      if MustBeLoggedIn(c) && !state.isLoggedIn {
        return Some(RC_NOT_LOGGED_ON);
      }
      if MustNotBeLoggedIn(c) && state.isLoggedIn {
        return Some(RC_ACTION_NOT_TAKEN);
      }
      if MustNotBeInTransfer(c) && state.IsInTransfer() {
        return Some(RC_ACTION_NOT_TAKEN);
      }
      if NeedPostOrPasv(c) && !state.HavePasvOrPost() {
        return Some(RC_BAD_SEQUENCE_OF_COMMANDS);
      }
      return None;
    }

    method RunAbortCallback()
      modifies this`transferSck
      ensures Value() == old(Value()).(worker := CallAbort(old(Value()).worker))
    {
      if abortTransfer == CloseSocket {
        if transferSck == Some(true) {
          transferSck := Some(false);
        }
      }
    }

    method AbortPendingTransfer()
      modifies this
      ensures Value() == AbortIfPending(old(Value()))
    {
      if state.abortPending {
        if abortTransfer != NoCallback {
          RunAbortCallback();
          abortTransfer := NoCallback;  // only once
        }
      }
    }

    /** What follows a command: its reply, or the abort callback, or the end. */
    method FinishCommand(c: Command, reply: CommandReply, sent: bool)
      modifies this
      ensures Value() == Finish(Done(old(Value()), reply), c, sent)
    {
      hide Reply, AbortIfPending;
      match reply {
        case Replies(code) =>
          prevCmdName := Name(c);
          SendReply(code, sent);
          if c.QUIT? {
            control := Quitting;
          }
        case Silent =>
          prevCmdName := Name(c);
          AbortPendingTransfer();
        case Throws =>
          SendReply(RC_BYE, sent);
          control := Failing;
      }
    }

    method RunCommand(c: Command, syntaxOk: bool, sent: bool)
      modifies this, state
      ensures Value() == OnCommand(old(Value()), c, syntaxOk, sent)
    {
      hide OnCmd, Reply, Refusal, Finish;
      if expired {
        return;
      }
      var refused := Check(c);
      if refused.Some? {
        SendReply(refused.value, sent);
        return;
      }
      if !syntaxOk {
        SendReply(RC_SYNTAX_ERROR_IN_PARAMS, sent);
        return;
      }
      var reply := Dispatch(c);
      FinishCommand(c, reply, sent);
    }

    /** A command, from its arrival to the loop that waits for the next.  It leaves a running
        transfer alone; it logs the client in exactly with accepted credentials; it starts a
        transfer only for a client that is logged in, has none under way and has chosen PORT
        or PASV; and TYPE, PORT, REST and ABOR do what they are for. */
    method HandleCommand(c: Command, syntaxOk: bool, sent: bool)
      requires Can(Execute(c, syntaxOk, sent))
      modifies this, state
      ensures Valid() && Value() == Next(old(Value()), Execute(c, syntaxOk, sent))
      ensures old(state.transfer) != NoTransfer ==>
                && state.transfer == old(state.transfer) && state.initiation == old(state.initiation)
                && state.portEndpoint == old(state.portEndpoint) && state.pasv == old(state.pasv)
                && state.rest == old(state.rest) && state.allo == old(state.allo)
                && currentFile == old(currentFile) && at == old(at) && transferLog == old(transferLog)
      ensures state.isLoggedIn <==>
                || old(state.isLoggedIn)
                || (syntaxOk && old(Refusal(Value(), c)) == None && (c == USER(true) || c == PASS(true)))
      ensures state.ttype == if syntaxOk && c == TYPE(true) then BIN
                             else if syntaxOk && c == TYPE(false) then ASCII else old(state.ttype)
      ensures syntaxOk && old(Refusal(Value(), c)) == None ==>
                && (c.PORT_? && c.endpoint.Some? ==> state.portEndpoint == c.endpoint.value)
                && (c.REST? && c.offset.Some? && old(GetType(state.Value())) == BIN ==> state.rest == c.offset.value)
      ensures old(state.pasv).Some? ==> state.pasv == old(state.pasv)
      ensures syntaxOk && c == ABOR ==>
                abortTransfer == NoCallback && (old(abortTransfer) == CloseSocket ==> transferSck != Some(true))
      ensures state.transfer != NoTransfer && old(state.transfer) == NoTransfer ==>
                && StartsTransfer(c) && old(state.isLoggedIn) && old(state.initiation) != NoInitiation
                && at == Spawned && currentFile == Some(state.transfer) && state.transfer == DirectionOf(c)
    {
      hide OnCommand, Inv, StartsTransfer, Refusal, CanStart, DirectionOf;
      ghost var s, e := Value(), Execute(c, syntaxOk, sent);
      RunCommand(c, syntaxOk, sent);
      ControlKeepsInv(s, e);
      StartingStep(s, e);
      CommandEffects(s, c, syntaxOk, sent);
      TypeIsTaken(s, true);
      TypeIsTaken(s, false);
      AbortCloses(s, sent);
    }

    method HandleUnrecognized(sent: bool)
      requires Can(Unrecognized(sent))
      modifies this
      ensures Valid() && Value() == Next(old(Value()), Unrecognized(sent))
    {
      ghost var s := Value();
      hide Inv, Reply;
      SendReply(RC_SYNTAX_ERROR, sent);
      ControlKeepsInv(s, Unrecognized(sent));
    }

    method Close()
      modifies this
      ensures Value() == DoClose(old(Value()))
    {
      control := Over;
      if !closed {
        closePending, socketOpen := true, false;
        closed := true;
        if !expired {
          RunAbortCallback();
        }
      }
    }

    /** The end of the control coroutine: the control connection is closed for good, and the
        data connection with it. */
    method CloseControl()
      requires Can(EndControl)
      modifies this
      ensures Valid() && Value() == Next(old(Value()), EndControl)
      ensures !Listening(Value()) && control == Over && closed
      ensures !old(closed) ==> !socketOpen && closePending
      ensures !old(closed) && !expired && abortTransfer == CloseSocket ==> transferSck != Some(true)
    {
      ghost var s := Value();
      hide Inv;
      Close();
      ControlKeepsInv(s, EndControl);
    }

    // ---------- the transfer coroutine ----------

    method Announce(sent: bool)
      requires currentFile.Some? && transferSck.None?
      modifies this
      ensures Value() == Begin(old(Value()), sent)
    {
      hide TransferReply;
      assert currentFile.Some?;
      assert transferSck.None?;
      SendTransferReply(RC_OPENING_CONNECTION, sent);
      at := Opening;
    }

    /** The asserts at the start of a transfer hold: there is a file and no socket yet. */
    method BeginTransferFile(sent: bool)
      requires Can(TransferBegins(sent))
      modifies this
      ensures Valid() && Value() == Next(old(Value()), TransferBegins(sent))
      ensures currentFile.Some? && transferSck.None? && at == Opening
    {
      hide Inv, Begin;
      ghost var s := Value();
      AssertsHold(s);
      Announce(sent);
      BeginKeepsInv(s, sent);
      AssertsHold(Value());
      BeginOpens(s, sent);
    }

    method Open()
      requires state.initiation != PORT ==> state.pasv.Some?
      modifies this, state
      ensures Value() == OpenConnection(old(Value()))
    {
      if replyFailed || expired || closed || closePending {
        currentFile := None;
        state.Reset();
        trace := trace + [Ended];
        at := Idle;
        return;
      }
      if state.initiation == PORT {
        at := Connecting;
      } else {
        abortTransfer := CloseAcceptor;
        assert state.pasv.Some?;
        at := Accepting;
      }
    }

    /** Connect to the client, or accept its connection with the acceptor that PASV made; or
        end in silence if the control connection is gone. */
    method OpenDataConnection()
      requires Can(TransferOpens)
      modifies this, state
      ensures Valid() && Value() == Next(old(Value()), TransferOpens)
      ensures at == Connecting ==> state.initiation == PORT
      ensures at == Accepting ==> state.initiation == PASV && state.pasv.Some?
      ensures at == Idle ==> state.transfer == NoTransfer && currentFile.None?
      ensures at == Idle <==> old(DeadEnd(Value().line))
      ensures !old(DeadEnd(Value().line)) ==> (at == Connecting <==> old(state.initiation) == PORT)
    {
      hide Inv, OpenConnection;
      ghost var s := Value();
      AssertsHold(s);
      WhereItOpens(s);
      Open();
      OpenKeepsInv(s);
      AssertsHold(Value());
    }

    method Connect(ok: bool, open: bool, sent: bool)
      requires at == Connecting ==> state.initiation == PORT
      modifies this
      ensures Value() == Connected(old(Value()), ok, open, sent)
    {
      hide TransferReply;
      if at == Connecting {
        assert state.initiation == PORT;
      }
      if ok && !(at == Connecting && expired) {
        abortTransfer := CloseSocket;
        transferSck := Some(open);
        at := Moving;
      } else {
        SendTransferReply(RC_CANT_OPEN_DATA_CONN, sent);
        at := Refused;
      }
    }

    /** The assert of `GetPortEndpoint` holds when the coroutine connects. */
    method DataConnectionDecided(ok: bool, open: bool, sent: bool)
      requires Can(ConnectionDecided(ok, open, sent))
      modifies this
      ensures Valid() && Value() == Next(old(Value()), ConnectionDecided(ok, open, sent))
      ensures at == Moving ==> transferSck.Some? && currentFile == Some(state.transfer)
      ensures at == Refused ==> transferSck.None?
    {
      hide Inv, Connected;
      ghost var s := Value();
      AssertsHold(s);
      Connect(ok, open, sent);
      ConnectedKeepsInv(s, ok, open, sent);
      AssertsHold(Value());
    }

    method Notify(sent: bool)
      modifies this
      ensures Value() == NotifyFailed(old(Value()), sent)
    {
      if replyFailed || !socketOpen {
        at := Closing;
        return;
      }
      SendTransferReply(RC_TRANSFER_ABORTED, sent);
      at := Aborted;
    }

    method Confirm(sent: bool)
      modifies this, state
      ensures Value() == ConfirmAbort(old(Value()), sent)
    {
      if state.abortPending {
        state.abortPending := false;
        SendTransferReply(RC_CLOSING_DATA_CONNECTION, sent);
      }
      at := Closing;
    }

    /** The second reply of an aborted transfer; on a connection that is alive, the client has
        got 426 and, if it had asked for the abort, 226. */
    method ConfirmPendingAbort(sent: bool)
      requires Can(AbortConfirmed(sent))
      modifies this, state
      ensures Valid() && Value() == Next(old(Value()), AbortConfirmed(sent))
      ensures !state.abortPending
      ensures Live(Value().line) && state.transfer == Outgoing ==>
                transferLog == if old(state.abortPending) then [150, 426, 226] else [150, 426]
    {
      hide Inv, ConfirmAbort;
      ghost var s := Value();
      Confirm(sent);
      ConfirmKeepsInv(s, sent);
      ConfirmedReplies(s, sent);
    }

    method Transfer(o: Outcome, sent: bool)
      requires transferSck.Some? && currentFile.Some?
      modifies this
      ensures Value() == Move(old(Value()), o, sent)
    {
      hide TransferReply, NotifyFailed;
      assert transferSck.Some?;
      assert currentFile.Some?;
      match o {
        case Progress =>
          if state.transfer == Incoming && transferSck == Some(false) {
            SendTransferReply(RC_TRANSFER_ABORTED, sent);
          }
        case Broken => Notify(sent);
        case SessionGone => at := Closing;
        case FileFailed =>
          SendTransferReply(RC_TRANSFER_ABORTED, sent);
          at := Closing;
        case EndOfFile => at := ShuttingDown;
      }
    }

    /** One round of the send or receive loop: its asserts hold, and the file and the socket
        are there for the next; the end of the file is no failure, and a failure is told with
        a 426. */
    method MoveData(o: Outcome, sent: bool)
      requires Can(DataMoves(o, sent))
      modifies this
      ensures Valid() && Value() == Next(old(Value()), DataMoves(o, sent))
      ensures at in {Moving, ShuttingDown} ==> transferSck.Some? && currentFile == Some(state.transfer)
      ensures Live(Value().line) ==>
                && (at == ShuttingDown <==> o == EndOfFile) && (at == Moving <==> o == Progress)
                && (o == EndOfFile || (o == Progress && old(state.transfer == Outgoing)) ==>
                      transferLog == old(transferLog))
                && (o == Broken || o == FileFailed ==> transferLog == old(transferLog) + [426])
    {
      hide Inv, Move;
      ghost var s := Value();
      AssertsHold(s);
      MoveTells(s, o, sent);
      Transfer(o, sent);
      MoveKeepsInv(s, o, sent);
      AssertsHold(Value());
    }

    method ShutDown(ok: bool, sent: bool)
      requires transferSck.Some? && currentFile.Some?
      modifies this
      ensures Value() == Shutdown(old(Value()), ok, sent)
    {
      hide TransferReply, NotifyFailed;
      assert transferSck.Some?;
      assert currentFile.Some?;
      if !ok && state.transfer != Outgoing {
        Notify(sent);
        return;
      }
      transferSck := Some(false);
      SendTransferReply(RC_CLOSING_DATA_CONNECTION, sent);
      at := Closing;
    }

    /** A failed shutdown fails an upload, but not a download. */
    method EndShutdown(ok: bool, sent: bool)
      requires Can(ShutdownEnds(ok, sent))
      modifies this
      ensures Valid() && Value() == Next(old(Value()), ShutdownEnds(ok, sent))
      ensures Live(Value().line) && state.transfer == Outgoing ==> transferLog == [150, 226]
      ensures Live(Value().line) && state.transfer == Incoming ==>
                transferLog == old(transferLog) + [if ok then 226 else 426]
    {
      hide Inv, Shutdown;
      ghost var s := Value();
      AssertsHold(s);
      ShutdownTells(s, ok, sent);
      ShutDown(ok, sent);
      ShutdownKeepsInv(s, ok, sent);
      ShutdownReplies(s, ok, sent);
    }

    method Cleanup()
      modifies this, state
      ensures Value() == CleanupTransfer(old(Value()))
    {
      if transferSck.Some? {
        transferSck := None;
      }
      currentFile := None;
      state.Reset();
      trace := trace + [Ended];
      at := Idle;
    }

    /** Behind a transfer nothing of it is left, and on a connection that is alive an outgoing
        one has sent its replies in order. */
    method EndTransferFile()
      requires Can(TransferEnds)
      modifies this, state
      ensures Valid() && Value() == Next(old(Value()), TransferEnds)
      ensures state.transfer == NoTransfer && state.initiation == NoInitiation && state.pasv.None?
      ensures state.rest == 0 && state.allo == 0 && currentFile.None? && transferSck.None? && at == Idle
      ensures Live(Value().line) && old(state.transfer) == Outgoing ==> transferLog in DONE_LOGS
    {
      ghost var s := Value();
      TransferKeepsInv(s, TransferEnds);
      EndedInOrder(s);
      hide Inv, CleanupTransfer;
      if at == Closing {
        abortTransfer := NoCallback;
      }
      Cleanup();
    }

    // ---------- the two of them ----------

    /** The next stretch of either coroutine, or something that happens to them. */
    method Step(e: Event)
      requires Can(e)
      modifies this, state
      ensures Valid() && Value() == Next(old(Value()), e)
    {
      hide Inv, Next, Enabled;
      match e {
        case Execute(c, syntaxOk, sent) => HandleCommand(c, syntaxOk, sent);
        case Unrecognized(sent) => HandleUnrecognized(sent);
        case EndControl => CloseControl();
        case TransferBegins(sent) => BeginTransferFile(sent);
        case TransferOpens => OpenDataConnection();
        case ConnectionDecided(ok, open, sent) => DataConnectionDecided(ok, open, sent);
        case DataMoves(o, sent) => MoveData(o, sent);
        case ShutdownEnds(ok, sent) => EndShutdown(ok, sent);
        case AbortConfirmed(sent) => ConfirmPendingAbort(sent);
        case TransferEnds => EndTransferFile();
        case SocketDies => LoseSocket();
        case SessionExpires => Expire();
      }
    }

    method LoseSocket()
      requires Valid()
      modifies this`socketOpen
      ensures Valid() && Value() == Next(old(Value()), SocketDies)
    {
      ghost var s := Value();
      socketOpen := false;
      TransferKeepsInv(s, SocketDies);
    }

    method Expire()
      requires Can(SessionExpires)
      modifies this`expired
      ensures Valid() && Value() == Next(old(Value()), SessionExpires)
    {
      ghost var s := Value();
      expired := true;
      TransferKeepsInv(s, SessionExpires);
    }
  }

  lemma OtherKinds(c: Command)
    ensures c.USER? || c.PASS? || c.PORT_? || c.PASV_? || c.TYPE? || c.REST? || c.ALLO? ==> !StartsTransfer(c)
  {
  }

  lemma WhereItOpens(s: State)
    ensures var t := OpenConnection(s);
            t.worker.at == if DeadEnd(s.line) then Idle else if s.ftp.initiation == PORT then Connecting else Accepting
  {
  }

  lemma ListensAlready(s: State)
    ensures s.ftp.pasv.Some? ==> Listen(s) == s
  {
  }

  /** A session, driven through any schedule of its coroutines: no assert fails on the way,
      and in the end a transfer is under way only for a client that is logged in and has
      chosen PORT or PASV, with a current file of its direction. */
  method RunSchedule(events: seq<Event>) returns (session: Session)
    requires IsRun(events)
    ensures fresh(session) && session.Valid() && session.Value() == Run(INITIAL, events)
    ensures session.state.transfer != NoTransfer ==>
              && session.state.isLoggedIn && session.state.initiation != NoInitiation
              && session.currentFile == Some(session.state.transfer)
    ensures session.state.initiation == PASV ==> session.state.pasv.Some?
  {
    hide Inv, Next, Enabled;
    session := new Session();
    var i := 0;
    while i < |events|
      invariant 0 <= i <= |events| && fresh(session) && fresh(session.state) && session.Valid()
      invariant session.Value() == Run(INITIAL, events[..i])
    {
      StepOfRun(events, i);
      session.Step(events[i]);
      i := i + 1;
    }
    assert events[..i] == events;
    InterleavingIsSafe(events);
  }

  lemma {:induction false} StepOfRun(events: seq<Event>, i: nat)
    requires IsRun(events) && i < |events|
    ensures IsRun(events[..i]) && Enabled(Run(INITIAL, events[..i]), events[i])
    ensures Run(INITIAL, events[..i + 1]) == Next(Run(INITIAL, events[..i]), events[i])
    decreases |events|
  {
    hide Enabled, Next;
    assert events[..i + 1][..i] == events[..i];
    var before := events[..|events| - 1];
    if i < |before| {
      StepOfRun(before, i);
      assert before[..i] == events[..i];
    } else {
      assert before == events[..i];
    }
  }
}
