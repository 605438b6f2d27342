/** Framing of the control connection: commands cut out of a fixed input buffer
    (WfdeFtpSessionInput in src/wfde/ftp/WfdeFtpSession.cpp and WfdeFtpSession.h). */
module CommandFramer {
  import opened Common

  const BUFFER_SIZE := 16 * 1024
  const SIZE_T := 0x1_0000_0000_0000_0000

  // ---------- what the stream means ----------

  predicate IsBreak(b: byte) { b == CR || b == LF }

  /** The position of the first CR or LF, or the length. */
  function FirstBreak(s: seq<byte>): (n: nat)
    ensures n <= |s| && (n < |s| ==> IsBreak(s[n]))
    ensures forall k :: 0 <= k < n ==> !IsBreak(s[k])
  {
    if s == [] || IsBreak(s[0]) then 0
    else
      var n := FirstBreak(s[1..]);
      assert forall k :: 0 < k < n + 1 ==> s[k] == s[1..][k - 1];
      1 + n
  }

  lemma FirstBreakIs(s: seq<byte>, n: nat)
    requires n <= |s| && (n < |s| ==> IsBreak(s[n]))
    requires forall k :: 0 <= k < n ==> !IsBreak(s[k])
    ensures FirstBreak(s) == n
  {
  }

  /** A command ends at the first CR or LF; that byte and the next one are dropped. */
  function Lines(s: seq<byte>): seq<seq<byte>>
    decreases |s|
  {
    var n := FirstBreak(s);
    if n == |s| then []
    else [s[..n]] + (if n + 2 <= |s| then Lines(s[n + 2..]) else [])
  }

  /** What is left of the stream behind its first k commands. */
  function Behind(s: seq<byte>, k: nat): seq<byte>
    decreases k
  {
    var n := FirstBreak(s);
    if k == 0 then s else if n + 2 <= |s| then Behind(s[n + 2..], k - 1) else []
  }

  /** Lines as section 5.3 of RFC 959 wants them, each closed by CR LF. */
  function Render(lines: seq<seq<byte>>, tail: seq<byte>): seq<byte> {
    if lines == [] then tail else lines[0] + [CR, LF] + Render(lines[1..], tail)
  }

  ghost predicate Unbroken(s: seq<byte>) {
    forall k :: 0 <= k < |s| ==> !IsBreak(s[k])
  }

  /** Framing undoes rendering: in a stream whose CRs and LFs are all line ends, the
      commands are the lines. */
  lemma {:induction false} LinesOfRender(lines: seq<seq<byte>>, tail: seq<byte>)
    requires (forall i :: 0 <= i < |lines| ==> Unbroken(lines[i])) && Unbroken(tail)
    ensures Lines(Render(lines, tail)) == lines
    ensures Behind(Render(lines, tail), |lines|) == tail
  {
    var s := Render(lines, tail);
    if lines == [] {
      FirstBreakIs(s, |s|);
    } else {
      FirstBreakIs(s, |lines[0]|);
      LinesOfRender(lines[1..], tail);
      assert s[..|lines[0]|] == lines[0];
      assert s[|lines[0]| + 2..] == Render(lines[1..], tail);
    }
  }

  /** No line is too long for the buffer. */
  predicate Short(s: seq<byte>)
    decreases |s|
  {
    var n := FirstBreak(s);
    n < BUFFER_SIZE - 1 && (n + 2 <= |s| ==> Short(s[n + 2..]))
  }

  /** The offset e lies between the two bytes of a line end. */
  predicate Tears(s: seq<byte>, e: nat)
    decreases |s|
  {
    var n := FirstBreak(s);
    n < |s| && (e == n + 1 || (n + 2 <= |s| && n + 2 <= e && Tears(s[n + 2..], e - n - 2)))
  }

  /** Lines with their line ends, and nothing else. */
  predicate Whole(s: seq<byte>)
    decreases |s|
  {
    var n := FirstBreak(s);
    s == [] || (n + 2 <= |s| && Whole(s[n + 2..]))
  }

  /** The next command is cut from a part of the stream as from the whole. */
  lemma FirstBreakOfPart(part: seq<byte>, rest: seq<byte>)
    requires FirstBreak(part) < |part|
    ensures FirstBreak(part + rest) == FirstBreak(part)
  {
    hide FirstBreak;
    FirstBreakIs(part + rest, FirstBreak(part));
  }

  lemma EmptyHasNoBreak()
    ensures FirstBreak([]) == 0
  {
  }

  // ---------- the connection ----------

  /** The pieces that are left when n bytes of the first have been read. */
  function TakenFrom(chunks: seq<seq<byte>>, n: nat): seq<seq<byte>>
    requires chunks != [] && n <= |chunks[0]|
  {
    if n == |chunks[0]| then chunks[1..] else [chunks[0][n..]] + chunks[1..]
  }

  /** These reads, into a buffer that holds `size` bytes before them, lead from the pieces
      `chunks` to `rest`: each gets what it has room for of the next piece. */
  ghost predicate Served(chunks: seq<seq<byte>>, size: nat, got: seq<seq<byte>>, rest: seq<seq<byte>>)
    decreases |got|
  {
    if got == [] then rest == chunks
    else
      && chunks != [] && size < BUFFER_SIZE
      && got[0] == chunks[0][..Min(BUFFER_SIZE - size, |chunks[0]|)]
      && Served(TakenFrom(chunks, |got[0]|), size + |got[0]|, got[1..], rest)
  }

  lemma {:induction false} ServedMore(chunks: seq<seq<byte>>, size: nat, got: seq<seq<byte>>,
                                      rest: seq<seq<byte>>, data: seq<byte>)
    requires Served(chunks, size, got, rest) && rest != []
    requires var used := size + |Flatten(got)|;
             used < BUFFER_SIZE && data == rest[0][..Min(BUFFER_SIZE - used, |rest[0]|)]
    ensures Served(chunks, size, got + [data], TakenFrom(rest, |data|))
    decreases |got|
  {
    var more := got + [data];
    if got == [] {
      assert more == [data] && more[1..] == [];
    } else {
      assert more[0] == got[0] && more[1..] == got[1..] + [data];
      ServedMore(TakenFrom(chunks, |got[0]|), size + |got[0]|, got[1..], rest, data);
    }
  }

  lemma {:induction false} TakenBytes(chunks: seq<seq<byte>>, n: nat)
    requires chunks != [] && n <= |chunks[0]|
    ensures Flatten(chunks) == chunks[0][..n] + Flatten(TakenFrom(chunks, n))
  {
    var c, left := chunks[0], TakenFrom(chunks, n);
    if n == |c| {
      assert c[..n] == c;
    } else {
      assert left[0] == c[n..] && left[1..] == chunks[1..];
      CutOff(c, n, Flatten(chunks[1..]));
    }
  }

  lemma CutOff(c: seq<byte>, n: nat, tail: seq<byte>)
    requires n <= |c|
    ensures c + tail == c[..n] + (c[n..] + tail)
  {
  }

  /** Nothing is lost or added on the way. */
  lemma {:induction false} ServedBytes(chunks: seq<seq<byte>>, size: nat, got: seq<seq<byte>>, rest: seq<seq<byte>>)
    requires Served(chunks, size, got, rest)
    ensures Flatten(chunks) == Flatten(got) + Flatten(rest)
    decreases |got|
  {
    if got == [] {
      assert Flatten(chunks) == [] + Flatten(rest);
    } else {
      var left := TakenFrom(chunks, |got[0]|);
      TakenBytes(chunks, |got[0]|);
      ServedBytes(left, size + |got[0]|, got[1..], rest);
      Regroup(got[0], Flatten(got[1..]), Flatten(rest));
    }
  }

  ghost predicate NoneEmpty(chunks: seq<seq<byte>>) {
    forall i :: 0 <= i < |chunks| ==> chunks[i] != []
  }

  /** What the client sends, in the pieces in which it arrives, until it closes; `log` has
      what every read got. */
  class Wire {
    var chunks: seq<seq<byte>>
    ghost var log: seq<seq<byte>>

    ghost predicate Valid()
      reads this
    {
      NoneEmpty(chunks)
    }

    constructor (chunks: seq<seq<byte>>)
      requires NoneEmpty(chunks)
      ensures Valid() && this.chunks == chunks && log == []
    {
      this.chunks, log := chunks, [];
    }

    /** Nothing is read only when the connection is closed. */
    method ReadSome(room: nat) returns (data: seq<byte>)
      requires Valid() && room > 0
      modifies this
      ensures Valid() && |data| <= room
      ensures data == [] <==> old(chunks) == []
      ensures data == [] ==> chunks == [] && log == old(log)
      ensures data != [] ==>
                && data == old(chunks)[0][..Min(room, |old(chunks)[0]|)]
                && chunks == TakenFrom(old(chunks), |data|) && log == old(log) + [data]
    {
      if chunks == [] {
        return [];
      }
      var c := chunks[0];
      var n := Min(room, |c|);
      data := c[..n];
      if n == |c| {
        chunks := chunks[1..];
      } else {
        chunks := [c[n..]] + chunks[1..];
      }
      log := log + [data];
    }
  }

  /** Reading goes on only while no CR or LF has been found and the buffer is not full. */
  ghost predicate StoppedInTime(pending: seq<byte>, got: seq<seq<byte>>) {
    got != [] ==>
      var before := pending + Flatten(got[..|got| - 1]);
      Unbroken(before) && |before| < BUFFER_SIZE - 1
  }

  datatype Fetched = Command(text: seq<byte>) | NoInput | TooBig | OutOfBounds

  class Input {
    const buffer: array<byte>
    var current: nat
    var leftover: nat

    constructor ()
      ensures Valid() && !Torn() && Pending() == [] && fresh(buffer)
    {
      buffer := new byte[BUFFER_SIZE];
      current, leftover := 0, 0;
    }

    ghost predicate Valid()
      reads this
    {
      && buffer.Length == BUFFER_SIZE
      && (Torn() || current + leftover <= BUFFER_SIZE || leftover == 0)
    }

    /** The last command was returned before the second byte of its line end was read: the
        count of left-over bytes has wrapped around below zero. */
    predicate Torn()
      reads this
    {
      leftover == SIZE_T - 1
    }

    /** The bytes that were read but belong to no command yet. */
    function Pending(): seq<byte>
      requires Valid()
      reads this, buffer
    {
      if Torn() || leftover == 0 then [] else buffer[current..current + leftover]
    }

    method ReadInto(wire: Wire) returns (n: nat, ghost data: seq<byte>)
      requires wire.Valid() && buffer.Length == BUFFER_SIZE && current < BUFFER_SIZE
      modifies buffer, wire
      ensures wire.Valid() && n == |data| && current + n <= BUFFER_SIZE
      ensures buffer[..current + n] == old(buffer[..current]) + data
      ensures n == 0 ==> wire.chunks == old(wire.chunks) == [] && wire.log == old(wire.log)
      ensures n > 0 ==>
                && old(wire.chunks) != []
                && data == old(wire.chunks)[0][..Min(BUFFER_SIZE - current, |old(wire.chunks)[0]|)]
                && wire.chunks == TakenFrom(old(wire.chunks), n) && wire.log == old(wire.log) + [data]
    {
      var bytes := wire.ReadSome(BUFFER_SIZE - current);
      n, data := |bytes|, bytes;
      forall i | 0 <= i < n {
        buffer[current + i] := bytes[i];
      }
    }

    /** Read behind the bytes that are in the buffer already, which hold no CR or LF. */
    method ReadOn(wire: Wire, ghost chunks: seq<seq<byte>>, ghost pending: seq<byte>, ghost got: seq<seq<byte>>)
        returns (n: nat, ghost more: seq<seq<byte>>)
      requires wire.Valid() && buffer.Length == BUFFER_SIZE && current < BUFFER_SIZE - 1
      requires buffer[..current] == pending + Flatten(got) && Unbroken(pending + Flatten(got))
      requires Served(chunks, |pending|, got, wire.chunks)
      modifies buffer, wire
      ensures wire.Valid() && current + n <= BUFFER_SIZE
      ensures n == 0 ==> wire.chunks == [] && more == got
      ensures n > 0 ==> StoppedInTime(pending, more)
      ensures got <= more && wire.log == old(wire.log) + more[|got|..]
      ensures buffer[..current + n] == pending + Flatten(more)
      ensures Served(chunks, |pending|, more, wire.chunks)
    {
      hide Flatten, Served, Unbroken, StoppedInTime;
      ghost var data;
      n, data := ReadInto(wire);
      more := got;
      if n > 0 {
        ReadMore(chunks, pending, got, old(wire.chunks), data);
        more := got + [data];
      }
    }

    method FindBreak(size: nat) returns (eob: nat)
      requires size <= buffer.Length
      ensures eob == FirstBreak(buffer[..size])
    {
      eob := 0;
      while eob < size && !IsBreak(buffer[eob])
        invariant 0 <= eob <= size
        invariant forall k :: 0 <= k < eob ==> !IsBreak(buffer[k])
      {
        eob := eob + 1;
      }
      FirstBreakIs(buffer[..size], eob);
    }

    /** Left-over bytes move to the front of the buffer. */
    method MoveLeftover()
      requires Valid() && !Torn()
      modifies this`current, buffer
      ensures current == leftover <= BUFFER_SIZE && buffer[..current] == old(Pending())
    {
      if leftover != 0 {
        forall i | 0 <= i < leftover {
          buffer[i] := buffer[current + i];
        }
        current := leftover;
        assert forall i :: 0 <= i < leftover ==> buffer[i] == old(Pending())[i];
        assert buffer[..leftover] == old(Pending());
      } else {
        current := 0;
      }
    }

    /** Cut a command of length eob off the first `size` bytes of the buffer. */
    method Cut(size: nat, eob: nat) returns (request: seq<byte>)
      requires eob < size <= buffer.Length == BUFFER_SIZE
      modifies this
      ensures Valid() && request == buffer[..eob] && Moved(buffer[..size], eob)
    {
      request := buffer[..eob];
      leftover := (size - eob - 2) % SIZE_T;
      assert leftover == if eob + 2 <= size then size - eob - 2 else SIZE_T - 1;
      if leftover > 0 {
        current := eob + 2;
      }
      assert eob + 2 <= size ==> buffer[eob + 2..size] == buffer[..size][eob + 2..];
    }

    /** Look for a command in the first `size` bytes of the buffer; there may be none yet. */
    method Search(size: nat, ghost window: seq<byte>, ghost closed: bool) returns (r: Option<Fetched>)
      requires size <= buffer.Length == BUFFER_SIZE && buffer[..size] == window
      modifies this
      ensures r.None? ==> Unbroken(window) && size < BUFFER_SIZE - 1 && current == old(current)
      ensures r.Some? ==> Outcome(r.value, window, closed) && (r.value.Command? || r.value.TooBig?)
      ensures r.Some? && r.value.Command? ==> Valid() && Moved(window, |r.value.text|)
    {
      var eob := FindBreak(size);
      if eob == size {
        EndsWithout(window, closed);
        return if size >= BUFFER_SIZE - 1 then Some(TooBig) else None;
      }
      var request := Cut(size, eob);
      EndsWith(window, request, closed);
      return Some(Command(request));
    }

    /** Fetch the next command.  With what was pending and what it reads, it answers a
        command exactly if it finds a CR or LF, fails as too big exactly if the buffer is
        full up to one byte without one, and moves on behind the line end; it reads no
        further than the first CR or LF, and never more than the buffer holds.  The count of
        left-over bytes stays sane exactly if both bytes of the line end have been read. */
    method FetchNextCommand(wire: Wire) returns (r: Fetched, ghost got: seq<seq<byte>>)
      requires Valid() && wire.Valid()
      modifies this, buffer, wire
      ensures r.Command? ==> Valid()
      ensures wire.Valid() && wire.log == old(wire.log) + got
      ensures Served(old(wire.chunks), |old(Pending())|, got, wire.chunks)
      ensures r.OutOfBounds? <==> old(Torn())
      ensures r.OutOfBounds? ==> got == []
      ensures var window := old(Pending()) + Flatten(got);
              && StoppedInTime(old(Pending()), got) && |window| <= BUFFER_SIZE
              && Outcome(r, window, wire.chunks == []) && (r.Command? ==> Moved(window, |r.text|))
    {
      if leftover > BUFFER_SIZE {
        return OutOfBounds, [];
      }
      ghost var pending := Pending();
      var skipFirstRead := leftover != 0;
      MoveLeftover();
      r, got := Fetch(wire, skipFirstRead, pending);
    }

    /** The loop of `FetchNextCommand`: the pending bytes are at the front of the buffer. */
    method Fetch(wire: Wire, leftoverFirst: bool, ghost pending: seq<byte>)
        returns (r: Fetched, ghost got: seq<seq<byte>>)
      requires buffer.Length == BUFFER_SIZE && current <= BUFFER_SIZE && wire.Valid()
      requires buffer[..current] == pending && (leftoverFirst <==> current != 0)
      modifies this, buffer, wire
      ensures r.Command? ==> Valid()
      ensures wire.Valid() && wire.log == old(wire.log) + got
      ensures Served(old(wire.chunks), |pending|, got, wire.chunks)
      ensures !r.OutOfBounds?
      ensures var window := pending + Flatten(got);
              && StoppedInTime(pending, got) && |window| <= BUFFER_SIZE
              && Outcome(r, window, wire.chunks == []) && (r.Command? ==> Moved(window, |r.text|))
    {
      hide FirstBreak, Flatten, Served, Unbroken, StoppedInTime, Outcome;
      hide Input.Moved, Input.Pending, Input.Valid;
      got := [];
      ghost var window := pending;
      NothingRead(pending, wire.chunks);
      var skipFirstRead := leftoverFirst;
      while true
        invariant buffer.Length == BUFFER_SIZE && current <= BUFFER_SIZE && wire.Valid()
        invariant buffer[..current] == window == pending + Flatten(got)
        invariant !skipFirstRead ==> Unbroken(window) && current < BUFFER_SIZE - 1
        invariant StoppedInTime(pending, got) && wire.log == old(wire.log) + got
        invariant Served(old(wire.chunks), |pending|, got, wire.chunks)
        decreases BUFFER_SIZE - current, skipFirstRead
      {
        var bytesRead := 0;
        if skipFirstRead {
          skipFirstRead := false;
        } else {
          ghost var more;
          bytesRead, more := ReadOn(wire, old(wire.chunks), pending, got);
          if bytesRead == 0 {
            EndsWithout(window, true);
            return NoInput, got;
          }
          got, window := more, pending + Flatten(more);
        }
        var answer := Search(current + bytesRead, window, wire.chunks == []);
        if answer.Some? {
          return answer.value, got;
        }
        current := current + bytesRead;
      }
    }

    /** The state behind a command of length n that was cut out of this window. */
    ghost predicate Moved(window: seq<byte>, n: nat)
      requires Valid()
      reads this, buffer
    {
      && (Torn() <==> n + 1 == |window|)
      && (!Torn() ==> n + 2 <= |window| && Pending() == window[n + 2..])
    }
  }

  /** What a fetch may answer when it has this window of the stream before it. */
  predicate Outcome(r: Fetched, window: seq<byte>, closed: bool) {
    var n := FirstBreak(window);
    match r
    case Command(text) => n < |window| && text == window[..n]
    case TooBig => n == |window| && n >= BUFFER_SIZE - 1
    case NoInput => n == |window| && n < BUFFER_SIZE - 1 && closed
    case OutOfBounds => true
  }

  lemma NothingRead(pending: seq<byte>, chunks: seq<seq<byte>>)
    ensures pending + Flatten([]) == pending && StoppedInTime(pending, [])
    ensures Served(chunks, |pending|, [], chunks)
    ensures pending == [] ==> Unbroken(pending)
  {
  }

  lemma ReadMore(chunks: seq<seq<byte>>, pending: seq<byte>, got: seq<seq<byte>>, left: seq<seq<byte>>, data: seq<byte>)
    requires Served(chunks, |pending|, got, left) && left != []
    requires var used := |pending + Flatten(got)|;
             used < BUFFER_SIZE - 1 && data == left[0][..Min(BUFFER_SIZE - used, |left[0]|)]
    requires Unbroken(pending + Flatten(got))
    ensures Served(chunks, |pending|, got + [data], TakenFrom(left, |data|))
    ensures StoppedInTime(pending, got + [data])
    ensures pending + Flatten(got + [data]) == pending + Flatten(got) + data
  {
    hide Served, Flatten;
    ServedMore(chunks, |pending|, got, left, data);
    FlattenAppend(got, [data]);
    FlattenOne(data);
    Regroup(pending, Flatten(got), data);
    assert (got + [data])[..|got|] == got;
  }

  lemma FlattenOne(data: seq<byte>)
    ensures Flatten([data]) == data
  {
    assert Flatten([data]) == data + Flatten([data][1..]);
  }

  lemma EndsWithout(window: seq<byte>, closed: bool)
    ensures Unbroken(window) <==> FirstBreak(window) == |window|
    ensures Unbroken(window) && |window| >= BUFFER_SIZE - 1 ==> Outcome(TooBig, window, closed)
    ensures Unbroken(window) && |window| < BUFFER_SIZE - 1 && closed ==> Outcome(NoInput, window, closed)
  {
    if Unbroken(window) {
      FirstBreakIs(window, |window|);
    }
  }

  lemma EndsWith(window: seq<byte>, request: seq<byte>, closed: bool)
    requires |request| == FirstBreak(window) < |window| && request == window[..|request|]
    ensures Outcome(Command(request), window, closed)
  {
  }

  lemma UnbrokenPart(part: seq<byte>, rest: seq<byte>)
    requires FirstBreak(part) == |part|
    ensures FirstBreak(part + rest) >= |part|
  {
    assert forall k :: 0 <= k < |part| ==> (part + rest)[k] == part[k];
  }

  /** Cutting one command off a stream of which a part has been read. */
  lemma {:induction false} LinesAfterCut(window: seq<byte>, unread: seq<byte>)
    requires FirstBreak(window) < |window|
    ensures var n, s := FirstBreak(window), window + unread;
            && (n + 2 <= |window| ==> Lines(s) == [window[..n]] + Lines(window[n + 2..] + unread)
                                      && Behind(s, 1) == window[n + 2..] + unread)
            && (n + 1 == |window| ==> Lines(s) == [window[..n]] + AfterTear(unread))
  {
    hide FirstBreak;
    var n, s := FirstBreak(window), window + unread;
    FirstBreakOfPart(window, unread);
    assert s[..n] == window[..n];
    if n + 2 <= |window| {
      assert s[n + 2..] == window[n + 2..] + unread;
      assert Behind(s[n + 2..], 0) == s[n + 2..];
    } else if unread != [] {
      assert s[n + 2..] == unread[1..];
    }
  }

  /** The commands still to come when the second byte of a line end is still unread. */
  function AfterTear(unread: seq<byte>): seq<seq<byte>> {
    if unread == [] then [] else Lines(unread[1..])
  }

  lemma {:induction false} BehindStep(s: seq<byte>, k: nat)
    ensures Behind(s, k + 1) == Behind(Behind(s, k), 1)
    decreases k
  {
    hide FirstBreak;
    var n := FirstBreak(s);
    if k > 0 {
      if n + 2 <= |s| {
        BehindStep(s[n + 2..], k - 1);
      } else {
        EmptyHasNoBreak();
      }
    }
  }

  // ---------- where reads end ----------

  /** The offset in the stream at which the i-th read ended; `start` bytes of it had been
      read before. */
  function End(start: nat, got: seq<seq<byte>>, i: nat): nat
    requires i <= |got|
  {
    start + |Flatten(got[..i])|
  }

  /** Some read ended between the two bytes of a line end. */
  ghost predicate SomeTear(stream: seq<byte>, start: nat, got: seq<seq<byte>>) {
    exists i: nat :: i <= |got| && Tears(stream, End(start, got, i))
  }

  /** None but the last did. */
  ghost predicate EarlierSound(stream: seq<byte>, start: nat, got: seq<seq<byte>>) {
    forall i :: 0 <= i < |got| ==> !Tears(stream, End(start, got, i))
  }

  /** The line ends of the rest are those of the stream. */
  ghost predicate SameTears(stream: seq<byte>, rest: seq<byte>) {
    && |rest| <= |stream|
    && forall e: nat :: Tears(rest, e) <==> Tears(stream, |stream| - |rest| + e)
  }

  lemma {:induction false} SameTearsStep(s: seq<byte>)
    requires FirstBreak(s) + 2 <= |s|
    ensures SameTears(s, s[FirstBreak(s) + 2..])
  {
  }

  lemma SameTearsTrans(a: seq<byte>, b: seq<byte>, c: seq<byte>)
    requires SameTears(a, b) && SameTears(b, c)
    ensures SameTears(a, c)
  {
    hide Tears;
    forall e: nat ensures Tears(c, e) <==> Tears(a, |a| - |c| + e) {
      var f: nat := |b| - |c| + e;
      assert Tears(c, e) <==> Tears(b, f);
      assert Tears(b, f) <==> Tears(a, |a| - |b| + f);
    }
  }

  lemma UnbrokenIsNotTorn(part: seq<byte>, rest: seq<byte>)
    requires Unbroken(part)
    ensures !Tears(part + rest, |part|)
  {
    FirstBreakIs(part, |part|);
    UnbrokenPart(part, rest);
  }

  /** All but the last of the reads of a fetch end before the line does. */
  lemma EarlierEnds(stream: seq<byte>, start: nat, got: seq<seq<byte>>, pending: seq<byte>,
                    more: seq<seq<byte>>, unread: seq<byte>)
    requires EarlierSound(stream, start, got)
    requires var s := pending + Flatten(more) + unread;
             SameTears(stream, s) && |stream| - |s| + |pending| == End(start, got, |got|)
    requires StoppedInTime(pending, more)
    ensures EarlierSound(stream, start, got + more)
    ensures End(start, got + more, |got + more|) == |stream| - |unread|
  {
    hide Tears, Flatten, Unbroken;
    var s, all := pending + Flatten(more) + unread, got + more;
    forall i: nat | i < |all| ensures !Tears(stream, End(start, all, i)) {
      if i < |got| {
        assert all[..i] == got[..i];
        assert End(start, all, i) == End(start, got, i);
      } else {
        EarlierEnd(start, got, pending, more, unread, i - |got|);
        var e: nat := |pending| + |Flatten(more[..i - |got|])|;
        assert Tears(s, e) <==> Tears(stream, |stream| - |s| + e);
        assert End(start, all, i) == |stream| - |s| + e;
      }
    }
    assert all[..|all|] == all && got[..|got|] == got;
    FlattenAppend(got, more);
  }

  lemma EarlierEnd(start: nat, got: seq<seq<byte>>, pending: seq<byte>, more: seq<seq<byte>>, unread: seq<byte>, j: nat)
    requires j < |more| && StoppedInTime(pending, more)
    ensures !Tears(pending + Flatten(more) + unread, |pending| + |Flatten(more[..j])|)
    ensures End(start, got + more, |got| + j) == End(start, got, |got|) + |Flatten(more[..j])|
  {
    hide Tears, Flatten;
    assert (got + more)[..|got| + j] == got + more[..j] && got[..|got|] == got;
    FlattenAppend(got, more[..j]);
    var part, most := pending + Flatten(more[..j]), more[..|more| - 1];
    assert most == most[..j] + most[j..] && most[..j] == more[..j];
    FlattenAppend(most[..j], most[j..]);
    assert pending + Flatten(most) == part + Flatten(most[j..]);
    UnbrokenPrefix(part, Flatten(most[j..]));
    assert more == more[..j] + more[j..];
    FlattenAppend(more[..j], more[j..]);
    assert pending + Flatten(more) + unread == part + (Flatten(more[j..]) + unread);
    UnbrokenIsNotTorn(part, Flatten(more[j..]) + unread);
  }

  lemma UnbrokenPrefix(a: seq<byte>, b: seq<byte>)
    requires Unbroken(a + b)
    ensures Unbroken(a)
  {
    forall k | 0 <= k < |a| ensures !IsBreak(a[k]) {
      assert (a + b)[k] == a[k];
    }
  }

  // ---------- which reads there are ----------

  /** What all the reads of a session get, with these bytes pending and these pieces to come:
      a pending line is cut off first; behind a torn line end, when the buffer is full and when
      the client has closed there are no more reads. */
  ghost function Reads(pending: seq<byte>, chunks: seq<seq<byte>>): seq<seq<byte>>
    requires NoneEmpty(chunks)
    decreases |Flatten(chunks)|, |pending|
  {
    var n := FirstBreak(pending);
    if n < |pending| then
      if n + 2 <= |pending| then Reads(pending[n + 2..], chunks) else []
    else if |pending| >= BUFFER_SIZE - 1 || chunks == [] then []
    else
      var data := chunks[0][..Min(BUFFER_SIZE - |pending|, |chunks[0]|)];
      TakenBytes(chunks, |data|);
      [data] + Reads(pending + data, TakenFrom(chunks, |data|))
  }

  lemma TakenNoneEmpty(chunks: seq<seq<byte>>, n: nat)
    requires NoneEmpty(chunks) && chunks != [] && n <= |chunks[0]|
    ensures NoneEmpty(TakenFrom(chunks, n))
  {
  }

  lemma {:induction false} ReadsStep(pending: seq<byte>, chunks: seq<seq<byte>>, data: seq<byte>)
    requires NoneEmpty(chunks) && chunks != [] && Unbroken(pending) && |pending| < BUFFER_SIZE - 1
    requires data == chunks[0][..Min(BUFFER_SIZE - |pending|, |chunks[0]|)]
    ensures NoneEmpty(TakenFrom(chunks, |data|))
    ensures Reads(pending, chunks) == [data] + Reads(pending + data, TakenFrom(chunks, |data|))
  {
    hide FirstBreak, Unbroken, TakenFrom, NoneEmpty;
    EndsWithout(pending, true);
    TakenNoneEmpty(chunks, |data|);
  }

  lemma {:induction false} ReadsEnd(pending: seq<byte>, chunks: seq<seq<byte>>, r: Fetched)
    requires NoneEmpty(chunks) && Outcome(r, pending, chunks == []) && !r.OutOfBounds?
    ensures Reads(pending, chunks)
            == if r.Command? && |r.text| + 2 <= |pending| then Reads(pending[|r.text| + 2..], chunks) else []
  {
    hide FirstBreak;
  }

  /** The reads that are still to come behind a fetch with this answer. */
  ghost function ReadsBehind(r: Fetched, window: seq<byte>, rest: seq<seq<byte>>): seq<seq<byte>>
    requires NoneEmpty(rest)
  {
    if r.Command? && |r.text| + 2 <= |window| then Reads(window[|r.text| + 2..], rest) else []
  }

  /** The reads of one fetch are the first of them. */
  lemma {:induction false} FetchedReads(pending: seq<byte>, chunks: seq<seq<byte>>, got: seq<seq<byte>>,
                                        rest: seq<seq<byte>>, r: Fetched)
    requires NoneEmpty(chunks)
    requires Served(chunks, |pending|, got, rest) && StoppedInTime(pending, got)
    requires Outcome(r, pending + Flatten(got), rest == []) && !r.OutOfBounds?
    ensures NoneEmpty(rest)
    ensures Reads(pending, chunks) == got + ReadsBehind(r, pending + Flatten(got), rest)
    decreases |got|
  {
    hide Reads, Outcome, Flatten, Unbroken, StoppedInTime, TakenFrom, NoneEmpty;
    FlattenNothing();
    if got == [] {
      assert pending + [] == pending;
      ReadsEnd(pending, chunks, r);
      var more := ReadsBehind(r, pending, rest);
      assert [] + more == more;
    } else {
      FirstOfMany(pending, got);
      ReadsStep(pending, chunks, got[0]);
      Regroup(pending, got[0], Flatten(got[1..]));
      FlattenCons(got);
      FetchedReads(pending + got[0], TakenFrom(chunks, |got[0]|), got[1..], rest, r);
      Regroup([got[0]], got[1..], ReadsBehind(r, pending + Flatten(got), rest));
      assert got == [got[0]] + got[1..];
    }
  }

  lemma FlattenCons(got: seq<seq<byte>>)
    requires got != []
    ensures Flatten(got) == got[0] + Flatten(got[1..])
  {
  }

  lemma FirstOfMany(pending: seq<byte>, got: seq<seq<byte>>)
    requires got != [] && StoppedInTime(pending, got)
    ensures Unbroken(pending) && |pending| < BUFFER_SIZE - 1
    ensures StoppedInTime(pending + got[0], got[1..])
  {
    hide Unbroken, Flatten;
    var most := got[..|got| - 1];
    UnbrokenPrefix(pending, Flatten(most));
    if |got| > 1 {
      FlattenCons(most);
      assert most[0] == got[0] && most[1..] == got[1..][..|got[1..]| - 1];
      Regroup(pending, got[0], Flatten(most[1..]));
    }
  }

  // ---------- a fetch in the stream ----------

  /** The part `rest` of the stream is what is left of it behind these commands. */
  ghost predicate Reached(stream: seq<byte>, commands: seq<seq<byte>>, rest: seq<byte>) {
    && Behind(stream, |commands|) == rest && commands + Lines(rest) == Lines(stream)
    && (Short(stream) <==> Short(rest)) && SameTears(stream, rest)
  }

  lemma ReachedStart(stream: seq<byte>)
    ensures Reached(stream, [], stream)
  {
    assert Behind(stream, 0) == stream && [] + Lines(stream) == Lines(stream);
  }

  lemma {:induction false} ShortStep(s: seq<byte>)
    requires FirstBreak(s) + 2 <= |s| && FirstBreak(s) < BUFFER_SIZE - 1
    ensures Short(s) <==> Short(s[FirstBreak(s) + 2..])
  {
    hide FirstBreak;
  }

  /** A command with both bytes of its line end. */
  lemma {:induction false} CommandIsCut(stream: seq<byte>, commands: seq<seq<byte>>,
                                        window: seq<byte>, unread: seq<byte>)
    requires Reached(stream, commands, window + unread)
    requires FirstBreak(window) + 2 <= |window| <= BUFFER_SIZE
    ensures var n := FirstBreak(window);
            Reached(stream, commands + [window[..n]], window[n + 2..] + unread)
  {
    hide FirstBreak, Lines, Behind, Tears, SameTears, Short;
    var n, s, rest := FirstBreak(window), window + unread, window[FirstBreak(window) + 2..] + unread;
    var more := commands + [window[..n]];
    LinesAfterCut(window, unread);
    FirstBreakOfPart(window, unread);
    assert s[n + 2..] == rest;
    assert Behind(stream, |more|) == rest by { BehindStep(stream, |commands|); }
    assert SameTears(stream, rest) by {
      SameTearsStep(s);
      SameTearsTrans(stream, s, rest);
    }
    assert Short(s) <==> Short(rest) by { ShortStep(s); }
    assert commands + ([window[..n]] + Lines(rest)) == more + Lines(rest);
  }

  /** A command of whose line end only the first byte has been read. */
  lemma {:induction false} CommandIsTorn(stream: seq<byte>, commands: seq<seq<byte>>,
                                         window: seq<byte>, unread: seq<byte>)
    requires Reached(stream, commands, window + unread)
    requires FirstBreak(window) + 1 == |window|
    ensures commands + [window[..FirstBreak(window)]] + AfterTear(unread) == Lines(stream)
    ensures Tears(stream, |stream| - |unread|)
  {
    hide FirstBreak, Lines, Behind;
    var n, s := FirstBreak(window), window + unread;
    LinesAfterCut(window, unread);
    FirstBreakOfPart(window, unread);
    assert Tears(s, n + 1);
    assert commands + ([window[..n]] + AfterTear(unread)) == commands + [window[..n]] + AfterTear(unread);
  }

  lemma {:induction false} NoCommandLeft(stream: seq<byte>, commands: seq<seq<byte>>,
                                         window: seq<byte>, unread: seq<byte>)
    requires Reached(stream, commands, window + unread)
    requires FirstBreak(window) == |window|
    ensures !Tears(stream, |stream| - |unread|)
    ensures |window| < BUFFER_SIZE - 1 && unread == [] ==> commands == Lines(stream) && Short(stream)
    ensures |window| >= BUFFER_SIZE - 1 ==>
              && !Short(stream) && commands <= Lines(stream)
              && FirstBreak(Behind(stream, |commands|)) >= BUFFER_SIZE - 1
  {
    hide Behind;
    UnbrokenPart(window, unread);
    UnbrokenIsNotTorn(window, unread);
    var s := window + unread;
    assert Tears(s, |window|) <==> Tears(stream, |stream| - |s| + |window|);
    if unread == [] {
      assert s == window;
      assert Lines(s) == [];
    }
  }

  // ---------- pieces that are whole lines ----------

  /** Whole lines are pending, and every piece to come is whole lines and fits the buffer. */
  ghost predicate Aligned(pending: seq<byte>, chunks: seq<seq<byte>>) {
    && Whole(pending)
    && forall i :: 0 <= i < |chunks| ==> chunks[i] != [] && |chunks[i]| <= BUFFER_SIZE && Whole(chunks[i])
  }

  lemma WholeHasBreak(s: seq<byte>)
    requires Whole(s) && s != []
    ensures !Unbroken(s) && FirstBreak(s) + 2 <= |s|
  {
    assert IsBreak(s[FirstBreak(s)]);
  }

  /** Then one piece is read at a time, and no line end is torn. */
  lemma {:induction false} FetchKeepsAligned(pending: seq<byte>, chunks: seq<seq<byte>>,
                                             got: seq<seq<byte>>, rest: seq<seq<byte>>, r: Fetched)
    requires Aligned(pending, chunks) && Served(chunks, |pending|, got, rest) && StoppedInTime(pending, got)
    requires Outcome(r, pending + Flatten(got), rest == []) && !r.OutOfBounds?
    ensures !r.TooBig?
    ensures var window := pending + Flatten(got);
            r.Command? ==> |r.text| + 2 <= |window| && Aligned(window[|r.text| + 2..], rest)
  {
    hide FirstBreak, Unbroken, Served, Flatten, Whole, StoppedInTime;
    var window := pending + Flatten(got);
    FlattenNothing();
    if pending != [] {
      WholeHasBreak(pending);
      PendingLineIsServed(pending, got);
      FetchedNothing(chunks, pending, got, rest);
      assert window == pending;
      WholeRest(pending);
    } else if got == [] {
      assert window == [];
      EmptyHasNoBreak();
    } else {
      OnePieceIsServed(chunks, got, rest);
      var c := chunks[0];
      FlattenOne(c);
      assert window == c;
      WholeHasBreak(c);
      WholeRest(c);
    }
  }

  lemma WholeRest(s: seq<byte>)
    requires Whole(s) && s != []
    ensures FirstBreak(s) + 2 <= |s| && Whole(s[FirstBreak(s) + 2..])
  {
    hide FirstBreak;
  }

  lemma PendingLineIsServed(pending: seq<byte>, got: seq<seq<byte>>)
    requires StoppedInTime(pending, got) && !Unbroken(pending)
    ensures got == []
  {
    hide Unbroken;
    if got != [] {
      UnbrokenPrefix(pending, Flatten(got[..|got| - 1]));
      assert false;
    }
  }

  lemma OnePieceIsServed(chunks: seq<seq<byte>>, got: seq<seq<byte>>, rest: seq<seq<byte>>)
    requires Served(chunks, 0, got, rest) && StoppedInTime([], got) && got != []
    requires chunks != [] ==> |chunks[0]| <= BUFFER_SIZE && chunks[0] != [] && Whole(chunks[0])
    ensures chunks != [] && got == [chunks[0]] && rest == chunks[1..]
  {
    hide Unbroken, Whole;
    var c := chunks[0];
    assert got[0] == c;
    WholeHasBreak(c);
    if |got| > 1 {
      var most := got[..|got| - 1];
      assert [] + Flatten(most) == c + Flatten(most[1..]);
      UnbrokenPrefix(c, Flatten(most[1..]));
      assert false;
    }
    assert got[1..] == [];
  }

  // ---------- the whole session ----------

  /** Between two fetches: the commands and the reads so far, and how the last fetch ended. */
  ghost predicate Underway(input: Input, wire: Wire, stream: seq<byte>, start: nat,
                           commands: seq<seq<byte>>, got: seq<seq<byte>>, last: Fetched)
    reads input, input.buffer, wire
  {
    var unread := Flatten(wire.chunks);
    && wire.Valid() && (last.Command? ==> input.Valid())
    && |unread| <= |stream| && End(start, got, |got|) == |stream| - |unread|
    && EarlierSound(stream, start, got)
    && match last
       case Command(_) =>
         if input.Torn() then EndsTorn(stream, commands, unread)
         else Reached(stream, commands, input.Pending() + unread)
       case NoInput => commands == Lines(stream) && Short(stream) && !Tears(stream, |stream| - |unread|)
       case TooBig =>
         && commands <= Lines(stream) && FirstBreak(Behind(stream, |commands|)) >= BUFFER_SIZE - 1
         && !Short(stream) && !Tears(stream, |stream| - |unread|)
       case OutOfBounds => EndsTorn(stream, commands, unread)
  }

  ghost predicate EndsTorn(stream: seq<byte>, commands: seq<seq<byte>>, unread: seq<byte>) {
    && |unread| <= |stream| && Tears(stream, |stream| - |unread|)
    && commands != [] && commands + AfterTear(unread) == Lines(stream)
  }

  /** How much of the stream no command has been cut from. */
  ghost function Uncut(input: Input, wire: Wire): nat
    requires input.Valid()
    reads input, input.buffer, wire
  {
    if input.Torn() then 0 else |input.Pending() + Flatten(wire.chunks)|
  }

  /** Nothing is torn, and everything to come is whole lines. */
  ghost predicate StaysAligned(input: Input, wire: Wire, last: Fetched)
    reads input, input.buffer, wire
  {
    && !last.TooBig? && !last.OutOfBounds?
    && (last.Command? ==> input.Valid() && !input.Torn() && Aligned(input.Pending(), wire.chunks))
  }

  /** The reads so far, and those to come, are the ones foreseen. */
  ghost predicate Foreseen(input: Input, wire: Wire, all: seq<seq<byte>>, got: seq<seq<byte>>, last: Fetched)
    reads input, input.buffer, wire
  {
    wire.Valid() && (last.Command? ==> input.Valid())
    && all == got + (if last.Command? && !input.Torn() then Reads(input.Pending(), wire.chunks) else [])
  }

  /** All fetches of a session.  However the stream arrives, the commands are the lines of
      the stream, in order, as many as there are before the session ends.  It ends outside
      of the buffer exactly if a read ends between the two bytes of a line end; and
      otherwise it goes on until the client closes exactly if no line has more than 16382
      bytes.  Which reads there are follows from what is pending and from the pieces that
      arrive.  Neither goes wrong if every piece is whole lines of at most 16K together. */
  method FetchAll(input: Input, wire: Wire) returns (commands: seq<seq<byte>>, last: Fetched)
    requires input.Valid() && !input.Torn() && wire.Valid()
    modifies input, input.buffer, wire
    ensures wire.log == old(wire.log) + Reads(old(input.Pending()), old(wire.chunks))
    ensures var start, stream := |old(input.Pending())|, old(input.Pending()) + Flatten(old(wire.chunks));
            var torn := SomeTear(stream, start, Reads(old(input.Pending()), old(wire.chunks)));
            && (last.OutOfBounds? <==> torn)
            && (last.NoInput? <==> !torn && Short(stream))
            && (last.TooBig? <==> !torn && !Short(stream))
            && (last.NoInput? ==> commands == Lines(stream))
            && (last.TooBig? ==> commands <= Lines(stream)
                                 && FirstBreak(Behind(stream, |commands|)) >= BUFFER_SIZE - 1)
            && (last.OutOfBounds? ==>
                  commands != [] && commands + AfterTear(Flatten(wire.chunks)) == Lines(stream))
    ensures Aligned(old(input.Pending()), old(wire.chunks)) ==> last.NoInput?
  {
    hide Lines, FirstBreak, Behind, AfterTear, Uncut, Short, Tears, Aligned, Flatten, Reads;
    commands, last := [], Command([]);
    ghost var start, stream := |input.Pending()|, input.Pending() + Flatten(wire.chunks);
    ghost var aligned := Aligned(input.Pending(), wire.chunks);
    ghost var all, got := Reads(input.Pending(), wire.chunks), [];
    assert [] + all == all;
    ReachedStart(stream);
    FlattenNothing();
    assert Underway(input, wire, stream, start, commands, got, last);
    assert Foreseen(input, wire, all, got, last) && (aligned ==> StaysAligned(input, wire, last));
    hide Underway, SomeTear, Foreseen, StaysAligned;
    while last.Command?
      invariant Underway(input, wire, stream, start, commands, got, last)
      invariant last.Command? ==> input.Valid()
      invariant wire.log == old(wire.log) + got && Foreseen(input, wire, all, got, last)
      invariant aligned ==> StaysAligned(input, wire, last)
      decreases last.Command?, last.Command? && !input.Torn(), if last.Command? then Uncut(input, wire) else 0
    {
      last, commands, got := FetchOne(input, wire, stream, start, commands, all, got, last);
    }
    Ended(input, wire, stream, start, commands, got, last);
    EndedAsForeseen(input, wire, all, got, last);
  }

  lemma FlattenNothing()
    ensures Flatten<byte>([]) == []
  {
  }

  lemma Ended(input: Input, wire: Wire, stream: seq<byte>, start: nat,
              commands: seq<seq<byte>>, got: seq<seq<byte>>, last: Fetched)
    requires Underway(input, wire, stream, start, commands, got, last) && !last.Command?
    ensures last.OutOfBounds? <==> SomeTear(stream, start, got)
    ensures last.NoInput? ==> Short(stream) && commands == Lines(stream)
    ensures last.TooBig? ==> !Short(stream) && commands <= Lines(stream)
                             && FirstBreak(Behind(stream, |commands|)) >= BUFFER_SIZE - 1
    ensures last.OutOfBounds? ==>
              commands != [] && commands + AfterTear(Flatten(wire.chunks)) == Lines(stream)
  {
    hide Tears, Lines, Behind, FirstBreak, Flatten, Short, AfterTear;
  }

  lemma EndedAsForeseen(input: Input, wire: Wire, all: seq<seq<byte>>, got: seq<seq<byte>>, last: Fetched)
    requires Foreseen(input, wire, all, got, last) && !last.Command?
    ensures all == got
    ensures StaysAligned(input, wire, last) ==> last.NoInput?
  {
  }

  method FetchOne(input: Input, wire: Wire, ghost stream: seq<byte>, ghost start: nat,
                  commands: seq<seq<byte>>, ghost all: seq<seq<byte>>, ghost got: seq<seq<byte>>, ghost before: Fetched)
      returns (r: Fetched, more: seq<seq<byte>>, ghost now: seq<seq<byte>>)
    requires before.Command? && Underway(input, wire, stream, start, commands, got, before)
    requires Foreseen(input, wire, all, got, before)
    modifies input, input.buffer, wire
    ensures Underway(input, wire, stream, start, more, now, r) && Foreseen(input, wire, all, now, r)
    ensures r.Command? ==> input.Valid()
    ensures more == if r.Command? then commands + [r.text] else commands
    ensures got <= now && wire.log == old(wire.log) + now[|got|..]
    ensures r.Command? ==> !old(input.Torn()) && (input.Torn() || Uncut(input, wire) < old(Uncut(input, wire)))
    ensures old(StaysAligned(input, wire, before)) ==> StaysAligned(input, wire, r)
  {
    hide Lines, FirstBreak, Behind, AfterTear, Short, Tears, Aligned, Flatten, Served, StoppedInTime;
    hide EarlierSound, Reached, EndsTorn, End, Outcome, Reads;
    ghost var chunks := wire.chunks;
    ghost var pending := if input.Torn() then [] else input.Pending();
    ghost var torn, aligned := input.Torn(), StaysAligned(input, wire, before);
    ghost var pieces;
    r, pieces := input.FetchNextCommand(wire);
    now, more := got + pieces, commands;
    assert now[|got|..] == pieces;
    if torn {
      FetchedNothing(chunks, pending, pieces, wire.chunks);
      assert now == got;
    } else {
      FetchedOne(stream, start, commands, got, pending, chunks, pieces, wire.chunks, r);
      FetchedForeseen(input, wire, pending, chunks, pieces, r, all, got);
      FetchedAligned(input, wire, pending, chunks, pieces, r, aligned);
    }
    if r.Command? {
      more := commands + [r.text];
    }
  }

  lemma FetchedForeseen(input: Input, wire: Wire, pending: seq<byte>, chunks: seq<seq<byte>>,
                        pieces: seq<seq<byte>>, r: Fetched, all: seq<seq<byte>>, got: seq<seq<byte>>)
    requires NoneEmpty(chunks) && Served(chunks, |pending|, pieces, wire.chunks) && StoppedInTime(pending, pieces)
    requires Outcome(r, pending + Flatten(pieces), wire.chunks == []) && !r.OutOfBounds?
    requires all == got + Reads(pending, chunks)
    requires r.Command? ==> input.Valid() && input.Moved(pending + Flatten(pieces), |r.text|)
    ensures Foreseen(input, wire, all, got + pieces, r)
  {
    hide Served, StoppedInTime, Outcome, Flatten, Reads;
    FetchedReads(pending, chunks, pieces, wire.chunks, r);
    Regroup(got, pieces, ReadsBehind(r, pending + Flatten(pieces), wire.chunks));
  }

  lemma FetchedAligned(input: Input, wire: Wire, pending: seq<byte>, chunks: seq<seq<byte>>,
                       pieces: seq<seq<byte>>, r: Fetched, aligned: bool)
    requires Served(chunks, |pending|, pieces, wire.chunks) && StoppedInTime(pending, pieces)
    requires Outcome(r, pending + Flatten(pieces), wire.chunks == []) && !r.OutOfBounds?
    requires r.Command? ==> input.Valid() && input.Moved(pending + Flatten(pieces), |r.text|)
    requires aligned ==> Aligned(pending, chunks)
    ensures aligned ==> StaysAligned(input, wire, r)
  {
    hide Served, StoppedInTime, Outcome, Flatten, Aligned;
    if aligned {
      FetchKeepsAligned(pending, chunks, pieces, wire.chunks, r);
    }
  }

  lemma FetchedNothing(chunks: seq<seq<byte>>, pending: seq<byte>, got: seq<seq<byte>>, rest: seq<seq<byte>>)
    requires Served(chunks, |pending|, got, rest) && got == []
    ensures rest == chunks
  {
  }

  /** One fetch, as a step through the stream. */
  lemma FetchedOne(stream: seq<byte>, start: nat, commands: seq<seq<byte>>, got: seq<seq<byte>>,
                   pending: seq<byte>, chunks: seq<seq<byte>>, pieces: seq<seq<byte>>, rest: seq<seq<byte>>, r: Fetched)
    requires Reached(stream, commands, pending + Flatten(chunks)) && EarlierSound(stream, start, got)
    requires |Flatten(chunks)| <= |stream| && End(start, got, |got|) == |stream| - |Flatten(chunks)|
    requires Served(chunks, |pending|, pieces, rest) && StoppedInTime(pending, pieces)
    requires |pending + Flatten(pieces)| <= BUFFER_SIZE
    requires Outcome(r, pending + Flatten(pieces), rest == []) && !r.OutOfBounds?
    ensures var all, unread := got + pieces, Flatten(rest);
            && |unread| <= |stream| && End(start, all, |all|) == |stream| - |unread|
            && EarlierSound(stream, start, all)
    ensures r.Command? ==>
              var n, window, unread := |r.text|, pending + Flatten(pieces), Flatten(rest);
              && n < |window|
              && (n + 1 == |window| ==> EndsTorn(stream, commands + [r.text], unread))
              && (n + 2 <= |window| ==> Reached(stream, commands + [r.text], window[n + 2..] + unread)
                                        && |window[n + 2..] + unread| < |pending + Flatten(chunks)|)
    ensures r.NoInput? ==> commands == Lines(stream) && Short(stream) && !Tears(stream, |stream| - |Flatten(rest)|)
    ensures r.TooBig? ==>
              && commands <= Lines(stream) && FirstBreak(Behind(stream, |commands|)) >= BUFFER_SIZE - 1
              && !Short(stream) && !Tears(stream, |stream| - |Flatten(rest)|)
  {
    hide Lines, FirstBreak, Behind, AfterTear, Short, Tears, Flatten, Served, StoppedInTime, EarlierSound, Reached, End;
    var window, unread := pending + Flatten(pieces), Flatten(rest);
    ServedBytes(chunks, |pending|, pieces, rest);
    Regroup(pending, Flatten(pieces), unread);
    assert SameTears(stream, window + unread) by { ReachedSame(stream, commands, window + unread); }
    EarlierEnds(stream, start, got, pending, pieces, unread);
    match r
    case Command(text) =>
      if |text| + 1 == |window| {
        CommandIsTorn(stream, commands, window, unread);
      } else {
        CommandIsCut(stream, commands, window, unread);
      }
    case NoInput =>
      FlattenNothing();
      NoCommandLeft(stream, commands, window, unread);
    case TooBig =>
      NoCommandLeft(stream, commands, window, unread);
  }

  lemma ReachedSame(stream: seq<byte>, commands: seq<seq<byte>>, rest: seq<byte>)
    requires Reached(stream, commands, rest)
    ensures SameTears(stream, rest)
  {
  }

  // ---------- what a client can rely on ----------

  ghost predicate AllUnbroken(lines: seq<seq<byte>>) {
    forall i :: 0 <= i < |lines| ==> Unbroken(lines[i])
  }

  /** Lines that a client sends in one piece. */
  ghost predicate SentTogether(lines: seq<seq<byte>>) {
    lines != [] && AllUnbroken(lines) && |Render(lines, [])| <= BUFFER_SIZE
  }

  lemma {:induction false} RenderIsWhole(lines: seq<seq<byte>>)
    requires AllUnbroken(lines)
    ensures Whole(Render(lines, [])) && (lines != [] ==> Render(lines, []) != [])
  {
    hide FirstBreak, Unbroken;
    if lines != [] {
      var s, tail := Render(lines, []), Render(lines[1..], []);
      RenderIsWhole(lines[1..]);
      RenderedBreak(lines[0], tail);
      assert s[|lines[0]| + 2..] == tail;
    }
  }

  lemma {:induction false} LinesBehindRender(lines: seq<seq<byte>>, rest: seq<byte>)
    requires AllUnbroken(lines)
    ensures Lines(Render(lines, []) + rest) == lines + Lines(rest)
  {
    hide FirstBreak, Unbroken, Lines;
    var s := Render(lines, []) + rest;
    if lines == [] {
      assert s == rest && lines + Lines(rest) == Lines(rest);
    } else {
      var n, more := |lines[0]|, Render(lines[1..], []) + rest;
      LinesBehindRender(lines[1..], rest);
      assert s == lines[0] + [CR, LF] + more;
      RenderedBreak(lines[0], more);
      FirstLine(lines[0], more);
      assert [lines[0]] + (lines[1..] + Lines(rest)) == lines + Lines(rest);
    }
  }

  lemma FirstLine(line: seq<byte>, rest: seq<byte>)
    requires FirstBreak(line + [CR, LF] + rest) == |line|
    ensures Lines(line + [CR, LF] + rest) == [line] + Lines(rest)
  {
    hide FirstBreak;
    var s := line + [CR, LF] + rest;
    assert s[..|line|] == line && s[|line| + 2..] == rest;
  }

  lemma RenderedBreak(line: seq<byte>, rest: seq<byte>)
    requires Unbroken(line)
    ensures FirstBreak(line + [CR, LF] + rest) == |line|
  {
    FirstBreakIs(line + [CR, LF] + rest, |line|);
  }

  function Pieces(groups: seq<seq<seq<byte>>>): (chunks: seq<seq<byte>>)
    ensures |chunks| == |groups| && forall i :: 0 <= i < |groups| ==> chunks[i] == Render(groups[i], [])
  {
    seq(|groups|, i requires 0 <= i < |groups| => Render(groups[i], []))
  }

  lemma {:induction false} LinesOfPieces(groups: seq<seq<seq<byte>>>)
    requires forall i :: 0 <= i < |groups| ==> SentTogether(groups[i])
    ensures Lines(Flatten(Pieces(groups))) == Flatten(groups)
  {
    hide Lines, FirstBreak, Render;
    if groups == [] {
      EmptyHasNoBreak();
      NoLines();
    } else {
      LinesOfPieces(groups[1..]);
      assert Pieces(groups)[1..] == Pieces(groups[1..]);
      LinesBehindRender(groups[0], Flatten(Pieces(groups[1..])));
    }
  }

  lemma NoLines()
    ensures Lines([]) == []
  {
  }

  /** A client that sends its lines in pieces of whole lines, each piece of at most 16K and
      arriving as it was sent, has exactly these lines executed, until it closes. */
  method FetchLines(groups: seq<seq<seq<byte>>>) returns (commands: seq<seq<byte>>, last: Fetched)
    requires forall i :: 0 <= i < |groups| ==> SentTogether(groups[i])
    ensures last.NoInput? && commands == Flatten(groups)
  {
    hide Lines, FirstBreak, Short, Tears, Whole, Render, Flatten, SomeTear, Unbroken, Reads;
    var chunks := Pieces(groups);
    forall i | 0 <= i < |chunks| ensures chunks[i] != [] && |chunks[i]| <= BUFFER_SIZE && Whole(chunks[i]) {
      assert SentTogether(groups[i]);
      RenderIsWhole(groups[i]);
    }
    var wire := new Wire(chunks);
    var input := new Input();
    NothingIsWhole();
    commands, last := FetchAll(input, wire);
    assert [] + Flatten(chunks) == Flatten(chunks);
    LinesOfPieces(groups);
  }

  lemma NothingIsWhole()
    ensures Whole([])
  {
  }

  /** How many bytes fit a line: a rendered stream is short exactly if all its lines are. */
  lemma {:induction false} ShortRender(lines: seq<seq<byte>>, tail: seq<byte>)
    requires AllUnbroken(lines) && Unbroken(tail)
    ensures Short(Render(lines, tail))
            <==> |tail| <= 16382 && forall i :: 0 <= i < |lines| ==> |lines[i]| <= 16382
  {
    hide FirstBreak, Unbroken;
    var s := Render(lines, tail);
    if lines == [] {
      EndsWithout(tail, true);
    } else {
      RenderedBreak(lines[0], Render(lines[1..], tail));
      assert s[|lines[0]| + 2..] == Render(lines[1..], tail);
      ShortRender(lines[1..], tail);
      assert forall i :: 0 < i < |lines| ==> lines[i] == lines[1..][i - 1];
    }
  }

  /** A line end that arrives in two pieces: "A" and CR, then LF. The command is executed,
      and the next fetch starts outside of the buffer. */
  method ATornLineEnd() returns (first: Fetched, second: Fetched)
    ensures first == Command([65]) && second == OutOfBounds
  {
    var wire := new Wire([[65, CR], [LF]]);
    var input := new Input();
    ghost var got;
    first, got := input.FetchNextCommand(wire);
    assert got != [];
    assert got[0] == [65, CR];
    if |got| > 1 {
      var most := got[..|got| - 1];
      assert [] + Flatten(most) == [65, CR] + Flatten(most[1..]);
      UnbrokenPrefix([65, CR], Flatten(most[1..]));
      assert IsBreak([65, CR][1]);
      assert false;
    }
    assert [] + Flatten(got) == [65, CR] + Flatten(got[1..]) == [65, CR];
    FirstBreakIs([65, CR], 1);
    assert [65, CR][..1] == [65];
    ghost var none;
    second, none := input.FetchNextCommand(wire);
  }
}
