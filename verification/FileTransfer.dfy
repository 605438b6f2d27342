/** The loops that move a file between the disk and the data connection
    (src/wfde/ftp/WfdeFtpSession.cpp, StartTransfer, SendFile, ReceiveFile). */
module FileTransfers {
  import opened Common
  import opened MappedFiles
  import opened AsciiFiles

  // ---------- the peers ----------

  /** How the stream of an uploading client ends: in order, with a socket error, or with
      bytes that arrive when the session has expired. */
  datatype Ending = Eof | Fault | Expired(last: seq<byte>)

  datatype Received = Data(bytes: seq<byte>) | EndOfStream | Failed | Lost(bytes: seq<byte>)

  /** An uploading client: the data it sends, in the pieces in which it arrives.  A read
      gets at most one piece, and no more of it than there is room for. */
  class Uploader {
    var arrivals: seq<seq<byte>>
    const ending: Ending
    const shutdownFails: bool

    constructor (arrivals: seq<seq<byte>>, ending: Ending, shutdownFails: bool)
      ensures this.arrivals == arrivals && this.ending == ending && this.shutdownFails == shutdownFails
    {
      this.arrivals, this.ending, this.shutdownFails := arrivals, ending, shutdownFails;
    }

    method ReadSome(room: nat) returns (r: Received)
      requires room > 0
      modifies this
      ensures r.Data? <==> old(arrivals) != []
      ensures r.Data? ==> var c := old(arrivals)[0];
                && |r.bytes| == Min(room, |c|) && r.bytes == c[..|r.bytes|]
                && arrivals == (if |c| <= room then [] else [c[room..]]) + old(arrivals)[1..]
      ensures r.EndOfStream? <==> old(arrivals) == [] && ending.Eof?
      ensures r.Failed? <==> old(arrivals) == [] && ending.Fault?
      ensures r.Lost? ==> |r.bytes| <= room
      ensures !r.Data? ==> arrivals == []
    {
      if arrivals == [] {
        match ending
        case Eof => return EndOfStream;
        case Fault => return Failed;
        case Expired(last) => return Lost(last[..Min(room, |last|)]);
      }
      var c := arrivals[0];
      var n := Min(room, |c|);
      arrivals := (if |c| <= room then [] else [c[room..]]) + arrivals[1..];
      return Data(c[..n]);
    }
  }

  datatype Delivery = Delivered | Broken | SessionGone

  /** A downloading client: its connection breaks after `capacity` more bytes, and its session
      expires with the write that gives it `lifetime` bytes in all. */
  class Downloader {
    var got: seq<byte>
    var capacity: nat
    const lifetime: Option<nat>

    constructor (capacity: nat, lifetime: Option<nat>)
      ensures got == [] && this.capacity == capacity && this.lifetime == lifetime
    {
      got, this.capacity, this.lifetime := [], capacity, lifetime;
    }

    /** The session is gone when the client has this many bytes. */
    predicate GoneAt(size: nat) {
      lifetime.Some? && lifetime.value <= size
    }

    method AsyncWrite(data: seq<byte>) returns (ok: bool)
      modifies this
      ensures ok <==> |data| <= old(capacity)
      ensures ok ==> got == old(got) + data && capacity == old(capacity) - |data|
      ensures !ok ==> got == old(got) + data[..old(capacity)] && capacity == 0
    {
      ok := |data| <= capacity;
      var n := Min(|data|, capacity);
      got, capacity := got + data[..n], capacity - n;
    }
  }

  // ---------- the file being transferred ----------

  /** Receiving this piece leaves a window that was not filled: in binary type the windows are
      segments, in ASCII type they have room for twice the piece. */
  predicate PieceLeavesGap(ttype: TransferType, segment: nat, localEol: seq<byte>, piece: seq<byte>)
    requires segment > 0
  {
    || piece == []
    || match ttype
       case BIN => |piece| % segment != 0
       case ASCII => |MapLines(piece, localEol)| < 2 * |piece|
  }

  ghost predicate SomePieceLeavesGap(ttype: TransferType, segment: nat, localEol: seq<byte>, pieces: seq<seq<byte>>)
    requires segment > 0
  {
    exists p :: p in pieces && PieceLeavesGap(ttype, segment, localEol, p)
  }

  /** The current file of a transfer: the file itself, or wrapped for ASCII. */
  datatype CurrentFile = Binary(file: MappedFile) | Ascii(ascii: AsciiFile) {

    function Inner(): MappedFile {
      match this case Binary(f) => f case Ascii(a) => a.file
    }

    function Repr(): set<object> {
      {Inner(), Inner().disk} + (if Ascii? then {ascii} else {})
    }

    ghost predicate Valid()
      reads Repr()
    {
      Inner().Valid() && (Ascii? ==> ascii.Valid())
    }

    ghost predicate Ready()
      reads Repr()
    {
      Valid() && Inner().Ready() && Inner().disk.kind == Regular
    }

    function Type(): TransferType { if Binary? then BIN else ASCII }

    function LocalEol(): seq<byte> { if Binary? then [] else ascii.localEol }

    /** What the disk keeps of received data. */
    function Stored(data: seq<byte>): seq<byte> { InForm(Type(), LocalEol(), data) }

    /** What the network carries of file content. */
    function Sent(data: seq<byte>): seq<byte> { InForm(Type(), CRLF, data) }

    predicate LeavesGap(piece: seq<byte>)
      requires Inner().segment > 0
    {
      PieceLeavesGap(Type(), Inner().segment, LocalEol(), piece)
    }

    ghost predicate SomeGap(pieces: seq<seq<byte>>)
      requires Inner().segment > 0
    {
      SomePieceLeavesGap(Type(), Inner().segment, LocalEol(), pieces)
    }

    /** A piece that is received in two reads. */
    lemma LeavesGapSplit(piece: seq<byte>, room: nat)
      requires Inner().segment > 0 && 0 < room < |piece|
      requires Binary? ==> room == Inner().segment
      requires Ascii? ==> |ascii.localEol| <= 2
      ensures LeavesGap(piece) <==> LeavesGap(piece[..room]) || LeavesGap(piece[room..])
    {
      match this
      case Binary(f) =>
        OneSegmentLess(|piece|, room);
      case Ascii(a) =>
        assert piece == piece[..room] + piece[room..];
        MapLinesAppend(piece[..room], piece[room..], a.localEol);
        MapLinesAtMostDoubles(piece[..room], a.localEol);
        MapLinesAtMostDoubles(piece[room..], a.localEol);
    }

    lemma StoredAppend(a: seq<byte>, b: seq<byte>)
      ensures Stored(a + b) == Stored(a) + Stored(b) && Sent(a + b) == Sent(a) + Sent(b)
    {
      if Ascii? {
        MapLinesAppend(a, b, ascii.localEol);
        MapLinesAppend(a, b, CRLF);
      }
    }

    lemma NothingOfNothing()
      requires Inner().segment > 0
      ensures Stored([]) == [] && Sent([]) == [] && !SomeGap([]) && Flatten<byte>([]) == []
    {
    }

    lemma SentCut(content: seq<byte>, a: nat, b: nat, c: nat)
      requires a <= b <= c <= |content|
      ensures Sent(content[a..c]) == Sent(content[a..b]) + Sent(content[b..c])
    {
      assert content[a..c] == content[a..b] + content[b..c];
      StoredAppend(content[a..b], content[b..c]);
    }

    /** One round of the receive loop: a buffer, a read, and the count of what was read. */
    method Receive(peer: Uploader) returns (r: Received)
      requires Ready()
      modifies Repr(), peer
      ensures Valid() && Inner().disk.kind == Regular
      ensures Advanced(this, peer, r)
    {
      match this
      case Binary(f) => r := ReceiveBinary(f, peer);
      case Ascii(a) => r := ReceiveAscii(a, peer);
    }

    method ReceiveBinary(f: MappedFile, peer: Uploader) returns (r: Received)
      requires Ready() && this == Binary(f)
      modifies f, f.disk, peer
      ensures Valid() && f.disk.kind == Regular
      ensures Advanced(this, peer, r)
    {
      hide Flatten, GrownSize, WritableBytes, PieceLeavesGap, SomePieceLeavesGap;
      ghost var was := peer.arrivals;
      WriteAssertHolds(f.pos, f.segment, f.segment);
      var window := f.Write(0);
      r := peer.ReadSome(window.len);
      match r {
        case Data(bytes) =>
          f.Append(window, bytes);
          NextPiece(was, window.len, peer.arrivals);
        case EndOfStream => f.Append(window, []);
        case Failed =>
        case Lost(bytes) => f.StoreInWindow(window, 0, bytes);
      }
    }

    method ReceiveAscii(a: AsciiFile, peer: Uploader) returns (r: Received)
      requires Ready() && this == Ascii(a)
      modifies a, a.file, a.file.disk, peer
      ensures Valid() && a.file.disk.kind == Regular
      ensures Advanced(this, peer, r)
    {
      hide Flatten, MapLines, SomePieceLeavesGap;
      ghost var was := peer.arrivals;
      var room := a.Write(0);
      r := peer.ReadSome(room);
      match r {
        case Data(bytes) =>
          a.Fill(bytes);
          a.SetBytesWritten(|bytes|);
          NextPiece(was, room, peer.arrivals);
        case EndOfStream =>
          MapLinesNil(a.localEol);
          assert a.buffer[..0] == [];
          a.SetBytesWritten(0);
        case Failed =>
        case Lost(bytes) => a.Fill(bytes);
      }
    }

    lemma SomeGapCons(piece: seq<byte>, rest: seq<seq<byte>>)
      requires Inner().segment > 0
      ensures SomeGap([piece] + rest) <==> LeavesGap(piece) || SomeGap(rest)
    {
      assert piece in [piece] + rest;
      assert forall p :: p in [piece] + rest <==> p == piece || p in rest;
    }

    /** The bookkeeping of one read from a non-empty stream. */
    lemma NextPiece(was: seq<seq<byte>>, room: nat, now: seq<seq<byte>>)
      requires Inner().segment > 0 && was != [] && room > 0
      requires Binary? ==> room == Inner().segment
      requires Ascii? ==> |ascii.localEol| <= 2
      requires now == (if |was[0]| <= room then [] else [was[0][room..]]) + was[1..]
      ensures var read := was[0][..Min(room, |was[0]|)];
              && Flatten(was) == read + Flatten(now)
              && |now| + |Flatten(now)| < |was| + |Flatten(was)|
              && (SomeGap(was) <==> LeavesGap(read) || SomeGap(now))
              && (Binary? ==> (LeavesGap(read) <==> |read| < room))
    {
      var c, rest := was[0], was[1..];
      assert was == [c] + rest;
      SomeGapCons(c, rest);
      if |c| <= room {
        assert now == rest && c[..|c|] == c;
        ShortOfOneSegment(|c|, room);
      } else {
        LeavesGapSplit(c, room);
        SomeGapCons(c[room..], rest);
        FlattenSplit(c, rest, room);
        ShortOfOneSegment(room, room);
      }
    }
  }

  lemma FlattenSplit(c: seq<byte>, rest: seq<seq<byte>>, room: nat)
    requires room <= |c|
    ensures Flatten([c] + rest) == c[..room] + Flatten([c[room..]] + rest)
  {
    assert ([c] + rest)[1..] == rest && ([c[room..]] + rest)[1..] == rest;
    var tail := Flatten(rest);
    assert Flatten([c] + rest) == c + tail && Flatten([c[room..]] + rest) == c[room..] + tail;
    assert c == c[..room] + c[room..];
  }

  /** What one round of the receive loop has done: received data, and nothing else, was
      added to what the file keeps; the file extends beyond that unless nothing was ever
      written; a short write is on record or still to come exactly if it was before. */
  twostate predicate Advanced(cur: CurrentFile, peer: Uploader, r: Received)
    requires old(cur.Valid()) && cur.Valid()
    reads cur.Repr(), peer
  {
    var f := cur.Inner();
    && (r.Data? <==> old(peer.arrivals) != [])
    && (r.EndOfStream? <==> old(peer.arrivals) == [] && peer.ending.Eof?)
    && (r.Data? || r.EndOfStream? ==> cur.Ready())
    && f.Committed() == old(f.Committed()) + (if r.Data? then cur.Stored(r.bytes) else [])
    && (f.fileSize > f.endOfFile <==>
        r.Data? || r.EndOfStream? || cur.Binary? || old(f.fileSize > f.endOfFile))
    && (r.Data? ==> Flatten(old(peer.arrivals)) == r.bytes + Flatten(peer.arrivals)
                    && |peer.arrivals| + |Flatten(peer.arrivals)|
                       < |old(peer.arrivals)| + |Flatten(old(peer.arrivals))|)
    && (!r.Data? ==> peer.arrivals == [])
    && (f.doTruncate || cur.SomeGap(peer.arrivals)
        <==> old(f.doTruncate) || cur.SomeGap(old(peer.arrivals)) || r.EndOfStream?)
  }

  lemma ShortOfOneSegment(x: nat, segment: nat)
    requires 0 < segment && x <= segment
    ensures x % segment == 0 <==> x == 0 || x == segment
  {
    if x == segment {
      OneSegmentLess(x, segment);
    }
  }

  lemma OneSegmentLess(x: nat, segment: nat)
    requires 0 < segment <= x
    ensures x % segment == 0 <==> (x - segment) % segment == 0
  {
    var q, q' := x / segment, (x - segment) / segment;
    assert x == segment * q + x % segment && x - segment == segment * q' + (x - segment) % segment;
    if x % segment == 0 {
      assert x - segment == (q - 1) * segment;
      MultipleIsAligned(q - 1, segment);
    }
    if (x - segment) % segment == 0 {
      assert x == (q' + 1) * segment;
      MultipleIsAligned(q' + 1, segment);
    }
  }

  // ---------- uploads ----------

  /** What the receive loop leaves behind: the file keeps what it had and, behind it,
      everything that was received. */
  ghost predicate Settled(cur: CurrentFile, before: seq<byte>, pieces: seq<seq<byte>>, eof: bool)
    reads cur.Repr()
  {
    var f := cur.Inner();
    && f.Closable() && f.disk.kind == Regular && f.endOfFile <= |f.disk.content|
    && f.disk.content[..f.endOfFile] == before + cur.Stored(Flatten(pieces))
    && (f.doTruncate <==> eof || cur.SomeGap(pieces))
    && (f.fileSize > f.endOfFile <==> eof || cur.Binary? || pieces != [])
  }

  /** Between two rounds of the receive loop: `got` is what was received so far of the
      stream `pieces`, and `r` what the last read answered. */
  ghost predicate Underway(cur: CurrentFile, peer: Uploader, before: seq<byte>, pieces: seq<seq<byte>>,
                           got: seq<byte>, r: Received)
    reads cur.Repr(), peer
  {
    var f := cur.Inner();
    && cur.Valid() && f.disk.kind == Regular && (r.Data? ==> cur.Ready())
    && Flatten(pieces) == got + Flatten(peer.arrivals)
    && f.Committed() == before + cur.Stored(got)
    && (f.doTruncate || cur.SomeGap(peer.arrivals) <==> cur.SomeGap(pieces) || r.EndOfStream?)
    && (f.fileSize > f.endOfFile
        <==> if r.Data? then peer.arrivals != pieces else r.EndOfStream? || cur.Binary? || pieces != [])
    && (r.Data? && peer.arrivals != pieces ==>
          pieces != [] && |peer.arrivals| + |Flatten(peer.arrivals)| < |pieces| + |Flatten(pieces)|)
    && (!r.Data? ==> peer.arrivals == [] && (r.EndOfStream? <==> peer.ending.Eof?))
  }

  method ReceiveLoop(cur: CurrentFile, peer: Uploader)
    requires cur.Ready() && !cur.Inner().doTruncate
    requires cur.Inner().fileSize == cur.Inner().endOfFile
    modifies cur.Repr(), peer
    ensures cur.Valid()
    ensures Settled(cur, old(cur.Inner().disk.content), old(peer.arrivals), peer.ending.Eof?)
  {
    ghost var pieces, before := peer.arrivals, cur.Inner().disk.content;
    ghost var got: seq<byte> := [];
    cur.NothingOfNothing();
    var r := Data([]);
    assert Underway(cur, peer, before, pieces, got, r);
    hide Underway, Flatten, Settled;
    while r.Data?
      invariant Underway(cur, peer, before, pieces, got, r)
      decreases r.Data?, |peer.arrivals| + |Flatten(peer.arrivals)|
    {
      r, got := ReceiveRound(cur, peer, before, pieces, got, r);
    }
    SettledNow(cur, peer, before, pieces, got, r);
  }

  method ReceiveRound(cur: CurrentFile, peer: Uploader, ghost before: seq<byte>,
                      ghost pieces: seq<seq<byte>>, ghost got: seq<byte>, ghost last: Received)
      returns (r: Received, ghost more: seq<byte>)
    requires last.Data? && Underway(cur, peer, before, pieces, got, last)
    modifies cur.Repr(), peer
    ensures Underway(cur, peer, before, pieces, more, r)
    ensures r.Data? ==> |peer.arrivals| + |Flatten(peer.arrivals)|
                        < |old(peer.arrivals)| + |Flatten(old(peer.arrivals))|
  {
    hide MapLines, Flatten, CurrentFile.Stored, CurrentFile.SomeGap, CurrentFile.LeavesGap;
    more := got;
    r := cur.Receive(peer);
    if r.Data? {
      cur.StoredAppend(got, r.bytes);
      more := got + r.bytes;
      assert got + (r.bytes + Flatten(peer.arrivals)) == more + Flatten(peer.arrivals);
    }
  }

  lemma SettledNow(cur: CurrentFile, peer: Uploader, before: seq<byte>, pieces: seq<seq<byte>>,
                   got: seq<byte>, r: Received)
    requires Underway(cur, peer, before, pieces, got, r) && !r.Data?
    ensures cur.Valid() && Settled(cur, before, pieces, peer.ending.Eof?)
  {
    cur.NothingOfNothing();
    assert got == Flatten(pieces);
  }

  /** The file is closed here only when the stream ended and was shut down in order. */
  method ReceiveFile(cur: CurrentFile, peer: Uploader) returns (ok: bool)
    requires cur.Ready() && !cur.Inner().doTruncate
    requires cur.Inner().fileSize == cur.Inner().endOfFile
    modifies cur.Repr(), peer
    ensures ok == (peer.ending.Eof? && !peer.shutdownFails)
    ensures Settled(cur, old(cur.Inner().disk.content), old(peer.arrivals), peer.ending.Eof?)
  {
    ReceiveLoop(cur, peer);
    ok := peer.ending.Eof? && !peer.shutdownFails;
    if ok {
      cur.Inner().Close();
    }
  }

  /** A whole upload with the clean-up behind it, whose destructor closes the file (again).
      Ended by end-of-stream, the disk has exactly the received data behind what it had,
      whatever the pieces.  After any other end the data is still all there, and the
      over-allocated space is cut off exactly if some piece left a window unfilled (or, in
      ASCII type, no piece was received at all). */
  method Upload(cur: CurrentFile, peer: Uploader) returns (ok: bool)
    requires cur.Ready() && !cur.Inner().doTruncate
    requires cur.Inner().fileSize == cur.Inner().endOfFile
    modifies cur.Repr(), peer
    ensures var disk := cur.Inner().disk;
            var kept := old(disk.content) + cur.Stored(Flatten(old(peer.arrivals)));
            && ok == (peer.ending.Eof? && !peer.shutdownFails)
            && kept <= disk.content
            && (disk.content == kept <==>
                || peer.ending.Eof?
                || cur.SomeGap(old(peer.arrivals))
                || (cur.Ascii? && old(peer.arrivals) == []))
  {
    ok := ReceiveFile(cur, peer);
    cur.Inner().Close();
  }

  /** STOR, STOU and APPE as the client sees them: open, wrap for the transfer type,
      receive, close.  After a failure, too, everything received is there; zeros are left
      behind it unless some piece left a gap or, in ASCII type, nothing was received. */
  method StoreFile(disk: DiskNode, operation: Operation, segment: nat,
                   ttype: TransferType, localEol: seq<byte>, peer: Uploader)
      returns (r: Result<bool, FileError>)
    requires operation != READ && segment >= 2 && |localEol| <= 2
    modifies disk, peer
    ensures r.Err? <==> if operation == WRITE_NEW then old(disk.kind) != Missing
                        else old(disk.kind) == Special
    ensures r.Err? ==> disk.content == old(disk.content) && disk.kind == old(disk.kind)
    ensures r.Ok? ==>
              var before := if operation == APPEND && old(disk.kind) == Regular then old(disk.content) else [];
              var came := Flatten(old(peer.arrivals));
              var kept := before + if ttype == BIN then came else MapLines(came, localEol);
              && r.value == (peer.ending.Eof? && !peer.shutdownFails)
              && kept <= disk.content
              && (disk.content == kept <==>
                  || peer.ending.Eof?
                  || SomePieceLeavesGap(ttype, segment, localEol, old(peer.arrivals))
                  || (ttype == ASCII && old(peer.arrivals) == []))
  {
    var file := MappedFile.Open(disk, operation, segment);
    if file.Err? {
      return Err(file.error);
    }
    var cur := Binary(file.value);
    if ttype == ASCII {
      var ascii := new AsciiFile(file.value, localEol);
      cur := Ascii(ascii);
    }
    ghost var arrivals := peer.arrivals;
    var ok := Upload(cur, peer);
    GapIgnoresEol(segment, localEol, arrivals);
    return Ok(ok);
  }

  lemma GapIgnoresEol(segment: nat, localEol: seq<byte>, pieces: seq<seq<byte>>)
    requires segment > 0
    ensures SomePieceLeavesGap(BIN, segment, localEol, pieces) <==> SomePieceLeavesGap(BIN, segment, [], pieces)
  {
    assert forall p :: PieceLeavesGap(BIN, segment, localEol, p) <==> PieceLeavesGap(BIN, segment, [], p);
  }

  /** A binary upload of one full segment whose connection fails behind it: the data is
      stored, and zeros behind it. */
  method FailedUploadLeavesZeros(segment: nat, piece: seq<byte>) returns (disk: DiskNode)
    requires segment >= 2 && |piece| == segment
    ensures piece < disk.content
  {
    disk := new DiskNode(Missing, []);
    var peer := new Uploader([piece], Fault, false);
    assert piece in [piece];
    OneSegmentLess(segment, segment);
    assert Flatten([piece]) == piece + Flatten([piece][1..]) == piece;
    assert !SomePieceLeavesGap(BIN, segment, [], [piece]);
    var r := StoreFile(disk, WRITE, segment, BIN, [], peer);
  }

  // ---------- downloads ----------

  /** The send loop emits the file from its position to its end, as the transfer type
      encodes it, and succeeds exactly if the connection carries that much and the session
      does not expire with a write; otherwise the client has a part of it: all that the
      connection carries, or what was written when the session was found to be gone. */
  method SendFile(cur: CurrentFile, peer: Downloader) returns (r: Delivery)
    requires cur.Valid() && !cur.Inner().doTruncate
    modifies cur.Repr(), peer
    ensures var f := cur.Inner();
            var sent := cur.Sent(old(f.disk.content[f.pos..f.fileSize]));
            && f.disk.content == old(f.disk.content)
            && Carried(peer, sent, r)
  {
    hide MapLines, Flatten;
    var f := cur.Inner();
    ghost var content, sent := f.disk.content, cur.Sent(f.disk.content[f.pos..f.fileSize]);
    ghost var was, capacity := peer.got, peer.capacity;
    r := Delivered;
    cur.NothingOfNothing();
    assert Sending(cur, peer, content, sent, was, capacity, r);
    hide Sending;
    while r.Delivered? && !f.IsEof()
      invariant Sending(cur, peer, content, sent, was, capacity, r)
      decreases f.fileSize - f.pos
    {
      r := SendRound(cur, peer, content, sent, was, capacity);
    }
    SendingEnds(cur, peer, content, sent, was, capacity, r);
    if r.Delivered? {
      f.Close();
    }
  }

  /** Between two rounds of the send loop: what is sent and what is still to be sent make up
      `sent`, behind what the client had before. */
  ghost predicate Sending(cur: CurrentFile, peer: Downloader, content: seq<byte>, sent: seq<byte>,
                          was: seq<byte>, capacity: nat, r: Delivery)
    reads cur.Repr(), peer
  {
    var f := cur.Inner();
    && cur.Valid() && f.disk.content == content && !f.doTruncate && was <= peer.got
    && (r.Delivered? ==> peer.got + cur.Sent(content[f.pos..f.fileSize]) == was + sent
                         && |peer.got| + peer.capacity == |was| + capacity
                         && (peer.GoneAt(|peer.got|) ==> peer.got == was))
    && (r.Broken? ==> |sent| > capacity && peer.got == was + sent[..capacity])
    && (r.SessionGone? ==> was < peer.got <= was + sent && peer.GoneAt(|peer.got|)
                           && |peer.got| <= |was| + capacity)
  }

  method SendRound(cur: CurrentFile, peer: Downloader, ghost content: seq<byte>, ghost sent: seq<byte>,
                   ghost was: seq<byte>, ghost capacity: nat) returns (r: Delivery)
    requires Sending(cur, peer, content, sent, was, capacity, Delivered) && !cur.Inner().IsEof()
    modifies cur.Repr(), peer
    ensures Sending(cur, peer, content, sent, was, capacity, r)
    ensures old(cur.Inner().pos) < cur.Inner().pos && cur.Inner().fileSize == old(cur.Inner().fileSize)
  {
    hide MapLines, CurrentFile.Sent;
    ghost var f, from, had := cur.Inner(), cur.Inner().pos, peer.got;
    r := SendNext(cur, peer);
    cur.SentCut(content, from, f.pos, f.fileSize);
    ghost var part, rest := cur.Sent(content[from..f.pos]), cur.Sent(content[f.pos..f.fileSize]);
    assert had + (part + rest) == (had + part) + rest;
    if r.Broken? {
      assert peer.got == (was + sent)[..|was| + capacity];
    }
  }

  lemma SendingEnds(cur: CurrentFile, peer: Downloader, content: seq<byte>, sent: seq<byte>,
                    was: seq<byte>, capacity: nat, r: Delivery)
    requires Sending(cur, peer, content, sent, was, capacity, r)
    requires r.Delivered? ==> cur.Inner().IsEof()
    ensures cur.Inner().disk.content == content && cur.Valid() && !cur.Inner().doTruncate
    ensures r.Delivered? ==> peer.got == was + sent && |sent| <= capacity
                             && (sent == [] || !peer.GoneAt(|was| + |sent|))
    ensures r.Broken? ==> |sent| > capacity && peer.got == was + sent[..capacity]
    ensures r.SessionGone? ==> was < peer.got <= was + sent && peer.GoneAt(|peer.got|)
                               && |peer.got| <= |was| + capacity
  {
    cur.NothingOfNothing();
    var f := cur.Inner();
    if r.Delivered? {
      assert content[f.pos..f.fileSize] == [];
    }
  }

  /** What became of the bytes to send. */
  twostate predicate Carried(peer: Downloader, sent: seq<byte>, r: Delivery)
    reads peer
  {
    && (r.Delivered? <==> |sent| <= old(peer.capacity)
                          && (sent == [] || !peer.GoneAt(|old(peer.got)| + |sent|)))
    && (r.Delivered? ==> peer.got == old(peer.got) + sent)
    && (r.Broken? ==> |sent| > old(peer.capacity) && peer.got == old(peer.got) + sent[..old(peer.capacity)])
    && (r.SessionGone? ==> old(peer.got) < peer.got <= old(peer.got) + sent && peer.GoneAt(|peer.got|)
                           && |peer.got| <= |old(peer.got)| + old(peer.capacity))
  }

  /** One round of the send loop; an empty buffer is not written. */
  method SendNext(cur: CurrentFile, peer: Downloader) returns (r: Delivery)
    requires cur.Valid() && !cur.Inner().IsEof()
    modifies cur.Repr(), peer
    ensures cur.Valid()
    ensures var f := cur.Inner();
            && old(f.pos) < f.pos && f.fileSize == old(f.fileSize)
            && f.doTruncate == old(f.doTruncate) && f.disk.content == old(f.disk.content)
    ensures var f := cur.Inner();
            var sent := cur.Sent(f.disk.content[old(f.pos)..f.pos]);
            && Carried(peer, sent, r)
            && (!r.Broken? ==> peer.got == old(peer.got) + sent && peer.capacity == old(peer.capacity) - |sent|)
  {
    var buffer := ReadNext(cur);
    if |buffer| == 0 {
      return Delivered;
    }
    var ok := peer.AsyncWrite(buffer);
    if !ok {
      return Broken;
    }
    return if peer.GoneAt(|peer.got|) then SessionGone else Delivered;
  }

  /** The next buffer of the current file, somewhere before its end. */
  method ReadNext(cur: CurrentFile) returns (buffer: seq<byte>)
    requires cur.Valid() && !cur.Inner().IsEof()
    modifies cur.Repr()
    ensures cur.Valid() && old(cur.Inner().pos) < cur.Inner().pos
    ensures cur.Inner().disk.content == old(cur.Inner().disk.content)
    ensures cur.Inner().fileSize == old(cur.Inner().fileSize)
    ensures cur.Inner().doTruncate == old(cur.Inner().doTruncate)
    ensures buffer == cur.Sent(cur.Inner().disk.content[old(cur.Inner().pos)..cur.Inner().pos])
  {
    match cur
    case Binary(f) =>
      var w := f.Read(0);
      buffer := f.Peek(w.value);
    case Ascii(a) =>
      var mapped := a.Read(0);
      buffer := mapped.value;
  }

  /** RETR as the client sees it: open, wrap for the transfer type, send. */
  method RetrieveFile(disk: DiskNode, segment: nat, ttype: TransferType, localEol: seq<byte>, peer: Downloader)
      returns (r: Result<Delivery, FileError>)
    requires segment >= 2 && |localEol| <= 2
    modifies disk, peer
    ensures r.Err? <==> old(disk.kind) != Regular
    ensures r.Err? ==> peer.got == old(peer.got)
    ensures disk.content == old(disk.content)
    ensures r.Ok? ==> Carried(peer, if ttype == BIN then disk.content else MapLines(disk.content, CRLF), r.value)
  {
    var file := MappedFile.Open(disk, READ, segment);
    if file.Err? {
      return Err(file.error);
    }
    var cur := Binary(file.value);
    if ttype == ASCII {
      var ascii := new AsciiFile(file.value, localEol);
      cur := Ascii(ascii);
    }
    assert disk.content[file.value.pos..file.value.fileSize] == disk.content;
    var delivery := SendFile(cur, peer);
    return Ok(delivery);
  }
}
