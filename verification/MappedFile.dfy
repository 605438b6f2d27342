/** A file of the server, read and written through a sliding window that the
    operating system maps over it (src/wfde/WfdeFile.cpp, src/wfde/WfdeFile.h). */
module MappedFiles {
  import opened Common

  datatype NodeKind = Missing | Regular | Special

  /** A node of the file system.  A mapped window aliases `content`: a byte stored
      through the window is a byte of the file. */
  class DiskNode {
    var kind: NodeKind
    var content: seq<byte>

    constructor (kind: NodeKind, content: seq<byte>)
      ensures this.kind == kind && this.content == content
    {
      this.kind := kind;
      this.content := content;
    }

    method Resize(size: nat)
      modifies this
      ensures content == Resized(old(content), size) && kind == old(kind)
    {
      content := if size <= |content| then content[..size]
                 else content + seq(size - |content|, _ => 0 as byte);
    }

    method Store(at: nat, data: seq<byte>)
      requires at + |data| <= |content|
      modifies this
      ensures content == Overwritten(old(content), at, data) && kind == old(kind)
    {
      content := content[..at] + data + content[at + |data|..];
    }
  }

  /** Shrinking drops the tail, growing appends zeros. */
  function Resized(content: seq<byte>, size: nat): (r: seq<byte>)
    ensures |r| == size
    ensures forall n :: 0 <= n <= size && n <= |content| ==> r[..n] == content[..n]
  {
    if size <= |content| then content[..size]
    else content + seq(size - |content|, _ => 0 as byte)
  }

  function Overwritten(content: seq<byte>, at: nat, data: seq<byte>): (r: seq<byte>)
    requires at + |data| <= |content|
    ensures |r| == |content|
    ensures r[..at + |data|] == content[..at] + data
  {
    content[..at] + data + content[at + |data|..]
  }

  datatype Operation = READ | WRITE | WRITE_NEW | APPEND

  datatype FileError = AlreadyExists | NotFound | MapFailed | SeekBeyondEof | IoError

  /** The bytes [offset, offset + len) of the mapped region. */
  datatype Window = Window(offset: nat, len: nat)

  const REGION_SEGMENTS := 8
  const GROW_SEGMENTS := 8 * 128

  /** The region limit in bytes: no mapping is larger. */
  function RegionLimit(segment: nat): nat { REGION_SEGMENTS * segment }

  /** How far a write request at `pos` reaches: `Write` asserts that this is the
      whole request. */
  function WritableBytes(pos: nat, want: nat, segment: nat): (n: int)
    requires segment > 0
  {
    Min(want, RegionLimit(segment) - pos % segment)
  }

  /** The file size that a write request of `want` bytes at `pos` leaves behind. */
  function GrownSize(pos: nat, want: nat, size: nat, segment: nat): (n: nat)
    requires segment > 0
  {
    var room := pos + want + segment;
    if room <= size then size
    else Max(room / segment * segment + (if room % segment != 0 then segment else 0),
             size + GROW_SEGMENTS * segment)
  }

  /** Growing leaves room for the request and for one more segment, never shrinks the
      file, and grows it by at least 1024 segments when it grows at all. */
  lemma GrownSizeHasRoom(pos: nat, want: nat, size: nat, segment: nat)
    requires segment > 0
    ensures var n := GrownSize(pos, want, size, segment);
            && pos + want + segment <= n
            && (n == size || size + GROW_SEGMENTS * segment <= n)
            && (n == size <==> pos + want + segment <= size)
  {
    var room := pos + want + segment;
    SegmentStart(room, segment);
  }

  /** The segment boundary at or below x. */
  lemma SegmentStart(x: nat, segment: nat)
    requires segment > 0
    ensures x / segment * segment == x - x % segment
    ensures 0 <= x % segment < segment
    ensures (x / segment * segment) % segment == 0
  {
    var q := x / segment;
    assert x == segment * q + x % segment;
    MultipleIsAligned(q, segment);
  }

  lemma MultipleIsAligned(q: nat, segment: nat)
    requires segment > 0
    ensures (q * segment) % segment == 0
  {
    var m := q * segment;
    assert m == segment * (m / segment) + m % segment;
    MultiplesAreApart(q - m / segment, segment);
  }

  lemma MultiplesAreApart(k: int, segment: nat)
    ensures k >= 1 ==> k * segment >= segment
    ensures k <= -1 ==> k * segment + segment <= 0
  {
    if k >= 1 {
      assert (k - 1) * segment >= 0;
    } else if k <= -1 {
      assert (-k - 1) * segment >= 0;
    }
  }

  /** Where `Write`'s `WAR_ASSERT(bytes <= b.second)` holds: exactly when the request
      and the part of the first segment before it fit the region limit together.
      Seven segments always do. */
  lemma WriteAssertHolds(pos: nat, want: nat, segment: nat)
    requires segment > 0
    ensures WritableBytes(pos, want, segment) == want
            <==> pos % segment + want <= RegionLimit(segment)
    ensures want <= 7 * segment ==> WritableBytes(pos, want, segment) == want
  {
    SegmentStart(pos, segment);
  }

  /** Eight segments from the middle of a segment do not fit. */
  lemma WriteAssertCanFail()
    ensures WritableBytes(1, 8 * 4096, 4096) < 8 * 4096
  {
  }

  class MappedFile {
    const disk: DiskNode
    const operation: Operation
    const segment: nat
    var pos: nat
    var regionStart: nat
    var regionLen: nat
    var fileSize: nat          // length of the file as this object knows it
    var endOfFile: nat         // the "real" end: initial size and the bytes written
    var lastBufferLen: nat     // length of the last window handed out
    var doTruncate: bool
    var closed: bool
    var haveMappedFile: bool
    var haveMappedRegion: bool

    ghost predicate Shape()
      reads this
    {
      && segment > 0
      && !closed  // never set, see `Close`
      && pos <= fileSize
      && endOfFile <= fileSize
      && (haveMappedRegion ==> haveMappedFile)
      && (haveMappedRegion ==> regionStart + regionLen <= fileSize)
    }

    /** The file is in use: what this object believes about its length is true. */
    ghost predicate Valid()
      reads this, disk
    {
      Shape() && |disk.content| == fileSize
    }

    /** The file may be closed, for the first time or again. */
    ghost predicate Closable()
      reads this, disk
    {
      Shape() && (|disk.content| == fileSize
                  || (doTruncate && endOfFile < fileSize && |disk.content| == endOfFile))
    }

    /** What this object will keep of the file. */
    ghost function Committed(): seq<byte>
      requires Valid()
      reads this, disk
    {
      disk.content[..endOfFile]
    }

    /** An upload is between two writes. */
    ghost predicate Ready()
      reads this, disk
    {
      Valid() && operation != READ && pos == endOfFile
    }

    constructor (disk: DiskNode, operation: Operation, segment: nat)
      requires segment > 0
      ensures this.disk == disk && this.operation == operation && this.segment == segment
      ensures Valid() && pos == 0 && !doTruncate && !closed && haveMappedFile && !haveMappedRegion
      ensures endOfFile == fileSize == |disk.content| && lastBufferLen == 0
    {
      this.disk, this.operation, this.segment := disk, operation, segment;
      pos, regionStart, regionLen, lastBufferLen := 0, 0, 0, 0;
      endOfFile, fileSize := |disk.content|, |disk.content|;
      doTruncate, closed := false, false;
      haveMappedFile, haveMappedRegion := true, false;
    }

    /** The constructor of `WfdeFile`: check the node against the operation, create or
        empty it, and position an append at the end. */
    static method Open(disk: DiskNode, operation: Operation, segment: nat)
        returns (r: Result<MappedFile, FileError>)
      requires segment > 0
      modifies disk
      ensures r == Err(AlreadyExists) <==> operation == WRITE_NEW && old(disk.kind) != Missing
      ensures r == Err(NotFound) <==> operation == READ && old(disk.kind) != Regular
      ensures r == Err(IoError) <==> operation in {WRITE, APPEND} && old(disk.kind) == Special
      ensures r.Err? ==> disk.kind == old(disk.kind) && disk.content == old(disk.content)
                         && r.error in {AlreadyExists, NotFound, IoError}
      ensures r.Ok? ==> var f := r.value;
                && fresh(f) && f.disk == disk && f.operation == operation && f.segment == segment
                && f.Valid() && !f.doTruncate && disk.kind == Regular
                && disk.content == (if operation in {READ, APPEND} && old(disk.kind) == Regular
                                    then old(disk.content) else [])
                && f.endOfFile == |disk.content|
                && f.pos == (if operation == APPEND then f.endOfFile else 0)
    {
      var mustExist, truncateIfExists := true, false;
      if operation == WRITE_NEW && disk.kind != Missing {
        return Err(AlreadyExists);
      }
      if operation != READ {
        mustExist := false;
        truncateIfExists := operation != APPEND;
      }
      if mustExist {
        if disk.kind != Regular {
          return Err(NotFound);
        }
      } else if disk.kind != Missing {
        if disk.kind == Special {
          return Err(IoError);
        }
        if truncateIfExists {
          disk.Resize(0);
        }
      } else {
        disk.kind, disk.content := Regular, [];
      }
      var f := new MappedFile(disk, operation, segment);
      if operation == APPEND {
        var sought := f.Seek(f.endOfFile);
      }
      return Ok(f);
    }

    method Seek(to: nat) returns (r: Result<nat, FileError>)
      requires Valid()
      modifies this`pos
      ensures Valid()
      ensures to > fileSize ==> r == Err(SeekBeyondEof) && pos == old(pos)
      ensures to <= fileSize ==> r == Ok(to) && pos == to
    {
      if to > fileSize {
        return Err(SeekBeyondEof);
      }
      pos := to;
      return Ok(to);
    }

    predicate IsEof()
      reads this
    {
      pos == fileSize
    }

    /** Map the region that holds `pos`; an empty region cannot be mapped. */
    method MapRegion(want: nat) returns (mapped: bool)
      requires Valid()
      modifies this`haveMappedFile, this`haveMappedRegion, this`regionStart, this`regionLen
      ensures Valid() && haveMappedFile
      ensures mapped <==> pos < fileSize || pos % segment != 0
      ensures regionStart % segment == 0 && regionStart == pos - pos % segment
      ensures mapped ==> haveMappedRegion && 0 < regionLen <= RegionLimit(segment)
                         && pos <= regionStart + regionLen
                         && regionLen == Min(if want != 0 then Min(want + segment, RegionLimit(segment))
                                             else RegionLimit(segment), fileSize - regionStart)
    {
      if !haveMappedFile {
        haveMappedFile, haveMappedRegion := true, false;
      }
      SegmentStart(pos, segment);
      regionStart := pos / segment * segment;
      var maxRegionSize := if want != 0 then Min(want + segment, RegionLimit(segment))
                           else RegionLimit(segment);
      regionLen := Min(maxRegionSize, fileSize - regionStart);
      mapped := regionLen > 0;
      haveMappedRegion := mapped;
    }

    /** Map, hand out the window at `pos`, and move `pos` behind it. */
    method GetBufferValues(want: nat) returns (r: Result<Window, FileError>)
      requires Valid()
      modifies this`haveMappedFile, this`haveMappedRegion, this`regionStart, this`regionLen,
               this`pos, this`lastBufferLen
      ensures Valid()
      ensures r.Err? <==> old(pos) == fileSize && old(pos) % segment == 0
      ensures r.Err? ==> r.error == MapFailed && pos == old(pos) && lastBufferLen == old(lastBufferLen)
      ensures r.Ok? ==> var w := r.value;
                && haveMappedRegion && regionStart % segment == 0
                && 0 < regionLen <= RegionLimit(segment)
                && w.offset == old(pos) - regionStart && w.offset < segment
                && w.offset + w.len <= regionLen
                && pos == old(pos) + w.len && lastBufferLen == w.len
                && (want == 0 ==> w.len == Min(RegionLimit(segment) - old(pos) % segment, fileSize - old(pos)))
                && (want != 0 ==> w.len == Min(WritableBytes(old(pos), want, segment), fileSize - old(pos)))
    {
      var mapped := MapRegion(want);
      SegmentStart(pos, segment);
      if !mapped {
        return Err(MapFailed);
      }
      var offset := pos - regionStart;
      var segLen := regionLen - offset;
      var useLen := if want != 0 then Min(want, segLen) else segLen;
      pos := pos + useLen;
      lastBufferLen := useLen;
      return Ok(Window(offset, useLen));
    }

    /** The bytes of a window that lies in the mapped region. */
    function Peek(w: Window): (data: seq<byte>)
      requires Valid() && haveMappedRegion && w.offset + w.len <= regionLen
      reads this, disk
      ensures |data| == w.len
    {
      disk.content[regionStart + w.offset..regionStart + w.offset + w.len]
    }

    /** What `Read` returns is the file from the old position on, without a gap; before
        the end of the file it is never empty. */
    method Read(want: nat) returns (r: Result<Window, FileError>)
      requires Valid()
      modifies this`haveMappedFile, this`haveMappedRegion, this`regionStart, this`regionLen,
               this`pos, this`lastBufferLen
      ensures Valid()
      ensures r.Err? <==> old(pos) == fileSize && old(pos) % segment == 0
      ensures r.Err? ==> pos == old(pos)
      ensures old(pos) <= pos
      ensures r.Ok? ==> var w := r.value;
                && haveMappedRegion && w.offset + w.len <= regionLen <= RegionLimit(segment)
                && Peek(w) == disk.content[old(pos)..pos]
                && (want != 0 ==> w.len <= want)
                && (old(pos) < fileSize ==> old(pos) < pos)
    {
      SegmentStart(pos, segment);
      r := GetBufferValues(want);
    }

    /** Hand out a window of `want` bytes at `pos` for writing (one segment for 0), after
        making sure that the file reaches a segment beyond it. */
    method Write(want: nat) returns (w: Window)
      requires Valid() && operation != READ
      modifies this`haveMappedFile, this`haveMappedRegion, this`regionStart, this`regionLen,
               this`pos, this`lastBufferLen, this`fileSize, disk
      ensures Valid()
      ensures var n := if want == 0 then segment else want;
              && fileSize == GrownSize(old(pos), n, old(fileSize), segment)
              && w.len == WritableBytes(old(pos), n, segment)
      ensures disk.content == Resized(old(disk.content), fileSize) && disk.kind == old(disk.kind)
      ensures old(fileSize) <= fileSize && pos < fileSize
      ensures haveMappedRegion && regionStart % segment == 0 && regionLen <= RegionLimit(segment)
      ensures regionStart + w.offset == old(pos) && w.offset + w.len <= regionLen
      ensures pos == old(pos) + w.len && lastBufferLen == w.len > 0
    {
      hide Resized, GrownSize;
      var bytes := if want == 0 then segment else want;
      GrownSizeHasRoom(pos, bytes, fileSize, segment);
      SegmentStart(pos, segment);
      Grow(bytes);
      var b := GetBufferValues(bytes);
      w := b.value;
    }

    method Grow(bytes: nat)
      requires Valid()
      modifies this`fileSize, disk
      ensures Valid() && fileSize == GrownSize(pos, bytes, old(fileSize), segment)
      ensures disk.content == Resized(old(disk.content), fileSize) && disk.kind == old(disk.kind)
    {
      var minFileSize := pos + bytes + segment;
      GrownSizeHasRoom(pos, bytes, fileSize, segment);
      if minFileSize > fileSize {
        var align := if minFileSize % segment != 0 then segment else 0;
        var segments := minFileSize / segment;
        minFileSize := Max(segments * segment + align, fileSize + GROW_SEGMENTS * segment);
        disk.Resize(minFileSize);
        fileSize := minFileSize;
      } else {
        assert disk.content[..fileSize] == disk.content;
      }
    }

    /** Store bytes through a window, as a socket or the end-of-line mapper does. */
    method StoreInWindow(w: Window, at: nat, data: seq<byte>)
      requires Valid() && haveMappedRegion && w.offset + w.len <= regionLen
      requires at + |data| <= w.len
      modifies disk
      ensures Valid() && disk.kind == old(disk.kind)
      ensures disk.content == Overwritten(old(disk.content), regionStart + w.offset + at, data)
    {
      disk.Store(regionStart + w.offset + at, data);
    }

    /** Roll `pos` back over the part of the last window that was not used. */
    method SetBytesWritten(bytes: nat)
      requires Valid() && bytes <= lastBufferLen && lastBufferLen - bytes <= pos
      modifies this`pos, this`doTruncate, this`endOfFile
      ensures Valid()
      ensures pos == old(pos) - (lastBufferLen - bytes)
      ensures doTruncate == (old(doTruncate) || bytes < lastBufferLen)
      ensures endOfFile == Max(old(endOfFile), pos)
    {
      if bytes < lastBufferLen {
        var diff := lastBufferLen - bytes;
        pos := pos - diff;
        doTruncate := true;
      }
      if endOfFile < pos {
        endOfFile := pos;
      }
    }

    /** A peer stores into the window just handed out at the end of the file, and reports
        how much: exactly those bytes are added to what the file keeps. */
    method Append(w: Window, data: seq<byte>)
      requires Valid() && operation != READ && haveMappedRegion
      requires w.offset + w.len <= regionLen && |data| <= w.len == lastBufferLen
      requires regionStart + w.offset == endOfFile && pos == endOfFile + w.len
      modifies this`pos, this`doTruncate, this`endOfFile, disk
      ensures Ready() && disk.kind == old(disk.kind)
      ensures Committed() == old(Committed()) + data
      ensures doTruncate == (old(doTruncate) || |data| < w.len)
    {
      StoreInWindow(w, 0, data);
      SetBytesWritten(|data|);
    }

    /** `Close` leaves `closed` false, so a second call runs again; by then there is
        nothing left to cut off. */
    method Close()
      requires Closable()
      modifies this`closed, this`haveMappedFile, this`haveMappedRegion, disk
      ensures Closable() && !haveMappedFile && !haveMappedRegion && disk.kind == old(disk.kind)
      ensures disk.content == if doTruncate && endOfFile < fileSize && disk.kind == Regular
                              then old(disk.content)[..endOfFile] else old(disk.content)
    {
      if !closed {
        closed := false;
        haveMappedFile, haveMappedRegion := false, false;
        if doTruncate && fileSize > endOfFile && disk.kind == Regular {
          disk.Resize(endOfFile);
        }
      }
    }
  }
}
