/** The end-of-line mapping of ASCII transfers over a mapped file
    (src/wfde/WfdeAsciiFile.cpp). */
module AsciiFiles {
  import opened Common
  import opened MappedFiles

  const CRLF: seq<byte> := [CR, LF]

  function MapByte(b: byte, eol: seq<byte>): seq<byte> {
    if b == CR then [] else if b == LF then eol else [b]
  }

  /** Drop every CR and write `eol` for every LF. */
  function MapLines(text: seq<byte>, eol: seq<byte>): seq<byte> {
    if text == [] then [] else MapByte(text[0], eol) + MapLines(text[1..], eol)
  }

  /** Mapping is per byte, so it does not matter where the text is cut. */
  lemma {:induction false} MapLinesAppend(a: seq<byte>, b: seq<byte>, eol: seq<byte>)
    ensures MapLines(a + b, eol) == MapLines(a, eol) + MapLines(b, eol)
  {
    if a == [] {
      assert a + b == b;
    } else {
      hide MapByte;
      MapLinesAppend(a[1..], b, eol);
      assert (a + b)[1..] == a[1..] + b;
      Regroup(MapByte(a[0], eol), MapLines(a[1..], eol), MapLines(b, eol));
    }
  }

  lemma MapLinesNil(eol: seq<byte>)
    ensures MapLines([], eol) == []
  {
  }

  lemma MapLinesStep(text: seq<byte>, i: nat, eol: seq<byte>)
    requires i < |text|
    ensures MapLines(text[..i + 1], eol) == MapLines(text[..i], eol) + MapByte(text[i], eol)
  {
    assert text[..i + 1] == text[..i] + [text[i]];
    MapLinesAppend(text[..i], [text[i]], eol);
    assert MapLines([text[i]], eol) == MapByte(text[i], eol) + MapLines([], eol);
  }

  /** The worst-case expansion: twice the input, for a line end of at most two bytes. */
  lemma {:induction false} MapLinesAtMostDoubles(text: seq<byte>, eol: seq<byte>)
    requires |eol| <= 2
    ensures |MapLines(text, eol)| <= 2 * |text|
  {
    if text != [] {
      MapLinesAtMostDoubles(text[1..], eol);
    }
  }

  /** Data in the form of a transfer type. */
  function InForm(ttype: TransferType, eol: seq<byte>, data: seq<byte>): seq<byte> {
    if ttype == BIN then data else MapLines(data, eol)
  }

  function DropCr(text: seq<byte>): seq<byte> {
    if text == [] then []
    else if text[0] == CR then DropCr(text[1..])
    else [text[0]] + DropCr(text[1..])
  }

  /** Mapping twice is mapping once, to the second line end, provided that the first line
      end is a line end for the second mapping. */
  lemma {:induction false} MapLinesTwice(text: seq<byte>, eol: seq<byte>, eol': seq<byte>)
    requires MapLines(eol, eol') == eol'
    ensures MapLines(MapLines(text, eol), eol') == MapLines(text, eol')
  {
    if text != [] {
      MapLinesTwice(text[1..], eol, eol');
      MapLinesAppend(MapByte(text[0], eol), MapLines(text[1..], eol), eol');
      MapLinesOne(text[0], eol');
    }
  }

  lemma MapLinesOne(b: byte, eol: seq<byte>)
    ensures MapLines([b], eol) == MapByte(b, eol)
  {
    assert MapLines([b], eol) == MapByte(b, eol) + MapLines([], eol);
  }

  lemma LineEndsMap(eol: seq<byte>, eol': seq<byte>)
    requires eol == [LF] || eol == CRLF
    ensures MapLines(eol, eol') == eol'
  {
    MapLinesOne(LF, eol');
    assert CRLF == [CR] + [LF];
    MapLinesOne(CR, eol');
    MapLinesAppend([CR], [LF], eol');
  }

  /** Text in network form: CR and LF occur only as CR LF. */
  predicate NetworkText(text: seq<byte>) {
    || text == []
    || (text[0] == CR && |text| >= 2 && text[1] == LF && NetworkText(text[2..]))
    || (text[0] != CR && text[0] != LF && NetworkText(text[1..]))
  }

  /** Whatever the file holds, an ASCII download is text in network form, ... */
  lemma {:induction false} DownloadIsNetworkText(text: seq<byte>)
    ensures NetworkText(MapLines(text, CRLF))
  {
    if text != [] {
      DownloadIsNetworkText(text[1..]);
      var rest := MapLines(text[1..], CRLF);
      if text[0] == LF {
        assert (CRLF + rest)[2..] == rest;
      } else if text[0] != CR {
        assert ([text[0]] + rest)[1..] == rest;
      } else {
        assert [] + rest == rest;
      }
    }
  }

  lemma {:induction false} NetworkTextIsStable(text: seq<byte>)
    requires NetworkText(text)
    ensures MapLines(text, CRLF) == text
  {
    if text != [] {
      if text[0] == CR {
        NetworkTextIsStable(text[2..]);
        assert text == CRLF + text[2..] && text[1..][1..] == text[2..];
      } else {
        NetworkTextIsStable(text[1..]);
        assert text == [text[0]] + text[1..];
      }
    }
  }

  /** What an ASCII transfer leaves as it is. */
  lemma MapLinesKeeps(text: seq<byte>)
    ensures MapLines(text, CRLF) == text <==> NetworkText(text)
  {
    DownloadIsNetworkText(text);
    if NetworkText(text) {
      NetworkTextIsStable(text);
    }
  }

  /** Text is in network form around a line end exactly if it is on both sides. */
  lemma {:induction false} NetworkAroundLineEnd(a: seq<byte>, b: seq<byte>)
    ensures NetworkText(a + CRLF + b) <==> NetworkText(a) && NetworkText(b)
  {
    var s := a + CRLF + b;
    if a == [] {
      assert s[2..] == b;
    } else if a[0] == CR {
      if |a| >= 2 {
        NetworkAroundLineEnd(a[2..], b);
        assert s[2..] == a[2..] + CRLF + b;
      }
    } else if a[0] != LF {
      NetworkAroundLineEnd(a[1..], b);
      assert s[1..] == a[1..] + CRLF + b;
    }
  }

  lemma {:induction false} NetworkBehindPlain(plain: seq<byte>, text: seq<byte>)
    requires CR !in plain && LF !in plain
    ensures NetworkText(plain + text) <==> NetworkText(text)
  {
    if plain == [] {
      assert plain + text == text;
    } else {
      assert plain[0] in plain;
      assert CR !in plain[1..] && LF !in plain[1..];
      NetworkBehindPlain(plain[1..], text);
      assert (plain + text)[1..] == plain[1..] + text;
    }
  }

  /** ... and uploading it again stores the text in the local convention. */
  lemma DownloadThenUpload(text: seq<byte>, eol: seq<byte>)
    ensures MapLines(MapLines(text, CRLF), eol) == MapLines(text, eol)
    ensures eol == [LF] ==> MapLines(MapLines(text, CRLF), eol) == DropCr(text)
  {
    LineEndsMap(CRLF, eol);
    MapLinesTwice(text, CRLF, eol);
    MapLinesWithLf(text);
  }

  /** A client that uploads in ASCII type and downloads again gets its text back exactly
      if that was in network form. */
  lemma UploadThenDownload(text: seq<byte>, eol: seq<byte>)
    requires eol == [LF] || eol == CRLF
    ensures MapLines(MapLines(text, eol), CRLF) == text <==> NetworkText(text)
  {
    LineEndsMap(eol, CRLF);
    MapLinesTwice(text, eol, CRLF);
    DownloadIsNetworkText(text);
    if NetworkText(text) {
      NetworkTextIsStable(text);
    }
  }

  /** With LF as the local line end the stored text is the original without its CRs. */
  lemma {:induction false} MapLinesWithLf(text: seq<byte>)
    ensures MapLines(text, [LF]) == DropCr(text)
    ensures CR !in text ==> DropCr(text) == text
  {
    if text != [] {
      MapLinesWithLf(text[1..]);
      assert CR !in text ==> CR !in text[1..];
    }
  }

  class AsciiFile {
    const file: MappedFile
    const localEol: seq<byte>
    var buffer: seq<byte>

    constructor (file: MappedFile, localEol: seq<byte>)
      requires |localEol| <= 2
      ensures this.file == file && this.localEol == localEol && buffer == []
    {
      this.file, this.localEol := file, localEol;
      buffer := [];
    }

    ghost predicate Valid()
      reads this, file, file.disk
    {
      file.Valid() && |localEol| <= 2 && file.segment >= 2
    }

    ghost predicate Ready()
      reads this, file, file.disk
    {
      Valid() && file.Ready()
    }

    /** Convert from the local format to CRLF-delimited text. */
    method Read(want: nat) returns (r: Result<seq<byte>, FileError>)
      requires Valid()
      modifies this`buffer, file
      ensures Valid()
      ensures r.Err? <==> old(file.pos) == file.fileSize && old(file.pos) % file.segment == 0
      ensures old(file.pos) <= file.pos && (r.Err? ==> file.pos == old(file.pos))
      ensures file.fileSize == old(file.fileSize) && file.doTruncate == old(file.doTruncate)
      ensures r.Ok? ==> r.value == MapLines(file.disk.content[old(file.pos)..file.pos], CRLF)
                        && (old(file.pos) < file.fileSize ==> old(file.pos) < file.pos)
    {
      hide MapLines;
      MapLinesNil(CRLF);
      var inner := file.Read(want);
      if inner.Err? {
        return Err(inner.error);
      }
      buffer := [];
      var raw := file.Peek(inner.value);
      var i := 0;
      while i < |raw|
        invariant 0 <= i <= |raw|
        invariant buffer == MapLines(raw[..i], CRLF)
        modifies this`buffer
      {
        MapLinesStep(raw, i, CRLF);
        if raw[i] == CR {
        } else if raw[i] == LF {
          buffer := buffer + CRLF;
        } else {
          buffer := buffer + [raw[i]];
        }
        i := i + 1;
      }
      assert raw[..i] == raw;
      return Ok(buffer);
    }

    /** Hand out the intermediate buffer: at most half a segment. */
    method Write(want: nat) returns (len: nat)
      requires Valid()
      modifies this`buffer
      ensures Valid() && len == |buffer| == Min(if want != 0 then want else file.segment, file.segment / 2)
    {
      len := Min(if want != 0 then want else file.segment, file.segment / 2);
      buffer := seq(len, _ => 0 as byte);
    }

    /** A socket stores into the intermediate buffer. */
    method Fill(data: seq<byte>)
      requires |data| <= |buffer|
      modifies this`buffer
      ensures |buffer| == old(|buffer|) && buffer[..|data|] == data
    {
      buffer := data + buffer[|data|..];
    }

    /** Write the local line end through the moving pointer `b`. */
    method PutEol(window: Window, b: nat)
      requires Valid() && file.haveMappedRegion && window.offset + window.len <= file.regionLen
      requires b + |localEol| <= window.len
      modifies file.disk
      ensures Valid() && file.disk.kind == old(file.disk.kind)
      ensures var at := file.regionStart + window.offset + b;
              file.disk.content[..at + |localEol|] == old(file.disk.content)[..at] + localEol
    {
      var e := 0;
      ghost var at := file.regionStart + window.offset + b;
      while e < |localEol|
        invariant 0 <= e <= |localEol|
        invariant Valid() && file.disk.kind == old(file.disk.kind)
        invariant file.disk.content[..at + e] == old(file.disk.content)[..at] + localEol[..e]
        modifies file.disk
      {
        file.StoreInWindow(window, b + e, [localEol[e]]);
        e := e + 1;
      }
    }

    /** The mapping loop: the first `bytes` of the buffer go to the window, mapped. */
    method PutMapped(window: Window, bytes: nat) returns (b: nat)
      requires Valid() && file.haveMappedRegion && window.offset + window.len <= file.regionLen
      requires bytes <= |buffer| && 2 * bytes <= window.len
      modifies file.disk
      ensures Valid() && file.disk.kind == old(file.disk.kind)
      ensures b == |MapLines(buffer[..bytes], localEol)| <= 2 * bytes
      ensures var at := file.regionStart + window.offset;
              file.disk.content[..at + b] == old(file.disk.content)[..at] + MapLines(buffer[..bytes], localEol)
    {
      hide MapLines;
      b := 0;
      var i := 0;
      ghost var at := file.regionStart + window.offset;
      MapLinesNil(localEol);
      while i < bytes
        invariant 0 <= i <= bytes
        invariant b == |MapLines(buffer[..i], localEol)| <= 2 * i
        invariant Valid() && file.disk.kind == old(file.disk.kind)
        invariant file.disk.content[..at + b] == old(file.disk.content)[..at] + MapLines(buffer[..i], localEol)
        modifies file.disk
      {
        MapLinesStep(buffer, i, localEol);
        if buffer[i] == CR {
        } else if buffer[i] == LF {
          PutEol(window, b);
          b := b + |localEol|;
        } else {
          file.StoreInWindow(window, b, [buffer[i]]);
          b := b + 1;
        }
        i := i + 1;
      }
    }

    /** Convert the first `bytes` of the buffer to the local format, at the end of the
        file.  The inner window has room for the worst case, and a call with 0 makes the
        inner file record a short write. */
    method SetBytesWritten(bytes: nat)
      requires Ready() && bytes <= |buffer| <= file.segment / 2
      modifies file, file.disk
      ensures Ready() && file.disk.kind == old(file.disk.kind)
      ensures file.Committed() == old(file.Committed()) + MapLines(buffer[..bytes], localEol)
      ensures file.fileSize > file.endOfFile
      ensures file.doTruncate == (old(file.doTruncate) || bytes == 0
                                  || |MapLines(buffer[..bytes], localEol)| < 2 * bytes)
    {
      hide MapLines;
      WriteAssertHolds(file.pos, if bytes == 0 then file.segment else 2 * bytes, file.segment);
      var window := file.Write(bytes * 2);
      var bytesWritten := PutMapped(window, bytes);
      file.SetBytesWritten(bytesWritten);
    }
  }
}
