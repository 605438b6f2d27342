/** Directory listings in batches (include/wfde/file_listing.h,
    include/wfde/nix/FileListIterator.h, src/wfde/ftp/WfdeFtpList.h). */
module DirectoryListing {
  import opened Common
  import opened AsciiFiles

  const BATCH_SIZE := 1024 * 16
  const LARGEST_SIZE := 100_000_000_000_000  // the first with 15 digits

  /** What stat() tells: `stamp` is the month, day and time or year as they are printed. */
  datatype Stat = Stat(isDir: bool, size: nat, stamp: string)

  datatype Entry = Entry(name: string, stat: Stat) {
    predicate Valid() { name != "" && stat.size < LARGEST_SIZE && |stat.stamp| <= 18 && Plain(stat.stamp) }
  }

  /** A character stands for a byte. */
  function Bytes(text: string): seq<byte> {
    seq(|text|, i requires 0 <= i < |text| => (text[i] as int % 256) as byte)
  }

  predicate Plain(text: string) {
    CR !in Bytes(text) && LF !in Bytes(text)
  }

  ghost predicate ValidEntries(es: seq<Entry>) {
    forall i :: 0 <= i < |es| ==> es[i].Valid()
  }

  // ---------- the formats ----------

  datatype Format = Nlst | LsLong

  function Decimal(n: nat): string {
    if n < 10 then [(n as char) + '0'] else Decimal(n / 10) + [((n % 10) as char) + '0']
  }

  function Pow10(k: nat): nat { if k == 0 then 1 else 10 * Pow10(k - 1) }

  lemma {:induction false} DecimalLength(n: nat, k: nat)
    requires k > 0 && n < Pow10(k)
    ensures |Decimal(n)| <= k
  {
    if n >= 10 {
      assert Pow10(1) == 10 * Pow10(0);
      DecimalLength(n / 10, k - 1);
    }
  }

  function PadLeft(s: string, width: nat): string {
    if |s| >= width then s else seq(width - |s|, _ => ' ') + s
  }

  /** The pieces that are copied one after the other. */
  function Pieces(f: Format, e: Entry): seq<string> {
    match f
    case Nlst => [e.name, "\r\n"]
    case LsLong =>
      [ if e.stat.isDir then "drwxr-xr-x 1 ftp ftp " else "-rw-r--r-- 1 ftp ftp ",
        if e.stat.isDir then "       1 " else PadLeft(Decimal(e.stat.size), 8) + " ",
        e.stat.stamp, e.name, "\r\n" ]
  }

  function Line(f: Format, e: Entry): string {
    Flatten(Pieces(f, e))
  }

  /** The approximate size by which the formatter decides whether an entry still fits. */
  function Estimate(f: Format, e: Entry): nat {
    |e.name| + match f case Nlst => 2 case LsLong => 64
  }

  /** The estimate is enough. */
  lemma LineFitsEstimate(f: Format, e: Entry)
    requires e.Valid()
    ensures |Line(f, e)| <= Estimate(f, e)
  {
    hide Flatten;
    var p := Pieces(f, e);
    FlattenHead(p, 0);
    FlattenHead(p, 1);
    assert p[0..] == p && p[|p|..] == [];
    FlattenNone();
    if f == LsLong {
      FlattenHead(p, 2);
      FlattenHead(p, 3);
      FlattenHead(p, 4);
      PowersOfTen();
      DecimalLength(e.stat.size, 14);
      assert |PadLeft(Decimal(e.stat.size), 8)| <= 14;
    }
  }

  lemma FlattenNone()
    ensures Flatten<char>([]) == []
  {
  }

  lemma PowersOfTen()
    ensures Pow10(14) == LARGEST_SIZE
  {
    assert Pow10(4) == 10000;
    assert Pow10(8) == 10000 * Pow10(4);
    assert Pow10(12) == 10000 * Pow10(8);
    assert Pow10(14) == 100 * Pow10(12);
  }

  // ---------- what a listing is ----------

  /** Hidden entries are those with a leading dot, except "." and "..". */
  predicate VisibleName(name: string, showHidden: bool)
    requires name != ""
  {
    name[0] != '.' || showHidden || |name| == 1 || (|name| == 2 && name[1] == '.')
  }

  predicate Visible(e: Entry, showHidden: bool)
    requires e.name != ""
  {
    VisibleName(e.name, showHidden)
  }

  function VisibleOf(es: seq<Entry>, showHidden: bool): seq<Entry>
    requires ValidEntries(es)
  {
    if es == [] then []
    else (if Visible(es[0], showHidden) then [es[0]] else []) + VisibleOf(es[1..], showHidden)
  }

  function Text(f: Format, es: seq<Entry>): string {
    if es == [] then "" else Line(f, es[0]) + Text(f, es[1..])
  }

  function Reverse(es: seq<Entry>): (r: seq<Entry>)
    ensures ValidEntries(es) ==> ValidEntries(r)
  {
    if es == [] then [] else [es[|es| - 1]] + Reverse(es[..|es| - 1])
  }

  lemma ReverseStep(es: seq<Entry>)
    ensures Reverse(es) == if es == [] then [] else [es[|es| - 1]] + Reverse(es[..|es| - 1])
  {
  }

  /** The entries of a listing: the directory in order, then the virtual entries, the last
      added first; but none at all if the directory has no entry, not even ".". */
  function Listed(dir: seq<Entry>, vpaths: seq<Entry>): (es: seq<Entry>)
    ensures ValidEntries(dir) && ValidEntries(vpaths) ==> ValidEntries(es)
  {
    if dir == [] then [] else dir + Reverse(vpaths)
  }

  lemma {:induction false} TextAppend(f: Format, a: seq<Entry>, b: seq<Entry>)
    ensures Text(f, a + b) == Text(f, a) + Text(f, b)
  {
    hide Line;
    if a == [] {
      assert a + b == b;
    } else {
      TextAppend(f, a[1..], b);
      assert (a + b)[1..] == a[1..] + b;
    }
  }

  lemma {:induction false} VisibleOfAppend(a: seq<Entry>, b: seq<Entry>, showHidden: bool)
    requires ValidEntries(a) && ValidEntries(b)
    ensures VisibleOf(a + b, showHidden) == VisibleOf(a, showHidden) + VisibleOf(b, showHidden)
  {
    if a == [] {
      assert a + b == b;
    } else {
      VisibleOfAppend(a[1..], b, showHidden);
      assert (a + b)[1..] == a[1..] + b;
      var head := if Visible(a[0], showHidden) then [a[0]] else [];
      assert head + (VisibleOf(a[1..], showHidden) + VisibleOf(b, showHidden))
          == (head + VisibleOf(a[1..], showHidden)) + VisibleOf(b, showHidden);
    }
  }

  /** What is visible, entry by entry; together with VisibleOfAppend this decides it. */
  lemma VisibleOfOne(e: Entry, showHidden: bool)
    requires e.Valid()
    ensures VisibleOf([e], showHidden) ==
              if showHidden || e.name[0] != '.' || e.name == "." || e.name == ".." then [e] else []
  {
    assert [e][1..] == [];
    assert e.name == [e.name[0]] + e.name[1..];
  }

  lemma {:induction false} ReverseAt(es: seq<Entry>, i: nat)
    requires i < |es|
    ensures |Reverse(es)| == |es| && Reverse(es)[i] == es[|es| - 1 - i]
  {
    if |es| == 1 {
      assert es[..0] == [];
    } else {
      ReverseAt(es[..|es| - 1], if i > 0 then i - 1 else 0);
    }
  }

  // ---------- batches ----------

  /** How many entries go into a batch of which `used` bytes are taken. */
  function BatchLen(f: Format, es: seq<Entry>, used: nat): (n: nat)
    ensures n <= |es|
    decreases |es|
  {
    if es == [] || used + Estimate(f, es[0]) >= BATCH_SIZE then 0
    else 1 + BatchLen(f, es[1..], used + |Line(f, es[0])|)
  }

  /** What is left to list after n batches. */
  function AfterBatches(f: Format, es: seq<Entry>, n: nat): seq<Entry>
    decreases n
  {
    if n == 0 then es else AfterBatches(f, es[BatchLen(f, es, 0)..], n - 1)
  }

  /** Every entry fits an empty buffer. */
  ghost predicate AllFit(f: Format, es: seq<Entry>) {
    forall i :: 0 <= i < |es| ==> Estimate(f, es[i]) < BATCH_SIZE
  }

  lemma {:induction false} BatchStopsAt(f: Format, es: seq<Entry>, used: nat, i: nat)
    requires i < |es| && Estimate(f, es[i]) >= BATCH_SIZE
    ensures BatchLen(f, es, used) <= i
    decreases |es|
  {
    if i > 0 && used + Estimate(f, es[0]) < BATCH_SIZE {
      BatchStopsAt(f, es[1..], used + |Line(f, es[0])|, i - 1);
    }
  }

  lemma {:induction false} NeverPast(f: Format, es: seq<Entry>, n: nat, i: nat)
    requires i < |es| && Estimate(f, es[i]) >= BATCH_SIZE
    ensures AfterBatches(f, es, n) != []
    decreases n
  {
    hide BatchLen, Estimate;
    if n > 0 {
      var k := BatchLen(f, es, 0);
      BatchStopsAt(f, es, 0, i);
      NeverPast(f, es[k..], n - 1, i - k);
    }
  }

  lemma {:induction false} EnoughBatches(f: Format, es: seq<Entry>, n: nat)
    requires AllFit(f, es) && n >= |es|
    ensures AfterBatches(f, es, n) == []
    decreases n
  {
    if n > 0 {
      var k := BatchLen(f, es, 0);
      assert es != [] ==> k > 0;
      EnoughBatches(f, es[k..], n - 1);
    }
  }

  /** Listing comes to an end exactly if no name is so long that the estimate of its entry
      reaches the size of the buffer. */
  lemma ListingEndsExactly(f: Format, es: seq<Entry>)
    ensures (exists n: nat :: AfterBatches(f, es, n) == []) <==> AllFit(f, es)
    ensures AllFit(f, es) <==> forall i :: 0 <= i < |es| ==> |es[i].name| < (if f == Nlst then 16382 else 16320)
  {
    if AllFit(f, es) {
      EnoughBatches(f, es, |es|);
    } else {
      var i :| 0 <= i < |es| && Estimate(f, es[i]) >= BATCH_SIZE;
      forall n: nat ensures AfterBatches(f, es, n) != [] {
        NeverPast(f, es, n, i);
      }
    }
  }

  // ---------- the iterator ----------

  /** The current name is kept as a reference: to what readdir() returned, or into the string
      of a virtual entry, by its place among them. */
  datatype NameRef = Own(text: string) | View(slot: nat, len: nat)

  /** Walks the physical directory and then, from the back, the virtual entries. */
  class FileListIterator {
    var dir: seq<Entry>      // what readdir() has yet to return
    var vpaths: seq<Entry>
    var isEof: bool
    var haveVpath: bool
    var name: NameRef
    var stat: Stat
    ghost var meant: Entry   // the entry that the iterator stands at

    ghost predicate Valid()
      reads this
    {
      && ValidEntries(dir) && ValidEntries(vpaths)
      && (isEof ==> dir == []) && (haveVpath ==> isEof)
      && (haveVpath <==> name.View?) && (haveVpath ==> name.slot == |vpaths|)
      && (AtEntry() ==> meant.Valid() && stat == meant.stat && NameLength() == |meant.name|)
      && (AtEntry() && Live() ==> Text() == meant.name)
    }

    predicate AtEntry()
      reads this
    {
      !isEof || haveVpath
    }

    /** The string that the name refers to is still there. */
    predicate Live()
      reads this
    {
      name.Own? || name.slot < |vpaths|
    }

    function Text(): string
      requires Live()
      reads this
    {
      match name case Own(text) => text case View(slot, _) => vpaths[slot].name
    }

    function NameLength(): nat
      reads this
    {
      match name case Own(text) => |text| case View(_, len) => len
    }

    /** Reading the name: its length is part of the reference, but when the string is gone
        its characters can be anything. */
    method GetName() returns (text: string)
      requires Valid()
      ensures |text| == NameLength() && (Live() ==> text == Text())
    {
      match name {
        case Own(own) => return own;
        case View(slot, len) =>
          assert !Live();
          assert |seq(len, _ => ' ')| == len;
          text :| |text| == len;
      }
    }

    /** The entries of the directory from the current one on. */
    ghost function Physical(): (es: seq<Entry>)
      reads this
      ensures Valid() ==> ValidEntries(es)
    {
      if isEof then [] else [meant] + dir
    }

    /** The virtual entries from the current one on. */
    ghost function Virtual(): (es: seq<Entry>)
      reads this
      ensures Valid() ==> ValidEntries(es)
    {
      (if haveVpath then [meant] else []) + (if AtEntry() then Reverse(vpaths) else [])
    }

    ghost function Pending(): (es: seq<Entry>)
      reads this
      ensures AtEntry() <==> es != []
    {
      Physical() + Virtual()
    }

    /** Opening reads the first entry, before any virtual entry can be added. */
    constructor (dir: seq<Entry>)
      requires ValidEntries(dir)
      ensures Valid() && vpaths == [] && Physical() == dir && Virtual() == []
      ensures !haveVpath && (AtEntry() <==> dir != [])
    {
      this.dir, vpaths, isEof, haveVpath := dir, [], false, false;
      name, stat, meant := Own(""), Stat(false, 0, ""), Entry("", Stat(false, 0, ""));
      new;
      Advance();
    }

    method AddVirtualPath(e: Entry)
      requires Valid() && e.Valid() && !haveVpath
      modifies this`vpaths
      ensures Valid() && vpaths == old(vpaths) + [e]
    {
      vpaths := vpaths + [e];
    }

    /** Behind it the name refers to a string that is there, exactly if the iterator has not
        moved to a virtual entry: that entry is taken off at once, with its string. */
    method Advance()
      requires ValidEntries(dir) && ValidEntries(vpaths) && (isEof ==> dir == []) && (haveVpath ==> isEof)
      modifies this
      ensures Valid()
      ensures Live() <==> !haveVpath
      ensures Physical() == old(dir)
      ensures old(AtEntry()) ==> |Pending()| == |old(Pending())| - 1
      ensures old(AtEntry()) ==>
                Physical() == if old(Physical()) != [] then old(Physical())[1..] else []
      ensures old(AtEntry()) ==>
                Virtual() == if old(Physical()) != [] then old(Virtual()) else old(Virtual())[1..]
      ensures !isEof ==> !haveVpath && vpaths == old(vpaths)
      ensures haveVpath ==> old(vpaths) != [] && meant == old(vpaths)[|old(vpaths)| - 1]
      ensures old(isEof || dir == []) && old(vpaths) != [] ==> haveVpath
      ensures old(vpaths) == [] ==> vpaths == [] && !haveVpath && Virtual() == []
    {
      hide Reverse;
      ReverseStep(vpaths);
      assert [] + Reverse(vpaths) == Reverse(vpaths);
      var dirent: Option<Entry> := None;
      if !isEof {
        if dir == [] {
          isEof := true;
        } else {
          dirent, dir := Some(dir[0]), dir[1..];
        }
      }
      if !isEof {
        name, stat, meant, haveVpath := Own(dirent.value.name), dirent.value.stat, dirent.value, false;
      } else {
        TakeVirtual();
      }
    }

    /** The end of the directory, or of the virtual entries. */
    method TakeVirtual()
      requires isEof && dir == [] && ValidEntries(vpaths)
      modifies this`name, this`stat, this`meant, this`vpaths, this`haveVpath
      ensures Valid() && Physical() == [] && Virtual() == Reverse(old(vpaths))
      ensures Live() <==> !haveVpath
      ensures haveVpath <==> old(vpaths) != []
      ensures haveVpath ==> meant == old(vpaths)[|old(vpaths)| - 1]
      ensures old(vpaths) == [] ==> vpaths == []
    {
      hide Reverse;
      ReverseStep(vpaths);
      if vpaths == [] {
        name := Own("");
        haveVpath := false;
      } else {
        var last := |vpaths| - 1;
        name, stat := View(last, |vpaths[last].name|), vpaths[last].stat;
        meant := vpaths[last];
        vpaths := vpaths[..last];
        haveVpath := true;
      }
    }
  }

  // ---------- the lister ----------

  class DirLister {
    const format: Format
    const showHidden: bool
    const fli: FileListIterator
    const buffer: array<char>
    var cur: nat             // the formatter's write cursor
    var bytesUsed: nat
    ghost var sound: bool    // every name that was read was there

    ghost predicate Valid()
      reads this, fli, buffer
    {
      && buffer.Length == BATCH_SIZE && fli.Valid()
      && cur <= BATCH_SIZE && bytesUsed <= BATCH_SIZE
      && (cur == 0 || fli.Pending() == [])
    }

    /** The visible entries of the directory that are not listed yet. */
    ghost function Todo(): seq<Entry>
      requires Valid()
      reads this, fli, buffer
    {
      VisibleOf(fli.Physical(), showHidden)
    }

    /** Whatever is printed fits an empty buffer: the visible entries of the directory, and any
        virtual entry, whose name may read as visible. */
    ghost predicate Fits()
      requires Valid()
      reads this, fli, buffer
    {
      AllFit(format, Todo()) && AllFit(format, fli.Virtual())
    }

    /** Virtual entries are added when the first entry has been read. */
    constructor (dir: seq<Entry>, vpaths: seq<Entry>, format: Format, showHidden: bool)
      requires ValidEntries(dir) && ValidEntries(vpaths)
      ensures Valid() && fresh(fli) && fresh(buffer) && sound
      ensures this.format == format && this.showHidden == showHidden
      ensures fli.Physical() == dir && fli.Virtual() == (if dir == [] then [] else Reverse(vpaths))
      ensures fli.Pending() == Listed(dir, vpaths)
    {
      this.format, this.showHidden := format, showHidden;
      fli := new FileListIterator(dir);
      buffer := new char[BATCH_SIZE];
      cur, bytesUsed, sound := 0, 0, true;
      new;
      var i := 0;
      while i < |vpaths|
        invariant 0 <= i <= |vpaths| && fli.Valid() && fli.vpaths == vpaths[..i]
        invariant fli.AtEntry() <==> dir != []
        invariant fli.Physical() == dir && !fli.haveVpath
        modifies fli
      {
        fli.AddVirtualPath(vpaths[i]);
        i := i + 1;
      }
      assert vpaths[..i] == vpaths;
      assert [] + Reverse(vpaths) == Reverse(vpaths);
    }

    /** Copy one piece behind the cursor `at`. */
    method Put(at: nat, piece: string) returns (next: nat)
      requires at + |piece| <= buffer.Length
      modifies buffer
      ensures next == at + |piece| && buffer[..next] == old(buffer[..at]) + piece
    {
      next := at + |piece|;
      forall i | at <= i < next {
        buffer[i] := piece[i - at];
      }
    }

    method PrintIt(at: nat, e: Entry) returns (consumed: nat)
      requires e.Valid() && at + Estimate(format, e) <= buffer.Length
      modifies buffer
      ensures consumed == |Line(format, e)| && at + consumed <= buffer.Length
      ensures buffer[..at + consumed] == old(buffer[..at]) + Line(format, e)
    {
      hide Flatten, Pieces, Estimate;
      var pieces := Pieces(format, e);
      LineFitsEstimate(format, e);
      FlattenNone();
      assert pieces[0..] == pieces && pieces[|pieces|..] == [];
      ghost var before := buffer[..at];
      var i, next := 0, at;
      while i < |pieces|
        invariant 0 <= i <= |pieces| && next + |Flatten(pieces[i..])| == at + |Line(format, e)|
        invariant 0 <= next <= buffer.Length
        invariant buffer[..next] + Flatten(pieces[i..]) == before + Line(format, e)
      {
        FlattenHead(pieces, i);
        next := Put(next, pieces[i]);
        i := i + 1;
      }
      consumed := next - at;
    }

    /** Print the entry, or reset the cursor if its estimate says that it may not fit. */
    method Print(e: Entry) returns (printed: Option<nat>)
      requires e.Valid() && cur <= buffer.Length == BATCH_SIZE
      modifies this`cur, buffer
      ensures printed.None? <==> old(cur) + Estimate(format, e) >= BATCH_SIZE
      ensures printed.None? ==> cur == 0 && buffer[..] == old(buffer[..])
      ensures printed.Some? ==> printed.value == |Line(format, e)| && cur == old(cur) + printed.value
                                && cur <= BATCH_SIZE
                                && buffer[..cur] == old(buffer[..cur]) + Line(format, e)
    {
      var approxBytesNeeded := Estimate(format, e);
      if cur + approxBytesNeeded >= buffer.Length {
        cur := 0;
        return None;
      }
      LineFitsEstimate(format, e);
      var bytesConsumed := PrintIt(cur, e);
      cur := cur + bytesConsumed;
      return Some(bytesConsumed);
    }

    /** In a batch: n visible entries of the directory are in the buffer, and the rest of the
        batch is decided by what is left of both.  Behind the directory there may be any text.
        `virtual` were the virtual entries, and `was` the verdict on the names. */
    ghost predicate Listing(todo: seq<Entry>, n: nat, virtual: seq<Entry>, was: bool)
      reads this, fli, buffer
    {
      && buffer.Length == BATCH_SIZE && fli.Valid() && cur <= BATCH_SIZE && bytesUsed <= BATCH_SIZE
      && n <= |todo| && VisibleOf(fli.Physical(), showHidden) == todo[n..]
      && BatchLen(format, todo, 0) == n + BatchLen(format, todo[n..], bytesUsed)
      && Text(format, todo[..n]) <= buffer[..bytesUsed]
      && (fli.Physical() != [] || virtual == [] ==> buffer[..bytesUsed] == Text(format, todo[..n]))
      && ((fli.Virtual() == virtual && sound == was) || (fli.Physical() == [] && virtual != [] && !sound))
    }

    /** One batch.  In the directory: as many of the visible entries as the estimates let in, in
        order; the entry that did not fit stays for the next batch.  Behind the directory it
        reads names that are gone, exactly if there are virtual entries. */
    method List() returns (more: bool)
      requires Valid()
      modifies this, fli, buffer
      ensures Valid()
      ensures sound <==> old(sound) && (old(fli.Virtual()) == [] || fli.Physical() != [])
      ensures var todo := old(Todo());
              var n := BatchLen(format, todo, 0);
              && Todo() == todo[n..]
              && Text(format, todo[..n]) <= buffer[..bytesUsed]
              && (n < |todo| ==> more)
              && (fli.Physical() != [] || old(fli.Virtual()) == [] ==>
                    buffer[..bytesUsed] == Text(format, todo[..n]) && (more <==> n < |todo|)
                    && fli.Virtual() == old(fli.Virtual()))
      ensures old(Fits()) ==> AllFit(format, fli.Virtual())
      ensures old(Fits()) && more ==> |fli.Pending()| < |old(fli.Pending())|
      ensures !more ==> fli.Pending() == []
    {
      hide Text, BatchLen, VisibleOf, Reverse, ValidEntries, AllFit;
      hide FileListIterator.Physical, FileListIterator.Virtual;
      ghost var todo, n, virtual, was := Todo(), 0, fli.Virtual(), sound;
      ghost var size := |fli.Pending()|;
      bytesUsed := 0;
      NothingListed(format, showHidden);
      more := false;
      while fli.AtEntry()
        invariant Listing(todo, n, virtual, was)
        invariant bytesUsed == cur || (bytesUsed == 0 && fli.Pending() == [])
        invariant AllFit(format, virtual) ==> AllFit(format, fli.Virtual())
        invariant |fli.Pending()| < size || (|fli.Pending()| == size && (cur == 0 || !fli.AtEntry()))
        decreases |fli.Pending()|
      {
        more, n := ListNext(todo, n, virtual, was);
        if more {
          return;
        }
      }
      NothingLeft(todo, n);
    }

    lemma NothingLeft(todo: seq<Entry>, n: nat)
      requires fli.Valid() && !fli.AtEntry()
      ensures fli.Pending() == [] && fli.Physical() == [] && fli.Virtual() == []
      ensures VisibleOf(fli.Physical(), showHidden) == []
      ensures forall used :: BatchLen(format, [], used) == 0
    {
    }

    /** One round of the listing loop; `full` when the entry does not fit any more. */
    method ListNext(ghost todo: seq<Entry>, ghost n: nat, ghost virtual: seq<Entry>, ghost was: bool)
        returns (full: bool, ghost m: nat)
      requires Listing(todo, n, virtual, was) && fli.AtEntry() && bytesUsed == cur
      modifies this, fli, buffer
      ensures Listing(todo, m, virtual, was)
      ensures !full ==> bytesUsed == cur && |fli.Pending()| == |old(fli.Pending())| - 1
      ensures full ==> cur == 0 && fli.Pending() == old(fli.Pending())
      ensures full && fli.Physical() != [] ==> BatchLen(format, todo, 0) == m < |todo|
      ensures full && fli.Physical() == [] ==> !sound && virtual != []
      ensures full && old(cur) == 0 ==> !AllFit(format, todo) || !AllFit(format, old(fli.Virtual()))
      ensures AllFit(format, old(fli.Virtual())) ==> AllFit(format, fli.Virtual())
    {
      hide Text, BatchLen, VisibleOf, Reverse, AllFit, Listing, FileListIterator.Physical, FileListIterator.Virtual;
      var name := ReadName(todo, n, virtual, was);
      if name[0] == '.' {
        if !(showHidden || |name| == 1 || (|name| == 2 && name[1] == '.')) {
          Skip(name, todo, n, virtual, was);
          return false, n;
        }
      }
      full, m := PrintNext(name, todo, n, virtual, was);
    }

    /** The name of the current entry, which is not there if that is a virtual entry. */
    method ReadName(ghost todo: seq<Entry>, ghost n: nat, ghost virtual: seq<Entry>, ghost was: bool)
        returns (name: string)
      requires Listing(todo, n, virtual, was) && fli.AtEntry()
      modifies this`sound
      ensures Listing(todo, n, virtual, was) && Named(name, virtual)
    {
      hide Text, BatchLen, VisibleOf, Reverse;
      name := fli.GetName();
      sound := sound && fli.Live();
    }

    /** This name has been read for the current entry. */
    ghost predicate Named(name: string, virtual: seq<Entry>)
      reads this, fli
    {
      && fli.Valid() && fli.AtEntry() && |name| == |fli.meant.name| > 0
      && (fli.Physical() != [] ==> name == fli.meant.name)
      && (fli.Physical() == [] ==> !sound && virtual != [])
    }

    method Skip(name: string, ghost todo: seq<Entry>, ghost n: nat, ghost virtual: seq<Entry>, ghost was: bool)
      requires Listing(todo, n, virtual, was) && Named(name, virtual) && !VisibleName(name, showHidden)
      requires bytesUsed == cur
      modifies fli
      ensures Listing(todo, n, virtual, was) && |fli.Pending()| == |old(fli.Pending())| - 1
      ensures AllFit(format, old(fli.Virtual())) ==> AllFit(format, fli.Virtual())
    {
      hide Text, BatchLen, VisibleOf, Reverse, AllFit;
      FitsBehind(format, fli.Virtual());
      if fli.Physical() != [] {
        VisibleOfHead(fli.Physical(), showHidden);
      }
      fli.Advance();
    }

    method PrintNext(name: string, ghost todo: seq<Entry>, ghost n: nat, ghost virtual: seq<Entry>, ghost was: bool)
        returns (full: bool, ghost m: nat)
      requires Listing(todo, n, virtual, was) && Named(name, virtual) && VisibleName(name, showHidden)
      requires bytesUsed == cur
      modifies this, fli, buffer
      ensures Listing(todo, m, virtual, was)
      ensures !full ==> bytesUsed == cur && |fli.Pending()| == |old(fli.Pending())| - 1
      ensures full ==> cur == 0 && fli.Pending() == old(fli.Pending())
      ensures full && fli.Physical() != [] ==> BatchLen(format, todo, 0) == m < |todo|
      ensures full && fli.Physical() == [] ==> !sound && virtual != []
      ensures full && old(cur) == 0 ==> !AllFit(format, todo) || !AllFit(format, old(fli.Virtual()))
      ensures AllFit(format, old(fli.Virtual())) ==> AllFit(format, fli.Virtual())
    {
      hide Text, BatchLen, VisibleOf, Reverse, AllFit, Estimate, VisibleName;
      hide FileListIterator.Physical, FileListIterator.Virtual, FileListIterator.Pending;
      m := n;
      ghost var physical := fli.Physical();
      FitsBehind(format, fli.Virtual());
      StandsAt(fli);
      if physical != [] {
        VisibleOfHead(physical, showHidden);
        assert todo[n..][0] == todo[n] && todo[n..][1..] == todo[n + 1..];
      } else {
        NothingListed(format, showHidden);
      }
      full := PrintName(name, todo, n, virtual, was);
      if full {
        return true, m;
      }
      if physical != [] {
        m := n + 1;
      }
      fli.Advance();
    }

    /** Print the current entry under this name, and count its bytes if it fits. */
    method PrintName(name: string, ghost todo: seq<Entry>, ghost n: nat, ghost virtual: seq<Entry>, ghost was: bool)
        returns (full: bool)
      requires Listing(todo, n, virtual, was) && Named(name, virtual)
      requires fli.Physical() != [] ==> n < |todo| && todo[n] == fli.meant
      requires bytesUsed == cur
      modifies this`cur, this`bytesUsed, buffer
      ensures full ==> cur == 0 && bytesUsed == old(bytesUsed) && buffer[..] == old(buffer[..])
      ensures full && fli.Physical() != [] ==> BatchLen(format, todo, 0) == n
      ensures full && old(cur) == 0 ==> !AllFit(format, todo) || !AllFit(format, fli.Virtual())
      ensures !full ==> bytesUsed == cur <= BATCH_SIZE && Text(format, todo[..n]) <= buffer[..bytesUsed]
      ensures !full && fli.Physical() != [] ==>
                && buffer[..bytesUsed] == Text(format, todo[..n + 1])
                && BatchLen(format, todo, 0) == n + 1 + BatchLen(format, todo[n + 1..], bytesUsed)
    {
      hide Text, BatchLen, VisibleOf, Reverse, Line, Estimate, AllFit;
      var e := Entry(name, fli.stat);
      EstimateByLength(format, e, fli.meant);
      if fli.Physical() != [] {
        NextInBatch(format, todo, n, bytesUsed);
        FitsFirst(format, todo, n);
      } else {
        FitsFirst(format, fli.Virtual(), 0);
      }
      var bytes := Print(e);
      if bytes.None? {
        return true;
      }
      bytesUsed := bytesUsed + bytes.value;
      return false;
    }
  }

  lemma StandsAt(fli: FileListIterator)
    ensures fli.Physical() != [] ==> fli.Physical()[0] == fli.meant
    ensures fli.AtEntry() && fli.Physical() == [] ==> fli.Virtual() != [] && fli.Virtual()[0] == fli.meant
  {
  }

  lemma EstimateByLength(f: Format, a: Entry, b: Entry)
    ensures |a.name| == |b.name| ==> Estimate(f, a) == Estimate(f, b)
  {
  }

  lemma FitsFirst(f: Format, es: seq<Entry>, i: nat)
    ensures AllFit(f, es) && i < |es| ==> Estimate(f, es[i]) < BATCH_SIZE
  {
  }

  lemma FitsBehind(f: Format, es: seq<Entry>)
    ensures AllFit(f, es) && es != [] ==> AllFit(f, es[1..])
  {
  }

  lemma NothingListed(f: Format, showHidden: bool)
    ensures Text(f, []) == "" && BatchLen(f, [], 0) == 0 && VisibleOf([], showHidden) == []
  {
  }

  lemma VisibleOfHead(es: seq<Entry>, showHidden: bool)
    requires ValidEntries(es) && es != []
    ensures VisibleOf(es, showHidden)
            == (if Visible(es[0], showHidden) then [es[0]] else []) + VisibleOf(es[1..], showHidden)
  {
  }

  lemma NextInBatch(f: Format, todo: seq<Entry>, n: nat, used: nat)
    requires n < |todo|
    ensures Text(f, todo[..n + 1]) == Text(f, todo[..n]) + Line(f, todo[n])
    ensures todo[n..][0] == todo[n] && todo[n..][1..] == todo[n + 1..]
    ensures BatchLen(f, todo[n..], used)
            == if used + Estimate(f, todo[n]) >= BATCH_SIZE then 0
               else 1 + BatchLen(f, todo[n + 1..], used + |Line(f, todo[n])|)
  {
    hide Line, Estimate;
    assert todo[..n + 1] == todo[..n] + [todo[n]];
    TextAppend(f, todo[..n], [todo[n]]);
    TextOfOne(f, todo[n]);
    assert todo[n..][1..] == todo[n + 1..];
  }

  lemma TextOfOne(f: Format, e: Entry)
    ensures Text(f, [e]) == Line(f, e)
  {
    hide Line;
    assert Text(f, [e]) == Line(f, e) + Text(f, []);
  }

  /** The read loop of a listing, as the send loop of a transfer runs it, in either type.  The
      batches together begin with the text of every visible entry of the directory, each once
      and in order; and they are just that, and no name is read that is gone, exactly if no
      virtual entries come up behind the directory. */
  method ReadAll(lister: DirLister, ttype: TransferType) returns (output: string, sent: seq<byte>)
    requires lister.Valid() && lister.Fits()
    modifies lister, lister.fli, lister.buffer
    ensures lister.sound <==> old(lister.sound) && old(lister.fli.Virtual()) == []
    ensures Text(lister.format, old(lister.Todo())) <= output
    ensures old(lister.fli.Virtual()) == [] ==> output == Text(lister.format, old(lister.Todo()))
    ensures sent == InForm(ttype, CRLF, Bytes(output))
  {
    hide Text, BatchLen, VisibleOf, Line, Estimate, AllFit, Reverse, ValidEntries, MapLines;
    hide FileListIterator.Physical, FileListIterator.Virtual;
    output, sent := "", [];
    ghost var todo, virtual, was := lister.Todo(), lister.fli.Virtual(), lister.sound;
    NothingListed(lister.format, lister.showHidden);
    MapLinesNil(CRLF);
    assert Bytes("") == [];
    var isEof := false;
    while !isEof
      invariant lister.Valid() && lister.Fits() && sent == InForm(ttype, CRLF, Bytes(output))
      invariant Text(lister.format, todo) <= output + Text(lister.format, lister.Todo())
      invariant lister.fli.Physical() != [] || virtual == [] ==>
                  && lister.fli.Virtual() == virtual && lister.sound == was
                  && output + Text(lister.format, lister.Todo()) == Text(lister.format, todo)
      invariant lister.fli.Physical() == [] && virtual != [] ==>
                  !lister.sound || (lister.fli.Virtual() == virtual && !isEof)
      invariant isEof ==> lister.fli.Pending() == []
      decreases !isEof, |lister.fli.Pending()|
    {
      ghost var rest := lister.Todo();
      var more := lister.List();
      isEof := !more;
      var batch := lister.buffer[..lister.bytesUsed];
      BatchProgress(lister.format, rest, BatchLen(lister.format, rest, 0), output, batch);
      InFormAppend(output, batch, ttype);
      output, sent := output + batch, sent + InForm(ttype, CRLF, Bytes(batch));
    }
    NothingVisible(lister);
  }

  lemma NothingVisible(lister: DirLister)
    requires lister.Valid() && lister.fli.Pending() == []
    ensures lister.Todo() == [] && lister.fli.Physical() == [] && lister.fli.Virtual() == []
  {
  }

  lemma InFormAppend(a: string, b: string, ttype: TransferType)
    ensures InForm(ttype, CRLF, Bytes(a + b)) == InForm(ttype, CRLF, Bytes(a)) + InForm(ttype, CRLF, Bytes(b))
  {
    hide MapLines;
    BytesAppend(a, b);
    MapLinesAppend(Bytes(a), Bytes(b), CRLF);
  }

  lemma BytesAppend(a: string, b: string)
    ensures Bytes(a + b) == Bytes(a) + Bytes(b)
  {
  }

  /** A batch that begins with n of the entries to list leaves the others. */
  lemma BatchProgress(f: Format, todo: seq<Entry>, n: nat, output: string, batch: string)
    requires n == BatchLen(f, todo, 0) && Text(f, todo[..n]) <= batch
    ensures Text(f, todo) == Text(f, todo[..n]) + Text(f, todo[n..])
    ensures batch == Text(f, todo[..n]) ==>
              output + batch + Text(f, todo[n..]) == output + Text(f, todo)
    ensures n == |todo| ==> output + Text(f, todo) <= output + batch
    ensures AllFit(f, todo) ==> AllFit(f, todo[n..])
  {
    hide Text, BatchLen, Estimate;
    assert todo == todo[..n] + todo[n..];
    TextAppend(f, todo[..n], todo[n..]);
    if n == |todo| {
      assert todo[..n] == todo;
    }
  }

  /** LIST or NLST of a directory.  The client gets the visible entries of the directory, in
      order, in the form of the transfer type.  Every name that is read for it is there,
      exactly if the directory or the set of virtual entries is empty; and then it gets no
      more than that. */
  method ListDirectory(dir: seq<Entry>, vpaths: seq<Entry>, format: Format, showHidden: bool, ttype: TransferType)
      returns (output: string, sent: seq<byte>, ghost sound: bool)
    requires ValidEntries(dir) && ValidEntries(vpaths)
    requires AllFit(format, VisibleOf(dir, showHidden)) && (dir != [] ==> AllFit(format, vpaths))
    ensures sound <==> dir == [] || vpaths == []
    ensures Text(format, VisibleOf(dir, showHidden)) <= output
    ensures sound ==> output == Text(format, VisibleOf(dir, showHidden))
    ensures sent == if ttype == BIN then Bytes(output) else MapLines(Bytes(output), CRLF)
  {
    hide Text, VisibleOf, MapLines;
    var lister := new DirLister(dir, vpaths, format, showHidden);
    ReverseFits(format, vpaths);
    output, sent := ReadAll(lister, ttype);
    sound := lister.sound;
  }

  lemma {:induction false} ReverseFits(f: Format, es: seq<Entry>)
    ensures AllFit(f, es) ==> AllFit(f, Reverse(es))
    ensures |Reverse(es)| == |es|
  {
    if es != [] {
      ReverseFits(f, es[..|es| - 1]);
    }
  }

  /** The entries that come up are the directory's followed by the virtual ones exactly if the
      directory has an entry or no virtual entry is visible. */
  lemma VirtualEntriesListed(dir: seq<Entry>, vpaths: seq<Entry>, showHidden: bool)
    requires ValidEntries(dir) && ValidEntries(vpaths)
    ensures var virtual := VisibleOf(Reverse(vpaths), showHidden);
            VisibleOf(Listed(dir, vpaths), showHidden) == VisibleOf(dir, showHidden) + virtual
            <==> dir != [] || virtual == []
  {
    VisibleOfAppend(dir, Reverse(vpaths), showHidden);
  }

  /** A root that is mapped to an empty directory, with one virtual directory below it: the
      iterator stands at that entry, and the string of its name is gone. */
  method AVirtualName(dot: Stat, below: Stat) returns (fli: FileListIterator)
    requires Entry(".", dot).Valid() && Entry("anonymous-uploads", below).Valid()
    ensures fli.Valid() && fli.AtEntry() && fli.meant.name == "anonymous-uploads" && !fli.Live()
  {
    hide Reverse, Plain;
    var uploads := Entry("anonymous-uploads", below);
    fli := new FileListIterator([Entry(".", dot)]);
    fli.AddVirtualPath(uploads);
    ReverseOne(uploads);
    assert fli.vpaths == [uploads] && fli.dir == [];
    fli.Advance();
  }

  lemma ReverseOne(e: Entry)
    ensures Reverse([e]) == [e]
  {
    assert [e][..0] == [];
  }

  // ---------- what a line says ----------

  predicate IsDigit(c: char) { '0' <= c <= '9' }

  /** The number that a string of digits stands for. */
  function NumberOf(digits: string): nat {
    if digits == "" then 0
    else
      var c := digits[|digits| - 1];
      10 * NumberOf(digits[..|digits| - 1]) + if IsDigit(c) then c as nat - '0' as nat else 0
  }

  /** The digits of a number, without a leading zero. */
  ghost predicate IsNumeral(digits: string, n: nat) {
    && digits != "" && (forall i :: 0 <= i < |digits| ==> IsDigit(digits[i]))
    && (|digits| > 1 ==> digits[0] != '0') && NumberOf(digits) == n
  }

  lemma {:induction false} DecimalReadsBack(n: nat)
    ensures IsNumeral(Decimal(n), n)
    ensures n > 0 ==> Decimal(n)[0] != '0'
  {
    var last := Decimal(n)[|Decimal(n)| - 1];
    if n < 10 {
      assert Decimal(n)[..0] == "";
    } else {
      DecimalReadsBack(n / 10);
      assert Decimal(n)[..|Decimal(n)| - 1] == Decimal(n / 10);
    }
  }

  function Blanks(n: nat): string { seq(n, _ => ' ') }

  /** A long line tells a directory from a file, and gives the size of a file, right-justified
      in eight columns if it is short enough; a short line is the name. */
  lemma LineSays(e: Entry)
    ensures Line(Nlst, e) == e.name + "\r\n"
    ensures e.stat.isDir ==>
              Line(LsLong, e) == "drwxr-xr-x 1 ftp ftp        1 " + e.stat.stamp + e.name + "\r\n"
    ensures !e.stat.isDir ==>
              exists digits :: IsNumeral(digits, e.stat.size)
                && Line(LsLong, e) == "-rw-r--r-- 1 ftp ftp " + Blanks(Max(8 - |digits|, 0)) + digits + " "
                                      + e.stat.stamp + e.name + "\r\n"
  {
    hide Decimal, IsNumeral, Line;
    LineForm(Nlst, e);
    LineForm(LsLong, e);
    assert "" + e.name == e.name;
    var digits := Decimal(e.stat.size);
    DecimalReadsBack(e.stat.size);
    assert PadLeft(digits, 8) == Blanks(Max(8 - |digits|, 0)) + digits;
    if e.stat.isDir {
      assert "drwxr-xr-x 1 ftp ftp " + "       1 " == "drwxr-xr-x 1 ftp ftp        1 ";
    } else {
      var head, pad := "-rw-r--r-- 1 ftp ftp ", Blanks(Max(8 - |digits|, 0));
      assert head + (pad + digits + " ") == head + pad + digits + " ";
    }
  }

  // ---------- listings in ASCII type ----------

  /** What is printed in front of the name. */
  function Front(f: Format, e: Entry): string {
    match f
    case Nlst => ""
    case LsLong => Pieces(f, e)[0] + Pieces(f, e)[1] + e.stat.stamp
  }

  lemma LineForm(f: Format, e: Entry)
    ensures Line(f, e) == Front(f, e) + e.name + "\r\n"
  {
    hide Flatten;
    var p := Pieces(f, e);
    FlattenHead(p, 0);
    FlattenHead(p, 1);
    assert p[0..] == p && p[|p|..] == [];
    FlattenNone();
    if f == LsLong {
      FlattenHead(p, 2);
      FlattenHead(p, 3);
      FlattenHead(p, 4);
    }
  }

  lemma PlainAppend(a: string, b: string)
    requires Plain(a) && Plain(b)
    ensures Plain(a + b)
  {
    BytesAppend(a, b);
  }

  lemma {:induction false} DecimalIsPlain(n: nat)
    ensures Plain(Decimal(n))
  {
    if n >= 10 {
      DecimalIsPlain(n / 10);
      DigitIsPlain(n % 10);
      PlainAppend(Decimal(n / 10), [((n % 10) as char) + '0']);
    } else {
      DigitIsPlain(n);
    }
  }

  lemma DigitIsPlain(d: nat)
    requires d < 10
    ensures Plain([(d as char) + '0'])
  {
  }

  lemma SizeIsPlain(n: nat)
    ensures Plain(PadLeft(Decimal(n), 8) + " ")
  {
    hide Decimal;
    var digits := Decimal(n);
    DecimalIsPlain(n);
    if |digits| < 8 {
      var pad := seq(8 - |digits|, _ => ' ');
      assert Plain(pad);
      PlainAppend(pad, digits);
    }
    assert Plain(" ");
    PlainAppend(PadLeft(digits, 8), " ");
  }

  lemma WordsArePlain()
    ensures Plain("") && Plain("drwxr-xr-x 1 ftp ftp ") && Plain("-rw-r--r-- 1 ftp ftp ") && Plain("       1 ")
  {
    PlainIfNoLineEnd("");
    PlainIfNoLineEnd("drwxr-xr-x 1 ftp ftp ");
    PlainIfNoLineEnd("-rw-r--r-- 1 ftp ftp ");
    PlainIfNoLineEnd("       1 ");
  }

  lemma PlainIfNoLineEnd(text: string)
    ensures (forall c :: c in text ==> ' ' <= c <= '~') ==> Plain(text)
  {
    if forall c :: c in text ==> ' ' <= c <= '~' {
      forall i | 0 <= i < |text| ensures Bytes(text)[i] != CR && Bytes(text)[i] != LF {
        assert text[i] in text;
      }
    }
  }

  lemma FrontIsPlain(f: Format, e: Entry)
    requires e.Valid()
    ensures Plain(Front(f, e))
  {
    hide Decimal, PadLeft, Plain, Bytes;
    WordsArePlain();
    if f == LsLong {
      SizeIsPlain(e.stat.size);
      var p := Pieces(f, e);
      PlainAppend(p[0], p[1]);
      PlainAppend(p[0] + p[1], e.stat.stamp);
    }
  }

  /** A client that lists in ASCII type gets the text of the listing exactly if in every name
      CR and LF occur only as CR LF. */
  lemma {:induction false} ListingInAscii(f: Format, es: seq<Entry>)
    requires ValidEntries(es)
    ensures NetworkText(Bytes(Text(f, es))) <==>
              forall i :: 0 <= i < |es| ==> NetworkText(Bytes(es[i].name))
    ensures MapLines(Bytes(Text(f, es)), CRLF) == Bytes(Text(f, es)) <==>
              forall i :: 0 <= i < |es| ==> NetworkText(Bytes(es[i].name))
  {
    hide Line, Front, MapLines;
    MapLinesKeeps(Bytes(Text(f, es)));
    if es == [] {
      assert Bytes("") == [];
    } else {
      ListingInAscii(f, es[1..]);
      LineInAscii(f, es[0], Text(f, es[1..]));
      assert forall i :: 0 < i < |es| ==> es[i] == es[1..][i - 1];
    }
  }

  lemma LineInAscii(f: Format, e: Entry, rest: string)
    requires e.Valid()
    ensures NetworkText(Bytes(Line(f, e) + rest)) <==> NetworkText(Bytes(e.name)) && NetworkText(Bytes(rest))
  {
    hide Line, Front, NetworkText;
    LineForm(f, e);
    FrontIsPlain(f, e);
    var front, behind := Front(f, e), e.name + "\r\n" + rest;
    assert Line(f, e) + rest == front + behind;
    BytesAppend(front, behind);
    BytesAppend(e.name + "\r\n", rest);
    BytesAppend(e.name, "\r\n");
    assert Bytes("\r\n") == CRLF;
    NetworkBehindPlain(Bytes(front), Bytes(behind));
    NetworkAroundLineEnd(Bytes(e.name), Bytes(rest));
  }
}
