/** The permission table of a session: an ordered scan that finds the longest matching
    entry (src/wfde/WfdePermissions.cpp, include/wfde/multipaths.h). */
module PermissionTables {
  import opened Common
  import opened VirtualPaths

  datatype PermissionBit = CAN_READ | CAN_WRITE | CAN_EXECUTE | CAN_ENTER | CAN_LIST
    | CAN_CREATE_DIR | CAN_CREATE_FILE | CAN_DELETE_FILE | CAN_DELETE_DIR
    | CAN_SEE_HIDDEN_FILES | CAN_SEE_HIDDEN_DIRS | CAN_CREATE_HIDDEN_FILES | CAN_CREATE_HIDDEN_DIRS
    | CAN_SET_TIMESTAMP | CAN_SET_PERMISSIONS | CAN_RENAME | IS_RECURSIVE | IS_SHARED_UPLOAD_DIR

  datatype PathType = FILE | DIRECTORY | ANY

  datatype Path = Path(vpath: string, ppath: string, bits: set<PermissionBit>, ptype: PathType) {
    predicate IsRecursive() { IS_RECURSIVE in bits }
  }

  /** Prefix the virtual path with a slash if that is missing. */
  function MakeValid(vpath: string): (r: string)
    ensures (r == "" <==> vpath == "") && (r != "" ==> r[0] == '/')
    ensures r == vpath || r == "/" + vpath
    ensures r == vpath <==> vpath == "" || vpath[0] == '/'
  {
    if vpath != "" && vpath[0] != '/' then "/" + vpath else vpath
  }

  /** The elements of a physical path: the root, the names, and a dot behind a last slash. */
  function Elements(ppath: string): seq<string> {
    (if ppath != "" && ppath[0] == '/' then ["/"] else []) + Split(ppath, '/')
    + (if |ppath| > 1 && ppath[|ppath| - 1] == '/' then ["."] else [])
  }

  /** The index compares physical paths by their elements: doubled slashes do not count. */
  predicate SamePpath(a: string, b: string) {
    Elements(a) == Elements(b)
  }

  /** Entries that are written differently can be the same for the index. */
  lemma DoubledSlashIsSame(front: string, rest: string)
    requires front != ""
    ensures SamePpath(front + "//" + rest, front + "/" + rest)
  {
    hide Split;
    var a, b := front + "//" + rest, front + "/" + rest;
    assert a == front + "/" + ("/" + rest) && "/" + rest == "" + "/" + rest;
    SplitAtSeparator(front, '/', "/" + rest);
    SplitAtSeparator("", '/', rest);
    SplitAtSeparator(front, '/', rest);
    SplitEmpty('/');
    assert [] + Split(rest, '/') == Split(rest, '/');
    assert a[|a| - 1] == b[|b| - 1];
  }

  /** The names of a physical path; behind a last slash there is one more, the dot. */
  function NamesOf(ppath: string): seq<string> {
    Split(ppath, '/') + if |ppath| > 1 && ppath[|ppath| - 1] == '/' then ["."] else []
  }

  /** Which paths the index takes for one: those with the same root and the same names, and
      so, without a slash at the end, the same segments. */
  lemma SamePpathExactly(a: string, b: string)
    ensures SamePpath(a, b) <==> (a != "" && a[0] == '/' <==> b != "" && b[0] == '/') && NamesOf(a) == NamesOf(b)
    ensures a != "" && a[|a| - 1] != '/' ==> NamesOf(a) == Split(a, '/')
  {
    hide Split;
    var x, y := NamesOf(a), NamesOf(b);
    assert Split(a, '/') + [] == Split(a, '/');
    RootAndNames(a);
    RootAndNames(b);
    NamesAreSegments(a);
    NamesAreSegments(b);
    RootIsNoName(x, y);
    RootIsNoName(y, x);
    assert (["/"] + x)[1..] == x && (["/"] + y)[1..] == y;
  }

  lemma NamesAreSegments(a: string)
    ensures Segments(NamesOf(a))
  {
    hide Split;
    SplitYieldsSegments(a);
  }

  lemma RootAndNames(a: string)
    ensures Elements(a) == if a != "" && a[0] == '/' then ["/"] + NamesOf(a) else NamesOf(a)
  {
    hide Split;
    var behind := if |a| > 1 && a[|a| - 1] == '/' then ["."] else [];
    assert [] + Split(a, '/') + behind == NamesOf(a);
    Regroup(["/"], Split(a, '/'), behind);
  }

  lemma RootIsNoName(x: seq<string>, y: seq<string>)
    requires Segments(y)
    ensures ["/"] + x != y
  {
    if y != [] {
      assert '/' !in y[0] && '/' in "/";
      assert (["/"] + x)[0] == "/";
    }
  }

  // ---------- the order of the index ----------

  predicate Less(a: string, b: string) {
    b != "" && (a == "" || a[0] < b[0] || (a[0] == b[0] && Less(a[1..], b[1..])))
  }

  /** Prefixes of one string are ordered by their length. */
  lemma {:induction false} PrefixesSortByLength(s: string, a: string, b: string)
    requires a <= s && b <= s
    ensures Less(a, b) <==> |a| < |b|
  {
    if a != "" && b != "" {
      assert a[0] == s[0] == b[0];
      PrefixesSortByLength(s[1..], a[1..], b[1..]);
    }
  }

  lemma {:induction false} LessIsTransitive(a: string, b: string, c: string)
    requires Less(a, b) && Less(b, c)
    ensures Less(a, c)
  {
    if a != "" && a[0] == b[0] == c[0] {
      LessIsTransitive(a[1..], b[1..], c[1..]);
    }
  }

  lemma {:induction false} LessIsTotal(a: string, b: string)
    ensures a == b || Less(a, b) || Less(b, a)
    ensures !(Less(a, b) && Less(b, a)) && !Less(a, a)
  {
    if a != "" && b != "" && a[0] == b[0] {
      LessIsTotal(a[1..], b[1..]);
      LessIsTotal(a[1..], a[1..]);
    } else if a != "" {
      LessIsTotal(a[1..], a[1..]);
    }
  }

  ghost predicate Sorted(index: seq<Path>) {
    forall i, j :: 0 <= i < j < |index| ==> Less(index[i].vpath, index[j].vpath)
  }

  ghost predicate UniqueVpaths(paths: seq<Path>) {
    forall i, j :: 0 <= i < j < |paths| ==> paths[i].vpath != paths[j].vpath
  }

  ghost predicate UniquePpaths(paths: seq<Path>) {
    forall i, j :: 0 <= i < j < |paths| ==> !SamePpath(paths[i].ppath, paths[j].ppath)
  }

  ghost predicate SamePaths(a: seq<Path>, b: seq<Path>) {
    forall p :: p in a <==> p in b
  }

  function InsertSorted(index: seq<Path>, p: Path): seq<Path> {
    if index == [] || Less(p.vpath, index[0].vpath) then [p] + index
    else [index[0]] + InsertSorted(index[1..], p)
  }

  lemma {:induction false} InsertKeepsSorted(index: seq<Path>, p: Path)
    requires Sorted(index)
    requires forall i :: 0 <= i < |index| ==> index[i].vpath != p.vpath
    ensures Sorted(InsertSorted(index, p))
    ensures forall q :: q in InsertSorted(index, p) <==> q == p || q in index
  {
    if index != [] && !Less(p.vpath, index[0].vpath) {
      var rest := InsertSorted(index[1..], p);
      InsertKeepsSorted(index[1..], p);
      LessIsTotal(p.vpath, index[0].vpath);
      forall j | 0 <= j < |rest| ensures Less(index[0].vpath, rest[j].vpath) {
        if rest[j] != p {
          assert rest[j] in rest;
          var k :| 0 <= k < |index[1..]| && index[1..][k] == rest[j];
          assert index[k + 1] == rest[j];
        }
      }
    } else if index != [] {
      forall j | 0 <= j < |index| ensures Less(p.vpath, index[j].vpath) {
        if j > 0 {
          LessIsTransitive(p.vpath, index[0].vpath, index[j].vpath);
        }
      }
    }
  }

  // ---------- longest-prefix match ----------

  predicate Matches(p: Path, vpath: string) {
    p.vpath != "" && p.vpath <= vpath
  }

  /** The entry for a path: the longest that is a prefix of it, character by character. */
  ghost predicate IsLongest(paths: seq<Path>, vpath: string, p: Path) {
    && p in paths && p.vpath != "" && p.vpath <= vpath
    && forall q :: q in paths && q.vpath != "" && q.vpath <= vpath ==> |q.vpath| <= |p.vpath|
  }

  function Longest(paths: seq<Path>, vpath: string): (r: Option<Path>)
    ensures r.Some? ==> Matches(r.value, vpath) && r.value in paths
  {
    if paths == [] then None
    else
      var rest := Longest(paths[..|paths| - 1], vpath);
      var p := paths[|paths| - 1];
      if Matches(p, vpath) && (rest.Some? ==> |rest.value.vpath| < |p.vpath|) then Some(p) else rest
  }

  lemma {:induction false} LongestIsLongest(paths: seq<Path>, vpath: string)
    ensures match Longest(paths, vpath)
            case Some(p) => IsLongest(paths, vpath, p)
            case None => forall q :: q in paths ==> !Matches(q, vpath)
  {
    if paths != [] {
      var front, p := paths[..|paths| - 1], paths[|paths| - 1];
      LongestIsLongest(front, vpath);
      assert forall q :: q in paths <==> q in front || q == p;
    }
  }

  /** It does not depend on the order of the table. */
  lemma LongestIsUnique(a: seq<Path>, b: seq<Path>, vpath: string)
    requires UniqueVpaths(a) && SamePaths(a, b)
    ensures Longest(a, vpath) == Longest(b, vpath)
  {
    LongestIsLongest(a, vpath);
    LongestIsLongest(b, vpath);
    if Longest(a, vpath).Some? && Longest(b, vpath).Some? {
      var p, q := Longest(a, vpath).value, Longest(b, vpath).value;
      assert p.vpath == vpath[..|p.vpath|] && q.vpath == vpath[..|q.vpath|];
      assert p in a && q in a;
    }
  }

  /** What a lookup answers: the longest match, if that is exact or recursive. */
  function Lookup(paths: seq<Path>, vpath: string): (r: Result<Path, PathError>)
    ensures r.Ok? ==> Matches(r.value, vpath) && r.value in paths
  {
    match Longest(paths, vpath)
    case Some(p) => if p.vpath == vpath || p.IsRecursive() then Ok(p) else Err(AccessDenied)
    case None => Err(AccessDenied)
  }

  function StripSlashes(s: string): (r: string)
    ensures r == "" || r[0] != '/'
  {
    if s != "" && s[0] == '/' then StripSlashes(s[1..]) else s
  }

  lemma {:induction false} OnlySlashesStripped(s: string)
    ensures var r := StripSlashes(s);
            |r| <= |s| && s[|s| - |r|..] == r && forall k :: 0 <= k < |s| - |r| ==> s[k] == '/'
  {
    if s != "" && s[0] == '/' {
      var r := StripSlashes(s[1..]);
      OnlySlashesStripped(s[1..]);
      assert s[|s| - |r|..] == s[1..][|s| - 1 - |r|..];
      forall k | 0 < k < |s| - |r| ensures s[k] == '/' {
        assert s[k] == s[1..][k - 1];
      }
    }
  }

  /** What a lookup leaves in its in-out argument: the path behind the entry, or the given
      value when the entry is the path itself or there is none. */
  function Remaining(paths: seq<Path>, vpath: string, given: string): string {
    match Lookup(paths, vpath)
    case Ok(p) => if p.vpath == vpath then given else StripSlashes(vpath[|p.vpath|..])
    case Err(_) => given
  }

  /** The entry may be used for the path: it is the path itself, or it covers what is below. */
  predicate Covers(p: Path, vpath: string) {
    p.vpath == vpath || IS_RECURSIVE in p.bits
  }

  /** An answer is the longest matching entry, and that covers the path; all else is denied. */
  lemma LookupExactly(paths: seq<Path>, vpath: string)
    requires UniqueVpaths(paths)
    ensures forall p :: Lookup(paths, vpath) == Ok(p) <==> IsLongest(paths, vpath, p) && Covers(p, vpath)
    ensures Lookup(paths, vpath).Err? ==> Lookup(paths, vpath) == Err(AccessDenied)
  {
    hide Longest, UniqueVpaths;
    LongestIsLongest(paths, vpath);
    var l := Longest(paths, vpath);
    forall p | IsLongest(paths, vpath, p) ensures l == Some(p) {
      assert Matches(p, vpath);
      EqualMatches(paths, vpath, p, l.value);
    }
  }

  /** Behind the entry come slashes, and then what remains; nothing is said of the argument if
      the entry is the path itself or the path is denied. */
  lemma RemainingExactly(paths: seq<Path>, vpath: string, given: string)
    ensures var r, rest := Lookup(paths, vpath), Remaining(paths, vpath, given);
            && (r.Err? || r.value.vpath == vpath ==> rest == given)
            && (r.Ok? && r.value.vpath != vpath ==>
                  && (rest == "" || rest[0] != '/')
                  && |r.value.vpath| + |rest| <= |vpath| && vpath[|vpath| - |rest|..] == rest
                  && forall k :: |r.value.vpath| <= k < |vpath| - |rest| ==> vpath[k] == '/')
  {
    hide Lookup, StripSlashes;
    var r, rest := Lookup(paths, vpath), Remaining(paths, vpath, given);
    if r.Ok? && r.value.vpath != vpath {
      var n := |r.value.vpath|;
      var behind := vpath[n..];
      OnlySlashesStripped(behind);
      assert behind[|behind| - |rest|..] == vpath[|vpath| - |rest|..];
      forall k | n <= k < |vpath| - |rest| ensures vpath[k] == '/' {
        assert behind[k - n] == vpath[k];
      }
    }
  }

  // ---------- merging ----------

  predicate HasVpath(paths: seq<Path>, vpath: string) {
    exists i :: 0 <= i < |paths| && paths[i].vpath == vpath
  }

  predicate HasPpath(paths: seq<Path>, ppath: string) {
    exists i :: 0 <= i < |paths| && SamePpath(paths[i].ppath, ppath)
  }

  predicate Blocked(paths: seq<Path>, p: Path) {
    HasVpath(paths, p.vpath) || HasPpath(paths, p.ppath)
  }

  function Merged(own: seq<Path>, theirs: seq<Path>): (m: seq<Path>)
    ensures own <= m
    decreases |theirs|
  {
    if theirs == [] then own
    else Merged(if Blocked(own, theirs[0]) then own else own + [theirs[0]], theirs[1..])
  }

  /** A merge keeps the own entries in front, keeps both indexes unique, adds only entries
      of the other table, and leaves out only those whose virtual or physical path the
      result has already. */
  lemma {:induction false} MergeLaws(own: seq<Path>, theirs: seq<Path>)
    ensures UniqueVpaths(own) && UniquePpaths(own)
            ==> UniqueVpaths(Merged(own, theirs)) && UniquePpaths(Merged(own, theirs))
    ensures forall p :: p in Merged(own, theirs) ==> p in own || (p in theirs && !Blocked(own, p))
    ensures forall p :: p in theirs ==> Blocked(Merged(own, theirs), p)
    decreases |theirs|
  {
    hide Elements;
    if theirs != [] {
      var p, next := theirs[0], if Blocked(own, theirs[0]) then own else own + [theirs[0]];
      MergeLaws(next, theirs[1..]);
      var m := Merged(own, theirs);
      BlockedByMore(own, next, p);
      if !Blocked(own, p) {
        assert next[|own|] == p;
      }
      BlockedByMore(next, m, p);
      assert own <= next;
      assert forall q :: q in theirs <==> q == p || q in theirs[1..];
      forall q | q in m ensures q in own || (q in theirs && !Blocked(own, q)) {
        if q !in next {
          BlockedByMore(own, next, q);
        }
      }
    }
  }

  /** A merge takes the entries of the other table one by one. */
  lemma {:induction false} MergeOneByOne(own: seq<Path>, theirs: seq<Path>, p: Path)
    ensures var m := Merged(own, theirs);
            Merged(own, theirs + [p])
            == if HasVpath(m, p.vpath) || HasPpath(m, p.ppath) then m else m + [p]
    decreases |theirs|
  {
    hide Blocked;
    if theirs == [] {
      assert theirs + [p] == [p] && [p][1..] == [];
      assert Blocked(own, p) <==> HasVpath(own, p.vpath) || HasPpath(own, p.ppath) by { BlockedMeans(own, p); }
    } else {
      assert (theirs + [p])[1..] == theirs[1..] + [p];
      MergeOneByOne(if Blocked(own, theirs[0]) then own else own + [theirs[0]], theirs[1..], p);
    }
  }

  lemma BlockedMeans(paths: seq<Path>, p: Path)
    ensures Blocked(paths, p) <==> HasVpath(paths, p.vpath) || HasPpath(paths, p.ppath)
  {
  }

  lemma BlockedByMore(a: seq<Path>, b: seq<Path>, p: Path)
    requires a <= b
    ensures Blocked(a, p) ==> Blocked(b, p)
  {
    if Blocked(a, p) {
      var i :| 0 <= i < |a| && (a[i].vpath == p.vpath || SamePpath(a[i].ppath, p.ppath));
      assert b[i] == a[i];
    }
  }

  /** Merging the same table again changes nothing. */
  lemma MergeIsIdempotent(own: seq<Path>, theirs: seq<Path>)
    ensures Merged(Merged(own, theirs), theirs) == Merged(own, theirs)
  {
    MergeLaws(own, theirs);
    MergeBlocked(Merged(own, theirs), theirs);
  }

  lemma {:induction false} MergeBlocked(own: seq<Path>, theirs: seq<Path>)
    requires forall p :: p in theirs ==> Blocked(own, p)
    ensures Merged(own, theirs) == own
  {
    if theirs != [] {
      assert theirs[0] in theirs;
      MergeBlocked(own, theirs[1..]);
    }
  }

  /** Two entries that match as much of a path are one. */
  lemma EqualMatches(paths: seq<Path>, vpath: string, p: Path, q: Path)
    requires UniqueVpaths(paths) && p in paths && q in paths
    requires Matches(p, vpath) && Matches(q, vpath) && |p.vpath| == |q.vpath|
    ensures p == q
  {
    assert p.vpath == vpath[..|p.vpath|] && q.vpath == vpath[..|q.vpath|];
  }

  lemma OtherMatches(paths: seq<Path>, vpath: string, i: nat, j: nat)
    requires UniqueVpaths(paths) && i < j < |paths|
    requires Matches(paths[i], vpath) && Matches(paths[j], vpath)
    ensures |paths[i].vpath| != |paths[j].vpath|
  {
    assert paths[i].vpath == vpath[..|paths[i].vpath|] && paths[j].vpath == vpath[..|paths[j].vpath|];
  }

  ghost predicate Outmatched(entries: seq<Path>, vpath: string, champion: Option<Path>) {
    forall q :: q in entries && Matches(q, vpath) ==> champion.Some? && |q.vpath| < |champion.value.vpath|
  }

  /** The own entry that matches a path goes on answering for it after the merge exactly if
      every entry that was added matches less of the path. */
  lemma MergedLookup(own: seq<Path>, theirs: seq<Path>, vpath: string)
    requires UniqueVpaths(own) && UniquePpaths(own)
    ensures Longest(Merged(own, theirs), vpath) == Longest(own, vpath)
            <==> Outmatched(Merged(own, theirs)[|own|..], vpath, Longest(own, vpath))
  {
    var m := Merged(own, theirs);
    MergeLaws(own, theirs);
    SplitLongest(m, |own|, vpath);
    assert m[..|own|] == own;
  }

  lemma SplitLongest(m: seq<Path>, n: nat, vpath: string)
    requires UniqueVpaths(m) && n <= |m|
    ensures Longest(m, vpath) == Longest(m[..n], vpath)
            <==> Outmatched(m[n..], vpath, Longest(m[..n], vpath))
  {
    hide Longest, Outmatched, UniqueVpaths;
    if Longest(m, vpath) == Longest(m[..n], vpath) {
      LongestOutmatches(m, n, vpath);
    } else if Outmatched(m[n..], vpath, Longest(m[..n], vpath)) {
      OutmatchedKeepsLongest(m, n, vpath);
    }
  }

  lemma LongestOutmatches(m: seq<Path>, n: nat, vpath: string)
    requires UniqueVpaths(m) && n <= |m| && Longest(m, vpath) == Longest(m[..n], vpath)
    ensures Outmatched(m[n..], vpath, Longest(m[..n], vpath))
  {
    hide Longest;
    var u := Longest(m[..n], vpath);
    LongestIsLongest(m, vpath);
    forall q | q in m[n..] && Matches(q, vpath)
      ensures u.Some? && |q.vpath| < |u.value.vpath|
    {
      assert m == m[..n] + m[n..];
      var i :| 0 <= i < |m[n..]| && m[n..][i] == q;
      var j :| 0 <= j < |m[..n]| && m[..n][j] == u.value;
      OtherMatches(m, vpath, j, n + i);
    }
  }

  lemma OutmatchedKeepsLongest(m: seq<Path>, n: nat, vpath: string)
    requires UniqueVpaths(m) && n <= |m|
    requires Outmatched(m[n..], vpath, Longest(m[..n], vpath))
    ensures Longest(m, vpath) == Longest(m[..n], vpath)
  {
    hide Longest, UniqueVpaths;
    var l, u := Longest(m, vpath), Longest(m[..n], vpath);
    LongestIsLongest(m, vpath);
    LongestIsLongest(m[..n], vpath);
    assert m == m[..n] + m[n..];
    if l.Some? && u.Some? {
      EqualMatches(m, vpath, l.value, u.value);
    }
  }

  /** Login: the table of the user wins wherever its longest match is at least as long as
      every match of the session's table. */
  lemma UserTableWins(own: seq<Path>, theirs: seq<Path>, vpath: string)
    requires UniqueVpaths(own) && UniquePpaths(own)
    requires Longest(own, vpath).Some?
    requires forall q :: q in theirs && Matches(q, vpath) ==> |q.vpath| <= |Longest(own, vpath).value.vpath|
    ensures Lookup(Merged(own, theirs), vpath) == Lookup(own, vpath)
    ensures forall given :: Remaining(Merged(own, theirs), vpath, given) == Remaining(own, vpath, given)
  {
    hide Longest, Merged, UniqueVpaths, UniquePpaths;
    var m, u := Merged(own, theirs), Longest(own, vpath).value;
    MergeLaws(own, theirs);
    LongestIsLongest(own, vpath);
    forall q | q in m[|own|..] && Matches(q, vpath) ensures |q.vpath| < |u.vpath| {
      AddedIsOther(own, m, vpath, u, q);
      assert q in m;
    }
    MergedLookup(own, theirs, vpath);
  }

  lemma AddedIsOther(own: seq<Path>, m: seq<Path>, vpath: string, u: Path, q: Path)
    requires own <= m && UniqueVpaths(m) && u in own && q in m[|own|..]
    requires Matches(u, vpath) && Matches(q, vpath)
    ensures |q.vpath| != |u.vpath|
  {
    var j :| 0 <= j < |own| && own[j] == u;
    var k :| 0 <= k < |m[|own|..]| && m[|own|..][k] == q;
    OtherMatches(m, vpath, j, |own| + k);
  }

  // ---------- the table ----------

  datatype AddResult = Added | VpathExists | PpathExists

  /** `GetPath` asserts this of every path it is asked for. */
  ghost predicate Normalized(vpath: string) {
    && vpath != "" && (|vpath| == 1 || vpath[|vpath| - 1] != '/')
    && forall k :: 0 <= k && k + 2 < |vpath| ==> !(vpath[k] == vpath[k + 1] == '.' && vpath[k + 2] == '/')
  }

  /** A container that is indexed by sequence and, uniquely, by virtual and by physical path. */
  class Permissions {
    var paths: seq<Path>
    var byVpath: seq<Path>

    ghost predicate Valid()
      reads this
    {
      && UniqueVpaths(paths) && UniquePpaths(paths)
      && Sorted(byVpath) && SamePaths(paths, byVpath)
      && forall p :: p in paths ==> '\0' !in p.vpath && p.vpath == MakeValid(p.vpath)
    }

    constructor ()
      ensures Valid() && paths == []
    {
      paths, byVpath := [], [];
    }

    constructor Copy(v: Permissions)
      requires v.Valid()
      ensures Valid() && paths == v.paths
    {
      paths, byVpath := [], [];
      new;
      var i := 0;
      while i < |v.paths|
        invariant 0 <= i <= |v.paths| && Valid() && paths == v.paths[..i]
      {
        PushBack(v.paths[i]);
        i := i + 1;
      }
    }

    /** One comparison of the scan: how much of the entry agrees with the path.  The
        character behind the end of the path is NUL, which no entry holds. */
    method Compare(entry: string, vpath: string) returns (p: nat)
      requires '\0' !in entry
      ensures p <= |entry| && p <= |vpath|
      ensures p == |entry| <==> entry <= vpath
    {
      p := 0;
      while p != |entry| && entry[p] == Peek(vpath, p)
        invariant p <= |entry| && p <= |vpath| && entry[..p] == vpath[..p]
        decreases |entry| - p
      {
        p := p + 1;
      }
    }

    /** One pass over the ordered index finds the longest match; `given` is the in-out
        argument that takes the rest of the path. */
    method GetPath(vpath: string, given: string)
        returns (r: Result<Path, PathError>, remaining: string)
      requires Valid() && Normalized(vpath)
      ensures r == Lookup(paths, vpath)
      ensures forall p :: r == Ok(p) <==> IsLongest(paths, vpath, p) && Covers(p, vpath)
      ensures r.Err? ==> r == Err(AccessDenied)
      ensures remaining == Remaining(paths, vpath, given)
      ensures r.Err? || r.value.vpath == vpath ==> remaining == given
      ensures r.Ok? && r.value.vpath != vpath ==>
                && (remaining == "" || remaining[0] != '/')
                && |r.value.vpath| + |remaining| <= |vpath| && vpath[|vpath| - |remaining|..] == remaining
                && forall k :: |r.value.vpath| <= k < |vpath| - |remaining| ==> vpath[k] == '/'
    {
      hide Lookup, Remaining, IsLongest, Covers, Matches;
      r, remaining := Scan(vpath, given);
      LookupExactly(paths, vpath);
      RemainingExactly(paths, vpath, given);
    }

    method Scan(vpath: string, given: string)
        returns (r: Result<Path, PathError>, remaining: string)
      requires Valid() && Normalized(vpath)
      ensures r == Lookup(paths, vpath)
      ensures remaining == Remaining(paths, vpath, given)
    {
      hide Longest, StripSlashes, Less, Sorted;
      var bestMatch: Option<Path> := None;
      var remainingIt := |vpath|;
      ghost var longest := Longest(byVpath[..0], vpath);
      NoneOfNone(vpath);
      LongestIsUnique(paths, byVpath, vpath);
      assert byVpath[..|byVpath|] == byVpath;
      var i := 0;
      while i < |byVpath|
        invariant 0 <= i <= |byVpath|
        invariant longest == Longest(byVpath[..i], vpath)
        invariant longest.Some? ==> longest.value.vpath != vpath
        invariant bestMatch == if longest.Some? && longest.value.IsRecursive() then longest else None
        invariant 0 <= remainingIt <= |vpath|
        invariant bestMatch.Some? ==>
                    vpath[remainingIt..] == StripSlashes(vpath[|bestMatch.value.vpath|..])
      {
        var path := byVpath[i];
        assert path in byVpath;
        NextLongest(byVpath, vpath, i);
        var pp := Compare(path.vpath, vpath);
        if pp == |path.vpath| {
          if pp == |vpath| {
            ExactIsLongest(byVpath, vpath, path);
            return Ok(path), given;
          } else if pp != 0 {
            longest := Some(path);
            if path.IsRecursive() {
              bestMatch := Some(path);
              remainingIt := SkipSlashes(vpath, pp);
            } else {
              bestMatch := None;
            }
          }
        }
        i := i + 1;
      }
      if bestMatch.None? {
        return Err(AccessDenied), given;
      }
      return Ok(bestMatch.value), vpath[remainingIt..];
    }

    method SkipSlashes(vpath: string, from: nat) returns (it: nat)
      requires from <= |vpath|
      ensures from <= it <= |vpath| && vpath[it..] == StripSlashes(vpath[from..])
    {
      it := from;
      while it != |vpath| && vpath[it] == '/'
        invariant from <= it <= |vpath|
        invariant StripSlashes(vpath[it..]) == StripSlashes(vpath[from..])
      {
        assert vpath[it..][1..] == vpath[it + 1..];
        it := it + 1;
      }
    }

    /** Refused if either path is taken; the virtual path is checked first. */
    method AddPath(path: Path) returns (r: AddResult)
      requires Valid() && '\0' !in path.vpath && path.vpath == MakeValid(path.vpath)
      modifies this
      ensures Valid()
      ensures r == (if HasVpath(old(paths), path.vpath) then VpathExists
                    else if HasPpath(old(paths), path.ppath) then PpathExists else Added)
      ensures paths == if r == Added then old(paths) + [path] else old(paths)
    {
      if HasVpath(paths, path.vpath) {
        return VpathExists;
      }
      if HasPpath(paths, path.ppath) {
        return PpathExists;
      }
      PushBack(path);
      return Added;
    }

    method PushBack(path: Path)
      requires Valid() && '\0' !in path.vpath && path.vpath == MakeValid(path.vpath)
      requires !Blocked(paths, path)
      modifies this
      ensures Valid() && paths == old(paths) + [path]
    {
      forall i | 0 <= i < |byVpath| ensures byVpath[i].vpath != path.vpath {
        assert byVpath[i] in paths;
      }
      InsertKeepsSorted(byVpath, path);
      paths, byVpath := paths + [path], InsertSorted(byVpath, path);
    }

    method Merge(theirs: seq<Path>)
      requires Valid()
      requires forall p :: p in theirs ==> '\0' !in p.vpath && p.vpath == MakeValid(p.vpath)
      modifies this
      ensures Valid() && paths == Merged(old(paths), theirs)
    {
      var i := 0;
      while i < |theirs|
        invariant 0 <= i <= |theirs| && Valid()
        invariant Merged(paths, theirs[i..]) == Merged(old(paths), theirs)
      {
        var p := theirs[i];
        assert theirs[i..][1..] == theirs[i + 1..];
        if !HasVpath(paths, p.vpath) && !HasPpath(paths, p.ppath) {
          PushBack(p);
        }
        i := i + 1;
      }
    }
  }

  lemma ExactIsLongest(paths: seq<Path>, vpath: string, p: Path)
    requires Sorted(paths) && p in paths && p.vpath == vpath != ""
    ensures Longest(paths, vpath) == Some(p)
  {
    LongestIsLongest(paths, vpath);
    var l := Longest(paths, vpath);
    assert l.Some? && l.value.vpath == vpath;
    var i, j :| 0 <= i < |paths| && paths[i] == p && 0 <= j < |paths| && paths[j] == l.value;
    LessIsTotal(vpath, vpath);
  }

  lemma NoneOfNone(vpath: string)
    ensures Longest([], vpath) == None
  {
  }

  /** In the ordered index a later match is a longer match. */
  lemma NextLongest(index: seq<Path>, vpath: string, i: nat)
    requires Sorted(index) && i < |index|
    ensures Longest(index[..i + 1], vpath)
            == if Matches(index[i], vpath) then Some(index[i]) else Longest(index[..i], vpath)
  {
    var front := index[..i];
    assert index[..i + 1][..i] == front;
    LongestIsLongest(front, vpath);
    if Longest(front, vpath).Some? && Matches(index[i], vpath) {
      var p := Longest(front, vpath).value;
      var j :| 0 <= j < i && index[j] == p;
      PrefixesSortByLength(vpath, p.vpath, index[i].vpath);
    }
  }
}
