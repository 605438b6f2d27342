/** From a requested path to a physical one: normalize, look up, extend the entry
    (src/wfde/WfdeSession.cpp, WfdePath::CreateSubpath). */
module Resolution {
  import opened Common
  import opened VirtualPaths
  import opened PathLaws
  import opened PermissionTables

  // ---------- strings that normalization can produce ----------

  ghost predicate NoPair(s: string, ch: char) {
    forall k :: 0 <= k && k + 1 < |s| ==> !(s[k] == s[k + 1] == ch)
  }

  /** No "..", no backslash: every piece between slashes is safe. */
  ghost predicate Tidy(s: string) {
    NoPair(s, '.') && '\\' !in s
  }

  /** A slash in front of every part and nowhere else, or just the root. */
  ghost predicate Neat(v: string) {
    && Tidy(v) && NoPair(v, '/')
    && v != "" && v[0] == '/' && (|v| == 1 || v[|v| - 1] != '/')
  }

  lemma TidyPart(p: string)
    requires Safe(p)
    ensures Tidy(p) && NoPair(p, '/') && p[0] != '/' && p[|p| - 1] != '/'
  {
    forall k | 0 <= k && k + 1 < |p| ensures !(p[k] == p[k + 1] == '.') {
      assert k < DotDot(p);
    }
  }

  lemma NoPairJoined(a: string, b: string, ch: char)
    requires NoPair(a, ch) && NoPair(b, ch)
    requires a != "" && b != "" && (ch == '/' ==> a[|a| - 1] != '/' && b[0] != '/')
    ensures NoPair(a + "/" + b, ch)
  {
  }

  lemma {:induction false} JoinSlashIsTidy(parts: seq<string>)
    requires AllSafe(parts) && parts != []
    ensures var s := JoinSlash(parts);
            Tidy(s) && NoPair(s, '/') && s != "" && s[0] != '/' && s[|s| - 1] != '/'
  {
    TidyPart(parts[0]);
    if |parts| > 1 {
      JoinSlashIsTidy(parts[1..]);
      var rest := JoinSlash(parts[1..]);
      NoPairJoined(parts[0], rest, '.');
      NoPairJoined(parts[0], rest, '/');
    }
  }

  lemma JoinIsNeat(parts: seq<string>)
    requires AllSafe(parts)
    ensures Neat(Join(parts, true))
  {
    if parts == [] {
      assert Join(parts, true) == "/";
    } else {
      JoinSlashIsTidy(parts);
    }
  }

  lemma NeatIsNormalized(v: string)
    requires Neat(v)
    ensures Normalized(v)
  {
  }

  lemma {:induction false} SplitTidy(s: string)
    requires Tidy(s)
    ensures AllSafe(Split(s, '/'))
    decreases |s|
  {
    if s != "" {
      var n := SegLen(s, '/');
      if n == 0 {
        SplitTidy(s[1..]);
      } else {
        SplitTidy(s[n..]);
        DotDotIs(s[..n], n);
      }
    }
  }

  /** What the session asks the table for. */
  lemma NormalizeIsNeat(vpath: string, cwd: string)
    requires Tidy(cwd) && Normalize(vpath, cwd).Ok?
    ensures Neat(Normalize(vpath, cwd).value)
    ensures var parts := Resolve(vpath, cwd).value;
            AllSafe(parts) && Split(Normalize(vpath, cwd).value, '/') == parts
  {
    SplitTidy(cwd);
    ResolvedPartsAreSafe(vpath, cwd);
    var parts := Resolve(vpath, cwd).value;
    JoinIsNeat(parts);
    SplitJoin(parts, true);
  }

  // ---------- sub-paths ----------

  /** Append a node to a path of the file system. */
  function AppendNode(ppath: string, node: string): string {
    if ppath == "" || ppath[|ppath| - 1] == '/' then ppath + node else ppath + "/" + node
  }

  function AppendNodes(ppath: string, nodes: seq<string>): string
    decreases |nodes|
  {
    if nodes == [] then ppath else AppendNodes(AppendNode(ppath, nodes[0]), nodes[1..])
  }

  /** The text of a physical path below another: a slash, if there is none at the end, and the
      nodes with slashes between them. */
  ghost predicate IsBelow(below: string, ppath: string, nodes: seq<string>) {
    if nodes == [] then below == ppath
    else below == ppath + (if ppath == "" || ppath[|ppath| - 1] == '/' then "" else "/") + JoinSlash(nodes)
  }

  lemma {:induction false} AppendNodesJoins(ppath: string, nodes: seq<string>)
    requires Segments(nodes)
    ensures IsBelow(AppendNodes(ppath, nodes), ppath, nodes)
    decreases |nodes|
  {
    if nodes != [] {
      var next := AppendNode(ppath, nodes[0]);
      assert nodes[0] != "" && '/' !in nodes[0];
      assert next[|next| - 1] == nodes[0][|nodes[0]| - 1] && next[|next| - 1] in nodes[0];
      AppendNodesJoins(next, nodes[1..]);
    }
  }

  /** A path below another has the components of that, and then the nodes. */
  lemma BelowHasComponents(below: string, ppath: string, nodes: seq<string>)
    requires Segments(nodes) && IsBelow(below, ppath, nodes)
    ensures Split(below, '/') == Split(ppath, '/') + nodes
    ensures ppath <= below
  {
    hide Split, JoinSlash;
    if nodes == [] {
      assert Split(ppath, '/') + [] == Split(ppath, '/');
    } else {
      SplitJoin(nodes, false);
      var text := JoinSlash(nodes);
      assert Join(nodes, false) == text;
      SplitEmpty('/');
      if ppath == "" {
        assert below == text && [] + nodes == nodes;
      } else if ppath[|ppath| - 1] == '/' {
        var front := ppath[..|ppath| - 1];
        assert ppath == front + "/" + "" && below == front + "/" + text;
        SplitAtSeparator(front, '/', "");
        SplitAtSeparator(front, '/', text);
        assert Split(front, '/') + [] == Split(front, '/');
      } else {
        assert below == ppath + "/" + text;
        SplitAtSeparator(ppath, '/', text);
      }
    }
  }

  /** The root is the only virtual path that ends in a slash. */
  function AppendVnodes(vpath: string, nodes: seq<string>): string
    decreases |nodes|
  {
    if nodes == [] then vpath
    else AppendVnodes(vpath + (if |vpath| > 1 then "/" else "") + nodes[0], nodes[1..])
  }

  function Subpath(p: Path, sub: string, ptype: PathType): Path {
    var nodes := Split(sub, '/');
    Path(MakeValid(AppendVnodes(p.vpath, nodes)), AppendNodes(p.ppath, nodes), p.bits, ptype)
  }

  /** What `CreateSubpath` asserts of a sub-path. */
  ghost predicate SubpathArgument(sub: string) {
    && (sub == "" || sub[0] != '/')
    && NoPair(sub, '/')
    && forall k :: 0 <= k && k + 2 < |sub| ==> !(sub[k] == sub[k + 1] == '.' && sub[k + 2] == '/')
  }

  method CreateSubpath(p: Path, sub: string, ptype: PathType) returns (r: Path)
    requires SubpathArgument(sub)
    ensures r == Subpath(p, sub, ptype)
    ensures IsBelow(r.ppath, p.ppath, Split(sub, '/')) && r.bits == p.bits && r.ptype == ptype
  {
    hide IsBelow, JoinSlash;
    var parts := DoSplit(sub, '/');
    var pp, vp := p.ppath, p.vpath;
    var i := 0;
    while i < |parts|
      invariant 0 <= i <= |parts|
      invariant AppendNodes(pp, parts[i..]) == AppendNodes(p.ppath, parts)
      invariant AppendVnodes(vp, parts[i..]) == AppendVnodes(p.vpath, parts)
    {
      var node := parts[i];
      assert parts[i..][1..] == parts[i + 1..];
      pp := AppendNode(pp, node);
      ghost var next := vp + (if |vp| > 1 then "/" else "") + node;
      if |vp| > 1 {
        vp := vp + "/";
      }
      vp := vp + node;
      assert vp == next;
      i := i + 1;
    }
    SplitYieldsSegments(sub);
    AppendNodesJoins(p.ppath, parts);
    return Path(MakeValid(vp), pp, p.bits, ptype);
  }

  lemma {:induction false} AppendVnodesJoins(vpath: string, nodes: seq<string>)
    requires Segments(nodes) && nodes != [] && vpath != ""
    ensures AppendVnodes(vpath, nodes) == vpath + (if |vpath| > 1 then "/" else "") + JoinSlash(nodes)
    decreases |nodes|
  {
    var next := vpath + (if |vpath| > 1 then "/" else "") + nodes[0];
    if |nodes| > 1 {
      AppendVnodesJoins(next, nodes[1..]);
    }
  }

  lemma {:induction false} JoinSlashAppend(a: seq<string>, b: seq<string>)
    requires a != [] && b != []
    ensures JoinSlash(a + b) == JoinSlash(a) + "/" + JoinSlash(b)
  {
    assert (a + b)[1..] == a[1..] + b;
    if |a| > 1 {
      JoinSlashAppend(a[1..], b);
    } else {
      assert a[1..] + b == b;
    }
  }

  /** A sub-path is an entry of its own kind, with the permissions of the one it is below. */
  lemma SubpathIsBelow(p: Path, sub: string, ptype: PathType)
    ensures var q, nodes := Subpath(p, sub, ptype), Split(sub, '/');
            && IsBelow(q.ppath, p.ppath, nodes) && Split(q.ppath, '/') == Split(p.ppath, '/') + nodes
            && q.bits == p.bits && q.ptype == ptype
  {
    hide Split, IsBelow, AppendNodes, AppendVnodes;
    SplitYieldsSegments(sub);
    AppendNodesJoins(p.ppath, Split(sub, '/'));
    BelowHasComponents(Subpath(p, sub, ptype).ppath, p.ppath, Split(sub, '/'));
  }

  // ---------- resolution ----------

  /** The match ends where a component of the path ends. */
  predicate AtComponent(entry: string, vpath: string)
    requires entry <= vpath
  {
    entry == "/" || entry == vpath || vpath[|entry|] == '/'
  }

  /** An entry whose virtual path is printed as normalization prints it. */
  ghost predicate NormalEntry(p: Path) {
    p.vpath != "" && Join(Split(p.vpath, '/'), true) == p.vpath && AllSafe(Split(p.vpath, '/'))
  }

  function RestOf(entry: string, vpath: string): string
    requires entry <= vpath
  {
    if entry == vpath then "" else StripSlashes(vpath[|entry|..])
  }

  lemma NeatStripsOneSlash(v: string, n: nat)
    requires Neat(v) && n < |v|
    ensures v[n] == '/' && n + 1 < |v| ==> StripSlashes(v[n..]) == v[n + 1..]
    ensures v[n] != '/' ==> StripSlashes(v[n..]) == v[n..]
  {
    if v[n] == '/' && n + 1 < |v| {
      assert v[n..][1..] == v[n + 1..] && v[n + 1] != '/';
    }
  }

  /** The entry is the root: all components remain. */
  lemma ResolveFromRoot(p: Path, parts: seq<string>, ptype: PathType)
    requires p.vpath == "/" && AllSafe(parts) && parts != []
    ensures var v := Join(parts, true);
            && RestOf("/", v) == JoinSlash(parts)
            && Subpath(p, JoinSlash(parts), ptype)
               == Path(v, AppendNodes(p.ppath, parts), p.bits, ptype)
  {
    hide Split, JoinSlash, AppendVnodes, AppendNodes;
    var s := JoinSlash(parts);
    JoinSlashIsTidy(parts);
    assert ("/" + s)[1..] == s;
    SplitJoin(parts, false);
    assert Join(parts, false) == s;
    AppendVnodesJoins("/", parts);
    assert AppendVnodes("/", parts) == "/" + s;
  }

  /** The entry ends before a slash of the path: the components behind it remain. */
  lemma ResolveAtSlash(p: Path, parts: seq<string>, ptype: PathType)
    requires NormalEntry(p) && AllSafe(parts)
    requires var v := Join(parts, true);
             |p.vpath| > 1 && p.vpath <= v && |p.vpath| < |v| && v[|p.vpath|] == '/'
    ensures var v := Join(parts, true);
            var nodes := Split(RestOf(p.vpath, v), '/');
            && parts == Split(p.vpath, '/') + nodes
            && Subpath(p, RestOf(p.vpath, v), ptype) == Path(v, AppendNodes(p.ppath, nodes), p.bits, ptype)
  {
    hide Split, SegLen, JoinSlash, StripSlashes;
    var v, e := Join(parts, true), p.vpath;
    var front, r := Split(e, '/'), v[|e| + 1..];
    var nodes := Split(r, '/');
    JoinIsNeat(parts);
    NeatStripsOneSlash(v, |e|);
    assert v == e + "/" + r;
    SplitAtSeparator(e, '/', r);
    SplitJoin(parts, true);
    assert parts == front + nodes;
    assert front != [] by {
      JoinSlashUnfold([]);
    }
    assert front + [] == front;
    JoinSlashAppend(front, nodes);
    assert v == "/" + (JoinSlash(front) + "/" + JoinSlash(nodes));
    assert e == "/" + JoinSlash(front);
    assert Segments(nodes) by {
      SplitYieldsSegments(r);
    }
    AppendVnodesJoins(e, nodes);
    assert v == e + "/" + JoinSlash(nodes);
  }

  /** The entry ends inside a component: the rest of that component is taken for a
      component of its own. */
  lemma ResolveInside(p: Path, v: string, ptype: PathType)
    requires Neat(v) && |p.vpath| > 1 && p.vpath <= v && |p.vpath| < |v| && v[|p.vpath|] != '/'
    ensures Subpath(p, RestOf(p.vpath, v), ptype).vpath != v
  {
    var r := v[|p.vpath|..];
    NeatStripsOneSlash(v, |p.vpath|);
    SplitYieldsSegments(r);
    SplitUnfold(r, '/', SegLen(r, '/'));
    AppendVnodesJoins(p.vpath, Split(r, '/'));
    assert AppendVnodes(p.vpath, Split(r, '/'))[|p.vpath|] == '/';
  }

  /** The whole way: for a table entry in normal form that matches a normalized path, the
      resolved virtual path is that path exactly if the match ends at a component, and then
      the physical path is the entry's followed by exactly the remaining components. */
  lemma ResolveExactly(p: Path, parts: seq<string>, ptype: PathType)
    requires NormalEntry(p) && AllSafe(parts) && p.vpath <= Join(parts, true)
    ensures var v := Join(parts, true);
            var q := Subpath(p, RestOf(p.vpath, v), ptype);
            && (q.vpath == v <==> AtComponent(p.vpath, v))
            && (AtComponent(p.vpath, v) ==>
                  var n := |Split(p.vpath, '/')|;
                  n <= |parts| && parts[..n] == Split(p.vpath, '/')
                  && IsBelow(q.ppath, p.ppath, parts[n..])
                  && Split(q.ppath, '/') == Split(p.ppath, '/') + parts[n..])
  {
    hide Split, JoinSlash, IsBelow, AppendNodes;
    var v, e := Join(parts, true), p.vpath;
    SubpathIsBelow(p, RestOf(e, v), ptype);
    SplitJoin(parts, true);
    JoinIsNeat(parts);
    SplitEmpty('/');
    if e == v {
      assert parts[..|parts|] == parts && parts[|parts|..] == [];
    } else if e == "/" {
      SplitRoot();
      JoinSlashUnfold([]);
      assert parts != [];
      ResolveFromRoot(p, parts, ptype);
      SplitJoin(parts, false);
      assert Join(parts, false) == JoinSlash(parts) == RestOf(e, v);
      assert parts[..0] == [] && parts[0..] == parts;
    } else if v[|e|] == '/' {
      ResolveAtSlash(p, parts, ptype);
      var n := |Split(e, '/')|;
      assert parts[..n] == Split(e, '/') && parts[n..] == Split(RestOf(e, v), '/');
    } else {
      ResolveInside(p, v, ptype);
    }
  }

  lemma SplitRoot()
    ensures Split("/", '/') == []
  {
    SplitUnfold("/", '/', 0);
    SplitEmpty('/');
  }

  function ResolvePath(paths: seq<Path>, cwd: string, request: string, ptype: PathType)
      : Result<Path, PathError>
  {
    match Normalize(request, cwd)
    case Err(e) => Err(e)
    case Ok(v) =>
      match Lookup(paths, v)
      case Err(e) => Err(e)
      case Ok(p) => Ok(Subpath(p, Remaining(paths, v, ""), ptype))
  }

  /** Every request that is resolved, against a table of normal entries: the resolved path
      is the request exactly if the longest match ends at a component. */
  lemma ResolvedIsRequest(paths: seq<Path>, cwd: string, request: string, ptype: PathType)
    requires Tidy(cwd) && ResolvePath(paths, cwd, request, ptype).Ok?
    requires forall p :: p in paths ==> NormalEntry(p)
    ensures var v, q := Normalize(request, cwd).value, ResolvePath(paths, cwd, request, ptype).value;
            var p, parts := Lookup(paths, v).value, Resolve(request, cwd).value;
            && (q.vpath == v <==> AtComponent(p.vpath, v))
            && (AtComponent(p.vpath, v) ==>
                  var n := |Split(p.vpath, '/')|;
                  n <= |parts| && parts[..n] == Split(p.vpath, '/')
                  && IsBelow(q.ppath, p.ppath, parts[n..])
                  && Split(q.ppath, '/') == Split(p.ppath, '/') + parts[n..])
  {
    NormalizeIsNeat(request, cwd);
    var v := Normalize(request, cwd).value;
    ResolveExactly(Lookup(paths, v).value, Resolve(request, cwd).value, ptype);
  }

  /** A match that does not: the table has "/home", the client asks for "/homework" and
      gets "work" below "/home". */
  lemma ResolvedCanBeAnother(home: Path, cwd: string)
    requires home == Path("/home", "/tmp/homedirs", {IS_RECURSIVE}, DIRECTORY)
    ensures ResolvePath([home], cwd, "/homework", FILE)
            == Ok(Path("/home/work", "/tmp/homedirs/work", {IS_RECURSIVE}, FILE))
  {
    hide Normalize, Lookup, Subpath, Remaining;
    HomeworkIsNormal(cwd);
    HomeworkMatchesHome(home);
    WorkBelowHome(home);
  }

  lemma HomeworkIsNormal(cwd: string)
    ensures Normalize("/homework", cwd) == Ok("/homework")
  {
    hide Resolve;
    assert AllClean(["homework"]);
    ResolveJoin(["homework"], cwd);
    assert Join(["homework"], true) == "/homework";
  }

  lemma HomeworkMatchesHome(home: Path)
    requires home.vpath == "/home" && home.IsRecursive()
    ensures Lookup([home], "/homework") == Ok(home) && Remaining([home], "/homework", "") == "work"
  {
    var v := "/homework";
    assert v[..5] == home.vpath && v[5..] == "work";
    assert [home][..0] == [];
    assert Longest([home], v) == Some(home);
  }

  lemma WorkBelowHome(home: Path)
    requires home == Path("/home", "/tmp/homedirs", {IS_RECURSIVE}, DIRECTORY)
    ensures Subpath(home, "work", FILE) == Path("/home/work", "/tmp/homedirs/work", {IS_RECURSIVE}, FILE)
  {
    hide Split;
    SplitOne("work", '/');
    AppendVnodesJoins("/home", ["work"]);
    assert "/home" + "/" + "work" == "/home/work";
    assert "/tmp/homedirs" + "/" + "work" == "/tmp/homedirs/work";
    assert ["work"][1..] == [];
  }

  /** Whatever the table: a resolved physical path is that of an entry with safe nodes
      appended, so it never steps up. */
  lemma ResolvedStaysBelow(paths: seq<Path>, cwd: string, request: string, ptype: PathType)
    requires Tidy(cwd) && ResolvePath(paths, cwd, request, ptype).Ok?
    ensures var v, q := Normalize(request, cwd).value, ResolvePath(paths, cwd, request, ptype).value;
            var p, nodes := Lookup(paths, v).value, Split(Remaining(paths, v, ""), '/');
            && p in paths && AllSafe(nodes)
            && IsBelow(q.ppath, p.ppath, nodes) && Split(q.ppath, '/') == Split(p.ppath, '/') + nodes
            && q.bits == p.bits && q.ptype == ptype && Tidy(q.vpath)
  {
    hide Split, IsBelow, AppendNodes, Tidy, Safe;
    NormalizeIsNeat(request, cwd);
    var v := Normalize(request, cwd).value;
    var p, rest := Lookup(paths, v).value, Remaining(paths, v, "");
    PrefixIsTidy(p.vpath, v);
    var nodes := Split(rest, '/');
    SubpathIsBelow(p, rest, ptype);
    SplitYieldsSegments(rest);
    RemainingIsTidy(v, |p.vpath|);
    SplitTidy(rest);
    if nodes != [] {
      AppendVnodesJoins(p.vpath, nodes);
      JoinSlashIsTidy(nodes);
      TidyJoined(p.vpath, JoinSlash(nodes));
    }
  }

  /** An entry that matches is tidy because the path is. */
  lemma PrefixIsTidy(entry: string, v: string)
    requires entry != "" && entry <= v && Neat(v)
    ensures Tidy(entry) && entry[0] == '/'
  {
    forall k | 0 <= k && k + 1 < |entry| ensures !(entry[k] == entry[k + 1] == '.') {
      assert entry[k] == v[k] && entry[k + 1] == v[k + 1];
    }
  }

  lemma TidyJoined(a: string, b: string)
    requires Tidy(a) && Tidy(b) && a != "" && b != "" && a[0] == '/'
    ensures Tidy(a + (if |a| > 1 then "/" else "") + b)
  {
    if |a| > 1 {
      NoPairJoined(a, b, '.');
    } else {
      assert a + "" + b == a + b;
    }
  }

  lemma {:induction false} RemainingIsTidy(v: string, n: nat)
    requires Tidy(v) && n <= |v|
    ensures Tidy(StripSlashes(v[n..])) && Tidy("")
    decreases |v| - n
  {
    if n < |v| {
      assert v[n..][1..] == v[n + 1..];
      RemainingIsTidy(v, n + 1);
    }
  }

  /** The part of a session that paths depend on. */
  class Session {
    var cwd: string
    var permissions: Permissions

    ghost predicate Valid()
      reads this, permissions
    {
      permissions.Valid() && Tidy(cwd)
    }

    constructor (permissions: Permissions)
      requires permissions.Valid()
      ensures Valid() && this.permissions == permissions && cwd == "/"
    {
      cwd, this.permissions := "/", permissions;
    }

    method GetPath(request: string, ptype: PathType) returns (r: Result<Path, PathError>)
      requires Valid()
      ensures r == ResolvePath(permissions.paths, cwd, request, ptype)
      ensures r.Ok? ==> Normalize(request, cwd).Ok?
      ensures r.Ok? ==> exists p :: && IsLongest(permissions.paths, Normalize(request, cwd).value, p)
                                    && Covers(p, Normalize(request, cwd).value)
                                    && r.value.bits == p.bits && p.ppath <= r.value.ppath
    {
      hide ResolvePath, Normalize, IsLongest, Covers;
      r := FindPath(request, ptype);
      ResolvedIsCovered(permissions.paths, cwd, request, ptype);
    }

    method FindPath(request: string, ptype: PathType) returns (r: Result<Path, PathError>)
      requires Valid()
      ensures r == ResolvePath(permissions.paths, cwd, request, ptype)
    {
      hide IsLongest, Covers;
      var parts := NormalizeAndSplit(request, cwd);
      if parts.Err? {
        return Err(parts.error);
      }
      var normalized := ToVpath(parts.value, true);
      NormalizeIsNeat(request, cwd);
      NeatIsNormalized(normalized);
      var bestMatch, remaining := permissions.GetPath(normalized, "");
      if bestMatch.Err? {
        return Err(bestMatch.error);
      }
      RemainingIsArgument(normalized, |bestMatch.value.vpath|);
      var path := CreateSubpath(bestMatch.value, remaining, ptype);
      return Ok(path);
    }

    /** Change the directory; it stays one that every request can be relative to. */
    method SetCwd(request: string, isDirectory: string -> bool) returns (r: Result<string, PathError>)
      requires Valid()
      modifies this`cwd
      ensures Valid()
      ensures var p := ResolvePath(permissions.paths, old(cwd), request, DIRECTORY);
              r == match p
                   case Err(e) => Err(e)
                   case Ok(dir) => if CAN_ENTER in dir.bits && isDirectory(dir.ppath) then Ok(dir.vpath)
                                   else Err(AccessDenied)
      ensures cwd == if r.Ok? then r.value else old(cwd)
    {
      var dir := GetPath(request, DIRECTORY);
      if dir.Err? {
        return Err(dir.error);
      }
      if CAN_ENTER !in dir.value.bits {
        return Err(AccessDenied);
      }
      if !isDirectory(dir.value.ppath) {
        return Err(AccessDenied);
      }
      ResolvedStaysBelow(permissions.paths, cwd, request, DIRECTORY);
      cwd := dir.value.vpath;
      return Ok(cwd);
    }

    /** A successful login: a copy of the user's table, with what the session has merged in. */
    method MergeLogin(user: Permissions)
      requires Valid() && user.Valid()
      modifies this`permissions
      ensures Valid() && fresh(permissions)
      ensures permissions.paths == Merged(user.paths, old(permissions.paths))
      ensures user.paths == old(user.paths) && cwd == old(cwd)
    {
      var effective := new Permissions.Copy(user);
      effective.Merge(permissions.paths);
      permissions := effective;
    }
  }

  /** A request is resolved exactly if it can be normalized and the longest entry that is a
      prefix of it is the request itself or recursive; then the path lies at or below that
      entry, with its permissions. */
  lemma ResolvedIsCovered(paths: seq<Path>, cwd: string, request: string, ptype: PathType)
    requires UniqueVpaths(paths)
    ensures var r, v := ResolvePath(paths, cwd, request, ptype), Normalize(request, cwd);
            && (v.Err? ==> r == Err(v.error))
            && (v.Ok? ==> (r.Ok? <==> exists p :: IsLongest(paths, v.value, p) && Covers(p, v.value)))
            && (v.Ok? && r.Err? ==> r == Err(AccessDenied))
            && (r.Ok? ==> exists p :: && IsLongest(paths, v.value, p) && Covers(p, v.value)
                                     && r.value.bits == p.bits && p.ppath <= r.value.ppath)
  {
    hide IsLongest, Covers, Lookup, Split, Remaining, Subpath, UniqueVpaths;
    var v := Normalize(request, cwd);
    if v.Ok? {
      LookupExactly(paths, v.value);
      var l := Lookup(paths, v.value);
      if l.Ok? {
        var rest := Remaining(paths, v.value, "");
        SubpathIsBelow(l.value, rest, ptype);
        SplitYieldsSegments(rest);
        BelowHasComponents(Subpath(l.value, rest, ptype).ppath, l.value.ppath, Split(rest, '/'));
        assert IsLongest(paths, v.value, l.value) && Covers(l.value, v.value);
      }
    }
  }

  lemma RemainingIsArgument(v: string, n: nat)
    requires Neat(v) && n <= |v|
    ensures SubpathArgument(StripSlashes(v[n..])) && SubpathArgument("")
  {
    if n < |v| {
      NeatStripsOneSlash(v, n);
    }
  }
}
