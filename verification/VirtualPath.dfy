/** Parsing, normalizing and printing of virtual paths (src/wfde/WfdePath.cpp). */
module VirtualPaths {
  import opened Common

  datatype PathError = AccessDenied | BadPath

  // ---------- splitting and joining ----------

  /** The length of the segment at the front of s. */
  function SegLen(s: string, ch: char): (n: nat)
    ensures n <= |s| && Free(s, n, ch)
    ensures n < |s| ==> s[n] == ch
  {
    if s == "" || s[0] == ch then 0
    else
      var n := SegLen(s[1..], ch);
      assert forall k :: 0 < k < n + 1 ==> s[k] == s[1..][k - 1];
      1 + n
  }

  /** The character is not among the first n of s. */
  ghost predicate Free(s: string, n: nat, ch: char)
    requires n <= |s|
  {
    forall k :: 0 <= k < n ==> s[k] != ch
  }

  lemma SegLenIs(s: string, ch: char, n: nat)
    requires n <= |s| && Free(s, n, ch) && (n < |s| ==> s[n] == ch)
    ensures SegLen(s, ch) == n
  {
  }

  /** The non-empty segments of s. */
  function Split(s: string, ch: char): seq<string>
    decreases |s|
  {
    if s == "" then []
    else
      var n := SegLen(s, ch);
      if n == 0 then Split(s[1..], ch) else [s[..n]] + Split(s[n..], ch)
  }

  function JoinSlash(parts: seq<string>): string {
    if parts == [] then ""
    else if |parts| == 1 then parts[0]
    else parts[0] + "/" + JoinSlash(parts[1..])
  }

  function Join(parts: seq<string>, addRoot: bool): string {
    (if addRoot then "/" else "") + JoinSlash(parts)
  }

  lemma SplitUnfold(s: string, ch: char, n: nat)
    requires n <= |s| && Free(s, n, ch) && (n < |s| ==> s[n] == ch)
    ensures s != "" ==> Split(s, ch) == if n == 0 then Split(s[1..], ch) else [s[..n]] + Split(s[n..], ch)
  {
    SegLenIs(s, ch, n);
  }

  /** Where the first segment ends does not depend on what follows a separator. */
  lemma FirstSegmentOf(a: string, ch: char, b: string, n: nat)
    requires n <= |a| && Free(a, n, ch) && (n < |a| ==> a[n] == ch)
    ensures var s := a + [ch] + b;
            && Split(s, ch) == (if n == 0 then Split(s[1..], ch) else [a[..n]] + Split(a[n..] + [ch] + b, ch))
            && s[..n] == a[..n] && s[n..] == a[n..] + [ch] + b
  {
    hide Split;
    var s := a + [ch] + b;
    assert s[..n] == a[..n] && s[n..] == a[n..] + [ch] + b;
    assert s[n] == ch;
    forall k | 0 <= k < n ensures s[k] != ch {
      assert s[k] == a[k];
    }
    SplitUnfold(s, ch, n);
  }

  /** Splitting at a separator splits both sides. */
  lemma {:induction false} SplitAtSeparator(a: string, ch: char, b: string)
    ensures Split(a + [ch] + b, ch) == Split(a, ch) + Split(b, ch)
    decreases |a|
  {
    hide Split, SegLen, Free;
    var n := SegLen(a, ch);
    FirstSegmentOf(a, ch, b, n);
    SplitUnfold(a, ch, n);
    if a == "" {
      SplitEmpty(ch);
      assert (a + [ch] + b)[1..] == b;
    } else if n == 0 {
      SplitAtSeparator(a[1..], ch, b);
      assert (a + [ch] + b)[1..] == a[1..] + [ch] + b;
    } else {
      SplitAtSeparator(a[n..], ch, b);
      assert [a[..n]] + (Split(a[n..], ch) + Split(b, ch)) == ([a[..n]] + Split(a[n..], ch)) + Split(b, ch);
    }
  }

  lemma SplitEmpty(ch: char)
    ensures Split("", ch) == []
  {
  }

  lemma SplitOne(p: string, ch: char)
    requires p != "" && ch !in p
    ensures Split(p, ch) == [p]
  {
    SplitUnfold(p, ch, |p|);
    assert p[..|p|] == p && p[|p|..] == "";
  }

  ghost predicate Segments(parts: seq<string>) {
    forall i :: 0 <= i < |parts| ==> parts[i] != "" && '/' !in parts[i]
  }

  lemma {:induction false} SplitYieldsSegments(s: string)
    ensures Segments(Split(s, '/'))
    ensures forall p, c :: p in Split(s, '/') && c in p ==> c in s
    decreases |s|
  {
    if s != "" {
      var n := SegLen(s, '/');
      SplitYieldsSegments(if n == 0 then s[1..] else s[n..]);
    }
  }

  /** The parser undoes the printer. */
  lemma {:induction false} SplitJoin(parts: seq<string>, addRoot: bool)
    requires Segments(parts)
    ensures Split(Join(parts, addRoot), '/') == parts
    decreases |parts|, addRoot
  {
    hide Split;
    var s := JoinSlash(parts);
    if addRoot {
      SplitJoin(parts, false);
      assert Join(parts, true) == "" + "/" + s && Join(parts, false) == s;
      SplitAtSeparator("", '/', s);
      SplitEmpty('/');
    } else {
      assert Join(parts, false) == s;
      if |parts| == 0 {
        SplitEmpty('/');
      } else {
        SplitOne(parts[0], '/');
        if |parts| > 1 {
          SplitJoin(parts[1..], false);
          assert Join(parts[1..], false) == JoinSlash(parts[1..]);
          SplitAtSeparator(parts[0], '/', JoinSlash(parts[1..]));
        }
      }
    }
  }

  /** The splitting loop. */
  method DoSplit(s: string, ch: char) returns (parts: seq<string>)
    ensures parts == Split(s, ch)
  {
    hide Split, SegLen;
    parts := [];
    SplitEmpty(ch);
    assert s[0..] == s;
    var pos, bytesLeft := 0, |s|;
    while bytesLeft != 0
      invariant 0 <= pos <= |s| && pos + bytesLeft == |s|
      invariant parts + Split(s[pos..], ch) == Split(s, ch)
    {
      if s[pos] == ch {
        SplitUnfold(s[pos..], ch, 0);
        assert s[pos..][1..] == s[pos + 1..];
        pos, bytesLeft := pos + 1, bytesLeft - 1;
        continue;
      }
      var segLen := SegLen(s[pos..], ch);
      SplitUnfold(s[pos..], ch, segLen);
      assert s[pos..][segLen..] == s[pos + segLen..] && s[pos..][..segLen] == s[pos..pos + segLen];
      Regroup(parts, [s[pos..pos + segLen]], Split(s[pos + segLen..], ch));
      parts := parts + [s[pos..pos + segLen]];
      bytesLeft, pos := bytesLeft - segLen, pos + segLen;
    }
  }

  /** The printing loop. */
  method ToVpath(parts: seq<string>, addRoot: bool) returns (vpath: string)
    ensures vpath == Join(parts, addRoot)
  {
    hide JoinSlash;
    vpath := if addRoot then "/" else "";
    assert parts[0..] == parts;
    var virgin := true;
    var i := 0;
    while i < |parts|
      invariant 0 <= i <= |parts| && virgin == (i == 0)
      invariant Join(parts, addRoot) == vpath + (if 0 < i < |parts| then "/" else "") + JoinSlash(parts[i..])
    {
      if !virgin {
        vpath := vpath + "/";
      }
      virgin := false;
      JoinSlashUnfold(parts[i..]);
      JoinSlashUnfold(parts[i + 1..]);
      assert parts[i..][1..] == parts[i + 1..];
      vpath := vpath + parts[i];
      i := i + 1;
    }
    JoinSlashUnfold([]);
  }

  lemma JoinSlashUnfold(parts: seq<string>)
    ensures JoinSlash(parts) == if parts == [] then ""
                                else if |parts| == 1 then parts[0]
                                else parts[0] + "/" + JoinSlash(parts[1..])
  {
  }

  // ---------- the meaning of a path ----------

  datatype Token = Name(part: string) | Up | Bad

  /** The position of the first ".." in s, or its length. */
  function DotDot(s: string): (d: nat)
    ensures d <= |s|
    ensures d < |s| ==> d + 1 < |s| && s[d] == s[d + 1] == '.'
    ensures forall k :: 0 <= k < d && k + 1 < |s| ==> !(s[k] == s[k + 1] == '.')
  {
    if |s| < 2 then |s|
    else if s[0] == s[1] == '.' then 0
    else
      var d := DotDot(s[1..]);
      assert forall k :: 0 < k < d + 1 && k + 1 < |s| ==> s[k] == s[1..][k - 1] && s[k + 1] == s[1..][k];
      1 + d
  }

  lemma DotDotIs(s: string, d: nat)
    requires d <= |s|
    requires d < |s| ==> d + 1 < |s| && s[d] == s[d + 1] == '.'
    requires forall k :: 0 <= k < d && k + 1 < |s| ==> !(s[k] == s[k + 1] == '.')
    ensures DotDot(s) == d
  {
  }

  predicate EndsInDot(s: string) {
    s != "" && s[|s| - 1] == '.'
  }

  /** What one component between slashes means; `last` if nothing follows it.  Dots behind
      a name count: "x.." is the name x and a step up, and the dot of a name that is not
      the last component is dropped. */
  function Lex(c: string, last: bool): seq<Token> {
    var d := DotDot(c);
    if d < |c| then
      (if '\\' in c[..d] then [Bad] else if d > 0 then [Name(c[..d])] else [])
      + [if d + 2 == |c| then Up else Bad]
    else if '\\' in c then [Bad]
    else if c == "" || c == "." then []
    else if EndsInDot(c) && !last then [Name(c[..|c| - 1])]
    else [Name(c)]
  }

  function Tokens(s: string): seq<Token>
    decreases |s|
  {
    var n := SegLen(s, '/');
    if n == |s| then Lex(s, true) else Lex(s[..n], false) + Tokens(s[n + 1..])
  }

  /** Follow the tokens from a directory. */
  function Walk(stack: seq<string>, tokens: seq<Token>): Result<seq<string>, PathError>
    decreases |tokens|
  {
    if tokens == [] then Ok(stack)
    else match tokens[0]
      case Name(part) => Walk(stack + [part], tokens[1..])
      case Up => if stack == [] then Err(AccessDenied)
                 else Walk(stack[..|stack| - 1], tokens[1..])
      case Bad => Err(BadPath)
  }

  function Resolve(vpath: string, cwd: string): Result<seq<string>, PathError> {
    if vpath == "" then Ok(Split(cwd, '/'))
    else Walk(if vpath[0] != '/' then Split(cwd, '/') else [], Tokens(vpath))
  }

  function Normalize(vpath: string, cwd: string): Result<string, PathError> {
    match Resolve(vpath, cwd)
    case Ok(parts) => Ok(Join(parts, true))
    case Err(e) => Err(e)
  }

  // ---------- the scanner ----------

  /** Look ahead; behind the end there is the terminating NUL of the string. */
  function Peek(s: string, i: nat): char {
    if i < |s| then s[i] else '\0'
  }

  lemma TokensOfComponent(c: string, rest: string)
    requires '/' !in c
    ensures Tokens(c + "/" + rest) == Lex(c, false) + Tokens(rest)
  {
    var s := c + "/" + rest;
    SegLenIs(s, '/', |c|);
    assert s[..|c|] == c && s[|c| + 1..] == rest;
  }

  lemma TokensOfLast(c: string)
    requires '/' !in c
    ensures Tokens(c) == Lex(c, true)
  {
    SegLenIs(c, '/', |c|);
  }

  /** A name ends at the end of the component, at "..", or at a dot before a slash; what is
      behind it means what it would mean without the name. */
  lemma LexName(c: string, p: nat, last: bool)
    requires 0 < p <= |c| && '\\' !in c[..p]
    requires c[0] == '.' ==> |c| > 1 && c[1] != '.'
    requires forall k :: 0 < k < p && c[k] == '.' ==> !DotStops(c, k, last)
    requires p < |c| ==> c[p] == '.' && DotStops(c, p, last)
    ensures Lex(c, last) == [Name(c[..p])] + Lex(c[p..], last)
  {
    if p == |c| {
      DotDotIs(c, p);
      assert c[..p] == c && c[p..] == "";
    } else if p + 1 < |c| {
      DotDotIs(c, p);
      DotDotIs(c[p..], 0);
    } else {
      DotDotIs(c, |c|);
      assert c == c[..p] + ".";
      assert c[p..] == ".";
    }
  }

  /** A dot at k of this component is followed by a dot or by a slash. */
  predicate DotStops(c: string, k: nat, last: bool)
    requires k < |c|
  {
    if k + 1 < |c| then c[k + 1] == '.' else !last
  }

  lemma LexBackslash(c: string, p: nat, last: bool)
    requires p < |c| && c[p] == '\\'
    requires forall k :: 0 <= k < p && k + 1 < |c| ==> !(c[k] == c[k + 1] == '.')
    ensures Lex(c, last) != [] && Lex(c, last)[0] == Bad
  {
    var d := DotDot(c);
    assert d < |c| ==> p < d && c[..d][p] == '\\';
  }

  /** Where the name scan stops. */
  ghost predicate NameEnds(s: string, p: nat) {
    && 0 < p <= |s| && Free(s, p, '/') && Free(s, p, '\\')
    && (s[0] == '.' ==> |s| > 1 && s[1] != '.' && s[1] != '/')
    && (forall k :: 0 < k < p && s[k] == '.' ==> Peek(s, k + 1) != '.' && Peek(s, k + 1) != '/')
    && (p == |s| || s[p] == '/' || (s[p] == '.' && (Peek(s, p + 1) == '.' || Peek(s, p + 1) == '/')))
  }

  lemma LexAtName(s: string, p: nat, n: nat)
    requires NameEnds(s, p) && n == SegLen(s, '/')
    ensures p <= n
    ensures var c := s[..n]; Lex(c, n == |s|) == [Name(s[..p])] + Lex(c[p..], n == |s|)
  {
    hide Lex, SegLen;
    var c := s[..n];
    assert c[..p] == s[..p];
    LexName(c, p, n == |s|);
  }

  lemma TokensAtName(s: string, p: nat)
    requires NameEnds(s, p)
    ensures Tokens(s) == [Name(s[..p])] + Tokens(s[p..])
  {
    hide Lex, DotDot, Tokens, SegLen, NameEnds;
    var n := SegLen(s, '/');
    LexAtName(s, p, n);
    var c := s[..n];
    if n == |s| {
      assert c == s;
      TokensOfLast(s);
      TokensOfLast(s[p..]);
    } else {
      assert c[..p] == s[..p];
      NameThenRest(c, p, s[n + 1..]);
      assert s == c + "/" + s[n + 1..];
      assert s[p..] == c[p..] + "/" + s[n + 1..];
    }
  }

  lemma NameThenRest(c: string, p: nat, rest: string)
    requires p <= |c| && '/' !in c
    requires Lex(c, false) == [Name(c[..p])] + Lex(c[p..], false)
    ensures Tokens(c + "/" + rest) == [Name(c[..p])] + Tokens(c[p..] + "/" + rest)
  {
    hide Lex, Tokens;
    TokensOfComponent(c, rest);
    TokensOfComponent(c[p..], rest);
  }

  lemma TokensAtBackslash(s: string, p: nat)
    requires p < |s| && s[p] == '\\' && Free(s, p, '/')
    requires s[0] == '.' ==> |s| > 1 && s[1] != '.'
    requires forall k :: 0 < k < p && s[k] == '.' ==> Peek(s, k + 1) != '.'
    ensures StartsBad(s)
  {
    hide Lex, DotDot;
    var n := SegLen(s, '/');
    assert p < n;
    assert s[..|s|] == s;
    LexBackslash(s[..n], p, n == |s|);
  }

  predicate StartsBad(s: string) {
    Tokens(s) != [] && Tokens(s)[0] == Bad
  }

  lemma TokensAtSlash(r: string)
    ensures Tokens("/" + r) == Tokens(r)
  {
    assert "/" + r == "" + "/" + r;
    TokensOfComponent("", r);
  }

  lemma TokensAtDot(r: string)
    ensures Tokens(".") == [] && Tokens("./" + r) == Tokens(r)
  {
    TokensOfLast(".");
    assert "./" + r == "." + "/" + r;
    TokensOfComponent(".", r);
  }

  lemma TokensAtDotDot(r: string)
    ensures Tokens("..") == [Up] && Tokens("../" + r) == [Up] + Tokens(r)
  {
    TokensOfLast("..");
    assert "../" + r == ".." + "/" + r;
    TokensOfComponent("..", r);
  }

  lemma TokensAtDotDotName(s: string)
    requires |s| >= 3 && s[0] == s[1] == '.' && s[2] != '/'
    ensures StartsBad(s)
  {
    var n := SegLen(s, '/');
    assert n > 2;
    DotDotIs(s[..n], 0);
    assert s[..|s|] == s;
  }

  /** The name goes on through the first n characters. */
  ghost predicate Scanned(s: string, n: nat) {
    && n <= |s| && Free(s, n, '/') && Free(s, n, '\\')
    && forall k :: 0 < k < n && s[k] == '.' ==> Peek(s, k + 1) != '.' && Peek(s, k + 1) != '/'
  }

  lemma NothingScanned(s: string)
    ensures Scanned(s, 0)
  {
  }

  lemma FirstIsNoBackslash(s: string, n: nat)
    requires Scanned(s, n) && n > 0
    ensures s[0] != '\\'
  {
  }

  lemma ScannedMore(s: string, n: nat)
    requires Scanned(s, n) && n < |s| && s[n] != '/' && s[n] != '\\'
    requires n > 0 && s[n] == '.' ==> Peek(s, n + 1) != '.' && Peek(s, n + 1) != '/'
    ensures Scanned(s, n + 1)
  {
  }

  lemma ScannedName(s: string, n: nat)
    requires Scanned(s, n) && s != "" && s[0] != '/' && s[0] != '\\'
    requires s[0] == '.' ==> |s| > 1 && s[1] != '.' && s[1] != '/'
    requires n == |s| || s[n] == '/' || (n > 0 && s[n] == '.' && (Peek(s, n + 1) == '.' || Peek(s, n + 1) == '/'))
    ensures n > 0 && Tokens(s) == [Name(s[..n])] + Tokens(s[n..])
  {
    hide Tokens;
    TokensAtName(s, n);
  }

  lemma ScannedBackslash(s: string, n: nat)
    requires Scanned(s, n) && n < |s| && s[n] == '\\'
    requires s[0] == '.' ==> |s| > 1 && s[1] != '.'
    ensures StartsBad(s)
  {
    hide StartsBad;
    TokensAtBackslash(s, n);
  }

  /** The name scan: how far the name reaches, or that it holds a backslash. */
  method ScanName(vpath: string, cur: nat) returns (p: nat, backslash: bool)
    requires cur < |vpath| && vpath[cur] != '/'
    requires vpath[cur] == '.' ==> cur + 1 < |vpath| && vpath[cur + 1] != '.' && vpath[cur + 1] != '/'
    ensures cur <= p <= |vpath|
    ensures backslash ==> StartsBad(vpath[cur..])
    ensures !backslash ==> cur < p && Tokens(vpath[cur..]) == [Name(vpath[cur..p])] + Tokens(vpath[p..])
  {
    hide Tokens, StartsBad, Scanned;
    ghost var s := vpath[cur..];
    NothingScanned(s);
    p := cur;
    while p != |vpath| && vpath[p] != '/'
      invariant cur <= p <= |vpath|
      invariant Scanned(s, p - cur)
      decreases |vpath| - p
    {
      assert s[p - cur] == vpath[p] && Peek(s, p - cur + 1) == Peek(vpath, p + 1);
      if vpath[p] == '\\' {
        ScannedBackslash(s, p - cur);
        return p, true;
      }
      if vpath[p] == '.' && p != cur && (Peek(vpath, p + 1) == '.' || Peek(vpath, p + 1) == '/') {
        break;
      }
      ScannedMore(s, p - cur);
      p := p + 1;
    }
    assert p < |vpath| ==> s[p - cur] == vpath[p] && Peek(s, p - cur + 1) == Peek(vpath, p + 1);
    FirstIsNoBackslash(s, p - cur);
    ScannedName(s, p - cur);
    assert s[..p - cur] == vpath[cur..p] && s[p - cur..] == vpath[p..];
    backslash := false;
  }

  lemma TokensOfNothing()
    ensures Tokens("") == []
  {
    TokensOfLast("");
  }

  lemma WalkEnd(stack: seq<string>)
    ensures Walk(stack, []) == Ok(stack)
  {
  }

  lemma WalkName(stack: seq<string>, part: string, rest: seq<Token>)
    ensures Walk(stack, [Name(part)] + rest) == Walk(stack + [part], rest)
  {
    assert ([Name(part)] + rest)[1..] == rest;
  }

  lemma WalkUp(stack: seq<string>, rest: seq<Token>)
    ensures Walk(stack, [Up] + rest) == if stack == [] then Err(AccessDenied)
                                        else Walk(stack[..|stack| - 1], rest)
  {
    assert ([Up] + rest)[1..] == rest;
  }

  lemma WalkBad(stack: seq<string>, s: string)
    requires StartsBad(s)
    ensures Walk(stack, Tokens(s)) == Err(BadPath)
  {
  }

  /** A slash, and a single dot before a slash or at the end, mean nothing. */
  lemma SkipSlash(vpath: string, cur: nat)
    requires cur < |vpath| && vpath[cur] == '/'
    ensures Tokens(vpath[cur..]) == Tokens(vpath[cur + 1..])
  {
    hide Tokens;
    TokensAtSlash(vpath[cur + 1..]);
    assert vpath[cur..] == "/" + vpath[cur + 1..];
  }

  lemma SkipDot(vpath: string, cur: nat)
    requires cur < |vpath| && vpath[cur] == '.' && (cur + 1 < |vpath| ==> vpath[cur + 1] == '/')
    ensures Tokens(vpath[cur..]) == Tokens(vpath[if cur + 1 == |vpath| then cur + 1 else cur + 2..])
  {
    hide Tokens;
    if cur + 1 == |vpath| {
      TokensAtDot("");
      TokensOfNothing();
      assert vpath[cur..] == "." && vpath[cur + 1..] == "";
    } else {
      TokensAtDot(vpath[cur + 2..]);
      assert vpath[cur..] == "./" + vpath[cur + 2..];
    }
  }

  lemma StepUp(stack: seq<string>, vpath: string, cur: nat)
    requires cur + 1 < |vpath| && vpath[cur] == vpath[cur + 1] == '.'
    requires cur + 2 < |vpath| ==> vpath[cur + 2] == '/'
    ensures Walk(stack, Tokens(vpath[cur..]))
            == if stack == [] then Err(AccessDenied)
               else Walk(stack[..|stack| - 1], Tokens(vpath[if cur + 2 == |vpath| then cur + 2 else cur + 3..]))
  {
    hide Tokens, Walk;
    if cur + 2 == |vpath| {
      TokensAtDotDot("");
      TokensOfNothing();
      assert vpath[cur..] == ".." && vpath[cur + 2..] == "";
      assert [Up] + [] == [Up];
      WalkUp(stack, []);
    } else {
      TokensAtDotDot(vpath[cur + 3..]);
      assert vpath[cur..] == "../" + vpath[cur + 3..];
      WalkUp(stack, Tokens(vpath[cur + 3..]));
    }
  }

  /** The scanner computes what the tokens of the path mean, and terminates; its closing
      assert is never reached. */
  method NormalizeAndSplit(vpath: string, cwd: string) returns (r: Result<seq<string>, PathError>)
    ensures r == Resolve(vpath, cwd)
  {
    hide Tokens, Split, Walk, StartsBad;
    if vpath == "" {
      var home := DoSplit(cwd, '/');
      return Ok(home);
    }
    var parts := [];
    if vpath[0] != '/' {
      parts := DoSplit(cwd, '/');
    }
    var end, cur := |vpath|, 0;
    ghost var meaning := Walk(parts, Tokens(vpath));
    assert vpath[0..] == vpath;
    while cur != end
      invariant 0 <= cur <= end == |vpath|
      invariant Walk(parts, Tokens(vpath[cur..])) == meaning
      decreases end - cur
    {
      if vpath[cur] == '/' {
        SkipSlash(vpath, cur);
        cur := cur + 1;
        continue;
      }
      if vpath[cur] == '.' {
        var p := cur + 1;
        if p == end {
          SkipDot(vpath, cur);
          cur := p;
          continue;
        }
        if vpath[p] == '/' {
          SkipDot(vpath, cur);
          cur := p + 1;
          continue;
        }
        if vpath[p] == '.' {
          var pp := p + 1;
          if pp == end || vpath[pp] == '/' {
            StepUp(parts, vpath, cur);
            if parts == [] {
              return Err(AccessDenied);
            }
            parts := parts[..|parts| - 1];
            cur := pp;
            if pp != end {
              cur := cur + 1;
            }
            continue;
          }
          TokensAtDotDotName(vpath[cur..]);
          WalkBad(parts, vpath[cur..]);
          return Err(BadPath);
        }
      }
      var p, backslash := ScanName(vpath, cur);
      if backslash {
        WalkBad(parts, vpath[cur..]);
        return Err(BadPath);
      }
      if p != cur {
        WalkName(parts, vpath[cur..p], Tokens(vpath[p..]));
        parts := parts + [vpath[cur..p]];
        cur := p;
        continue;
      }
      assert false;
    }
    assert vpath[cur..] == "";
    TokensOfNothing();
    WalkEnd(parts);
    return Ok(parts);
  }
}
