/** What normalization promises about its results. */
module PathLaws {
  import opened Common
  import opened VirtualPaths

  // ---------- which parts can come out ----------

  /** Cannot lead anywhere but to a direct child or to the directory itself. */
  predicate Safe(p: string) {
    p != "" && '/' !in p && '\\' !in p && DotDot(p) == |p|
  }

  predicate Clean(p: string) {
    Safe(p) && p != "."
  }

  ghost predicate AllSafe(parts: seq<string>) {
    forall i :: 0 <= i < |parts| ==> Safe(parts[i])
  }

  ghost predicate AllClean(parts: seq<string>) {
    forall i :: 0 <= i < |parts| ==> Clean(parts[i])
  }

  lemma LexNamesAreClean(c: string, last: bool, i: nat)
    requires '/' !in c && i < |Lex(c, last)| && Lex(c, last)[i].Name?
    ensures Clean(Lex(c, last)[i].part)
    ensures EndsInDot(Lex(c, last)[i].part) ==> last && i == |Lex(c, last)| - 1
  {
    var d := DotDot(c);
    if d < |c| {
      DotDotIs(c[..d], d);
    } else if EndsInDot(c) && !last {
      DotDotIs(c[..|c| - 1], |c| - 1);
    }
  }

  /** A name that ends in a dot can only be the last token of a path. */
  lemma {:induction false} TokenNamesAreClean(s: string, i: nat)
    requires i < |Tokens(s)| && Tokens(s)[i].Name?
    ensures Clean(Tokens(s)[i].part)
    ensures EndsInDot(Tokens(s)[i].part) ==> i == |Tokens(s)| - 1
    decreases |s|
  {
    hide Lex, DotDot, SegLen, Clean, EndsInDot;
    var n := SegLen(s, '/');
    if n == |s| {
      LexNamesAreClean(s, true, i);
    } else {
      var front := Lex(s[..n], false);
      if i < |front| {
        LexNamesAreClean(s[..n], false, i);
      } else {
        TokenNamesAreClean(s[n + 1..], i - |front|);
      }
    }
  }

  /** Whatever holds of the parts one starts with and of all names holds of the result. */
  lemma {:induction false} WalkKeeps(stack: seq<string>, tokens: seq<Token>, good: string -> bool)
    requires forall i :: 0 <= i < |stack| ==> good(stack[i])
    requires forall i :: 0 <= i < |tokens| && tokens[i].Name? ==> good(tokens[i].part)
    requires Walk(stack, tokens).Ok?
    ensures var parts := Walk(stack, tokens).value;
            forall i :: 0 <= i < |parts| ==> good(parts[i])
    decreases |tokens|
  {
    if tokens != [] {
      match tokens[0]
      case Name(part) =>
        WalkKeeps(stack + [part], tokens[1..], good);
      case Up => WalkKeeps(stack[..|stack| - 1], tokens[1..], good);
    }
  }

  /** A resolved path holds only safe parts, and clean ones if the current directory does or
      the request was absolute: no backslash, slash or ".." survives. */
  lemma ResolvedPartsAreSafe(vpath: string, cwd: string)
    requires Resolve(vpath, cwd).Ok?
    ensures AllSafe(Split(cwd, '/')) || (vpath != "" && vpath[0] == '/')
            ==> AllSafe(Resolve(vpath, cwd).value)
    ensures AllClean(Split(cwd, '/')) || (vpath != "" && vpath[0] == '/')
            ==> AllClean(Resolve(vpath, cwd).value)
  {
    if vpath != "" {
      var start := if vpath[0] != '/' then Split(cwd, '/') else [];
      forall i | 0 <= i < |Tokens(vpath)| && Tokens(vpath)[i].Name?
        ensures Clean(Tokens(vpath)[i].part)
      {
        TokenNamesAreClean(vpath, i);
      }
      if AllSafe(start) {
        WalkKeeps(start, Tokens(vpath), p => Safe(p));
      }
      if AllClean(start) {
        WalkKeeps(start, Tokens(vpath), p => Clean(p));
      }
    }
  }

  // ---------- when a path is refused, and why ----------

  /** Names minus steps up. */
  function Balance(tokens: seq<Token>): int {
    if tokens == [] then 0
    else (match tokens[0] case Name(_) => 1 case Up => -1 case Bad => 0) + Balance(tokens[1..])
  }

  /** Token i can be followed: it is not malformed, and a step up has somewhere to go. */
  predicate Passable(depth: int, tokens: seq<Token>, i: nat)
    requires i < |tokens|
  {
    tokens[i] != Bad && (tokens[i].Up? ==> depth + Balance(tokens[..i]) > 0)
  }

  ghost predicate FirstRefused(depth: int, tokens: seq<Token>, i: nat) {
    && i < |tokens| && !Passable(depth, tokens, i)
    && forall j :: 0 <= j < i ==> Passable(depth, tokens, j)
  }

  lemma PassableShift(depth: int, tokens: seq<Token>, i: nat)
    requires 0 < i < |tokens| && Passable(depth, tokens, 0)
    ensures Passable(depth, tokens, i)
            <==> Passable(depth + Balance(tokens[..1]), tokens[1..], i - 1)
  {
    assert tokens[..i][0] == tokens[0] && tokens[..i][1..] == tokens[1..][..i - 1];
    assert tokens[..1][1..] == [];
  }

  /** What the first token leaves of the stack, if it can be followed. */
  function AfterFirst(stack: seq<string>, tokens: seq<Token>): (next: seq<string>)
    requires tokens != [] && Passable(|stack|, tokens, 0)
    ensures |next| == |stack| + Balance(tokens[..1])
    ensures Walk(stack, tokens) == Walk(next, tokens[1..])
  {
    assert tokens[..0] == [] && tokens[..1][1..] == [];
    match tokens[0] case Name(part) => stack + [part] case Up => stack[..|stack| - 1]
  }

  ghost predicate AllPassable(depth: int, tokens: seq<Token>) {
    forall i :: 0 <= i < |tokens| ==> Passable(depth, tokens, i)
  }

  lemma AllPassableShift(depth: int, tokens: seq<Token>)
    requires tokens != [] && Passable(depth, tokens, 0)
    ensures AllPassable(depth, tokens) <==> AllPassable(depth + Balance(tokens[..1]), tokens[1..])
  {
    hide Balance, Passable;
    var next := depth + Balance(tokens[..1]);
    forall i | 0 < i < |tokens|
      ensures Passable(depth, tokens, i) <==> Passable(next, tokens[1..], i - 1)
    {
      PassableShift(depth, tokens, i);
    }
    if AllPassable(depth, tokens) {
      forall i | 0 <= i < |tokens[1..]| ensures Passable(next, tokens[1..], i) {
        assert Passable(depth, tokens, i + 1);
      }
    }
    if AllPassable(next, tokens[1..]) {
      forall i | 0 < i < |tokens| ensures Passable(depth, tokens, i) {
        assert Passable(next, tokens[1..], i - 1);
      }
    }
  }

  lemma FirstRefusedShift(depth: int, tokens: seq<Token>, i: nat)
    requires tokens != [] && Passable(depth, tokens, 0)
    requires FirstRefused(depth + Balance(tokens[..1]), tokens[1..], i)
    ensures FirstRefused(depth, tokens, i + 1)
  {
    hide Balance, Passable;
    forall j | 0 < j <= i + 1
      ensures Passable(depth, tokens, j) <==> Passable(depth + Balance(tokens[..1]), tokens[1..], j - 1)
    {
      PassableShift(depth, tokens, j);
    }
  }

  lemma BalanceStep(tokens: seq<Token>)
    requires tokens != []
    ensures Balance(tokens) == Balance(tokens[..1]) + Balance(tokens[1..])
  {
    assert tokens[..1][1..] == [];
  }

  /** A path is accepted exactly if every token can be followed; otherwise the first that
      cannot decides between bad-path and access-denied. */
  lemma {:induction false} WalkOutcome(stack: seq<string>, tokens: seq<Token>)
    ensures var r := Walk(stack, tokens);
            && (r.Ok? <==> AllPassable(|stack|, tokens))
            && (r.Ok? ==> |r.value| == |stack| + Balance(tokens))
            && (r.Err? ==> exists i: nat :: FirstRefused(|stack|, tokens, i)
                                       && r.error == (if tokens[i] == Bad then BadPath else AccessDenied))
    decreases |tokens|
  {
    if tokens != [] {
      if Passable(|stack|, tokens, 0) {
        hide Balance, Passable, FirstRefused, AllPassable, Walk;
        var next := AfterFirst(stack, tokens);
        WalkOutcome(next, tokens[1..]);
        AllPassableShift(|stack|, tokens);
        BalanceStep(tokens);
        if Walk(stack, tokens).Err? {
          var i: nat :| FirstRefused(|next|, tokens[1..], i)
                   && Walk(stack, tokens).error == (if tokens[1..][i] == Bad then BadPath else AccessDenied);
          FirstRefusedShift(|stack|, tokens, i);
        }
      } else {
        assert tokens[..0] == [];
        assert FirstRefused(|stack|, tokens, 0);
      }
    }
  }

  // ---------- printing and parsing again ----------

  function DropDot(p: string): string {
    if EndsInDot(p) then p[..|p| - 1] else p
  }

  /** Only the last part may end in a dot. */
  ghost predicate DotsOnlyLast(parts: seq<string>) {
    forall i :: 0 <= i < |parts| - 1 ==> !EndsInDot(parts[i])
  }

  function Reparsed(parts: seq<string>): seq<string> {
    if |parts| <= 1 then parts else [DropDot(parts[0])] + Reparsed(parts[1..])
  }

  function Names(parts: seq<string>): seq<Token> {
    if parts == [] then [] else [Name(parts[0])] + Names(parts[1..])
  }

  lemma LexClean(p: string, last: bool)
    requires Clean(p)
    ensures Lex(p, last) == [Name(if last then p else DropDot(p))]
  {
  }

  lemma {:induction false} TokensOfJoin(parts: seq<string>)
    requires AllClean(parts)
    ensures Tokens(JoinSlash(parts)) == Names(Reparsed(parts))
  {
    hide Lex, Tokens, DotDot;
    if |parts| == 0 {
      TokensOfLast("");
      LexEmpty();
    } else if |parts| == 1 {
      TokensOfLast(parts[0]);
      LexClean(parts[0], true);
      assert Names(parts) == [Name(parts[0])] + Names(parts[1..]);
    } else {
      TokensOfJoin(parts[1..]);
      TokensOfComponent(parts[0], JoinSlash(parts[1..]));
      LexClean(parts[0], false);
      assert Reparsed(parts)[1..] == Reparsed(parts[1..]);
    }
  }

  lemma LexEmpty()
    ensures Lex("", true) == [] && Lex("", false) == []
  {
  }

  lemma {:induction false} WalkNames(stack: seq<string>, parts: seq<string>)
    ensures Walk(stack, Names(parts)) == Ok(stack + parts)
    decreases |parts|
  {
    if parts == [] {
      assert stack + parts == stack;
    } else {
      WalkNames(stack + [parts[0]], parts[1..]);
      assert stack + parts == (stack + [parts[0]]) + parts[1..];
    }
  }

  lemma {:induction false} ReparsedIsSame(parts: seq<string>)
    ensures |Reparsed(parts)| == |parts|
    ensures Reparsed(parts) == parts <==> DotsOnlyLast(parts)
  {
    if |parts| > 1 {
      ReparsedIsSame(parts[1..]);
      assert DotsOnlyLast(parts) ==> DotsOnlyLast(parts[1..]) by {
        assert forall i :: 0 <= i < |parts[1..]| ==> parts[1..][i] == parts[i + 1];
      }
      if DotsOnlyLast(parts[1..]) && !EndsInDot(parts[0]) {
        forall i | 0 <= i < |parts| - 1 ensures !EndsInDot(parts[i]) {
          if i > 0 {
            assert !EndsInDot(parts[1..][i - 1]);
          }
        }
      }
      assert Reparsed(parts)[0] == DropDot(parts[0]) && Reparsed(parts)[1..] == Reparsed(parts[1..]);
      assert DotsOnlyLast(parts) ==> !EndsInDot(parts[0]);
    }
  }

  /** Resolving a printed path gives the parts back exactly if no part but the last ends
      in a dot. */
  lemma ResolveJoin(parts: seq<string>, cwd: string)
    requires AllClean(parts)
    ensures Resolve(Join(parts, true), cwd) == Ok(Reparsed(parts))
    ensures Resolve(Join(parts, true), cwd) == Ok(parts) <==> DotsOnlyLast(parts)
  {
    hide Tokens;
    TokensAtSlash(JoinSlash(parts));
    TokensOfJoin(parts);
    WalkNames([], Reparsed(parts));
    assert [] + Reparsed(parts) == Reparsed(parts);
    ReparsedIsSame(parts);
  }

  lemma JoinIsInjective(a: seq<string>, b: seq<string>)
    requires Segments(a) && Segments(b) && Join(a, true) == Join(b, true)
    ensures a == b
  {
    SplitJoin(a, true);
    SplitJoin(b, true);
  }

  lemma {:induction false} ReparsedIsClean(parts: seq<string>)
    requires AllClean(parts)
    ensures AllClean(Reparsed(parts))
  {
    if |parts| > 1 {
      ReparsedIsClean(parts[1..]);
      if EndsInDot(parts[0]) {
        DotDotIs(DropDot(parts[0]), |parts[0]| - 1);
      }
    }
  }

  /** Dots that walking leaves at the end of parts come from the last token alone. */
  lemma {:induction false} WalkDotsOnlyLast(stack: seq<string>, tokens: seq<Token>)
    requires forall i :: 0 <= i < |stack| ==> !EndsInDot(stack[i])
    requires forall i :: 0 <= i < |tokens| - 1 && tokens[i].Name? ==> !EndsInDot(tokens[i].part)
    requires Walk(stack, tokens).Ok?
    ensures DotsOnlyLast(Walk(stack, tokens).value)
    decreases |tokens|
  {
    if tokens != [] {
      match tokens[0]
      case Name(part) =>
        if |tokens| > 1 {
          WalkDotsOnlyLast(stack + [part], tokens[1..]);
        }
      case Up => WalkDotsOnlyLast(stack[..|stack| - 1], tokens[1..]);
    }
  }

  ghost predicate NoDots(parts: seq<string>) {
    forall i :: 0 <= i < |parts| ==> !EndsInDot(parts[i])
  }

  /** Normalizing twice is normalizing once: for every absolute path that is accepted, and
      for every other one if no component of the current directory ends in a dot. */
  lemma NormalizeIdempotent(vpath: string, cwd: string, cwd': string)
    requires Normalize(vpath, cwd).Ok?
    requires (vpath != "" && vpath[0] == '/')
             || (AllClean(Split(cwd, '/')) && NoDots(Split(cwd, '/')))
    ensures Normalize(Normalize(vpath, cwd).value, cwd') == Normalize(vpath, cwd)
  {
    var parts := Resolve(vpath, cwd).value;
    ResolvedPartsAreSafe(vpath, cwd);
    if vpath != "" {
      forall i | 0 <= i < |Tokens(vpath)| - 1 && Tokens(vpath)[i].Name?
        ensures !EndsInDot(Tokens(vpath)[i].part)
      {
        TokenNamesAreClean(vpath, i);
      }
      WalkDotsOnlyLast(if vpath[0] != '/' then Split(cwd, '/') else [], Tokens(vpath));
    }
    ResolveJoin(parts, cwd');
  }

  /** Exactly the current directories that have no component ending in a dot make
      normalization idempotent on everything they accept. */
  lemma IdempotentExactly(cwd: string)
    requires AllClean(Split(cwd, '/'))
    ensures (forall v :: Normalize(v, cwd).Ok? ==>
               Normalize(Normalize(v, cwd).value, cwd) == Normalize(v, cwd))
            <==> NoDots(Split(cwd, '/'))
  {
    var home := Split(cwd, '/');
    if NoDots(home) {
      forall v | Normalize(v, cwd).Ok?
        ensures Normalize(Normalize(v, cwd).value, cwd) == Normalize(v, cwd)
      {
        NormalizeIdempotent(v, cwd, cwd);
      }
    } else {
      var parts := home + ["b"];
      TokensOfLast("b");
      LexClean("b", true);
      assert Normalize("b", cwd) == Ok(Join(parts, true)) by {
        assert Walk(home, [Name("b")]) == Walk(home + ["b"], []);
      }
      var i :| 0 <= i < |home| && EndsInDot(home[i]);
      assert parts[i] == home[i];
      assert AllClean(parts);
      ResolveJoin(parts, cwd);
      ReparsedIsClean(parts);
      if Normalize(Join(parts, true), cwd) == Normalize("b", cwd) {
        JoinIsInjective(Reparsed(parts), parts);
        assert false;
      }
    }
  }

  // ---------- what relative paths and steps up mean ----------

  /** Following two lists of tokens is following one after the other. */
  lemma {:induction false} WalkConcat(stack: seq<string>, a: seq<Token>, b: seq<Token>)
    ensures Walk(stack, a + b)
            == match Walk(stack, a) case Ok(parts) => Walk(parts, b) case Err(e) => Err(e)
    decreases |a|
  {
    if a == [] {
      assert a + b == b;
    } else {
      assert (a + b)[1..] == a[1..] + b;
      match a[0]
      case Name(part) => WalkConcat(stack + [part], a[1..], b);
      case Up =>
        if stack != [] {
          WalkConcat(stack[..|stack| - 1], a[1..], b);
        }
      case Bad =>
    }
  }

  /** A slash separates tokens, wherever it stands. */
  lemma {:induction false} TokensAroundSlash(a: string, b: string)
    ensures Tokens(a + "/" + b) == Tokens(a + "/") + Tokens(b)
    decreases |a|
  {
    hide Lex, Tokens;
    var n := SegLen(a, '/');
    TokensOfNothing();
    if n == |a| {
      assert a + "/" == a + "/" + "";
      TokensOfComponent(a, b);
      TokensOfComponent(a, "");
      assert Lex(a, false) + [] == Lex(a, false);
    } else {
      var c, rest := a[..n], a[n + 1..];
      assert a == c + "/" + rest;
      TokensAroundSlash(rest, b);
      assert a + "/" + b == c + "/" + (rest + "/" + b) && a + "/" == c + "/" + (rest + "/");
      TokensOfComponent(c, rest + "/" + b);
      TokensOfComponent(c, rest + "/");
    }
  }

  /** A relative path means what it means behind the text of the current directory. */
  lemma ResolveRelative(vpath: string, cwd: string, cwd': string)
    requires vpath != "" && vpath[0] != '/'
    requires AllClean(Split(cwd, '/')) && NoDots(Split(cwd, '/'))
    ensures Resolve(vpath, cwd) == Resolve(Join(Split(cwd, '/'), true) + "/" + vpath, cwd')
  {
    hide Tokens, Walk, Split, AllClean, NoDots;
    var home := Split(cwd, '/');
    var text := JoinSlash(home);
    assert Join(home, true) + "/" + vpath == "/" + (text + "/" + vpath);
    TokensAtSlash(text + "/" + vpath);
    TokensAroundSlash(text, vpath);
    TokensOfDirectory(home);
    WalkConcat([], Names(home), Tokens(vpath));
    WalkNames([], home);
    assert [] + home == home;
  }

  lemma {:induction false} TokensOfDirectory(parts: seq<string>)
    requires AllClean(parts) && NoDots(parts)
    ensures Tokens(JoinSlash(parts) + "/") == Names(parts)
  {
    hide Lex, Tokens, DotDot;
    TokensOfNothing();
    if |parts| == 0 {
      assert JoinSlash(parts) + "/" == "" + "/" + "";
      TokensOfComponent("", "");
      LexEmpty();
    } else {
      LexClean(parts[0], false);
      if |parts| == 1 {
        assert JoinSlash(parts) + "/" == parts[0] + "/" + "";
        TokensOfComponent(parts[0], "");
        assert Names(parts) == [Name(parts[0])] + Names(parts[1..]) && Names(parts[1..]) == [];
      } else {
        TokensOfDirectory(parts[1..]);
        assert JoinSlash(parts) + "/" == parts[0] + "/" + (JoinSlash(parts[1..]) + "/");
        TokensOfComponent(parts[0], JoinSlash(parts[1..]) + "/");
      }
    }
  }

  /** The empty path is the current directory, a name is that entry of it, and ".." is the
      directory above it, if there is one. */
  lemma ResolveInDirectory(name: string, cwd: string)
    requires Clean(name)
    ensures Resolve("", cwd) == Ok(Split(cwd, '/'))
    ensures Resolve(name, cwd) == Ok(Split(cwd, '/') + [name])
    ensures Resolve("/" + name, cwd) == Ok([name])
    ensures var home := Split(cwd, '/');
            Resolve("..", cwd) == if home == [] then Err(AccessDenied) else Ok(home[..|home| - 1])
  {
    hide Tokens, Lex, Split;
    var home := Split(cwd, '/');
    TokensOfLast(name);
    LexClean(name, true);
    TokensAtSlash(name);
    TokensAtDotDot("");
    assert [Name(name)] + [] == [Name(name)] && [Up] + [] == [Up];
    WalkName(home, name, []);
    WalkName([], name, []);
    assert [] + [name] == [name];
    WalkUp(home, []);
  }

  /** A name and a step up behind it cancel out, anywhere in a path. */
  lemma NameThenUp(a: string, name: string, b: string, cwd: string)
    requires Clean(name)
    ensures Resolve(a + "/" + name + "/../" + b, cwd) == Resolve(a + "/" + b, cwd)
  {
    hide Tokens, Lex, Split, Walk;
    var long, short := a + "/" + name + "/../" + b, a + "/" + b;
    var start := if long[0] != '/' then Split(cwd, '/') else [];
    assert long[0] == short[0];
    assert long == a + "/" + (name + "/" + ("../" + b));
    TokensAroundSlash(a, name + "/" + ("../" + b));
    TokensAroundSlash(a, b);
    TokensOfComponent(name, "../" + b);
    LexClean(name, false);
    TokensAtDotDot(b);
    var n := DropDot(name);
    WalkConcat(start, Tokens(a + "/"), [Name(n)] + ([Up] + Tokens(b)));
    WalkConcat(start, Tokens(a + "/"), Tokens(b));
    match Walk(start, Tokens(a + "/"))
    case Ok(parts) =>
      WalkName(parts, n, [Up] + Tokens(b));
      WalkUp(parts + [n], Tokens(b));
      assert (parts + [n])[..|parts + [n]| - 1] == parts;
    case Err(_) =>
  }

  // ---------- which texts are malformed ----------

  /** A backslash, or ".." with something other than a slash behind it. */
  ghost predicate Malformed(s: string) {
    '\\' in s || exists k :: 0 <= k && k + 2 < |s| && s[k] == s[k + 1] == '.' && s[k + 2] != '/'
  }

  lemma LexIsBad(c: string, last: bool)
    requires '/' !in c
    ensures Bad in Lex(c, last) <==> Malformed(c)
  {
    var d := DotDot(c);
    if d < |c| {
      if d + 2 < |c| {
        assert c[d] == c[d + 1] == '.' && c[d + 2] in c;
        assert Lex(c, last)[|Lex(c, last)| - 1] == Bad;
      } else {
        assert '\\' in c ==> '\\' in c[..d];
      }
    }
  }

  lemma MalformedParts(c: string, rest: string)
    requires '/' !in c
    ensures Malformed(c + "/" + rest) <==> Malformed(c) || Malformed(rest)
  {
    var s, n := c + "/" + rest, |c|;
    assert '\\' in s <==> '\\' in c || '\\' in rest;
    if k :| 0 <= k && k + 2 < |c| && c[k] == c[k + 1] == '.' && c[k + 2] != '/' {
      assert s[k] == c[k] && s[k + 1] == c[k + 1] && s[k + 2] == c[k + 2];
    }
    if k :| 0 <= k && k + 2 < |rest| && rest[k] == rest[k + 1] == '.' && rest[k + 2] != '/' {
      var j := n + 1 + k;
      assert s[j] == rest[k] && s[j + 1] == rest[k + 1] && s[j + 2] == rest[k + 2];
    }
    if k :| 0 <= k && k + 2 < |s| && s[k] == s[k + 1] == '.' && s[k + 2] != '/' {
      assert s[n] == '/';
      if k > n {
        var j := k - n - 1;
        assert rest[j] == s[k] && rest[j + 1] == s[k + 1] && rest[j + 2] == s[k + 2];
      } else {
        assert c[k] == s[k] && c[k + 1] == s[k + 1] && c[k + 2] == s[k + 2];
      }
    }
  }

  /** A malformed token comes exactly from a malformed text. */
  lemma {:induction false} BadExactly(s: string)
    ensures Bad in Tokens(s) <==> Malformed(s)
    decreases |s|
  {
    hide Lex, Malformed, Tokens;
    var n := SegLen(s, '/');
    if n == |s| {
      TokensOfLast(s);
      LexIsBad(s, true);
    } else {
      var c, rest := s[..n], s[n + 1..];
      assert s == c + "/" + rest;
      BadExactly(rest);
      LexIsBad(c, false);
      TokensOfComponent(c, rest);
      MalformedParts(c, rest);
    }
  }

  /** A path that never steps above its start is refused, as malformed, exactly if its text
      is; and no other path is refused as malformed. */
  lemma RefusedExactly(vpath: string, cwd: string)
    ensures Resolve(vpath, cwd) == Err(BadPath) ==> Malformed(vpath)
    ensures Malformed(vpath) ==> Resolve(vpath, cwd).Err?
    ensures Resolve(vpath, cwd).Err? && !Malformed(vpath) ==> Resolve(vpath, cwd) == Err(AccessDenied)
  {
    hide Tokens, Malformed, Split;
    BadExactly(vpath);
    var r := Resolve(vpath, cwd);
    assert r.Err? ==> r == Err(AccessDenied) || r == Err(BadPath) by {
      if r.Err? {
        match r.error
        case AccessDenied =>
        case BadPath =>
      }
    }
    if vpath == "" {
      TokensOfNothing();
    } else {
      WalkRefuses(if vpath[0] != '/' then Split(cwd, '/') else [], Tokens(vpath));
    }
  }

  lemma {:induction false} WalkRefuses(stack: seq<string>, tokens: seq<Token>)
    ensures Walk(stack, tokens) == Err(BadPath) ==> Bad in tokens
    ensures Bad in tokens ==> Walk(stack, tokens).Err?
    decreases |tokens|
  {
    if tokens != [] {
      match tokens[0]
      case Name(part) => WalkRefuses(stack + [part], tokens[1..]);
      case Up =>
        if stack != [] {
          WalkRefuses(stack[..|stack| - 1], tokens[1..]);
        }
      case Bad =>
    }
  }
}
