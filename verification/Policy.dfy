/**
 The `.policy` compiler (runPolicyCommand in main.go) and the gateway side that feeds and reads the
 compiled policy (pkg/proxy/handler.go). The compiler emits Go source; here it emits the statements
 that source consists of, and an interpreter gives them their meaning.
 */
module Policy {
  import opened Options
  import opened Text

  datatype Request = Request(method_: string, path: string, headers: map<string, string>)

  /** A Go map lookup: missing names read as the empty string. */
  function Header(req: Request, name: string): string {
    if name in req.headers then req.headers[name] else ""
  }

  // ----- the emitted program -----

  datatype Expr =
    | True
    | MethodIs(method_: string)
    | PathIs(path: string)
    | HeaderIs(name: string, val: string)
    | And(left: Expr, right: Expr)

  datatype Stmt = If(cond: Expr, body: seq<Stmt>) | Print(text: string) | Return

  function Eval(e: Expr, req: Request): bool {
    match e
    case True => true
    case MethodIs(m) => req.method_ == m
    case PathIs(p) => req.path == p
    case HeaderIs(name, val) => Header(req, name) == val
    case And(left, right) => Eval(left, req) && Eval(right, req)
  }

  /** What a statement list prints, and whether it returned. */
  function Exec(stmts: seq<Stmt>, req: Request): (seq<string>, bool) {
    if stmts == [] then ([], false)
    else
      var (out, returned) := match stmts[0]
        case If(cond, body) => if Eval(cond, req) then Exec(body, req) else ([], false)
        case Print(text) => ([text], false)
        case Return => ([], true);
      if returned then (out, true)
      else
        var (more, later) := Exec(stmts[1..], req);
        (out + more, later)
  }

  function IfRule(action: string, cond: Expr): Stmt { If(cond, [Print(action), Return]) }

  /** The body of main after a request was decoded: the rules and the default. */
  function Program(rules: seq<Stmt>): seq<Stmt> { rules + [Print("deny")] }

  /** The statement emitted for a line, if any. */
  function CompileLine(line: string, tables: CharTables): Option<Stmt> {
    var trimmed := Trim(line, tables.space);
    if trimmed == "" || HasPrefix(trimmed, "#") then None
    else
      var parts := Fields(trimmed, tables.space);
      if |parts| < 3 then None
      else
        var methodCond := if parts[1] == "*" then True else MethodIs(parts[1]);
        var pathCond := if parts[2] == "*" then True else PathIs(parts[2]);
        var cond := And(methodCond, pathCond);
        if |parts| >= 6 && parts[3] == "if" && HasPrefix(parts[4], "header.") && parts[5] == "==" then
          var name := ToLower(parts[4][|"header."|..], tables.lower);
          var val := Trim(Join(parts[6..], " "), Quote);
          Some(IfRule(parts[0], And(cond, HeaderIs(name, val))))
        else Some(IfRule(parts[0], cond))
  }

  predicate Quote(c: char) { c == '\"' }

  function CompileLines(lines: seq<string>, tables: CharTables): seq<Stmt> {
    if lines == [] then []
    else
      var init, last := CompileLines(lines[..|lines| - 1], tables), CompileLine(lines[|lines| - 1], tables);
      if last.Some? then init + [last.value] else init
  }

  /** The loop of runPolicyCommand. */
  method CompilePolicy(content: string, tables: CharTables) returns (program: seq<Stmt>)
    ensures program == Program(CompileLines(Split(content, '\n'), tables))
  {
    var lines := Split(content, '\n');
    var rules := [];
    for i := 0 to |lines|
      invariant rules == CompileLines(lines[..i], tables)
    {
      assert lines[..i + 1][..i] == lines[..i];
      var line := Trim(lines[i], tables.space);
      if line == "" || HasPrefix(line, "#") {
        continue;
      }
      var parts := Fields(line, tables.space);
      if |parts| < 3 {
        continue;
      }
      var action, meth, path := parts[0], parts[1], parts[2];
      var cond := And(if meth == "*" then True else MethodIs(meth), if path == "*" then True else PathIs(path));
      if |parts| >= 6 && parts[3] == "if" && HasPrefix(parts[4], "header.") && parts[5] == "==" {
        var name := ToLower(parts[4][|"header."|..], tables.lower);
        var val := Trim(Join(parts[6..], " "), Quote);
        cond := And(cond, HeaderIs(name, val));
      }
      rules := rules + [IfRule(action, cond)];
    }
    assert lines[..|lines|] == lines;
    program := Program(rules);
  }

  // ----- the language of rules -----

  /** What a rule line says: `action method path [if header.name == value]`. */
  datatype Rule = Rule(action: string, method_: string, path: string, header: Option<(string, string)>)

  function Parse(line: string, tables: CharTables): Option<Rule> {
    var parts := Fields(Trim(line, tables.space), tables.space);
    if HasPrefix(Trim(line, tables.space), "#") || |parts| < 3 then None
    else Some(Rule(parts[0], parts[1], parts[2], ParseHeader(parts, tables)))
  }

  function ParseHeader(parts: seq<string>, tables: CharTables): Option<(string, string)> {
    if |parts| >= 6 && parts[3] == "if" && HasPrefix(parts[4], "header.") && parts[5] == "=="
    then Some((ToLower(parts[4][|"header."|..], tables.lower), Trim(Join(parts[6..], " "), Quote)))
    else None
  }

  predicate Matches(rule: Rule, req: Request) {
    && rule.method_ in {"*", req.method_}
    && rule.path in {"*", req.path}
    && (rule.header.Some? ==> Header(req, rule.header.value.0) == rule.header.value.1)
  }

  /** The action of the first matching rule line. */
  function FirstMatch(lines: seq<string>, req: Request, tables: CharTables): Option<string> {
    if lines == [] then None
    else
      var rule := Parse(lines[0], tables);
      if rule.Some? && Matches(rule.value, req) then Some(rule.value.action)
      else FirstMatch(lines[1..], req, tables)
  }

  function Decision(lines: seq<string>, req: Request, tables: CharTables): string {
    var m := FirstMatch(lines, req, tables);
    if m.Some? then m.value else "deny"
  }

  lemma {:induction false} CompileSplits(a: seq<string>, b: seq<string>, tables: CharTables)
    ensures CompileLines(a + b, tables) == CompileLines(a, tables) + CompileLines(b, tables)
    decreases |b|
  {
    if b == [] {
      assert a + b == a;
    } else {
      var n := |b| - 1;
      assert (a + b)[..|a + b| - 1] == a + b[..n];
      CompileSplits(a, b[..n], tables);
    }
  }

  lemma EmittedRuleMeansTheRule(line: string, req: Request, tables: CharTables)
    ensures CompileLine(line, tables).Some? <==> Parse(line, tables).Some?
    ensures CompileLine(line, tables).Some? ==>
              var (stmt, rule) := (CompileLine(line, tables).value, Parse(line, tables).value);
              stmt.If? && stmt.body == [Print(rule.action), Return] && (Eval(stmt.cond, req) <==> Matches(rule, req))
  {
    assert Fields("", tables.space) == [];
    if CompileLine(line, tables).Some? {
      var cond := CompileLine(line, tables).value.cond;
      assert Eval(cond, req) == (Eval(cond.left, req) && Eval(cond.right, req));
      assert cond.left.And? ==> Eval(cond.left, req) == (Eval(cond.left.left, req) && Eval(cond.left.right, req));
    }
  }

  /**
   A line, taken by its white-space separated fields alone: it decides a request exactly if it is no comment,
   has at least three fields, and method, path and, in the form `if header.name == value...`, the header fit.
   */
  ghost predicate LineFits(line: string, req: Request, tables: CharTables) {
    var text := Trim(line, tables.space);
    var f := Fields(text, tables.space);
    && !("#" <= text) && |f| >= 3
    && (f[1] == "*" || f[1] == req.method_) && (f[2] == "*" || f[2] == req.path)
    && (|f| >= 6 && f[3] == "if" && "header." <= f[4] && f[5] == "==" ==>
         var (name, val) := (ToLower(f[4][7..], tables.lower), Trim(Join(f[6..], " "), (c: char) => c == '\"'));
         if name in req.headers then req.headers[name] == val else val == "")
  }

  lemma {:induction false} TrimByEqualCutsets(s: string, p: char -> bool, q: char -> bool)
    requires forall c :: p(c) == q(c)
    ensures Trim(s, p) == Trim(s, q)
  {
    var a, b := TrimCuts(s, p);
    TrimIsUnique(s, q, a, Trim(s, p), b);
  }

  /** A policy of one line prints its first field for the requests the line fits, and "deny" for all others. */
  lemma OneLinePolicy(line: string, req: Request, tables: CharTables)
    ensures Exec(Program(CompileLines([line], tables)), req).0 ==
              [if LineFits(line, req, tables) then Fields(Trim(line, tables.space), tables.space)[0] else "deny"]
  {
    CompilerPreservesMeaning([line], req, tables);
    OneLineMatches(line, req, tables);
    assert FirstMatch([line][1..], req, tables) == None;
  }

  lemma OneLineMatches(line: string, req: Request, tables: CharTables)
    ensures Parse(line, tables).Some? && Matches(Parse(line, tables).value, req) <==> LineFits(line, req, tables)
  {
    var text := Trim(line, tables.space);
    var f := Fields(text, tables.space);
    assert HasPrefix(text, "#") <==> "#" <= text;
    if |f| >= 6 {
      assert HasPrefix(f[4], "header.") <==> "header." <= f[4];
      TrimByEqualCutsets(Join(f[6..], " "), Quote, (c: char) => c == '\"');
    }
  }

  lemma PrintAndReturn(action: string, req: Request)
    ensures Exec([Print(action), Return], req) == ([action], true)
  {
    assert [Print(action), Return][1..] == [Return];
    assert Exec([Return], req) == ([], true);
    assert [action] + [] == [action];
  }

  /** The compiled policy prints exactly one decision: first match, default deny. */
  lemma {:induction false} CompilerPreservesMeaning(lines: seq<string>, req: Request, tables: CharTables)
    ensures Exec(Program(CompileLines(lines, tables)), req).0 == [Decision(lines, req, tables)]
  {
    if lines == [] {
      assert Program([]) == [Print("deny")];
      assert Exec([Print("deny")][1..], req) == ([], false);
    } else {
      var line, rest := lines[0], lines[1..];
      assert lines == [line] + rest;
      CompileSplits([line], rest, tables);
      CompileOne(line, tables);
      EmittedRuleMeansTheRule(line, req, tables);
      CompilerPreservesMeaning(rest, req, tables);
      var program := Program(CompileLines(lines, tables));
      var c := CompileLine(line, tables);
      if c.Some? {
        assert program == [c.value] + Program(CompileLines(rest, tables));
        assert program[1..] == Program(CompileLines(rest, tables));
        PrintAndReturn(Parse(line, tables).value.action, req);
      } else {
        assert program == Program(CompileLines(rest, tables));
      }
    }
  }

  lemma CompileOne(line: string, tables: CharTables)
    ensures CompileLines([line], tables) ==
              if CompileLine(line, tables).Some? then [CompileLine(line, tables).value] else []
  {
    assert [line][..0] == [];
  }

  /** Compiling A followed by B means A, then B where A has no matching rule. */
  lemma PoliciesCompose(a: seq<string>, b: seq<string>, req: Request, tables: CharTables)
    ensures FirstMatch(a + b, req, tables) ==
              if FirstMatch(a, req, tables).Some? then FirstMatch(a, req, tables) else FirstMatch(b, req, tables)
    ensures Exec(Program(CompileLines(a + b, tables)), req).0 ==
              if FirstMatch(a, req, tables).Some? then Exec(Program(CompileLines(a, tables)), req).0
              else Exec(Program(CompileLines(b, tables)), req).0
  {
    CompilerPreservesMeaning(a + b, req, tables);
    CompilerPreservesMeaning(a, req, tables);
    CompilerPreservesMeaning(b, req, tables);
    MatchesCompose(a, b, req, tables);
  }

  lemma {:induction false} MatchesCompose(a: seq<string>, b: seq<string>, req: Request, tables: CharTables)
    ensures FirstMatch(a + b, req, tables) ==
              if FirstMatch(a, req, tables).Some? then FirstMatch(a, req, tables) else FirstMatch(b, req, tables)
  {
    if a == [] {
      assert a + b == b;
    } else {
      assert (a + b)[1..] == a[1..] + b;
      MatchesCompose(a[1..], b, req, tables);
    }
  }

  /** Blank lines, comments and lines of fewer than three fields can be added or removed anywhere. */
  lemma SkippedLinesDoNotMatter(a: seq<string>, line: string, b: seq<string>, req: Request, tables: CharTables)
    requires var t := Trim(line, tables.space); t == "" || HasPrefix(t, "#") || |Fields(t, tables.space)| < 3
    ensures Exec(Program(CompileLines(a + [line] + b, tables)), req).0 == Exec(Program(CompileLines(a + b, tables)), req).0
  {
    assert a + [line] + b == a + ([line] + b);
    PoliciesCompose(a, [line] + b, req, tables);
    PoliciesCompose(a, b, req, tables);
    PoliciesCompose([line], b, req, tables);
    assert [line][1..] == [];
    assert Fields("", tables.space) == [];
  }

  /** Nothing after an unconditional rule for every method and path can change a decision. */
  lemma RulesAfterCatchAllAreDead(a: seq<string>, line: string, b: seq<string>, req: Request, tables: CharTables)
    requires Parse(line, tables).Some?
    requires var r := Parse(line, tables).value; r.method_ == "*" && r.path == "*" && r.header.None?
    ensures Exec(Program(CompileLines(a + [line] + b, tables)), req).0 == Exec(Program(CompileLines(a + [line], tables)), req).0
  {
    MatchesCompose(a, [line], req, tables);
    PoliciesCompose(a + [line], b, req, tables);
  }

  // ----- the gateway's side -----

  type RawHeaders = map<string, seq<string>>

  /** Names in lower case with their first values, as some iteration order over the headers gives them. */
  ghost predicate IsMetadata(raw: RawHeaders, hdrs: map<string, string>, tables: CharTables) {
    && (forall k :: k in raw && raw[k] != [] ==> ToLower(k, tables.lower) in hdrs)
    && (forall n :: n in hdrs ==> exists k :: k in raw && raw[k] != [] && ToLower(k, tables.lower) == n && hdrs[n] == raw[k][0])
  }

  method BuildMetadata(raw: RawHeaders, tables: CharTables) returns (hdrs: map<string, string>)
    ensures IsMetadata(raw, hdrs, tables)
  {
    hdrs := map[];
    var keys := raw.Keys;
    while keys != {}
      invariant keys <= raw.Keys
      invariant forall k :: k in raw && k !in keys && raw[k] != [] ==> ToLower(k, tables.lower) in hdrs
      invariant forall n :: n in hdrs ==>
                  exists k :: k in raw && raw[k] != [] && ToLower(k, tables.lower) == n && hdrs[n] == raw[k][0]
      decreases keys
    {
      var k :| k in keys;
      keys := keys - {k};
      if |raw[k]| > 0 {
        hdrs := hdrs[ToLower(k, tables.lower) := raw[k][0]];
      }
    }
  }

  /** Canonical header names differ in more than case. */
  ghost predicate NamesDiffer(raw: RawHeaders, tables: CharTables) {
    forall j, k :: j in raw && k in raw && ToLower(j, tables.lower) == ToLower(k, tables.lower) ==> j == k
  }

  /**
   End to end, header conditions ignore the case of names: whatever the case in the policy and in
   the request, the condition compares with the request's first value, or with "" if it has none.
   */
  lemma HeaderNamesIgnoreCase(
      raw: RawHeaders, hdrs: map<string, string>, meth: string, path: string,
      parts: seq<string>, tables: CharTables, key: string)
    requires IsMetadata(raw, hdrs, tables) && NamesDiffer(raw, tables) && ParseHeader(parts, tables).Some?
    requires ToLower(key, tables.lower) == ToLower(parts[4][|"header."|..], tables.lower)
    ensures var (name, val) := ParseHeader(parts, tables).value;
            key in raw && raw[key] != [] ==>
              (Eval(HeaderIs(name, val), Request(meth, path, hdrs)) <==> raw[key][0] == val)
    ensures var (name, val) := ParseHeader(parts, tables).value;
            (forall k :: k in raw && ToLower(k, tables.lower) == ToLower(key, tables.lower) ==> raw[k] == []) ==>
              (Eval(HeaderIs(name, val), Request(meth, path, hdrs)) <==> val == "")
  {
    var (name, val) := ParseHeader(parts, tables).value;
    if name in hdrs {
      var k :| k in raw && raw[k] != [] && ToLower(k, tables.lower) == name && hdrs[name] == raw[k][0];
    }
  }

  /** ServeHTTP: the request is denied iff the trimmed output is "deny". */
  function Denied(output: string, tables: CharTables): bool { Trim(output, tables.space) == "deny" }

  /** White space around the word does not matter, anything else does. */
  lemma DeniedIff(output: string, tables: CharTables)
    requires forall c :: c in "deny" ==> !tables.space(c)
    ensures Denied(output, tables) <==> exists a, b :: IsTrimmed(output, tables.space, a, "deny", b)
  {
    var a, b := TrimCuts(output, tables.space);
    if a', b' :| IsTrimmed(output, tables.space, a', "deny", b') { TrimIsUnique(output, tables.space, a', "deny", b'); }
  }

  lemma {:induction false} ActionIsAWord(lines: seq<string>, req: Request, tables: CharTables)
    requires forall c :: c in "deny" ==> !tables.space(c)
    ensures var d := Decision(lines, req, tables); d != "" && forall c :: c in d ==> !tables.space(c)
  {
    if lines != [] {
      ActionIsAWord(lines[1..], req, tables);
      var parts := Fields(Trim(lines[0], tables.space), tables.space);
      FieldsAreWords(Trim(lines[0], tables.space), tables.space);
      if |parts| > 0 { assert parts[0] in parts; }
    }
  }

  /**
   The gateway lets a request through exactly if some rule matches and the first such rule's action
   is not literally "deny"; any other action word allows.
   */
  lemma AllowedIff(lines: seq<string>, req: Request, tables: CharTables)
    requires forall c :: c in "deny" ==> !tables.space(c)
    ensures Exec(Program(CompileLines(lines, tables)), req).0 == [Decision(lines, req, tables)]
    ensures !Denied(Decision(lines, req, tables), tables) <==>
              FirstMatch(lines, req, tables).Some? && FirstMatch(lines, req, tables).value != "deny"
  {
    CompilerPreservesMeaning(lines, req, tables);
    ActionIsAWord(lines, req, tables);
    var d := Decision(lines, req, tables);
    assert TrimLeft(d, tables.space) == d by { assert d[0] in d; }
    assert TrimRight(d, tables.space) == d by { assert d[|d| - 1] in d; }
  }
}
