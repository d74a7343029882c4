/** Environment files: parsing, printing, rewriting. */
module EnvFile {
  import opened Decimal
  import opened JsObjects
  import opened Options
  import opened Ordering
  import opened Text

  /** An object whose properties are strings, as its members in enumeration order. */
  type Env = seq<Member<string>>

  /** The assignment one line makes, if it makes one. Assigning a string to __proto__ does nothing. */
  function Statement(line: string): Option<Member<string>> {
    var trimmed := Trim(line);
    if trimmed == [] || trimmed[0] == '#' then None
    else
      var index := FirstOf(trimmed, '=');
      if index == |trimmed| || trimmed[..index] == "__proto__" then None
      else Some(Member(trimmed[..index], trimmed[index + 1..]))
  }

  function Apply(env: Env, statement: Option<Member<string>>): Env {
    match statement
    case None => env
    case Some(m) => Put(env, m.key, m.value)
  }

  /** The object after a list of statements. */
  function Perform(statements: seq<Option<Member<string>>>): Env {
    if statements == [] then []
    else Apply(Perform(statements[..|statements| - 1]), statements[|statements| - 1])
  }

  function Statements(text: string): seq<Option<Member<string>>> { Map(Statement, Split(text, '\n')) }

  function Parsed(text: string): Env { Perform(Statements(text)) }

  method ParseLine(before: Env, line: string) returns (env: Env)
    ensures env == Apply(before, Statement(line))
  {
    env := before;
    var trimmed := Trim(line);
    if trimmed == [] || trimmed[0] == '#' {
      return;
    }
    var index := FirstOf(trimmed, '=');
    if index == |trimmed| {
      return;
    }
    if trimmed[..index] != "__proto__" {
      env := Put(env, trimmed[..index], trimmed[index + 1..]);
    }
  }

  method ParseEnv(text: string) returns (env: Env)
    ensures env == Parsed(text)
  {
    env := [];
    var lines := Split(text, '\n');
    ghost var statements := Map(Statement, lines);
    for k := 0 to |lines|
      invariant env == Perform(statements[..k])
    {
      env := ParseLine(env, lines[k]);
      assert statements[..k + 1][..k] == statements[..k];
    }
    assert statements[..|lines|] == statements;
  }

  function LineOf(member: Member<string>): string { member.key + ['='] + member.value }

  function RenderEnvFile(env: Env): string { Join(Map(LineOf, env), '\n') + ['\n'] }

  // ----- Entries that survive a file

  /** The value has no line end and no white space at its end. */
  predicate CleanValue(value: string) {
    '\n' !in value && (value == [] || !IsSpace(value[|value| - 1]))
  }

  predicate CleanKey(key: string) {
    '\n' !in key && '=' !in key && key != "__proto__" && (key == [] || (!IsSpace(key[0]) && key[0] != '#'))
  }

  predicate CleanEntry(member: Member<string>) { CleanKey(member.key) && CleanValue(member.value) }

  ghost predicate CleanEnv(env: Env) { forall i :: 0 <= i < |env| ==> CleanEntry(env[i]) }

  lemma CleanLineIsTight(m: Member<string>)
    requires CleanEntry(m)
    ensures '\n' !in LineOf(m) && Tight(LineOf(m)) && LineOf(m) != [] && LineOf(m)[0] != '#'
  {
    var line := LineOf(m);
    assert line[0] == if m.key == [] then '=' else m.key[0];
    assert line[|line| - 1] == if m.value == [] then '=' else m.value[|m.value| - 1];
  }

  /** A clean entry is exactly what its own line assigns. */
  lemma CleanLine(m: Member<string>)
    requires CleanEntry(m)
    ensures '\n' !in LineOf(m) && Statement(LineOf(m)) == Some(m)
  {
    var line, k := LineOf(m), |m.key|;
    CleanLineIsTight(m);
    TrimOfTight(line);
    assert line[..k] == m.key && line[k] == '=' && line[k + 1..] == m.value;
    FirstOfIs(line, '=', k);
  }

  lemma {:induction false} PutMembers<V>(members: seq<Member<V>>, key: string, value: V)
    ensures forall m :: m in Put(members, key, value) ==> m in members || m == Member(key, value)
  {
    if members != [] && members[0].key != key && !(ComesBefore(key, members[0].key) && key !in KeysOf(members)) {
      PutMembers(members[1..], key, value);
    }
  }

  lemma PutClean(env: Env, m: Member<string>)
    requires CleanEnv(env) && CleanEntry(m)
    ensures CleanEnv(Put(env, m.key, m.value))
  {
    var after := Put(env, m.key, m.value);
    PutMembers(env, m.key, m.value);
    forall i | 0 <= i < |after|
      ensures CleanEntry(after[i])
    {
      assert after[i] in after;
    }
  }

  lemma AssignedKey(trimmed: string, index: nat)
    requires Tight(trimmed) && '\n' !in trimmed && index < |trimmed| && trimmed[0] != '#'
    requires '=' !in trimmed[..index] && trimmed[..index] != "__proto__"
    ensures CleanKey(trimmed[..index])
  {}

  lemma AssignedValue(trimmed: string, index: nat)
    requires Tight(trimmed) && '\n' !in trimmed && index < |trimmed|
    ensures CleanValue(trimmed[index + 1..])
  {}

  lemma TrimmedLine(line: string)
    requires '\n' !in line
    ensures Tight(Trim(line)) && '\n' !in Trim(line)
  {
    TrimIsTight(line);
  }

  /** Whatever a line assigns is clean. */
  lemma StatementClean(line: string)
    requires '\n' !in line && Statement(line).Some?
    ensures CleanEntry(Statement(line).value)
  {
    var trimmed := Trim(line);
    var index := FirstOf(trimmed, '=');
    TrimmedLine(line);
    AssignedValue(trimmed, index);
    AssignedKey(trimmed, index);
  }

  lemma {:induction false} PerformClean(statements: seq<Option<Member<string>>>)
    requires forall i :: 0 <= i < |statements| ==> statements[i].Some? ==> CleanEntry(statements[i].value)
    ensures CleanEnv(Perform(statements))
  {
    if statements != [] {
      var n := |statements| - 1;
      PerformClean(statements[..n]);
      if statements[n].Some? {
        PutClean(Perform(statements[..n]), statements[n].value);
      }
    }
  }

  // ----- The object stays an object

  lemma {:induction false} PutOld<V>(members: seq<Member<V>>, key: string, value: V)
    requires key in KeysOf(members)
    ensures |Put(members, key, value)| == |members|
    ensures forall i :: 0 <= i < |members| ==> Put(members, key, value)[i].key == members[i].key
  {
    if members[0].key != key {
      var i :| 0 <= i < |members| && members[i].key == key;
      assert members[1..][i - 1].key == key;
      PutOld(members[1..], key, value);
    }
  }

  lemma PutEnumerated<V>(members: seq<Member<V>>, key: string, value: V)
    requires Enumerated(members)
    ensures Enumerated(Put(members, key, value))
  {
    if key in KeysOf(members) {
      PutOld(members, key, value);
    } else {
      PutNewEnumerated(members, key, value);
    }
  }

  lemma {:induction false} PerformEnumerated(statements: seq<Option<Member<string>>>)
    ensures Enumerated(Perform(statements))
  {
    if statements != [] {
      var n := |statements| - 1;
      PerformEnumerated(statements[..n]);
      if statements[n].Some? {
        PutEnumerated(Perform(statements[..n]), statements[n].value.key, statements[n].value.value);
      }
    }
  }

  // ----- Round trips

  lemma JoinLast(pieces: seq<string>, c: char)
    requires pieces != []
    ensures Join(pieces + [""], c) == Join(pieces, c) + [c]
    decreases |pieces|
  {
    if |pieces| > 1 {
      JoinLast(pieces[1..], c);
      assert (pieces + [""])[1..] == pieces[1..] + [""];
    } else {
      assert (pieces + [""])[1..] == [""];
      assert pieces[0] + [c] + "" == pieces[0] + [c];
    }
  }

  function Stated(m: Member<string>): Option<Member<string>> { Some(m) }

  lemma PerformSnoc(front: seq<Option<Member<string>>>, last: Member<string>)
    ensures Perform(front + [Some(last)]) == Put(Perform(front), last.key, last.value)
  {
    assert (front + [Some(last)])[..|front|] == front;
  }

  lemma StatedSnoc(front: Env, last: Member<string>)
    ensures Map(Stated, front + [last]) == Map(Stated, front) + [Some(last)]
  {}

  /** Performing the statements of an object's own members rebuilds the object. */
  lemma {:induction false} PerformStated(env: Env)
    requires Enumerated(env)
    ensures Perform(Map(Stated, env)) == env
  {
    if env != [] {
      var front, last := env[..|env| - 1], env[|env| - 1];
      assert env == front + [last];
      PerformStated(front);
      StatedSnoc(front, last);
      PerformSnoc(Map(Stated, front), last);
      PutLast(front, last);
    }
  }

  lemma StatementsOfLines(env: Env)
    requires CleanEnv(env)
    ensures Map(Statement, Map(LineOf, env)) == Map(Stated, env)
  {
    forall i | 0 <= i < |env|
      ensures Statement(LineOf(env[i])) == Some(env[i])
    {
      CleanLine(env[i]);
    }
  }

  lemma RenderedLines(env: Env)
    requires CleanEnv(env)
    ensures Split(RenderEnvFile(env), '\n') == (if env == [] then [""] else Map(LineOf, env)) + [""]
  {
    var lines := Map(LineOf, env);
    if env == [] {
      SplitFirst("", '\n', "");
      assert RenderEnvFile(env) == "" + ['\n'] + "";
      assert FirstOf("", '\n') == 0;
    } else {
      forall i | 0 <= i < |lines + [""]|
        ensures '\n' !in (lines + [""])[i]
      {
        if i < |env| {
          CleanLine(env[i]);
        }
      }
      JoinLast(lines, '\n');
      SplitJoin(lines + [""], '\n');
    }
  }

  lemma NothingMore(statements: seq<Option<Member<string>>>)
    ensures Perform(statements + [None]) == Perform(statements)
  {
    assert (statements + [None])[..|statements|] == statements;
  }

  lemma EmptyLine()
    ensures Statement("") == None
  {}

  lemma MapTwice<A, B>(f: A -> B, x: A)
    ensures Map(f, [x]) == [f(x)] && Map(f, [x] + [x]) == [f(x)] + [f(x)]
  {}

  /** Two lines that assign nothing leave the object empty. */
  lemma NothingAssigned()
    ensures Perform([None] + [None]) == []
  {
    var none: seq<Option<Member<string>>> := [];
    NothingMore(none);
    assert none + [None] == [None];
    NothingMore([None]);
  }

  lemma EmptyRoundTrip()
    ensures Parsed(RenderEnvFile([])) == []
  {
    RenderedLines([]);
    EmptyLine();
    MapTwice(Statement, "");
    NothingAssigned();
  }

  lemma CleanRoundTrip(env: Env)
    requires Enumerated(env) && CleanEnv(env)
    ensures Parsed(RenderEnvFile(env)) == env
  {
    if env == [] {
      EmptyRoundTrip();
    } else {
      RenderedLines(env);
      StatementsOfLines(env);
      MapConcat(Statement, Map(LineOf, env), [""]);
      EmptyLine();
      MapTwice(Statement, "");
      NothingMore(Map(Stated, env));
      PerformStated(env);
    }
  }

  lemma ParsedClean(text: string)
    ensures CleanEnv(Parsed(text)) && Enumerated(Parsed(text))
  {
    var lines := Split(text, '\n');
    forall i | 0 <= i < |lines|
      ensures Statements(text)[i].Some? ==> CleanEntry(Statements(text)[i].value)
    {
      if Statement(lines[i]).Some? {
        StatementClean(lines[i]);
      }
    }
    PerformClean(Statements(text));
    PerformEnumerated(Statements(text));
  }

  /** An object of strings survives being printed and parsed exactly when all its entries are clean. */
  lemma RoundTripIff(env: Env)
    requires Enumerated(env)
    ensures Parsed(RenderEnvFile(env)) == env <==> CleanEnv(env)
  {
    ParsedClean(RenderEnvFile(env));
    if CleanEnv(env) {
      CleanRoundTrip(env);
    }
  }

  /** Whatever was parsed survives, keys that look like array indices and their order included. */
  lemma ParsedRoundTrip(text: string)
    ensures Parsed(RenderEnvFile(Parsed(text))) == Parsed(text)
  {
    ParsedClean(text);
    CleanRoundTrip(Parsed(text));
  }

  // ----- The last assignment wins

  lemma {:induction false} LookupPut<V>(members: seq<Member<V>>, key: string, value: V, other: string)
    ensures Lookup(Put(members, key, value), other) == if other == key then Some(value) else Lookup(members, other)
  {
    if members != [] && members[0].key != key && !(ComesBefore(key, members[0].key) && key !in KeysOf(members)) {
      LookupPut(members[1..], key, value, other);
    }
  }

  /** What the last statement about a key assigns to it. */
  function LastAssigned(statements: seq<Option<Member<string>>>, key: string): Option<string> {
    if statements == [] then None
    else
      var last := statements[|statements| - 1];
      if last.Some? && last.value.key == key then Some(last.value.value)
      else LastAssigned(statements[..|statements| - 1], key)
  }

  lemma {:induction false} PerformLookup(statements: seq<Option<Member<string>>>, key: string)
    ensures Lookup(Perform(statements), key) == LastAssigned(statements, key)
  {
    if statements != [] {
      var n := |statements| - 1;
      PerformLookup(statements[..n], key);
      if statements[n].Some? {
        LookupPut(Perform(statements[..n]), statements[n].value.key, statements[n].value.value, key);
      }
    }
  }

  lemma {:induction false} NeverAssigned(statements: seq<Option<Member<string>>>, key: string)
    requires forall i :: 0 <= i < |statements| ==> statements[i].Some? ==> statements[i].value.key != key
    ensures LastAssigned(statements, key) == None
  {
    if statements != [] {
      NeverAssigned(statements[..|statements| - 1], key);
    }
  }

  /** A key has the value of its last assignment, and __proto__ is never a key. */
  lemma LastValueWins(text: string, key: string)
    ensures Lookup(Parsed(text), key) == LastAssigned(Statements(text), key)
    ensures Lookup(Parsed(text), "__proto__") == None
  {
    PerformLookup(Statements(text), key);
    PerformLookup(Statements(text), "__proto__");
    NeverAssigned(Statements(text), "__proto__");
  }

  // ----- Rewriting

  datatype Layout = Layout(data: string, config: string, cache: string, logs: string, web: string)

  /** RUST_LOG from the environment of the process, unset or empty meaning the default. */
  function RustLog(inherited: Option<string>): string {
    if inherited.None? || inherited.value == "" then "jellyrin=warn,tower_http=warn" else inherited.value
  }

  /** The assignments of rewriteEnv; `transcodes` is the path joined from the cache directory. */
  function Assignments(layout: Layout, port: int, transcodes: string, databaseUrl: string, rustLog: Option<string>): Env {
    Zip(REWRITTEN_KEYS,
      ["127.0.0.1", RenderInt(port), layout.data, layout.config, layout.cache, layout.logs, layout.web, transcodes,
       databaseUrl, RustLog(rustLog)])
  }

  function Zip(keys: seq<string>, values: seq<string>): (r: Env)
    requires |keys| == |values|
    ensures |r| == |keys|
    ensures forall i :: 0 <= i < |keys| ==> r[i] == Member(keys[i], values[i])
  {
    seq(|keys|, i requires 0 <= i < |keys| => Member(keys[i], values[i]))
  }

  function PutAll(env: Env, assignments: Env): Env {
    if assignments == [] then env
    else
      var n := |assignments| - 1;
      Put(PutAll(env, assignments[..n]), assignments[n].key, assignments[n].value)
  }

  /** The object after the text's own assignments and then the ten of rewriteEnv. */
  function RewrittenEnv(text: string, layout: Layout, port: int, transcodes: string, databaseUrl: string, rustLog: Option<string>): Env {
    PutAll(Parsed(text), Assignments(layout, port, transcodes, databaseUrl, rustLog))
  }

  method RewriteEnv(text: string, layout: Layout, port: int, transcodes: string, databaseUrl: string, rustLog: Option<string>)
    returns (env: Env)
    ensures env == RewrittenEnv(text, layout, port, transcodes, databaseUrl, rustLog)
  {
    var assignments := Assignments(layout, port, transcodes, databaseUrl, rustLog);
    env := ParseEnv(text);
    env := AssignAll(env, assignments);
  }

  /** The assignments, one after the other. */
  method AssignAll(before: Env, assignments: Env) returns (env: Env)
    ensures env == PutAll(before, assignments)
  {
    env := before;
    for k := 0 to |assignments|
      invariant env == PutAll(before, assignments[..k])
    {
      env := Put(env, assignments[k].key, assignments[k].value);
      assert assignments[..k + 1][..k] == assignments[..k];
    }
    assert assignments[..|assignments|] == assignments;
  }

  lemma {:induction false} PutAllClean(env: Env, assignments: Env)
    requires CleanEnv(env) && CleanEnv(assignments)
    ensures CleanEnv(PutAll(env, assignments))
  {
    if assignments != [] {
      var n := |assignments| - 1;
      PutAllClean(env, assignments[..n]);
      PutClean(PutAll(env, assignments[..n]), assignments[n]);
    }
  }

  lemma {:induction false} PutAllEnumerated(env: Env, assignments: Env)
    requires Enumerated(env)
    ensures Enumerated(PutAll(env, assignments))
  {
    if assignments != [] {
      var n := |assignments| - 1;
      PutAllEnumerated(env, assignments[..n]);
      PutEnumerated(PutAll(env, assignments[..n]), assignments[n].key, assignments[n].value);
    }
  }

  /** Every assignment is in force at the end. */
  lemma {:induction false} PutAllLookup(env: Env, assignments: Env, i: nat)
    requires DistinctKeys(assignments) && i < |assignments|
    ensures Lookup(PutAll(env, assignments), assignments[i].key) == Some(assignments[i].value)
  {
    var n := |assignments| - 1;
    LookupPut(PutAll(env, assignments[..n]), assignments[n].key, assignments[n].value, assignments[i].key);
    if i < n {
      assert assignments[i].key != assignments[n].key;
      PutAllLookup(env, assignments[..n], i);
    }
  }

  lemma {:induction false} PutAllOther(env: Env, assignments: Env, key: string)
    requires forall i :: 0 <= i < |assignments| ==> assignments[i].key != key
    ensures Lookup(PutAll(env, assignments), key) == Lookup(env, key)
  {
    if assignments != [] {
      var n := |assignments| - 1;
      PutAllOther(env, assignments[..n], key);
      LookupPut(PutAll(env, assignments[..n]), assignments[n].key, assignments[n].value, key);
    }
  }

  lemma FirstKeysClean()
    ensures CleanKey("JELLYRIN_HOST") && CleanKey("JELLYRIN_PORT") && CleanKey("JELLYRIN_DATA_DIR")
    ensures CleanKey("JELLYRIN_CONFIG_DIR") && CleanKey("JELLYRIN_CACHE_DIR")
  {
    assert "__proto__"[0] == '_';
  }

  lemma OtherKeysClean()
    ensures CleanKey("JELLYRIN_LOG_DIR") && CleanKey("JELLYRIN_WEB_DIR") && CleanKey("JELLYRIN_TRANSCODE_DIR")
    ensures CleanKey("DATABASE_URL") && CleanKey("RUST_LOG")
  {
    assert "__proto__"[0] == '_';
  }

  /** The keys rewriteEnv assigns. */
  const REWRITTEN_KEYS: seq<string> :=
    ["JELLYRIN_HOST", "JELLYRIN_PORT", "JELLYRIN_DATA_DIR", "JELLYRIN_CONFIG_DIR", "JELLYRIN_CACHE_DIR",
     "JELLYRIN_LOG_DIR", "JELLYRIN_WEB_DIR", "JELLYRIN_TRANSCODE_DIR", "DATABASE_URL", "RUST_LOG"]

  lemma RewrittenKeysDistinct()
    ensures |REWRITTEN_KEYS| == 10 && NoDuplicates(REWRITTEN_KEYS)
  {
    forall i, j | 0 <= i < j < 10
      ensures REWRITTEN_KEYS[i] != REWRITTEN_KEYS[j]
    {
      assert |REWRITTEN_KEYS[i]| != |REWRITTEN_KEYS[j]| || REWRITTEN_KEYS[i][9] != REWRITTEN_KEYS[j][9];
    }
  }

  lemma RewrittenKeysClean()
    ensures |REWRITTEN_KEYS| == 10 && forall i :: 0 <= i < 10 ==> CleanKey(REWRITTEN_KEYS[i])
  {
    FirstKeysClean();
    OtherKeysClean();
  }

  lemma ZippedValues(env: Env, keys: seq<string>, values: seq<string>, key: string)
    requires |keys| == |values| && NoDuplicates(keys)
    ensures forall i :: 0 <= i < |keys| ==> Lookup(PutAll(env, Zip(keys, values)), keys[i]) == Some(values[i])
    ensures key !in keys ==> Lookup(PutAll(env, Zip(keys, values)), key) == Lookup(env, key)
  {
    forall i | 0 <= i < |keys|
      ensures Lookup(PutAll(env, Zip(keys, values)), keys[i]) == Some(values[i])
    {
      PutAllLookup(env, Zip(keys, values), i);
    }
    if key !in keys {
      PutAllOther(env, Zip(keys, values), key);
    }
  }

  /** Every rewritten key has its new value, and every other key keeps what the text assigned to it last. */
  lemma RewrittenValues(text: string, layout: Layout, port: int, transcodes: string, databaseUrl: string, rustLog: Option<string>, key: string)
    ensures var assignments := Assignments(layout, port, transcodes, databaseUrl, rustLog);
            var env := RewrittenEnv(text, layout, port, transcodes, databaseUrl, rustLog);
            && |assignments| == 10
            && (forall i :: 0 <= i < 10 ==> Lookup(env, assignments[i].key) == Some(assignments[i].value))
            && (key !in REWRITTEN_KEYS ==> Lookup(env, key) == LastAssigned(Statements(text), key))
  {
    var values := ["127.0.0.1", RenderInt(port), layout.data, layout.config, layout.cache, layout.logs, layout.web,
      transcodes, databaseUrl, RustLog(rustLog)];
    RewrittenKeysDistinct();
    ZippedValues(Parsed(text), REWRITTEN_KEYS, values, key);
    PerformLookup(Statements(text), key);
  }

  lemma PortIsClean(port: int)
    ensures CleanValue(RenderInt(port))
  {
    var s := RenderInt(port);
    RenderValue(if port < 0 then -port else port);
    forall i | 0 <= i < |s|
      ensures s[i] == '-' || IsDigit(s[i])
    {
      if port < 0 {
        assert s == "-" + Render(-port);
      }
    }
  }

  lemma RustLogClean(inherited: Option<string>)
    ensures CleanValue(RustLog(inherited)) <==> (inherited.Some? ==> CleanValue(inherited.value))
    ensures CleanValue("127.0.0.1")
  {
    assert CleanValue("jellyrin=warn,tower_http=warn");
  }

  /** The rewritten environment, for any assignments with distinct clean keys. */
  lemma RewrittenRoundTripIff(text: string, assignments: Env)
    requires DistinctKeys(assignments) && forall i :: 0 <= i < |assignments| ==> CleanKey(assignments[i].key)
    ensures var env := PutAll(Parsed(text), assignments);
            Parsed(RenderEnvFile(env)) == env <==> forall i :: 0 <= i < |assignments| ==> CleanValue(assignments[i].value)
  {
    var env := PutAll(Parsed(text), assignments);
    ParsedClean(text);
    PutAllEnumerated(Parsed(text), assignments);
    RoundTripIff(env);
    if forall i :: 0 <= i < |assignments| ==> CleanValue(assignments[i].value) {
      PutAllClean(Parsed(text), assignments);
    }
    if CleanEnv(env) {
      AllInForce(Parsed(text), assignments);
    }
  }

  lemma AllInForce(before: Env, assignments: Env)
    requires DistinctKeys(assignments) && CleanEnv(PutAll(before, assignments))
    ensures forall i :: 0 <= i < |assignments| ==> CleanValue(assignments[i].value)
  {
    forall i | 0 <= i < |assignments|
      ensures CleanValue(assignments[i].value)
    {
      PutAllLookup(before, assignments, i);
      var k := LookupIndex(PutAll(before, assignments), assignments[i].key);
      assert CleanEntry(PutAll(before, assignments)[k]);
    }
  }

  lemma ZippedRoundTripIff(text: string, keys: seq<string>, values: seq<string>)
    requires |keys| == |values| && NoDuplicates(keys) && forall i :: 0 <= i < |keys| ==> CleanKey(keys[i])
    ensures var env := PutAll(Parsed(text), Zip(keys, values));
            Parsed(RenderEnvFile(env)) == env <==> forall i :: 0 <= i < |values| ==> CleanValue(values[i])
  {
    RewrittenRoundTripIff(text, Zip(keys, values));
  }

  /**
   The rewritten environment survives the file exactly when no substituted value holds a line end or
   ends in white space; the host, the port and the default log setting never do.
   */
  lemma RewriteSurvivesIff(text: string, layout: Layout, port: int, transcodes: string, databaseUrl: string, rustLog: Option<string>)
    ensures var env := RewrittenEnv(text, layout, port, transcodes, databaseUrl, rustLog);
            Parsed(RenderEnvFile(env)) == env <==>
            CleanValue(layout.data) && CleanValue(layout.config) && CleanValue(layout.cache) && CleanValue(layout.logs)
            && CleanValue(layout.web) && CleanValue(transcodes) && CleanValue(databaseUrl)
            && (rustLog.Some? ==> CleanValue(rustLog.value))
  {
    var values := ["127.0.0.1", RenderInt(port), layout.data, layout.config, layout.cache, layout.logs, layout.web,
      transcodes, databaseUrl, RustLog(rustLog)];
    RewrittenKeysDistinct();
    RewrittenKeysClean();
    ZippedRoundTripIff(text, REWRITTEN_KEYS, values);
    PortIsClean(port);
    RustLogClean(rustLog);
    TenValues(values);
  }

  lemma TenValues(values: seq<string>)
    requires |values| == 10
    ensures (forall i :: 0 <= i < |values| ==> CleanValue(values[i])) <==>
            CleanValue(values[0]) && CleanValue(values[1]) && CleanValue(values[2]) && CleanValue(values[3])
            && CleanValue(values[4]) && CleanValue(values[5]) && CleanValue(values[6]) && CleanValue(values[7])
            && CleanValue(values[8]) && CleanValue(values[9])
  {}
}
