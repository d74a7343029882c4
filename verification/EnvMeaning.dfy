/** What one line of an environment file assigns, and what the rewritten file says under each name. */
module EnvMeaning {
  import opened Decimal
  import opened EnvFile
  import opened JsObjects
  import opened Options
  import opened Ordering
  import opened Patterns
  import opened Text

  // ----- One line

  ghost predicate Blank(s: string) { forall i :: 0 <= i < |s| ==> !InClass(s[i], NON_SPACE) }

  /** A text that neither starts nor ends with white space, and is not empty. */
  ghost predicate Trimmed(s: string) { s != [] && InClass(s[0], NON_SPACE) && InClass(s[|s| - 1], NON_SPACE) }

  lemma BlankLine(line: string)
    requires Blank(line)
    ensures Statement(line) == None
  {
    BlankReason(line);
  }

  /** White space around a line is dropped; a line that starts with # or has no = assigns nothing. */
  lemma NoAssignment(before: string, core: string, after: string)
    requires Blank(before) && Trimmed(core) && Blank(after) && (core[0] == '#' || '=' !in core)
    ensures Statement(before + core + after) == None
  {
    TrimExact(before, core, after);
    FirstOfLast(core);
  }

  lemma FirstOfLast(core: string)
    ensures '=' !in core ==> FirstOf(core, '=') == |core|
  {}

  lemma AssignmentParts(key: string, value: string)
    requires '=' !in key && (key == [] || key[0] != '#')
    ensures var core := key + "=" + value;
            && core != [] && core[0] != '#' && FirstOf(core, '=') == |key| < |core|
            && core[..|key|] == key && core[|key| + 1..] == value
  {
    var core := key + "=" + value;
    assert core[|key|] == '=' && core[..|key|] == key;
    FirstOfIs(core, '=', |key|);
    assert core[0] == if key == [] then '=' else key[0];
  }

  /** Any other line assigns what follows its first = to what precedes it, unless that is __proto__. */
  lemma Assignment(before: string, key: string, value: string, after: string)
    requires Blank(before) && Trimmed(key + "=" + value) && Blank(after) && '=' !in key && (key == [] || key[0] != '#')
    ensures Statement(before + (key + "=" + value) + after) == if key == "__proto__" then None else Some(Member(key, value))
  {
    var core := key + "=" + value;
    TrimExact(before, core, after);
    AssignmentParts(key, value);
    AssignedBy(before + core + after, core, key, value);
  }

  lemma AssignedBy(line: string, core: string, key: string, value: string)
    requires Trim(line) == core && core != [] && core[0] != '#' && FirstOf(core, '=') == |key| < |core|
    requires core[..|key|] == key && core[|key| + 1..] == value
    ensures Statement(line) == if key == "__proto__" then None else Some(Member(key, value))
  {}

  // ----- The rewritten file

  lemma ByIndex(text: string, layout: Layout, port: int, transcodes: string, databaseUrl: string, rustLog: Option<string>, values: seq<string>)
    requires values == ["127.0.0.1", RenderInt(port), layout.data, layout.config, layout.cache, layout.logs, layout.web, transcodes,
                        databaseUrl, RustLog(rustLog)]
    ensures |REWRITTEN_KEYS| == 10
    ensures forall i :: 0 <= i < 10 ==>
              Lookup(RewrittenEnv(text, layout, port, transcodes, databaseUrl, rustLog), REWRITTEN_KEYS[i]) == Some(values[i])
  {
    RewrittenKeysDistinct();
    ZippedValues(Parsed(text), REWRITTEN_KEYS, values, "");
  }

  lemma Names()
    ensures |REWRITTEN_KEYS| == 10
    ensures REWRITTEN_KEYS[0] == "JELLYRIN_HOST" && REWRITTEN_KEYS[1] == "JELLYRIN_PORT"
    ensures REWRITTEN_KEYS[2] == "JELLYRIN_DATA_DIR" && REWRITTEN_KEYS[3] == "JELLYRIN_CONFIG_DIR"
    ensures REWRITTEN_KEYS[4] == "JELLYRIN_CACHE_DIR" && REWRITTEN_KEYS[5] == "JELLYRIN_LOG_DIR"
    ensures REWRITTEN_KEYS[6] == "JELLYRIN_WEB_DIR" && REWRITTEN_KEYS[7] == "JELLYRIN_TRANSCODE_DIR"
    ensures REWRITTEN_KEYS[8] == "DATABASE_URL" && REWRITTEN_KEYS[9] == "RUST_LOG"
  {}

  /** Whatever the file said, it now has these ten values, the port in decimal. */
  lemma RewrittenByName(text: string, layout: Layout, port: int, transcodes: string, databaseUrl: string, rustLog: Option<string>)
    ensures var env := RewrittenEnv(text, layout, port, transcodes, databaseUrl, rustLog);
            && Lookup(env, "JELLYRIN_HOST") == Some("127.0.0.1") && Lookup(env, "JELLYRIN_PORT") == Some(RenderInt(port))
            && Lookup(env, "JELLYRIN_DATA_DIR") == Some(layout.data) && Lookup(env, "JELLYRIN_CONFIG_DIR") == Some(layout.config)
            && Lookup(env, "JELLYRIN_CACHE_DIR") == Some(layout.cache) && Lookup(env, "JELLYRIN_LOG_DIR") == Some(layout.logs)
            && Lookup(env, "JELLYRIN_WEB_DIR") == Some(layout.web) && Lookup(env, "JELLYRIN_TRANSCODE_DIR") == Some(transcodes)
            && Lookup(env, "DATABASE_URL") == Some(databaseUrl)
  {
    var values := ["127.0.0.1", RenderInt(port), layout.data, layout.config, layout.cache, layout.logs, layout.web, transcodes,
      databaseUrl, RustLog(rustLog)];
    ByIndex(text, layout, port, transcodes, databaseUrl, rustLog, values);
    Names();
  }

  /** RUST_LOG is inherited unless it is unset or empty. */
  lemma RewrittenLog(text: string, layout: Layout, port: int, transcodes: string, databaseUrl: string, rustLog: Option<string>)
    ensures var env := RewrittenEnv(text, layout, port, transcodes, databaseUrl, rustLog);
            Lookup(env, "RUST_LOG") == if rustLog == None || rustLog == Some("") then Some("jellyrin=warn,tower_http=warn") else rustLog
  {
    var values := ["127.0.0.1", RenderInt(port), layout.data, layout.config, layout.cache, layout.logs, layout.web, transcodes,
      databaseUrl, RustLog(rustLog)];
    ByIndex(text, layout, port, transcodes, databaseUrl, rustLog, values);
    Names();
  }

  // ----- The text

  /** Each member is one line name=value, in the order of the object. */
  lemma LinesInOrder(env: Env)
    ensures RenderEnvFile(env) == if env == [] then "\n" else Ended(env)
  {
    if env != [] {
      EndedLines(env);
    }
  }

  /** The lines name=value, each with its line end. */
  function Ended(env: Env): string {
    if env == [] then "" else env[0].key + "=" + env[0].value + "\n" + Ended(env[1..])
  }

  lemma {:induction false} EndedLines(env: Env)
    requires env != []
    ensures Join(Map(LineOf, env), '\n') + ['\n'] == Ended(env)
  {
    var lines := Map(LineOf, env);
    var line := env[0].key + "=" + env[0].value;
    assert lines[0] == line;
    if |env| == 1 {
      assert env[1..] == [];
      assert Ended(env) == line + "\n" + "";
    } else {
      assert lines[1..] == Map(LineOf, env[1..]);
      EndedLines(env[1..]);
      assert Join(lines, '\n') == line + ['\n'] + Join(lines[1..], '\n');
      assert line + ['\n'] + Join(lines[1..], '\n') + ['\n'] == line + ['\n'] + (Join(lines[1..], '\n') + ['\n']);
    }
  }
}
