/** `Settings.__init__` of `config.py`: settings read from the process
    environment, here a map from variable names to values. Loading the
    `.env` files is left to whoever builds that map. */
module Config {
  import opened Outcome
  import opened Text
  import opened Seqs

  type Env = map<string, string>

  /** `os.getenv(key, default)`: a variable that is set, even to the empty
      string, wins over the default. */
  function Getenv(env: Env, key: string, default: string): (v: string)
    ensures key in env ==> v == env[key]
    ensures key !in env ==> v == default
  {
    if key in env then env[key] else default
  }

  const DefaultModel: string := "gemini-1.5-pro-latest"
  const DefaultCors: string := "http://localhost:3000,http://127.0.0.1:3000"
  const TruthyWords: set<string> := {"1", "true", "yes", "y"}

  /** An element of a comma list as the settings keep it: non-empty, no
      surrounding whitespace (so `strip` leaves it alone), no comma. */
  predicate CleanItem(item: string) {
    item != [] && !IsPySpace(item[0]) && !IsPySpace(item[|item| - 1]) && ',' !in item
  }

  predicate AllClean(items: seq<string>) {
    forall i | 0 <= i < |items| :: CleanItem(items[i])
  }

  /** The stripped, non-empty pieces, in order. */
  function StripNonEmpty(parts: seq<string>): (r: seq<string>)
    ensures |r| <= |parts|
  {
    if |parts| == 0 then []
    else if PyStrip(parts[0]) != [] then [PyStrip(parts[0])] + StripNonEmpty(parts[1..])
    else StripNonEmpty(parts[1..])
  }

  /** A piece of `s` that avoids `c` keeps avoiding it. */
  lemma SubstringAvoids(r: string, s: string, c: char)
    requires IsSubstring(r, s) && c !in s
    ensures c !in r
  {
    var i :| 0 <= i <= |s| - |r| && MatchesAt(s, r, i);
    forall k | 0 <= k < |r|
      ensures r[k] != c
    {
      assert r[k] == s[i + k];
    }
  }

  lemma AllCleanCons(x: string, rest: seq<string>)
    requires CleanItem(x) && AllClean(rest)
    ensures AllClean([x] + rest)
  {
    forall i | 0 <= i < |rest| + 1
      ensures CleanItem(([x] + rest)[i])
    {
      if i > 0 {
        assert ([x] + rest)[i] == rest[i - 1];
      }
    }
  }

  lemma {:induction false} StripNonEmptyClean(parts: seq<string>)
    requires forall k | 0 <= k < |parts| :: ',' !in parts[k]
    ensures AllClean(StripNonEmpty(parts))
  {
    if |parts| > 0 {
      StripNonEmptyClean(parts[1..]);
      if PyStrip(parts[0]) != [] {
        StrippedClean(parts[0]);
        AllCleanCons(PyStrip(parts[0]), StripNonEmpty(parts[1..]));
      }
    }
  }

  /** A comma-free piece that is not blank strips to a clean item. */
  lemma StrippedClean(part: string)
    requires ',' !in part && PyStrip(part) != []
    ensures CleanItem(PyStrip(part))
  {
    SubstringAvoids(PyStrip(part), part, ',');
  }

  /** `[o.strip() for o in s.split(",") if o.strip()]`. */
  function CommaList(s: string): (items: seq<string>)
    ensures AllClean(items)
  {
    StripNonEmptyClean(Split(s, ','));
    StripNonEmpty(Split(s, ','))
  }

  lemma AllCleanTail(items: seq<string>)
    requires |items| > 0 && AllClean(items)
    ensures CleanItem(items[0]) && AllClean(items[1..])
  {
    forall i | 0 <= i < |items| - 1
      ensures CleanItem(items[1..][i])
    {
      assert items[1..][i] == items[i + 1];
    }
  }

  lemma {:induction false} StripNonEmptyOfClean(items: seq<string>)
    requires AllClean(items)
    ensures StripNonEmpty(items) == items
  {
    if |items| > 0 {
      AllCleanTail(items);
      StripOfClean(items[0], IsPySpace);
      StripNonEmptyOfClean(items[1..]);
      assert StripNonEmpty(items) == [items[0]] + items[1..];
    }
  }

  /** Writing clean items joined by commas and parsing them back gives the
      same list. */
  lemma CommaListRoundTrip(items: seq<string>)
    requires AllClean(items)
    ensures CommaList(Join(items, ",")) == items
  {
    if |items| == 0 {
      assert Split("", ',') == [""];
      assert PyStrip("") == [];
    } else {
      SplitJoin(items, ',');
      StripNonEmptyOfClean(items);
    }
  }

  /** Parsing a list that came out of the parser changes nothing. */
  lemma CommaListIdempotent(s: string)
    ensures CommaList(Join(CommaList(s), ",")) == CommaList(s)
  {
    CommaListRoundTrip(CommaList(s));
  }

  /** `value.lower() in {"1", "true", "yes", "y"}`. */
  predicate Flag(value: string) {
    Lower(value) in TruthyWords
  }

  /** The flag ignores letter case. */
  lemma FlagIgnoresCase(value: string)
    ensures Flag(value) <==> Flag(Lower(value))
  {
    LowerIdempotent(value);
  }

  /** Python `int(os.getenv(key, default))`; a malformed value raises,
      reported here with the variable's name. */
  function IntSetting(env: Env, key: string, default: string): (r: Result<int>)
    ensures r.Ok? <==> ParsePyInt(Getenv(env, key, default)).Some?
    ensures r.Ok? ==> Some(r.value) == ParsePyInt(Getenv(env, key, default))
    ensures r.Err? ==> r.error == key
  {
    match ParsePyInt(Getenv(env, key, default))
    case None => Err(key)
    case Some(n) => Ok(n)
  }

  datatype Settings = Settings(
    apiKey: string,
    model: string,
    textModel: string,
    streamModel: string,
    visionModel: string,
    fileModel: string,
    corsOrigins: seq<string>,
    memoryMaxMessages: int,
    streamingEnabled: bool,
    blockWords: seq<string>,
    summariesLimit: int,
    archiveAfterDays: int)

  /** The settings object, or the name of the first integer variable that
      does not parse, in the order the constructor reads them. */
  function Load(env: Env): (r: Result<Settings>)
    ensures r.Ok? <==>
      && IntSetting(env, "MEMORY_MAX_MESSAGES", "30").Ok?
      && IntSetting(env, "GLOBAL_SUMMARIES_LIMIT", "5").Ok?
      && IntSetting(env, "ARCHIVE_AFTER_DAYS", "30").Ok?
    ensures IntSetting(env, "MEMORY_MAX_MESSAGES", "30").Err? ==> r == Err("MEMORY_MAX_MESSAGES")
    ensures r.Ok? ==> r.value == Assemble(env, r.value.memoryMaxMessages, r.value.summariesLimit, r.value.archiveAfterDays)
    ensures r.Ok? ==> Some(r.value.memoryMaxMessages) == ParsePyInt(Getenv(env, "MEMORY_MAX_MESSAGES", "30"))
  {
    var memory :- IntSetting(env, "MEMORY_MAX_MESSAGES", "30");
    var summaries :- IntSetting(env, "GLOBAL_SUMMARIES_LIMIT", "5");
    var archive :- IntSetting(env, "ARCHIVE_AFTER_DAYS", "30");
    Ok(Assemble(env, memory, summaries, archive))
  }

  /** The settings once the three integers have parsed: the string
      settings straight from the environment or their defaults, each
      per-task model falling back along its chain, the two comma lists
      cleaned and the streaming flag read. */
  function Assemble(env: Env, memory: int, summaries: int, archive: int): (s: Settings)
    ensures s.memoryMaxMessages == memory && s.summariesLimit == summaries && s.archiveAfterDays == archive
    ensures AllClean(s.corsOrigins) && AllClean(s.blockWords)
    ensures s.streamingEnabled == Flag(Getenv(env, "STREAMING_ENABLED", "true"))
    ensures s.model == Getenv(env, "GEMINI_MODEL", DefaultModel)
    // each per-task override falls back along the chain
    ensures "GEMINI_TEXT_MODEL" !in env ==> s.textModel == s.model
    ensures "GEMINI_STREAM_MODEL" !in env ==> s.streamModel == s.textModel
    ensures "GEMINI_VISION_MODEL" !in env ==> s.visionModel == s.model
    ensures "GEMINI_FILE_MODEL" !in env ==> s.fileModel == s.visionModel
    ensures "GEMINI_TEXT_MODEL" in env ==> s.textModel == env["GEMINI_TEXT_MODEL"]
    ensures "GEMINI_STREAM_MODEL" in env ==> s.streamModel == env["GEMINI_STREAM_MODEL"]
    ensures "GEMINI_VISION_MODEL" in env ==> s.visionModel == env["GEMINI_VISION_MODEL"]
    ensures "GEMINI_FILE_MODEL" in env ==> s.fileModel == env["GEMINI_FILE_MODEL"]
  {
    var model := Getenv(env, "GEMINI_MODEL", DefaultModel);
    var text := Getenv(env, "GEMINI_TEXT_MODEL", model);
    var vision := Getenv(env, "GEMINI_VISION_MODEL", model);
    Settings(
      Getenv(env, "GEMINI_API_KEY", ""),
      model,
      text,
      Getenv(env, "GEMINI_STREAM_MODEL", text),
      vision,
      Getenv(env, "GEMINI_FILE_MODEL", vision),
      CommaList(Getenv(env, "CORS_ORIGINS", DefaultCors)),
      memory,
      Flag(Getenv(env, "STREAMING_ENABLED", "true")),
      CommaList(Getenv(env, "SAFETY_BLOCK_WORDS", "")),
      summaries,
      archive)
  }

  /** With no per-task override every task uses the main model. */
  lemma OneModelForAll(env: Env)
    requires "GEMINI_TEXT_MODEL" !in env && "GEMINI_STREAM_MODEL" !in env
    requires "GEMINI_VISION_MODEL" !in env && "GEMINI_FILE_MODEL" !in env
    ensures Load(env).Ok? ==>
      var s := Load(env).value;
      s.textModel == s.model && s.streamModel == s.model
      && s.visionModel == s.model && s.fileModel == s.model
  {
  }

  /** The default origin list parses to the two local origins. */
  lemma DefaultCorsOrigins()
    ensures CommaList(DefaultCors) == ["http://localhost:3000", "http://127.0.0.1:3000"]
  {
    var a, b := "http://localhost:3000", "http://127.0.0.1:3000";
    LocalOriginsClean(a, b);
    JoinTwo(a, b);
    CommaListRoundTrip([a, b]);
  }

  lemma LocalOriginsClean(a: string, b: string)
    requires a == "http://localhost:3000" && b == "http://127.0.0.1:3000"
    ensures AllClean([a, b])
  {
    assert CleanItem(a) by {
      assert a[0] == 'h' && a[|a| - 1] == '0';
    }
    assert CleanItem(b) by {
      assert b[0] == 'h' && b[|b| - 1] == '0';
    }
    AllCleanCons(b, []);
    AllCleanCons(a, [b]);
    assert [a] + [b] == [a, b];
  }

  lemma JoinTwo(a: string, b: string)
    requires a == "http://localhost:3000" && b == "http://127.0.0.1:3000"
    ensures Join([a, b], ",") == DefaultCors
  {
    assert Join([a, b], ",") == a + "," + Join([b], ",") by {
      assert [a, b][1..] == [b];
    }
    assert a + "," + b == DefaultCors;
  }

  /** The integer defaults parse. */
  lemma DefaultInts()
    ensures IntSetting(map[], "MEMORY_MAX_MESSAGES", "30") == Ok(30)
    ensures IntSetting(map[], "GLOBAL_SUMMARIES_LIMIT", "5") == Ok(5)
    ensures IntSetting(map[], "ARCHIVE_AFTER_DAYS", "30") == Ok(30)
  {
    Thirty();
    assert NatToString(5) == "5";
    IntDefault("MEMORY_MAX_MESSAGES", "30", 30);
    IntDefault("GLOBAL_SUMMARIES_LIMIT", "5", 5);
    IntDefault("ARCHIVE_AFTER_DAYS", "30", 30);
  }

  lemma Thirty()
    ensures NatToString(30) == "30"
  {
    assert NatToString(3) == "3";
  }

  /** A variable that is not set reads as its default. */
  lemma IntDefault(key: string, default: string, n: nat)
    requires default == NatToString(n)
    ensures IntSetting(map[], key, default) == Ok(n)
  {
    ParseNatToString(n);
  }

  lemma DefaultFlag()
    ensures Flag("true")
  {
    var t := "true";
    assert Lower(t) == t by {
      forall i | 0 <= i < |t|
        ensures Lower(t)[i] == t[i]
      {
        assert 'a' <= t[i] <= 'z';
      }
    }
  }

  lemma EmptyList()
    ensures CommaList("") == []
  {
    assert Join([], ",") == "";
    CommaListRoundTrip([]);
  }

  /** An empty environment gives the documented defaults. */
  lemma Defaults()
    ensures Load(map[]).Ok?
    ensures var s := Load(map[]).value;
      && s.model == DefaultModel && s.fileModel == DefaultModel
      && s.corsOrigins == ["http://localhost:3000", "http://127.0.0.1:3000"]
      && s.memoryMaxMessages == 30 && s.summariesLimit == 5 && s.archiveAfterDays == 30
      && s.streamingEnabled && s.blockWords == [] && s.apiKey == ""
  {
    var env: Env := map[];
    DefaultInts();
    DefaultCorsOrigins();
    DefaultFlag();
    EmptyList();
    assert Getenv(env, "CORS_ORIGINS", DefaultCors) == DefaultCors;
    assert Getenv(env, "SAFETY_BLOCK_WORDS", "") == "";
    assert Getenv(env, "STREAMING_ENABLED", "true") == "true";
  }
}
