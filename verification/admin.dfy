/** The pure parts of the admin API in `admin_routes.py`: secret masking, the
    settings document (config merge, encrypted secrets with their last four
    characters, masked hints), the website crawl's validation and chunk loop,
    the knowledge-base counters and the document rows. The database, the
    HTTP client, the HTML parser, SHA-256 and Fernet are parameters. */
module Admin {
  import opened Outcome
  import opened Text
  import Rag

  // ---------------------------------------------------------------------------
  // Masking
  // ---------------------------------------------------------------------------

  /** `_mask`: nothing for an absent or empty secret, all stars up to six
      characters, otherwise stars followed by the last four characters. */
  function Mask(s: Option<string>): (r: string)
    ensures !Truthy(s) ==> r == ""
    ensures Truthy(s) ==> |r| == |s.value|
    ensures Truthy(s) && |s.value| <= 6 ==> forall i | 0 <= i < |r| :: r[i] == '*'
    ensures Truthy(s) && |s.value| > 6 ==>
              && (forall i | 0 <= i < |r| - 4 :: r[i] == '*')
              && r[|r| - 4..] == s.value[|s.value| - 4..]
  {
    if !Truthy(s) then ""
    else if |s.value| <= 6 then Stars(|s.value|)
    else Stars(|s.value| - 4) + s.value[|s.value| - 4..]
  }

  function Stars(n: nat): (r: string)
    ensures |r| == n && forall i | 0 <= i < n :: r[i] == '*'
  {
    seq(n, _ => '*')
  }

  /** The mask reveals nothing but the length and the last four characters:
      secrets that agree on those have the same mask. */
  lemma MaskHidesPrefix(a: string, b: string)
    requires |a| == |b|
    requires |a| >= 4 ==> a[|a| - 4..] == b[|b| - 4..]
    ensures Mask(Some(a)) == Mask(Some(b))
  {
    if |a| > 6 {
      assert Mask(Some(a)) == Stars(|a| - 4) + a[|a| - 4..];
      assert Mask(Some(b)) == Stars(|b| - 4) + b[|b| - 4..];
    }
  }

  // ---------------------------------------------------------------------------
  // Settings
  // ---------------------------------------------------------------------------

  /** The values a settings form can hold. */
  datatype ConfigValue = CText(s: string) | CInt(i: int) | CReal(r: real) | CBool(b: bool)

  /** `put_settings`, config part: every provided key overwrites, except the
      ones sent as `null` (`None`), which are ignored. */
  function MergeConfig<V>(cfg: map<string, V>, update: map<string, Option<V>>): (r: map<string, V>)
    ensures forall k :: k in r <==> k in cfg || (k in update && update[k].Some?)
    ensures forall k | k in update && update[k].Some? :: r[k] == update[k].value
    ensures forall k | k in cfg && !(k in update && update[k].Some?) :: r[k] == cfg[k]
  {
    map k | k in cfg.Keys + update.Keys && (k in cfg || update[k].Some?) ::
      if k in update && update[k].Some? then update[k].value else cfg[k]
  }

  /** Sending the same config twice changes nothing the second time. */
  lemma MergeConfigIdempotent<V>(cfg: map<string, V>, update: map<string, Option<V>>)
    ensures MergeConfig(MergeConfig(cfg, update), update) == MergeConfig(cfg, update)
  {
  }

  /** An update that holds only `null` values leaves the config as it was. */
  lemma MergeConfigNulls<V>(cfg: map<string, V>, update: map<string, Option<V>>)
    requires forall k | k in update :: update[k].None?
    ensures MergeConfig(cfg, update) == cfg
  {
  }

  /** The config fields `get_settings` reports, with the value shown when
      none is stored. */
  function ConfigDefaults(geminiModel: string, memoryMaxMessages: int): map<string, ConfigValue> {
    map[
      "model" := CText(geminiModel),
      "temperature" := CReal(0.7),
      "max_tokens" := CInt(2048),
      "tone" := CText("Professional + Friendly"),
      "greeting" := CText("Hi, I'm Taliyo AI. How can I help you today?"),
      "system_prompt" := CText(""),
      "context_limit" := CInt(memoryMaxMessages),
      "backup_enabled" := CBool(false),
      "backup_interval_hours" := CInt(24),
      "rate_limit_per_minute" := CInt(0),
      "encryption_at_rest" := CBool(false)]
  }

  /** `get_settings`, config part: exactly the known fields, each the stored
      value when there is one and the default otherwise. */
  function ConfigView(cfg: map<string, ConfigValue>, defaults: map<string, ConfigValue>): (view: map<string, ConfigValue>)
    ensures view.Keys == defaults.Keys
    ensures forall k | k in view :: view[k] == if k in cfg then cfg[k] else defaults[k]
  {
    map k | k in defaults :: if k in cfg then cfg[k] else defaults[k]
  }

  /** A known field that is saved reads back as saved; one sent as `null`
      reads back as before. */
  lemma PutThenGetConfig(cfg: map<string, ConfigValue>, update: map<string, Option<ConfigValue>>,
                         defaults: map<string, ConfigValue>, k: string)
    requires k in defaults && k in update
    ensures update[k].Some? ==> ConfigView(MergeConfig(cfg, update), defaults)[k] == update[k].value
    ensures update[k].None? ==> ConfigView(MergeConfig(cfg, update), defaults)[k] == ConfigView(cfg, defaults)[k]
  {
  }

  const SecretKeys: seq<string> := ["gemini_api_key", "pinecone_api_key", "google_search_api_key", "firebase_key"]

  /** The last four characters of a secret, or all of it when shorter. */
  function Last4(v: string): (r: string)
    ensures |r| == if |v| >= 4 then 4 else |v|
    ensures EndsWith(v, r)
  {
    if |v| >= 4 then v[|v| - 4..] else v
  }

  /** Whether an incoming secret replaces the stored one: provided and not
      blank. */
  predicate ReplacesSecret(update: map<string, Option<string>>, key: string) {
    key in update && PyStrip(update[key].GetOr("")) != ""
  }

  /** Where the secrets document keeps a secret: the Fernet token under the
      key itself, the last four characters under `<key>_last4`. */
  datatype SecretSlot = Token(name: string) | LastFour(name: string)

  /** What a replaced secret writes into one of its slots. */
  function SlotValue(slot: SecretSlot, v: string, enc: string -> string): string {
    match slot
    case Token(_) => enc(v)
    case LastFour(_) => Last4(v)
  }

  /** One key of `put_settings`: both slots written when a non-blank value
      is sent, nothing otherwise. */
  function MergeSecret(sec: map<SecretSlot, string>, update: map<string, Option<string>>, key: string,
                       enc: string -> string): (r: map<SecretSlot, string>)
    ensures sec.Keys <= r.Keys
  {
    if ReplacesSecret(update, key)
    then sec[Token(key) := enc(update[key].value)][LastFour(key) := Last4(update[key].value)]
    else sec
  }

  /** `put_settings`, secrets part: the listed keys, in order, each replaced
      only when a non-blank value is sent. */
  function MergeSecrets(sec: map<SecretSlot, string>, update: map<string, Option<string>>, keys: seq<string>,
                        enc: string -> string): (r: map<SecretSlot, string>)
    ensures sec.Keys <= r.Keys
    decreases |keys|
  {
    if |keys| == 0 then sec
    else MergeSecrets(MergeSecret(sec, update, keys[0], enc), update, keys[1..], enc)
  }

  /** One key, slot by slot: the slots of `key` hold the new value when it
      was sent, every other slot is untouched. */
  lemma MergeSecretAt(sec: map<SecretSlot, string>, update: map<string, Option<string>>, key: string,
                      enc: string -> string, slot: SecretSlot)
    ensures var r := MergeSecret(sec, update, key, enc);
            var sent := slot.name == key && ReplacesSecret(update, key);
            && (slot in r <==> slot in sec || sent)
            && (slot in r ==> r[slot] == if sent then SlotValue(slot, update[key].value, enc) else sec[slot])
  {
  }

  /** Slot by slot: a slot of a listed key that was sent holds the new value,
      every other slot keeps what it had (and stays absent when absent). */
  lemma {:induction false} MergeSecretsAt(sec: map<SecretSlot, string>, update: map<string, Option<string>>,
                                          keys: seq<string>, enc: string -> string, slot: SecretSlot)
    ensures var r := MergeSecrets(sec, update, keys, enc);
            var sent := slot.name in keys && ReplacesSecret(update, slot.name);
            && (slot in r <==> slot in sec || sent)
            && (slot in r ==> r[slot] == if sent then SlotValue(slot, update[slot.name].value, enc) else sec[slot])
    decreases |keys|
  {
    if |keys| > 0 {
      var key := keys[0];
      var sec' := MergeSecret(sec, update, key, enc);
      MergeSecretAt(sec, update, key, enc, slot);
      MergeSecretsAt(sec', update, keys[1..], enc, slot);
      assert slot.name in keys <==> slot.name == key || slot.name in keys[1..] by {
        assert keys == [key] + keys[1..];
      }
    }
  }

  /** `get_settings`, secrets part: `****` and the stored last four
      characters when a secret is stored, nothing otherwise. */
  function SecretHint(sec: map<SecretSlot, string>, key: string): (hint: string)
    ensures (Token(key) in sec && sec[Token(key)] != "") <==> hint != ""
    ensures hint != "" ==> StartsWith(hint, "****")
  {
    if Token(key) in sec && sec[Token(key)] != "" then
      "****" + (if LastFour(key) in sec then sec[LastFour(key)] else "")
    else ""
  }

  /** After a secret is sent, its hint shows exactly its last four
      characters, whatever the other keys received. A Fernet token is never
      empty. */
  lemma PutThenHint(sec: map<SecretSlot, string>, update: map<string, Option<string>>, key: string,
                    enc: string -> string)
    requires key in SecretKeys && ReplacesSecret(update, key)
    requires forall v :: enc(v) != ""
    ensures SecretHint(MergeSecrets(sec, update, SecretKeys, enc), key) == "****" + Last4(update[key].value)
    ensures |SecretHint(MergeSecrets(sec, update, SecretKeys, enc), key)| <= 8
  {
    MergeSecretsAt(sec, update, SecretKeys, enc, Token(key));
    MergeSecretsAt(sec, update, SecretKeys, enc, LastFour(key));
  }

  /** A secret that was not sent, or was sent blank, keeps its hint. */
  lemma UnsentSecretKeepsHint(sec: map<SecretSlot, string>, update: map<string, Option<string>>, key: string,
                              enc: string -> string)
    requires !ReplacesSecret(update, key)
    ensures SecretHint(MergeSecrets(sec, update, SecretKeys, enc), key) == SecretHint(sec, key)
  {
    MergeSecretsAt(sec, update, SecretKeys, enc, Token(key));
    MergeSecretsAt(sec, update, SecretKeys, enc, LastFour(key));
  }

  // ---------------------------------------------------------------------------
  // Crawl
  // ---------------------------------------------------------------------------

  const MaxCrawlUrls: nat := 20
  const CrawlChunk: int := 1000
  const CrawlOverlap: int := 200

  predicate IsAsciiLetter(c: char) {
    'a' <= c <= 'z' || 'A' <= c <= 'Z'
  }

  /** Characters `urllib.parse` accepts in a scheme. */
  predicate IsSchemeChar(c: char) {
    IsAsciiLetter(c) || IsDigit(c) || c == '+' || c == '-' || c == '.'
  }

  /** Leading C0 controls and spaces that `urlsplit` removes first. */
  predicate IsC0OrSpace(c: char) {
    c as int <= 0x20
  }

  function RemoveChars(s: string, bad: string): (r: string)
    ensures forall i | 0 <= i < |r| :: r[i] !in bad
    ensures |r| <= |s|
  {
    if |s| == 0 then []
    else (if s[0] in bad then [] else [s[0]]) + RemoveChars(s[1..], bad)
  }

  /** The scheme `urlparse` reports, lower-cased: the text before the first
      colon when it starts with a letter and holds only scheme characters,
      and "" otherwise. Leading controls and spaces are dropped and tabs and
      line breaks removed before looking. */
  function UrlScheme(url: string): (scheme: string)
    ensures forall i | 0 <= i < |scheme| :: IsSchemeChar(scheme[i]) && !('A' <= scheme[i] <= 'Z')
  {
    var u := RemoveChars(TrimStart(url, IsC0OrSpace), "\t\r\n");
    if ':' in u then
      var i := IndexOf(u, ':');
      if i > 0 && IsAsciiLetter(u[0]) && AllSatisfy(u[..i], IsSchemeChar) then
        var s := Lower(u[..i]);
        assert forall k | 0 <= k < |s| :: s[k] == LowerChar(u[k]);
        s
      else ""
    else ""
  }

  predicate AllowedScheme(url: string) {
    UrlScheme(url) == "http" || UrlScheme(url) == "https"
  }

  /** Every `http://` and `https://` address passes the scheme check, in any
      letter case. */
  lemma HttpUrlsAllowed(rest: string, scheme: string)
    requires Lower(scheme) == "http" || Lower(scheme) == "https"
    ensures AllowedScheme(scheme + "://" + rest)
  {
    var url := scheme + "://" + rest;
    var n := |scheme|;
    HttpSchemeChars(scheme);
    assert url[..n] == scheme;
    assert TrimStart(url, IsC0OrSpace) == url by {
      assert !IsC0OrSpace(url[0]);
    }
    RemoveCharsKeeps(url, "\t\r\n", n + 1);
    var u := RemoveChars(url, "\t\r\n");
    assert u[..n + 1] == url[..n + 1];
    assert u[n] == ':' && u[..n] == scheme;
    IndexOfAt(u, ':', n);
    assert UrlScheme(url) == Lower(scheme);
  }

  /** The letters of a scheme that lower-cases to `http` or `https`: ASCII
      letters, so neither blank, a control, a colon nor a removed character. */
  lemma HttpSchemeChars(scheme: string)
    requires Lower(scheme) == "http" || Lower(scheme) == "https"
    ensures |scheme| >= 4 && AllSatisfy(scheme, IsSchemeChar) && IsAsciiLetter(scheme[0])
    ensures forall k | 0 <= k < |scheme| :: scheme[k] !in ":\t\r\n" && !IsC0OrSpace(scheme[k])
  {
    forall k | 0 <= k < |scheme|
      ensures IsAsciiLetter(scheme[k])
    {
      assert Lower(scheme)[k] == LowerChar(scheme[k]);
      assert 'a' <= Lower(scheme)[k] <= 'z';
    }
  }

  /** An address without a colon has no scheme and is refused. */
  lemma NoColonRefused(url: string)
    requires ':' !in url
    ensures !AllowedScheme(url)
  {
    var t := TrimStart(url, IsC0OrSpace);
    RemoveCharsSubset(t, "\t\r\n");
    assert forall c | c in t :: c in url;
  }

  lemma {:induction false} RemoveCharsSubset(s: string, bad: string)
    ensures forall c | c in RemoveChars(s, bad) :: c in s
  {
    if |s| > 0 {
      RemoveCharsSubset(s[1..], bad);
    }
  }

  /** Removing characters from a prefix that holds none of them keeps it. */
  lemma {:induction false} RemoveCharsKeeps(s: string, bad: string, n: nat)
    requires n <= |s| && forall i | 0 <= i < n :: s[i] !in bad
    ensures |RemoveChars(s, bad)| >= n && RemoveChars(s, bad)[..n] == s[..n]
  {
    if n > 0 {
      RemoveCharsKeeps(s[1..], bad, n - 1);
      assert RemoveChars(s, bad) == [s[0]] + RemoveChars(s[1..], bad);
    }
  }

  lemma IndexOfAt(s: string, c: char, i: nat)
    requires i < |s| && s[i] == c && c !in s[..i]
    ensures IndexOf(s, c) == i
  {
    var j := IndexOf(s, c);
    assert forall k | 0 <= k < i :: s[..i][k] == s[k];
    assert forall k | 0 <= k < j :: s[..j][k] == s[k];
  }

  /** The page a fetch produced, or the error it raised (network, HTTP
      status, or a blocked private address). */
  datatype FetchOutcome = Fetched(pageTitle: Option<string>, pageText: string) | FetchFailed(error: string)

  datatype CrawlResult =
    | CrawlError(url: string, error: string)
    | Crawled(url: string, title: string, chunks: nat, docId: string)
  {
    function Chunks(): nat {
      if CrawlError? then 0 else chunks
    }
  }

  /** How many of the first `k` upserts succeeded. */
  function CountOk(url: string, k: nat, ok: (string, nat) -> bool): (r: nat)
    ensures r <= k
  {
    if k == 0 then 0 else CountOk(url, k - 1, ok) + (if ok(url, k - 1) then 1 else 0)
  }

  /** The number of windows the crawl loop upserts for a page text. */
  function CrawlAttempts(text: string): nat {
    |Rag.Windows(|text|, CrawlChunk, CrawlOverlap)|
  }

  /** The crawl's window loop, as written: one upsert per window, a failed
      upsert skipped and not counted. */
  method CrawlChunkLoop(url: string, text: string, ok: (string, nat) -> bool) returns (chunks: nat)
    ensures chunks == CountOk(url, CrawlAttempts(text), ok)
    ensures chunks <= CrawlAttempts(text)
  {
    var n := |text|;
    var start: nat := 0;
    var k: nat := 0;
    chunks := 0;
    ghost var all := Rag.Windows(n, CrawlChunk, CrawlOverlap);
    while start < n
      invariant k <= |all|
      invariant all[k..] == Rag.WindowsFrom(n, CrawlChunk, CrawlOverlap, start)
      invariant chunks == CountOk(url, k, ok)
      decreases n - start
    {
      var end := Rag.Min(n, start + CrawlChunk);
      ghost var rest := Rag.WindowsFrom(n, CrawlChunk, CrawlOverlap, start);
      assert |rest| > 0;
      if ok(url, k) {
        chunks := chunks + 1;
      }
      k := k + 1;
      if end >= n {
        assert |rest| == 1;
        return;
      }
      var next: nat := Rag.Max(end - CrawlOverlap, 0);
      assert all[k..] == rest[1..] == Rag.WindowsFrom(n, CrawlChunk, CrawlOverlap, next);
      start := next;
    }
  }

  /** The crawl text is stripped just as `_chunk_text` strips, so a page gets
      exactly as many upsert attempts as `_chunk_text` would give chunks. */
  lemma CrawlMatchesChunkText(pageText: string)
    ensures CrawlAttempts(PyStrip(pageText)) == |Rag.ChunkText(pageText, CrawlChunk, CrawlOverlap)|
  {
  }

  /** One URL of `crawl_website`: the scheme check, then the fetch, then the
      chunk loop over the stripped page text. */
  function CrawlOne(url: string, fetch: FetchOutcome, ok: (string, nat) -> bool, sha256: string -> string): (r: CrawlResult)
    ensures r.url == url
    ensures !AllowedScheme(url) ==> r == CrawlError(url, "Invalid scheme")
    ensures AllowedScheme(url) && fetch.FetchFailed? ==> r == CrawlError(url, fetch.error)
    ensures r.Crawled? <==> AllowedScheme(url) && fetch.Fetched?
    ensures r.Crawled? ==> r.docId == sha256(url) && r.chunks <= CrawlAttempts(PyStrip(fetch.pageText))
  {
    if !AllowedScheme(url) then CrawlError(url, "Invalid scheme")
    else match fetch
      case FetchFailed(e) => CrawlError(url, e)
      case Fetched(pageTitle, pageText) =>
        var title := if pageTitle.Some? && pageTitle.value != "" then PyStrip(pageTitle.value) else url;
        var text := PyStrip(pageText);
        Crawled(url, title, CountOk(url, CrawlAttempts(text), ok), sha256(url))
  }

  function CrawlAll(urls: seq<string>, fetch: string -> FetchOutcome, ok: (string, nat) -> bool,
                    sha256: string -> string): (rs: seq<CrawlResult>)
    ensures |rs| == |urls|
    ensures forall i | 0 <= i < |urls| :: rs[i] == CrawlOne(urls[i], fetch(urls[i]), ok, sha256)
  {
    if |urls| == 0 then []
    else [CrawlOne(urls[0], fetch(urls[0]), ok, sha256)] + CrawlAll(urls[1..], fetch, ok, sha256)
  }

  /** `crawl_website`: no URLs or more than twenty are refused with a 400;
      otherwise one result per URL, in order. */
  function Crawl(urls: seq<string>, fetch: string -> FetchOutcome, ok: (string, nat) -> bool,
                 sha256: string -> string): (r: Result<seq<CrawlResult>>)
    ensures r.Err? <==> |urls| == 0 || |urls| > MaxCrawlUrls
    ensures |urls| == 0 ==> r == Err("Provide at least one URL")
    ensures |urls| > MaxCrawlUrls ==> r == Err("Too many URLs (max 20)")
    ensures r.Ok? ==> |r.value| == |urls| && forall i | 0 <= i < |urls| :: r.value[i].url == urls[i]
  {
    if |urls| == 0 then Err("Provide at least one URL")
    else if |urls| > MaxCrawlUrls then Err("Too many URLs (max 20)")
    else Ok(CrawlAll(urls, fetch, ok, sha256))
  }

  // ---------------------------------------------------------------------------
  // Knowledge-base statistics and document rows
  // ---------------------------------------------------------------------------

  const SecondsPerDay: int := 86400

  /** How many of the first-ingestion times are at or after `since`; a
      missing time is skipped. */
  function CountSince(firsts: seq<Option<int>>, since: int): (r: nat)
    ensures r <= |firsts|
  {
    if |firsts| == 0 then 0
    else CountSince(firsts[..|firsts| - 1], since)
         + (if firsts[|firsts| - 1].Some? && firsts[|firsts| - 1].value >= since then 1 else 0)
  }

  /** A later threshold never counts more documents. */
  lemma {:induction false} CountSinceMonotone(firsts: seq<Option<int>>, a: int, b: int)
    requires a <= b
    ensures CountSince(firsts, b) <= CountSince(firsts, a)
  {
    if |firsts| > 0 {
      CountSinceMonotone(firsts[..|firsts| - 1], a, b);
    }
  }

  datatype KbStats = KbStats(totalDocs: nat, docsToday: nat, docsWeek: nat)

  /** `kb_stats` over the per-document first-ingestion times (`None` when the
      aggregation failed): `today` is midnight UTC, and the week starts seven
      days earlier. */
  method ComputeKbStats(firsts: Option<seq<Option<int>>>, today: int) returns (st: KbStats)
    ensures firsts.None? ==> st == KbStats(0, 0, 0)
    ensures firsts.Some? ==> st.totalDocs == |firsts.value|
                             && st.docsToday == CountSince(firsts.value, today)
                             && st.docsWeek == CountSince(firsts.value, today - 7 * SecondsPerDay)
    ensures st.docsToday <= st.docsWeek <= st.totalDocs
  {
    if firsts.None? {
      return KbStats(0, 0, 0);
    }
    var fs := firsts.value;
    var week := today - 7 * SecondsPerDay;
    var dToday: nat := 0;
    var dWeek: nat := 0;
    var i := 0;
    while i < |fs|
      invariant 0 <= i <= |fs|
      invariant dToday == CountSince(fs[..i], today)
      invariant dWeek == CountSince(fs[..i], week)
    {
      assert fs[..i + 1][..i] == fs[..i];
      if fs[i].Some? {
        if fs[i].value >= today {
          dToday := dToday + 1;
        }
        if fs[i].value >= week {
          dWeek := dWeek + 1;
        }
      }
      i := i + 1;
    }
    assert fs[..i] == fs;
    CountSinceMonotone(fs, week, today);
    st := KbStats(|fs|, dToday, dWeek);
  }

  /** One group of the `list_documents` aggregation; absent fields are
      `None`. */
  datatype DocGroup = DocGroup(
    id: string,
    filename: Option<string>,
    source: Option<string>,
    firstIngested: Option<int>,
    lastIngested: Option<int>,
    chunks: Option<int>,
    chars: Option<int>)

  datatype DocRow = DocRow(
    docId: string,
    name: string,
    kind: string,
    dateAdded: Option<int>,
    updatedAt: Option<int>,
    chunks: int,
    wordCount: int,
    status: string)

  /** Python `int(x / 4)`: true division, then truncation toward zero. */
  function QuarterTruncated(x: int): (q: int)
    ensures x >= 0 ==> 4 * q <= x < 4 * q + 4
    ensures x < 0 ==> 4 * q >= x > 4 * q - 4
  {
    if x >= 0 then x / 4 else -((-x) / 4)
  }

  /** A row of `list_documents`: the name falls back to the document id, the
      type to "unknown", and the word count is a quarter of the characters. */
  function DocumentRow(g: DocGroup): (row: DocRow)
    ensures row.docId == g.id
    ensures Truthy(g.filename) ==> row.name == g.filename.value
    ensures !Truthy(g.filename) ==> row.name == g.id
    ensures row.kind == if Truthy(g.source) then g.source.value else "unknown"
    ensures row.chunks == g.chunks.GetOr(0)
    ensures g.chars.GetOr(0) >= 0 ==> 4 * row.wordCount <= g.chars.GetOr(0) < 4 * row.wordCount + 4
    ensures row.status == "Indexed"
  {
    DocRow(g.id,
           if Truthy(g.filename) then g.filename.value else g.id,
           if Truthy(g.source) then g.source.value else "unknown",
           g.firstIngested, g.lastIngested,
           g.chunks.GetOr(0),
           QuarterTruncated(g.chars.GetOr(0)),
           "Indexed")
  }
}
