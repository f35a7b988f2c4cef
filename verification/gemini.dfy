/** Model choice and request preparation of `gemini_service.py`: the model
    name preference and score, the choice of a model for a quality, the
    automatic quality heuristic, the per-task model override, conversion and
    trimming of the chat history, block-word moderation, and the order in
    which models are tried after a failure. The model list and every call
    into the Gemini SDK are parameters. */
module Gemini {
  import opened Outcome
  import opened Text
  import opened Seqs
  import opened Sorting

  const DefaultModel: string := "gemini-1.5-pro-latest"
  const LatestSuffix: string := "-latest"

  // ---------------------------------------------------------------------------
  // Model names
  // ---------------------------------------------------------------------------

  predicate ContainsAny(subs: seq<string>, name: string) {
    exists i | 0 <= i < |subs| :: IsSubstring(subs[i], name)
  }

  /** `_prefer`: the names that contain one of the given fragments, in their
      original order. */
  function Prefer(names: seq<string>, subs: seq<string>): (r: seq<string>)
    ensures IsSubseq(r, names)
    ensures forall n :: n in r <==> n in names && ContainsAny(subs, n)
  {
    FilterIsSubseq(names, n => ContainsAny(subs, n));
    Filter(names, n => ContainsAny(subs, n))
  }

  function VersionBonus(name: string): int {
    if IsSubstring("2.5", name) then 5
    else if IsSubstring("2.0", name) then 4
    else if IsSubstring("1.5", name) then 3
    else 0
  }

  /** `_score_model_name`: 3 for `latest`, one version bonus (5 for 2.5, 4
      for 2.0, 3 for 1.5), 2 for `pro`, 1 for `flash`, minus 1 for `exp`. */
  function Score(name: string): (s: int)
    ensures -1 <= s <= 11
  {
    (if IsSubstring("latest", name) then 3 else 0)
    + VersionBonus(name)
    + (if IsSubstring("pro", name) then 2 else 0)
    + (if IsSubstring("flash", name) then 1 else 0)
    - (if IsSubstring("exp", name) then 1 else 0)
  }

  /** Appending text that does not hold a fragment's last character cannot
      create an occurrence of the fragment. */
  lemma SubstringOfAppend(sub: string, name: string, suffix: string)
    requires |sub| > 0 && sub[|sub| - 1] !in suffix
    ensures IsSubstring(sub, name + suffix) <==> IsSubstring(sub, name)
  {
    var s := name + suffix;
    if IsSubstring(sub, s) {
      var i :| 0 <= i <= |s| - |sub| && MatchesAt(s, sub, i);
      assert s[i + |sub| - 1] == sub[|sub| - 1];
      assert forall j | |name| <= j < |s| :: s[j] == suffix[j - |name|];
      assert i + |sub| <= |name|;
      assert name[i..i + |sub|] == s[i..i + |sub|];
      assert MatchesAt(name, sub, i);
    }
    if IsSubstring(sub, name) {
      var i :| 0 <= i <= |name| - |sub| && MatchesAt(name, sub, i);
      assert s[i..i + |sub|] == name[i..i + |sub|];
      assert MatchesAt(s, sub, i);
    }
  }

  /** `-latest` variants outrank the plain name by exactly the `latest`
      bonus. */
  lemma LatestAddsThree(name: string)
    requires !IsSubstring("latest", name)
    ensures Score(name + LatestSuffix) == Score(name) + 3
  {
    var s := name + LatestSuffix;
    SubstringOfAppend("2.5", name, LatestSuffix);
    SubstringOfAppend("2.0", name, LatestSuffix);
    SubstringOfAppend("1.5", name, LatestSuffix);
    SubstringOfAppend("pro", name, LatestSuffix);
    SubstringOfAppend("flash", name, LatestSuffix);
    SubstringOfAppend("exp", name, LatestSuffix);
    assert MatchesAt(s, "latest", |name| + 1);
  }

  /** The alternative name tried after a not-found error: the `-latest`
      suffix removed when present, added otherwise. */
  function AltName(name: string): (alt: string)
    ensures alt != name
    ensures EndsWith(name, LatestSuffix) ==> alt + LatestSuffix == name
    ensures !EndsWith(name, LatestSuffix) ==> alt == name + LatestSuffix
  {
    if EndsWith(name, LatestSuffix) then name[..|name| - 7] else name + LatestSuffix
  }

  /** Toggling twice returns the original name, unless stripping the suffix
      exposes a second one. */
  lemma AltNameTwice(name: string)
    requires !EndsWith(name, LatestSuffix) || !EndsWith(AltName(name), LatestSuffix)
    ensures AltName(AltName(name)) == name
  {
    if !EndsWith(name, LatestSuffix) {
      var a := name + LatestSuffix;
      assert a[|a| - 7..] == LatestSuffix;
      assert a[..|a| - 7] == name;
    }
  }

  // ---------------------------------------------------------------------------
  // Choosing a model
  // ---------------------------------------------------------------------------

  /** The position of the first name of highest score: what a stable sort
      by descending score puts first. */
  function BestIndex(cs: seq<string>): (k: nat)
    requires |cs| > 0
    ensures k < |cs|
    ensures forall i | 0 <= i < |cs| :: Score(cs[i]) <= Score(cs[k])
    ensures forall i | 0 <= i < k :: Score(cs[i]) < Score(cs[k])
  {
    if |cs| == 1 then 0
    else
      var init := cs[..|cs| - 1];
      var k := BestIndex(init);
      assert forall i | 0 <= i < |init| :: init[i] == cs[i];
      if Score(cs[|cs| - 1]) > Score(cs[k]) then |cs| - 1 else k
  }

  function BestOf(cs: seq<string>): (b: string)
    requires |cs| > 0
    ensures b in cs
    ensures forall c | c in cs :: Score(c) <= Score(b)
    ensures exists k | 0 <= k < |cs| :: cs[k] == b && forall i | 0 <= i < k :: Score(cs[i]) < Score(b)
  {
    cs[BestIndex(cs)]
  }

  /** The best name is what the source takes: the head of the candidates
      sorted by descending score (a stable sort, so the earliest on a tie). */
  lemma BestOfIsSortedHead(cs: seq<string>)
    requires |cs| > 0
    ensures var r := SortDesc(cs, Score); |r| > 0 && r[0] == BestOf(cs)
  {
    SortedHead(cs, Score, BestIndex(cs));
  }

  predicate HighQuality(quality: string) {
    quality == "high" || quality == "medium"
  }

  /** Python's `a or b` on lists. */
  function OrElse(a: seq<string>, b: seq<string>): seq<string> {
    if |a| > 0 then a else b
  }

  /** The names `_select_model_for_quality` chooses among: `pro` models for
      high and medium quality, otherwise `flash` models, then `pro` models;
      all names when none match. */
  function Candidates(quality: string, names: seq<string>): (cs: seq<string>)
    ensures |cs| > 0 <==> |names| > 0
    ensures IsSubseq(cs, names) && forall c | c in cs :: c in names
    ensures HighQuality(quality) && (exists n | n in names :: IsSubstring("pro", n)) ==>
              forall c | c in cs :: IsSubstring("pro", c)
    ensures !HighQuality(quality) && (exists n | n in names :: IsSubstring("flash", n)) ==>
              forall c | c in cs :: IsSubstring("flash", c)
    ensures !HighQuality(quality) && (exists n | n in names :: IsSubstring("pro", n))
            && (forall n | n in names :: !IsSubstring("flash", n)) ==>
              forall c | c in cs :: IsSubstring("pro", c)
  {
    var pro := Prefer(names, ["pro"]);
    var flash := Prefer(names, ["flash"]);
    assert forall n :: ContainsAny(["pro"], n) <==> IsSubstring("pro", n) by {
      forall n ensures ContainsAny(["pro"], n) <==> IsSubstring("pro", n) {
        if IsSubstring("pro", n) { assert ["pro"][0] == "pro"; }
      }
    }
    assert forall n :: ContainsAny(["flash"], n) <==> IsSubstring("flash", n) by {
      forall n ensures ContainsAny(["flash"], n) <==> IsSubstring("flash", n) {
        if IsSubstring("flash", n) { assert ["flash"][0] == "flash"; }
      }
    }
    SubseqRefl(names);
    assert |names| > 0 ==> names[0] in names;
    if HighQuality(quality) then OrElse(pro, names)
    else OrElse(flash, OrElse(pro, names))
  }

  /** `_select_model_for_quality`: the configured model when the service
      lists it; otherwise the best-scoring candidate; with no listed models
      at all, the configured model or the default. */
  function SelectModel(quality: string, envModel: Option<string>, names: seq<string>): (m: string)
    ensures Truthy(envModel) && envModel.value in names ==> m == envModel.value
    ensures |names| == 0 ==> m == (if Truthy(envModel) then envModel.value else DefaultModel)
    ensures |names| > 0 && !(Truthy(envModel) && envModel.value in names) ==>
              && m in Candidates(quality, names)
              && m in names
              && forall c | c in Candidates(quality, names) :: Score(c) <= Score(m)
  {
    if Truthy(envModel) && envModel.value in names then envModel.value
    else
      var cs := Candidates(quality, names);
      if |cs| == 0 then (if Truthy(envModel) then envModel.value else DefaultModel)
      else BestOf(cs)
  }

  /** Without a listed configured model, the choice is the head of the
      candidates sorted by descending score. */
  lemma SelectModelIsSortedHead(quality: string, envModel: Option<string>, names: seq<string>)
    requires |names| > 0 && !(Truthy(envModel) && envModel.value in names)
    ensures var r := SortDesc(Candidates(quality, names), Score);
      |r| > 0 && SelectModel(quality, envModel, names) == r[0]
  {
    BestOfIsSortedHead(Candidates(quality, names));
  }

  // ---------------------------------------------------------------------------
  // Quality
  // ---------------------------------------------------------------------------

  const HighWords: seq<string> := ["architecture", "detailed", "diagram"]
  const MediumWords: seq<string> := ["analyze", "explain", "code", "steps", "why"]

  /** The quality picked when none is requested: long or design-heavy
      messages get high, explanations and code medium, the rest low. */
  function AutoQuality(message: string): (q: string)
    ensures q == "high" <==> |message| > 700 || ContainsAny(HighWords, Lower(message))
    ensures q == "medium" <==> !(|message| > 700 || ContainsAny(HighWords, Lower(message)))
                               && (|message| > 280 || ContainsAny(MediumWords, Lower(message)))
    ensures q == "low" <==> |message| <= 280 && !ContainsAny(HighWords, Lower(message))
                            && !ContainsAny(MediumWords, Lower(message))
  {
    var msg := Lower(message);
    if |message| > 700 || ContainsAny(HighWords, msg) then "high"
    else if |message| > 280 || ContainsAny(MediumWords, msg) then "medium"
    else "low"
  }

  /** The quality part of `_choose_quality_and_model`: the requested quality
      lower-cased and stripped, or the automatic one when that leaves
      nothing. */
  function ChooseQuality(message: string, requested: Option<string>): (q: string)
    ensures q != ""
    ensures PyStrip(Lower(requested.GetOr(""))) != "" ==> q == PyStrip(Lower(requested.GetOr("")))
    ensures PyStrip(Lower(requested.GetOr(""))) == "" ==> q in {"high", "medium", "low"}
  {
    var rq := PyStrip(Lower(requested.GetOr("")));
    if rq != "" then rq else AutoQuality(message)
  }

  /** A message of at most 280 characters with none of the keywords is
      answered at low quality when no quality is requested. */
  lemma ShortPlainMessageIsLow(message: string)
    requires |message| <= 280
    requires !ContainsAny(HighWords, Lower(message)) && !ContainsAny(MediumWords, Lower(message))
    ensures ChooseQuality(message, None) == "low"
  {
    assert PyStrip("") == "" by {
      StripOfClean("", IsPySpace);
    }
  }

  /** Per-task model settings, as read from the environment. */
  datatype TaskModels = TaskModels(
    text: Option<string>,
    stream: Option<string>,
    vision: Option<string>,
    file: Option<string>,
    default: Option<string>)

  /** `(value or "").strip() or None`. */
  function NonBlank(v: Option<string>): (r: Option<string>)
    ensures r.Some? <==> PyStrip(v.GetOr("")) != ""
    ensures r.Some? ==> r.value == PyStrip(v.value)
  {
    var s := PyStrip(v.GetOr(""));
    if s == "" then None else Some(s)
  }

  /** The model override for a task: the task name is lower-cased and
      stripped; unknown or missing tasks use the general model setting. */
  function EnvModelFor(task: Option<string>, models: TaskModels): (m: Option<string>)
    ensures var t := PyStrip(Lower(task.GetOr("")));
            m == NonBlank(if t == "text" then models.text
                          else if t == "stream" then models.stream
                          else if t == "vision" then models.vision
                          else if t == "file" then models.file
                          else models.default)
  {
    var t := PyStrip(Lower(task.GetOr("")));
    NonBlank(match t
             case "text" => models.text
             case "stream" => models.stream
             case "vision" => models.vision
             case "file" => models.file
             case _ => models.default)
  }

  // ---------------------------------------------------------------------------
  // History
  // ---------------------------------------------------------------------------

  /** A stored message as the history holds it; a missing key is `None`. */
  datatype HistoryItem = HistoryItem(role: Option<string>, content: Option<string>)

  datatype GeminiTurn = GeminiTurn(role: string, parts: seq<string>)

  function CountUser(h: seq<HistoryItem>): nat {
    if |h| == 0 then 0 else (if h[0].role == Some("user") then 1 else 0) + CountUser(h[1..])
  }

  function CountUserTurns(t: seq<GeminiTurn>): nat {
    if |t| == 0 then 0 else (if t[0].role == "user" then 1 else 0) + CountUserTurns(t[1..])
  }

  /** `_to_gemini_history`: one turn per message, `user` kept and every
      other role sent as `model`, the content (or "") as the only part. */
  function ToGeminiHistory(h: seq<HistoryItem>): (t: seq<GeminiTurn>)
    ensures |t| == |h|
    ensures forall i | 0 <= i < |h| :: t[i].role in {"user", "model"} && t[i].parts == [h[i].content.GetOr("")]
    ensures forall i | 0 <= i < |h| :: t[i].role == (if h[i].role == Some("user") then "user" else "model")
  {
    if |h| == 0 then []
    else [GeminiTurn(if h[0].role == Some("user") then "user" else "model", [h[0].content.GetOr("")])]
         + ToGeminiHistory(h[1..])
  }

  /** The conversion keeps exactly the user turns as `user`. */
  lemma {:induction false} ToGeminiHistoryUsers(h: seq<HistoryItem>)
    ensures CountUserTurns(ToGeminiHistory(h)) == CountUser(h)
  {
    if |h| > 0 {
      ToGeminiHistoryUsers(h[1..]);
      assert ToGeminiHistory(h)[1..] == ToGeminiHistory(h[1..]);
    }
  }

  /** Converting a suffix of the history gives the same suffix of the
      converted history: trimming before or after conversion agree. */
  lemma {:induction false} ToGeminiHistorySuffix(h: seq<HistoryItem>, k: nat)
    requires k <= |h|
    ensures ToGeminiHistory(h[k..]) == ToGeminiHistory(h)[k..]
  {
    if k == 0 {
      assert h[k..] == h;
    } else {
      var t := ToGeminiHistory(h);
      assert t[1..] == ToGeminiHistory(h[1..]);
      ToGeminiHistorySuffix(h[1..], k - 1);
      assert h[1..][k - 1..] == h[k..];
      assert t[1..][k - 1..] == t[k..];
    }
  }

  /** `_trim_history` as written: an absent or empty history is returned
      as is, a short one whole, and a long one as `history[-max_messages:]`. */
  function TrimHistoryAsWritten<T>(history: Option<seq<T>>, maxMessages: int): (r: Option<seq<T>>)
    ensures history.None? ==> r.None?
    ensures history.Some? ==> r.Some? && |r.value| <= |history.value|
    ensures history.Some? && maxMessages >= 1 ==>
              r.value == history.value[|history.value| - (if |history.value| <= maxMessages then |history.value| else maxMessages)..]
    ensures history.Some? ==> r.value == history.value[|history.value| - |r.value|..]
    ensures history.Some? && maxMessages == 0 ==> r == history
    ensures history.Some? && |history.value| > 0 && maxMessages < 0 ==>
              |r.value| == (if -maxMessages < |history.value| then |history.value| + maxMessages else 0)
  {
    if history.None? || |history.value| == 0 then history
    else if |history.value| <= maxMessages then history
    else Some(PySliceFrom(history.value, -maxMessages))
  }

  /** With a limit of 0 the written code keeps the whole history: `h[-0:]`
      is all of `h`. */
  lemma TrimHistoryZeroKeepsAll<T>(m: T)
    ensures TrimHistoryAsWritten(Some([m]), 0) == Some([m])
  {
  }

  /** `_trim_history` as intended: at most `maxMessages` of the latest
      messages, and none for a limit of 0 or less. */
  function TrimHistory<T>(history: Option<seq<T>>, maxMessages: int): (r: Option<seq<T>>)
    ensures history.None? ==> r.None?
    ensures history.Some? ==> r.Some?
    ensures history.Some? ==> |r.value| == (if maxMessages <= 0 then 0
                                            else if |history.value| <= maxMessages then |history.value|
                                            else maxMessages)
    ensures history.Some? ==> r.value == history.value[|history.value| - |r.value|..]
  {
    if history.None? then None
    else if maxMessages <= 0 then Some([])
    else if |history.value| <= maxMessages then history
    else Some(history.value[|history.value| - maxMessages..])
  }

  /** The two agree for every positive limit. */
  lemma TrimHistoryAgrees<T>(history: Option<seq<T>>, maxMessages: int)
    requires maxMessages >= 1
    ensures TrimHistory(history, maxMessages) == TrimHistoryAsWritten(history, maxMessages)
  {
  }

  // ---------------------------------------------------------------------------
  // Moderation
  // ---------------------------------------------------------------------------

  const BlockedMessage: string := "Your message contains disallowed content."

  /** Some non-empty block word occurs in the text, ignoring case. */
  predicate Blocked(words: seq<string>, text: string) {
    exists i | 0 <= i < |words| :: words[i] != "" && IsSubstring(Lower(words[i]), Lower(text))
  }

  /** `_moderate_text`: the refusal message exactly when some block word
      occurs in the text. */
  method ModerateText(words: seq<string>, text: string) returns (err: Option<string>)
    ensures err.Some? <==> Blocked(words, text)
    ensures err.Some? ==> err.value == BlockedMessage
  {
    if |words| == 0 {
      return None;
    }
    var lower := Lower(text);
    var i := 0;
    while i < |words|
      invariant 0 <= i <= |words|
      invariant forall k | 0 <= k < i :: !(words[k] != "" && IsSubstring(Lower(words[k]), lower))
    {
      if words[i] != "" && IsSubstring(Lower(words[i]), lower) {
        return Some(BlockedMessage);
      }
      i := i + 1;
    }
    return None;
  }

  /** More block words never let more messages through. */
  lemma BlockedMonotone(words: seq<string>, more: seq<string>, text: string)
    requires Blocked(words, text)
    ensures Blocked(words + more, text) && Blocked(more + words, text)
  {
    var i :| 0 <= i < |words| && words[i] != "" && IsSubstring(Lower(words[i]), Lower(text));
    assert (words + more)[i] == words[i];
    assert (more + words)[|more| + i] == words[i];
  }

  // ---------------------------------------------------------------------------
  // Fallback order
  // ---------------------------------------------------------------------------

  const ExplicitFallbacks: seq<string> := ["gemini-1.5-pro-latest", "gemini-1.5-flash-latest"]

  /** The names of `xs` not in `tried`, in order. */
  function Untried(xs: seq<string>, tried: set<string>): (r: seq<string>)
    ensures IsSubseq(r, xs)
    ensures forall n :: n in r <==> n in xs && n !in tried
  {
    FilterIsSubseq(xs, n => n !in tried);
    Filter(xs, n => n !in tried)
  }

  /** Whether a primary failure reads as "model not found". */
  predicate NotFound(error: string) {
    IsSubstring("404", Lower(error)) || IsSubstring("not found", Lower(error))
  }

  /** `_pref_list`: preferred-family names first, then the other family,
      leaving out what was tried; all untried names when that is empty;
      sorted by descending score. */
  function PrefList(quality: string, names: seq<string>, tried: set<string>): (r: seq<string>)
    ensures SortedDesc(r, Score)
    ensures multiset(r) == multiset(PrefPool(quality, names, tried))
    ensures forall k :: WithKey(r, Score, k) == WithKey(PrefPool(quality, names, tried), Score, k)
    ensures forall n | n in r :: n in names && n !in tried
    ensures forall n | n in names && n !in tried && InFamily(n) :: n in r
    ensures (forall n | n in names && n !in tried :: !InFamily(n)) ==>
              forall n | n in names && n !in tried :: n in r
    ensures (exists n | n in names && n !in tried :: InFamily(n)) ==> forall n | n in r :: InFamily(n)
  {
    var pool := PrefPool(quality, names, tried);
    var r := SortDesc(pool, Score);
    forall k ensures WithKey(r, Score, k) == WithKey(pool, Score, k) {
      SortDescStable(pool, Score, k);
    }
    SortDescKeeps(pool, Score);
    r
  }

  /** A name of the `pro` or the `flash` family. */
  predicate InFamily(name: string) {
    IsSubstring("pro", name) || IsSubstring("flash", name)
  }

  /** The list `_pref_list` sorts: the untried names of the preferred family
      then of the other one (a name of both families twice), or every
      untried name when that is empty. */
  function PrefPool(quality: string, names: seq<string>, tried: set<string>): (s: seq<string>)
    ensures forall n | n in s :: n in names && n !in tried
    ensures forall n | n in names && n !in tried && InFamily(n) :: n in s
    ensures (forall n | n in names && n !in tried :: !InFamily(n)) ==>
              forall n | n in names && n !in tried :: n in s
    ensures (exists n | n in names && n !in tried :: InFamily(n)) ==> forall n | n in s :: InFamily(n)
  {
    OneFragment("pro");
    OneFragment("flash");
    var first := if HighQuality(quality) then Prefer(names, ["pro"]) else Prefer(names, ["flash"]);
    var second := if HighQuality(quality) then Prefer(names, ["flash"]) else Prefer(names, ["pro"]);
    assert forall n :: n in first + second <==> n in names && InFamily(n);
    var s := Untried(first + second, tried);
    if |s| > 0 then s else Untried(names, tried)
  }

  lemma OneFragment(sub: string)
    ensures forall n :: ContainsAny([sub], n) <==> IsSubstring(sub, n)
  {
    forall n ensures ContainsAny([sub], n) <==> IsSubstring(sub, n) {
      if IsSubstring(sub, n) { assert [sub][0] == sub; }
    }
  }

  /** The set `tried` of the source: the primary model, and the
      alternative name when the error read as not found. */
  function TriedFirst(model: string, error: string): set<string> {
    if NotFound(error) then {model, AltName(model)} else {model}
  }

  /** The models tried after the primary one failed with `error`, as
      written: the alternative name on a not-found error, the explicit
      fallbacks not yet tried, then the preference list, which leaves out
      only the primary and alternative names, so an explicit fallback that
      failed is tried again. */
  function FallbackOrderAsWritten(model: string, error: string, quality: string, names: seq<string>): (order: seq<string>)
    ensures NotFound(error) ==> |order| > 0 && order[0] == AltName(model)
    ensures model !in order
    ensures forall i | 0 <= i < |ExplicitFallbacks| && ExplicitFallbacks[i] !in TriedFirst(model, error) ::
              ExplicitFallbacks[i] in order
    ensures forall n | n in order :: (NotFound(error) && n == AltName(model)) || n in ExplicitFallbacks || n in names
    ensures var pref := PrefList(quality, names, TriedFirst(model, error));
              |pref| <= |order| && order[|order| - |pref|..] == pref
  {
    var alt := if NotFound(error) then [AltName(model)] else [];
    var tried := TriedFirst(model, error);
    var explicit := Untried(ExplicitFallbacks, tried);
    var pref := PrefList(quality, names, tried);
    var order := alt + explicit + pref;
    assert order[|order| - |pref|..] == pref;
    assert forall i | 0 <= i < |ExplicitFallbacks| :: ExplicitFallbacks[i] in ExplicitFallbacks;
    order
  }

  /** A quota error on a `flash` model, with only the 1.5 pro model listed:
      the written order tries `gemini-1.5-pro-latest` twice. */
  lemma FallbackRetriesExplicit()
    ensures var order := FallbackOrderAsWritten("gemini-2.0-flash", "quota exceeded", "low", ["gemini-1.5-pro-latest"]);
            |order| == 3 && order[0] == order[2] == "gemini-1.5-pro-latest"
  {
    var model := "gemini-2.0-flash";
    NotNotFound();
    assert TriedFirst(model, "quota exceeded") == {model};
    ExplicitUntouched(model);
    ProOnlyPrefList(model);
    assert ExplicitFallbacks[0] == "gemini-1.5-pro-latest";
  }

  /** Neither explicit fallback is the flash 2.0 model. */
  lemma ExplicitUntouched(model: string)
    requires model == "gemini-2.0-flash"
    ensures Untried(ExplicitFallbacks, {model}) == ExplicitFallbacks
  {
    assert ExplicitFallbacks[0][7] == '1' && model[7] == '2';
    assert ExplicitFallbacks[1][7] == '1';
    assert model != ExplicitFallbacks[0] && model != ExplicitFallbacks[1];
    var p := (n: string) => n !in {model};
    assert Filter(ExplicitFallbacks[1..], p) == ExplicitFallbacks[1..] by {
      assert ExplicitFallbacks[1..][1..] == [];
    }
  }

  /** With only the pro model listed, the low-quality preference list is
      that model. */
  lemma ProOnlyPrefList(model: string)
    requires model == "gemini-2.0-flash"
    ensures PrefList("low", ["gemini-1.5-pro-latest"], {model}) == ["gemini-1.5-pro-latest"]
  {
    var names := ["gemini-1.5-pro-latest"];
    assert !HighQuality("low");
    assert !ContainsAny(["flash"], names[0]) by {
      NoFlashInProLatest();
      assert ["flash"][0] == "flash";
    }
    assert Prefer(names, ["flash"]) == [];
    assert ContainsAny(["pro"], names[0]) by {
      assert MatchesAt(names[0], "pro", 11);
      assert ["pro"][0] == "pro";
    }
    assert Prefer(names, ["pro"]) == names;
    assert names[0][7] == '1' && model[7] == '2';
    assert PrefPool("low", names, {model}) == names by {
      OneFragment("pro");
      OneFragment("flash");
      assert Untried([] + names, {model}) == names by {
        assert [] + names == names;
      }
    }
    assert SortDesc(names, Score) == names by {
      assert multiset(SortDesc(names, Score)) == multiset(names);
      assert |SortDesc(names, Score)| == 1;
      assert SortDesc(names, Score)[0] in multiset(names);
    }
  }

  lemma NotNotFound()
    ensures !NotFound("quota exceeded")
  {
    var e := Lower("quota exceeded");
    assert e == "quota exceeded";
    forall i | 0 <= i <= |e| - 3 ensures !MatchesAt(e, "404", i) {
      assert e[i] != '4';
    }
    forall i | 0 <= i <= |e| - 9 ensures !MatchesAt(e, "not found", i) {
      assert e[i..i + 9][3] == e[i + 3];
    }
  }

  lemma NoFlashInProLatest()
    ensures !IsSubstring("flash", "gemini-1.5-pro-latest")
  {
    var n := "gemini-1.5-pro-latest";
    forall i | 0 <= i <= |n| - 5 ensures !MatchesAt(n, "flash", i) {
      assert n[i..i + 5][0] == n[i];
      assert n[i..i + 5][1] == n[i + 1];
    }
  }

  /** The intended order: as written, but every model tried so far, the
      explicit fallbacks included, is left out of the preference list, and a
      name listed in both families is tried once. */
  function FallbackOrder(model: string, error: string, quality: string, names: seq<string>): (order: seq<string>)
    ensures Distinct([model] + order)
  {
    var alt := if NotFound(error) then [AltName(model)] else [];
    var tried := TriedFirst(model, error);
    var explicit := Untried(ExplicitFallbacks, tried);
    var tried' := tried + set c | c in explicit;
    var pref := Dedup(PrefList(quality, names, tried'));
    FallbackDistinct(model, alt, explicit, pref, tried, tried');
    alt + explicit + pref
  }

  lemma FallbackDistinct(model: string, alt: seq<string>, explicit: seq<string>, pref: seq<string>,
                         tried: set<string>, tried': set<string>)
    requires |alt| <= 1 && (|alt| == 1 ==> alt[0] != model)
    requires tried == if |alt| == 1 then {model, alt[0]} else {model}
    requires tried' == tried + set c | c in explicit
    requires Distinct(explicit) && forall c | c in explicit :: c !in tried
    requires Distinct(pref) && forall n | n in pref :: n !in tried'
    ensures Distinct([model] + (alt + explicit + pref))
  {
    var s := [model] + (alt + explicit + pref);
    assert model in tried && tried <= tried';
    assert forall k | 0 <= k < |alt| :: alt[k] in tried;
    assert forall k | 0 <= k < |explicit| :: explicit[k] in tried';
    forall i, j | 0 <= i < j < |s| ensures s[i] != s[j] {
      var a := 1 + |alt|;
      var b := a + |explicit|;
      if j < a {
        assert s[i] == model && s[j] == alt[0];
      } else if j < b {
        assert s[j] == explicit[j - a];
        if i >= a {
          assert s[i] == explicit[i - a];
        } else if i > 0 {
          assert s[i] == alt[0];
        }
      } else {
        assert s[j] == pref[j - b];
        if i >= b {
          assert s[i] == pref[i - b];
        } else if i >= a {
          assert s[i] == explicit[i - a];
        } else if i > 0 {
          assert s[i] == alt[0];
        }
      }
    }
  }

  // ---------------------------------------------------------------------------
  // Generating a reply
  // ---------------------------------------------------------------------------

  datatype Reply = Reply(text: string, model: string, quality: string)

  /** A refusal: the HTTP status and the detail sent to the client. */
  datatype GenOutcome = Generated(reply: Reply) | Refused(status: int, detail: string)

  /** The first model in `order` that answers, with the errors of the ones
      that failed before it. */
  function TryInOrder(order: seq<string>, run: string -> Result<string>): (r: Option<(string, string)>)
    ensures r.None? <==> forall i | 0 <= i < |order| :: run(order[i]).Err?
    ensures r.Some? ==> exists k | 0 <= k < |order| ::
              && order[k] == r.value.1 && run(order[k]) == Ok(r.value.0)
              && forall i | 0 <= i < k :: run(order[i]).Err?
  {
    if |order| == 0 then None
    else if run(order[0]).Ok? then Some((run(order[0]).value, order[0]))
    else
      var r := TryInOrder(order[1..], run);
      assert forall i | 1 <= i < |order| :: order[i] == order[1..][i - 1];
      r
  }

  lemma {:induction false} TryInOrderAppend(a: seq<string>, b: seq<string>, run: string -> Result<string>)
    ensures TryInOrder(a + b, run) == if TryInOrder(a, run).Some? then TryInOrder(a, run) else TryInOrder(b, run)
  {
    if |a| == 0 {
      assert a + b == b;
    } else {
      assert (a + b)[0] == a[0] && (a + b)[1..] == a[1..] + b;
      TryInOrderAppend(a[1..], b, run);
    }
  }

  /** With `run` a function of the model name, trying a name again never
      changes the answer: it failed the first time, so the order with
      repeats answers as the order without them. A second SDK call to the
      same model may behave differently; `run` does not model that. */
  lemma {:induction false} TryInOrderDedup(order: seq<string>, run: string -> Result<string>)
    ensures TryInOrder(Dedup(order), run) == TryInOrder(order, run)
  {
    if |order| > 0 {
      var init, last := order[..|order| - 1], order[|order| - 1];
      assert order == init + [last];
      TryInOrderDedup(init, run);
      TryInOrderAppend(init, [last], run);
      var d := Dedup(init);
      if last in d {
        assert Dedup(order) == d;
        if TryInOrder(init, run).None? {
          var i :| 0 <= i < |init| && init[i] == last;
          assert run(last).Err?;
        }
      } else {
        assert Dedup(order) == d + [last];
        TryInOrderAppend(d, [last], run);
      }
    }
  }

  /** The history sent with a request: the trimmed history converted to
      turns, or none when trimming leaves nothing, in which case a single
      prompt is sent. */
  function ChatHistory(history: Option<seq<HistoryItem>>, maxMessages: int): (t: Option<seq<GeminiTurn>>)
    ensures history.None? || |history.value| == 0 ==> t.None?
    ensures t.Some? ==> history.Some? && 0 < |t.value| <= |history.value|
    ensures t.Some? ==> t.value == ToGeminiHistory(history.value[|history.value| - |t.value|..])
    ensures history.Some? && |history.value| > 0 && maxMessages >= 1 ==>
              t.Some? && |t.value| == (if |history.value| <= maxMessages then |history.value| else maxMessages)
    ensures history.Some? && |history.value| > 0 && maxMessages == 0 ==> t == Some(ToGeminiHistory(history.value))
    ensures history.Some? && maxMessages < 0 ==>
              (t.Some? <==> -maxMessages < |history.value|)
              && (t.Some? ==> |t.value| == |history.value| + maxMessages)
  {
    var h := TrimHistoryAsWritten(history, maxMessages);
    if h.None? || |h.value| == 0 then None else Some(ToGeminiHistory(h.value))
  }

  /** For a positive limit, trimming the stored history and converting it
      is converting it and keeping the latest turns. */
  lemma ChatHistoryKeepsLatestTurns(history: seq<HistoryItem>, maxMessages: int)
    requires |history| > 0 && maxMessages >= 1
    ensures ChatHistory(Some(history), maxMessages)
         == TrimHistory(Some(ToGeminiHistory(history)), maxMessages)
  {
    var n := if |history| <= maxMessages then |history| else maxMessages;
    var t := ChatHistory(Some(history), maxMessages);
    assert t.Some? && t.value == ToGeminiHistory(history[|history| - n..]);
    var g := ToGeminiHistory(history);
    ToGeminiHistorySuffix(history, |history| - n);
    assert TrimHistory(Some(g), maxMessages) == Some(g[|g| - n..]);
  }

  function ErrorOf(r: Result<string>): string {
    match r
    case Ok(_) => ""
    case Err(e) => e
  }

  /** The part of `generate_reply` after the chosen model `m` failed with
      `e`: the fallbacks in order, the first answer winning, and a 502
      listing every failure when all of them fail. */
  function AfterFailure(m: string, e: string, q: string, names: seq<string>,
                        run: string -> Result<string>): (r: GenOutcome)
    ensures var order := FallbackOrderAsWritten(m, e, q, names);
            && (r.Generated? ==> r.reply.quality == q && r.reply.model in order
                                 && run(r.reply.model) == Ok(r.reply.text))
            && (r.Refused? <==> forall i | 0 <= i < |order| :: run(order[i]).Err?)
            && (r.Refused? ==> r.status == 502 && StartsWith(r.detail, "Gemini errors: Primary " + m + ": " + e))
  {
    var rest := FallbackOrderAsWritten(m, e, q, names);
    var found := TryInOrder(rest, run);
    if found.Some? then Generated(Reply(found.value.0, found.value.1, q))
    else
      var lines := ErrorLines(rest, e, run);
      var first := "Gemini errors: Primary " + m + ": " + e;
      var detail := first + (if |lines| == 0 then "" else " | " + Join(lines, " | "));
      assert detail[..|first|] == first;
      Refused(502, detail)
  }

  /** One line per failed fallback: its name and error, the alternative
      name marked "Alt". */
  function ErrorLines(rest: seq<string>, e: string, run: string -> Result<string>): (lines: seq<string>)
    ensures |lines| == |rest|
    ensures forall i | 0 <= i < |rest| ::
              lines[i] == (if i == 0 && NotFound(e) then "Alt " else "") + (rest[i] + ": " + ErrorOf(run(rest[i])))
  {
    seq(|rest|, i requires 0 <= i < |rest| =>
      (if i == 0 && NotFound(e) then "Alt " else "") + (rest[i] + ": " + ErrorOf(run(rest[i]))))
  }

  /** A line's text after its marker occurs in the detail. */
  lemma DetailHasLine(first: string, lines: seq<string>, i: nat, tag: string, x: string)
    requires i < |lines| && lines[i] == tag + x
    ensures IsSubstring(x, first + " | " + Join(lines, " | "))
  {
    SelfSubstring(x);
    SubstringWithin(x, x, tag, "");
    assert tag + x + "" == lines[i];
    JoinHasPart(lines, " | ", i);
    SubstringWithin(lines[i], Join(lines, " | "), first + " | ", "");
    assert first + " | " + Join(lines, " | ") + "" == first + " | " + Join(lines, " | ");
    SubstringTrans(x, lines[i], first + " | " + Join(lines, " | "));
  }

  /** The 502 detail lists the error of every fallback model, after the
      primary model's. */
  lemma AfterFailureListsErrors(m: string, e: string, q: string, names: seq<string>,
                                run: string -> Result<string>)
    ensures var r := AfterFailure(m, e, q, names, run);
      var order := FallbackOrderAsWritten(m, e, q, names);
      r.Refused? ==> forall i | 0 <= i < |order| :: IsSubstring(order[i] + ": " + ErrorOf(run(order[i])), r.detail)
  {
    var r := AfterFailure(m, e, q, names, run);
    var rest := FallbackOrderAsWritten(m, e, q, names);
    if r.Refused? && |rest| > 0 {
      var lines := ErrorLines(rest, e, run);
      var first := "Gemini errors: Primary " + m + ": " + e;
      assert r.detail == first + " | " + Join(lines, " | ");
      forall i | 0 <= i < |rest|
        ensures IsSubstring(rest[i] + ": " + ErrorOf(run(rest[i])), r.detail)
      {
        DetailHasLine(first, lines, i, if i == 0 && NotFound(e) then "Alt " else "", rest[i] + ": " + ErrorOf(run(rest[i])));
      }
    }
  }

  /** `generate_reply` around the SDK: a missing API key is a 500, a blocked
      message a 400; otherwise the chosen model's answer, or what the
      fallbacks give when it fails. `run` is the SDK call for a model name,
      with the message and history already bound. */
  function GenerateReply(apiKey: Option<string>, blockWords: seq<string>, message: string,
                         quality: Option<string>, models: TaskModels, names: seq<string>,
                         run: string -> Result<string>): (r: GenOutcome)
    ensures !Truthy(apiKey) ==> r == Refused(500, "GEMINI_API_KEY not configured.")
    ensures Truthy(apiKey) && Blocked(blockWords, message) ==> r == Refused(400, BlockedMessage)
    ensures Truthy(apiKey) && !Blocked(blockWords, message) ==>
              var q := ChooseQuality(message, quality);
              var m := SelectModel(q, EnvModelFor(Some("text"), models), names);
              && (run(m).Ok? ==> r == Generated(Reply(run(m).value, m, q)))
              && (run(m).Err? ==> r == AfterFailure(m, run(m).error, q, names, run))
  {
    if !Truthy(apiKey) then Refused(500, "GEMINI_API_KEY not configured.")
    else if Blocked(blockWords, message) then Refused(400, BlockedMessage)
    else
      var q := ChooseQuality(message, quality);
      var m := SelectModel(q, EnvModelFor(Some("text"), models), names);
      match run(m)
      case Ok(text) => Generated(Reply(text, m, q))
      case Err(e) => AfterFailure(m, e, q, names, run)
  }
}
