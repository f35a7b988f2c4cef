/** The chat page of the browser client (`page.js`) as a state machine.
    A turn is two transitions: `Begin` makes the optimistic update and names
    the one gateway request the turn sends; `Finish` folds the gateway's
    answer into the state. The answer, the clock and the conversation list
    the backend returns are parameters. The browser's local storage is the
    `Cache` part of the state, and the effect that mirrors the open
    conversation into it runs after every transition that changes the
    conversation id or the messages. */
module ChatPage {
  import opened Outcome
  import opened Text
  import opened Seqs
  import Sidebar
  import ApiClient

  type ConvItem = Sidebar.ConvItem

  datatype Role = User | Assistant

  /** A chat bubble; `sent` is `status: "sent"` on user messages. */
  datatype Msg = Msg(role: Role, content: string, ts: Option<int>, sent: bool)

  /** An attached file as the browser describes it. */
  datatype FileRef = FileRef(name: string, mime: string)

  /** The model and quality the last reply reported. */
  datatype Meta = Meta(model: string, quality: string)

  /** Local storage: the cached conversation list, the cached messages of
      each conversation, and the last opened conversation. */
  datatype Cache = Cache(convs: seq<ConvItem>, msgs: map<string, seq<Msg>>, last: Option<string>)

  datatype State = State(
    messages: seq<Msg>,
    input: string,
    quality: string,
    conversationId: Option<string>,
    conversations: seq<ConvItem>,
    imageFile: Option<FileRef>,
    imagePrompt: string,
    webSearch: bool,
    aiVoiceReplies: bool,
    userKey: Option<string>,
    lastMeta: Option<Meta>,
    cache: Cache)

  const Greeting: string := "Hi, I'm Taliyo AI. How can I help you today?"

  /** The page as first rendered, before the cache is read. */
  function Initial(now: int, cache: Cache): (s: State)
    ensures s.messages == [Msg(Assistant, Greeting, Some(now), false)]
    ensures s.conversationId == None && s.conversations == [] && s.quality == "auto"
  {
    State([Msg(Assistant, Greeting, Some(now), false)], "", "auto", None, [], None, "",
          false, false, None, None, cache)
  }

  // ---------------------------------------------------------------------------
  // Cache helpers and the persist effect
  // ---------------------------------------------------------------------------

  /** `loadCachedMessages(id)`: nothing for an empty id or an id never
      saved. */
  function LoadCachedMessages(c: Cache, id: Option<string>): (r: Option<seq<Msg>>)
    ensures !Truthy(id) ==> r == None
    ensures Truthy(id) && id.value in c.msgs ==> r == Some(c.msgs[id.value])
    ensures Truthy(id) && id.value !in c.msgs ==> r == None
  {
    if !Truthy(id) || id.value !in c.msgs then None else Some(c.msgs[id.value])
  }

  /** The cached messages when there are some, otherwise the empty list. */
  function CachedOrEmpty(c: Cache, id: Option<string>): (r: seq<Msg>)
    ensures r != [] ==> LoadCachedMessages(c, id) == Some(r)
    ensures LoadCachedMessages(c, id).Some? ==> r == LoadCachedMessages(c, id).value
  {
    match LoadCachedMessages(c, id)
    case Some(m) => m
    case None => []
  }

  /** The persist effect: an open conversation is remembered as the last
      one and its messages are saved under its id. */
  function Persist(s: State): (r: State)
    ensures Truthy(s.conversationId) ==>
      r.cache.last == s.conversationId
      && r.cache.msgs == s.cache.msgs[s.conversationId.value := s.messages]
      && r.cache.convs == s.cache.convs
    ensures !Truthy(s.conversationId) ==> r == s
    ensures r.(cache := s.cache) == s
  {
    if Truthy(s.conversationId) then
      var id := s.conversationId.value;
      s.(cache := s.cache.(last := Some(id), msgs := s.cache.msgs[id := s.messages]))
    else s
  }

  /** React runs the persist effect only when its dependencies changed. */
  function Settle(before: State, after: State): (r: State)
    ensures after.conversationId == before.conversationId && after.messages == before.messages ==> r == after
    ensures r.(cache := after.cache) == after
  {
    if after.conversationId != before.conversationId || after.messages != before.messages then Persist(after)
    else after
  }

  /** The hydrate effect on mount: a non-empty cached list becomes the
      sidebar, and the last conversation is reopened when it has cached
      messages. */
  function Hydrate(s: State): (r: State)
    ensures |s.cache.convs| > 0 ==> r.conversations == s.cache.convs
    ensures |s.cache.convs| == 0 ==> r.conversations == s.conversations
    ensures r.cache == s.cache
  {
    var s1 := if |s.cache.convs| > 0 then s.(conversations := s.cache.convs) else s;
    var cached := CachedOrEmpty(s.cache, s.cache.last);
    var s2 := if Truthy(s.cache.last) && |cached| > 0
      then s1.(conversationId := s.cache.last, messages := cached) else s1;
    Settle(s1, s2)
  }

  /** What the persist effect saved is what a later visit reopens. */
  lemma PersistThenHydrate(s: State, now: int)
    requires Truthy(s.conversationId) && s.messages != []
    ensures var r := Hydrate(Initial(now, Persist(s).cache));
      r.conversationId == s.conversationId && r.messages == s.messages
  {
    var c := Persist(s).cache;
    assert LoadCachedMessages(c, c.last) == Some(s.messages);
  }

  /** `onNewChat`: the page is cleared; the cache is not touched. */
  function NewChat(s: State): (r: State)
    ensures r.conversationId == None && r.messages == []
    ensures r.cache == s.cache && r.conversations == s.conversations
  {
    Settle(s, s.(conversationId := None, messages := []))
  }

  // ---------------------------------------------------------------------------
  // Turns
  // ---------------------------------------------------------------------------

  /** The user's actions that talk to the model. */
  datatype Action =
    | Send
    | Voice(transcript: string)
    | Regenerate(atIndex: int)
    | Continue
    | Summarize(fileParam: Option<FileRef>)

  /** The one request a turn sends; uploads and chat replies are folded in
      differently. */
  datatype Call = Upload(req: ApiClient.Request) | Chat(req: ApiClient.Request)

  /** `quality !== "auto" ? quality : undefined`. */
  function QualityArg(quality: string): (q: Option<string>)
    ensures q.None? <==> quality == "auto"
  {
    if quality != "auto" then Some(quality) else None
  }

  /** The retrieval tool options every chat request carries. */
  function ToolOpts(s: State, prompt: string): (o: ApiClient.Opts)
    ensures o.tool == Some(if s.webSearch then "web_search" else "rag_search")
    ensures o.toolArgs == Some(ApiClient.ToolArgs(prompt, 5)) && o.userKey == s.userKey
  {
    ApiClient.Opts(s.userKey, Some(if s.webSearch then "web_search" else "rag_search"), Some(ApiClient.ToolArgs(prompt, 5)))
  }

  /** `findPrevUserPrompt(i)`: the content of the nearest user message
      before index `i`, or the draft when there is none. */
  function FindPrevUserPrompt(msgs: seq<Msg>, before: int, input: string): (r: string)
    ensures NoUserBefore(msgs, before) ==> r == input
    ensures !NoUserBefore(msgs, before) ==>
      var j := LastUserBefore(msgs, before);
      0 <= j < before && j < |msgs| && msgs[j].role == User && r == msgs[j].content
    decreases before
  {
    if before <= 0 then input
    else if before - 1 < |msgs| && msgs[before - 1].role == User then msgs[before - 1].content
    else FindPrevUserPrompt(msgs, before - 1, input)
  }

  /** No user message among the first `before` entries. */
  predicate NoUserBefore(msgs: seq<Msg>, before: int) {
    forall j | 0 <= j < before && j < |msgs| :: msgs[j].role != User
  }

  /** The index of the last user message among the first `before`
      entries. */
  function LastUserBefore(msgs: seq<Msg>, before: int): (j: int)
    requires !NoUserBefore(msgs, before)
    ensures 0 <= j < before && j < |msgs| && msgs[j].role == User
    ensures forall k | j < k < before && k < |msgs| :: msgs[k].role != User
    decreases before
  {
    if before - 1 < |msgs| && msgs[before - 1].role == User then before - 1
    else LastUserBefore(msgs, before - 1)
  }

  /** The same search as the page writes it: a loop walking backwards. */
  method FindPrevUserPromptLoop(msgs: seq<Msg>, before: int, input: string) returns (r: string)
    ensures r == FindPrevUserPrompt(msgs, before, input)
  {
    var i := before - 1;
    while i >= 0
      invariant i < before
      invariant FindPrevUserPrompt(msgs, before, input) == FindPrevUserPrompt(msgs, i + 1, input)
      decreases i
    {
      if i < |msgs| && msgs[i].role == User {
        return msgs[i].content;
      }
      i := i - 1;
    }
    return input;
  }

  /** The prompt used when the user sends an attachment without text. */
  function DefaultFilePrompt(f: FileRef): (p: string)
    ensures p in {"Summarize this image", "Summarize this PDF", "Summarize this document"}
    ensures StartsWith(f.mime, "image/") <==> p == "Summarize this image"
    ensures !StartsWith(f.mime, "image/") ==> (p == "Summarize this PDF" <==> IsSubstring("pdf", f.mime))
  {
    if StartsWith(f.mime, "image/") then "Summarize this image"
    else if IsSubstring("pdf", f.mime) then "Summarize this PDF"
    else "Summarize this document"
  }

  const DocumentPrompt: string := "Summarize the document in key points."
  const ContinuePrompt: string := "Continue"

  /** The request of a turn that answers `prompt`: the attachment, if any,
      goes to the file endpoint, otherwise a chat (or voice) request. */
  function ReplyCall(s: State, prompt: string, voice: bool, userKeyForFile: Option<string>): (c: Call)
    ensures s.imageFile.Some? <==> c.Upload?
    ensures c.Upload? ==> c.req == ApiClient.AskAboutFile(s.imageFile.value.name, Some(prompt),
                                     QualityArg(s.quality), s.conversationId, userKeyForFile)
    ensures c.Chat? && voice ==> c.req == ApiClient.SendVoice(prompt, QualityArg(s.quality), s.conversationId,
                                     ApiClient.NoVoice, ToolOpts(s, prompt))
    ensures c.Chat? && !voice ==> c.req == ApiClient.SendMessage(prompt, QualityArg(s.quality), s.conversationId,
                                     ToolOpts(s, prompt))
  {
    var q := QualityArg(s.quality);
    if s.imageFile.Some? then Upload(ApiClient.AskAboutFile(s.imageFile.value.name, Some(prompt), q, s.conversationId, userKeyForFile))
    else if voice then Chat(ApiClient.SendVoice(prompt, q, s.conversationId, ApiClient.NoVoice, ToolOpts(s, prompt)))
    else Chat(ApiClient.SendMessage(prompt, q, s.conversationId, ToolOpts(s, prompt)))
  }

  /** A user bubble stamped now. */
  function UserMsg(content: string, now: int): Msg {
    Msg(User, content, Some(now), true)
  }

  /** The prompt `onSend` uses: the trimmed draft, or the attachment's
      default prompt when the draft is blank. */
  function SendPrompt(s: State): (p: string)
    requires JsTrim(s.input) != [] || s.imageFile.Some?
    ensures p != []
    ensures JsTrim(s.input) != [] ==> p == JsTrim(s.input)
  {
    if JsTrim(s.input) != [] then JsTrim(s.input) else DefaultFilePrompt(s.imageFile.value)
  }

  /** The request `onSummarizeImage` sends for `file`. */
  function SummarizeCall(s: State, file: FileRef): (c: Call)
    ensures c.Upload?
    ensures StartsWith(file.mime, "image/") ==> c.req.path == "/vision/summarize"
    ensures !StartsWith(file.mime, "image/") ==> c.req.path == "/files/ask"
  {
    var q := QualityArg(s.quality);
    if StartsWith(file.mime, "image/") then
      Upload(ApiClient.SummarizeImage(file.name, if s.imagePrompt != "" then Some(s.imagePrompt) else None,
                                      q, s.conversationId, None))
    else
      Upload(ApiClient.AskAboutFile(file.name, Some(if s.imagePrompt != "" then s.imagePrompt else DocumentPrompt),
                                    q, s.conversationId, s.userKey))
  }

  /** The default instruction names an image exactly for the files that
      the summarize action sends to the vision endpoint. */
  lemma DefaultPromptMatchesEndpoint(s: State, f: FileRef)
    ensures DefaultFilePrompt(f) == "Summarize this image" <==> SummarizeCall(s, f).req.path == "/vision/summarize"
  {
  }

  /** `fileParam || imageFile`. */
  function ChosenFile(s: State, fileParam: Option<FileRef>): (f: Option<FileRef>)
    ensures f.None? <==> fileParam.None? && s.imageFile.None?
    ensures fileParam.Some? ==> f == fileParam
  {
    if fileParam.Some? then fileParam else s.imageFile
  }

  /** The first half of a turn: the optimistic update and the request, or
      nothing when the action does nothing. */
  function Begin(s: State, a: Action, now: int): (r: Option<(State, Call)>)
    ensures a.Send? ==> (r.None? <==> JsTrim(s.input) == [] && s.imageFile.None?)
    ensures a.Send? && r.Some? ==>
      r.value.0.messages == s.messages + [UserMsg(SendPrompt(s), now)] && r.value.0.input == ""
      && r.value.1 == ReplyCall(s, SendPrompt(s), false, s.userKey)
    ensures a.Voice? ==>
      && r.Some? && r.value.0.messages == s.messages + [UserMsg(a.transcript, now)]
      && r.value.1 == ReplyCall(s, a.transcript, s.imageFile.None? && s.aiVoiceReplies, None)
    ensures a.Regenerate? ==> (r.None? <==> FindPrevUserPrompt(s.messages, a.atIndex, s.input) == "")
    ensures a.Regenerate? && r.Some? ==>
      && r.value.0 == s
      && r.value.1 == ReplyCall(s, FindPrevUserPrompt(s.messages, a.atIndex, s.input), false, None)
    ensures a.Continue? ==> r == Some((s, ReplyCall(s, ContinuePrompt, false, None)))
    ensures a.Summarize? ==> (r.None? <==> a.fileParam.None? && s.imageFile.None?)
    ensures a.Summarize? && r.Some? ==>
      var f := ChosenFile(s, a.fileParam).value;
      r.value.0.messages == s.messages + [UserMsg("Summarize file: " + f.name, now)]
      && r.value.1 == SummarizeCall(s, f)
    ensures r.Some? ==> r.value.0.conversationId == s.conversationId
  {
    match a
    case Send =>
      if JsTrim(s.input) == [] && s.imageFile.None? then None
      else
        var p := SendPrompt(s);
        Some((Settle(s, s.(messages := s.messages + [UserMsg(p, now)], input := "")), ReplyCall(s, p, false, s.userKey)))
    case Voice(t) =>
      Some((Settle(s, s.(messages := s.messages + [UserMsg(t, now)])), ReplyCall(s, t, s.imageFile.None? && s.aiVoiceReplies, None)))
    case Regenerate(i) =>
      var p := FindPrevUserPrompt(s.messages, i, s.input);
      if p == "" then None else Some((s, ReplyCall(s, p, false, None)))
    case Continue =>
      Some((s, ReplyCall(s, ContinuePrompt, false, None)))
    case Summarize(fp) =>
      if ChosenFile(s, fp).None? then None
      else
        var f := ChosenFile(s, fp).value;
        Some((Settle(s, s.(messages := s.messages + [UserMsg("Summarize file: " + f.name, now)])), SummarizeCall(s, f)))
  }

  /** What a failed request carries: `response.data.detail` and the
      exception's `message`. */
  datatype ApiError = ApiError(detail: Option<string>, message: Option<string>)

  datatype Reply = Reply(text: string, conversationId: Option<string>, meta: Meta)

  /** The gateway's answer to a turn's request. */
  datatype Answer = Answered(reply: Reply) | Failed(err: ApiError)

  /** `detail || message || "Unknown error"`. */
  function ErrorDetail(e: ApiError): (d: string)
    ensures d != []
    ensures Truthy(e.detail) ==> d == e.detail.value
    ensures !Truthy(e.detail) && Truthy(e.message) ==> d == e.message.value
  {
    if Truthy(e.detail) then e.detail.value
    else if Truthy(e.message) then e.message.value
    else "Unknown error"
  }

  /** The bubble a failed turn shows; it carries no timestamp. */
  function ErrorMsg(e: ApiError): Msg {
    Msg(Assistant, "Error: " + ErrorDetail(e), None, false)
  }

  /** The open conversation's messages are saved in the cache. */
  predicate Synced(s: State) {
    Truthy(s.conversationId) ==>
      s.conversationId.value in s.cache.msgs && s.cache.msgs[s.conversationId.value] == s.messages
  }

  /** The second half of a turn: exactly one assistant bubble is appended,
      and the answer says whether the conversation list is refreshed. */
  function Finish(s: State, a: Action, c: Call, ans: Answer, now: int): (r: (State, bool))
    ensures |r.0.messages| == |s.messages| + 1 && r.0.messages[..|s.messages|] == s.messages
    ensures r.0.messages[|s.messages|].role == Assistant
    ensures r.1 <==> ans.Answered?
    ensures ans.Failed? ==>
      && r.0.messages == s.messages + [ErrorMsg(ans.err)]
      && r.0.conversationId == s.conversationId && r.0.lastMeta == s.lastMeta
    ensures ans.Answered? ==>
      && r.0.messages == s.messages + [Msg(Assistant, ans.reply.text, Some(now), false)]
      && r.0.lastMeta == Some(ans.reply.meta)
    ensures ans.Answered? && c.Chat? ==> r.0.conversationId == ans.reply.conversationId
    ensures ans.Answered? && c.Upload? && Truthy(ans.reply.conversationId) ==> r.0.conversationId == ans.reply.conversationId
    ensures ans.Answered? && c.Upload? && !Truthy(ans.reply.conversationId) ==> r.0.conversationId == s.conversationId
    ensures ans.Answered? && a.Summarize? ==> r.0.imagePrompt == ""
    ensures !(ans.Answered? && a.Summarize?) ==> r.0.imagePrompt == s.imagePrompt
    ensures r.0.conversations == s.conversations && r.0.input == s.input && r.0.cache.convs == s.cache.convs
    ensures Synced(r.0)
  {
    match ans
    case Failed(e) =>
      (Persist(s.(messages := s.messages + [ErrorMsg(e)])), false)
    case Answered(rep) =>
      var id := if c.Chat? || Truthy(rep.conversationId) then rep.conversationId else s.conversationId;
      var s1 := s.(conversationId := id, lastMeta := Some(rep.meta),
                   messages := s.messages + [Msg(Assistant, rep.text, Some(now), false)]);
      (Persist(if a.Summarize? then s1.(imagePrompt := "") else s1), true)
  }

  /** A turn the user starts with a message (send, voice, summarize) shows
      two new bubbles, the user's then the assistant's, whether or not the
      request succeeds; a failed one keeps the conversation id. */
  lemma UserTurnAddsTwo(s: State, a: Action, now: int, ans: Answer, later: int)
    requires a.Send? || a.Voice? || a.Summarize?
    requires Begin(s, a, now).Some?
    ensures var (s1, c) := Begin(s, a, now).value;
      var s2 := Finish(s1, a, c, ans, later).0;
      && |s2.messages| == |s.messages| + 2
      && s2.messages[..|s.messages|] == s.messages
      && s2.messages[|s.messages|].role == User && s2.messages[|s.messages|].sent
      && s2.messages[|s.messages| + 1].role == Assistant
      && (ans.Failed? ==> s2.conversationId == s.conversationId)
  {
    var (s1, c) := Begin(s, a, now).value;
    var s2 := Finish(s1, a, c, ans, later).0;
    if a.Send? {
      assert s2.messages[..|s.messages|] == s1.messages[..|s1.messages|][..|s.messages|];
    } else if a.Voice? {
      assert s2.messages[..|s.messages|] == s1.messages[..|s1.messages|][..|s.messages|];
    } else {
      assert s2.messages[..|s.messages|] == s1.messages[..|s1.messages|][..|s.messages|];
    }
  }

  /** Regenerate and continue add only the assistant's bubble. */
  lemma RetryAddsOne(s: State, a: Action, ans: Answer, later: int)
    requires a.Regenerate? || a.Continue?
    requires Begin(s, a, 0).Some?
    ensures var (s1, c) := Begin(s, a, 0).value;
      var s2 := Finish(s1, a, c, ans, later).0;
      && s1 == s
      && |s2.messages| == |s.messages| + 1
      && s2.messages[..|s.messages|] == s.messages
      && s2.messages[|s.messages|].role == Assistant
  {
  }

  /** Regenerate does nothing exactly when the prompt it would resend is
      empty: the nearest earlier user message is empty, or there is none
      and the draft is empty. */
  lemma RegenerateNoop(s: State, i: int)
    ensures Begin(s, Regenerate(i), 0).None? <==>
      if NoUserBefore(s.messages, i) then s.input == ""
      else s.messages[LastUserBefore(s.messages, i)].content == ""
  {
  }

  // ---------------------------------------------------------------------------
  // Conversation list
  // ---------------------------------------------------------------------------

  /** What `listConversations` gave back. */
  datatype ListAnswer = Listed(list: seq<ConvItem>) | ListFailed

  /** `refreshConversations`. */
  function Refresh(s: State, ans: ListAnswer): (r: State)
    ensures ans.Listed? && |ans.list| > 0 ==> r.conversations == ans.list && r.cache.convs == ans.list
    ensures ans.Listed? && |ans.list| == 0 ==>
      r.conversations == (if |s.cache.convs| > 0 then s.cache.convs else [])
    ensures ans.ListFailed? ==>
      r.conversations == (if |s.cache.convs| > 0 then s.cache.convs else s.conversations)
    ensures r.cache.convs != s.cache.convs ==> ans.Listed? && r.cache.convs == ans.list && |ans.list| > 0
    ensures r.(conversations := s.conversations, cache := s.cache) == s
    ensures r.cache.msgs == s.cache.msgs && r.cache.last == s.cache.last
  {
    match ans
    case Listed(l) =>
      if |l| > 0 then s.(conversations := l, cache := s.cache.(convs := l))
      else if |s.cache.convs| > 0 then s.(conversations := s.cache.convs)
      else s.(conversations := l)
    case ListFailed =>
      if |s.cache.convs| > 0 then s.(conversations := s.cache.convs) else s
  }

  /** Refreshing twice with the same answer is refreshing once. */
  lemma RefreshIdempotent(s: State, ans: ListAnswer)
    ensures Refresh(Refresh(s, ans), ans) == Refresh(s, ans)
  {
  }

  /** Once the cache holds a list, the sidebar is never left empty. */
  lemma RefreshNeverEmptiesWithCache(s: State, ans: ListAnswer)
    requires |s.cache.convs| > 0
    ensures |Refresh(s, ans).conversations| > 0
    ensures |Refresh(s, ans).cache.convs| > 0
  {
  }

  /** What `getConversation(id)` gave back. */
  datatype GetAnswer = Got(id: string, messages: seq<Msg>) | GetFailed

  /** `onSelectConversation(id)`. */
  function Select(s: State, id: string, ans: GetAnswer): (r: State)
    ensures ans.Got? ==> r.conversationId == Some(ans.id) && r.lastMeta == None
    ensures ans.Got? && |ans.messages| > 0 ==> r.messages == ans.messages
    ensures ans.Got? && |ans.messages| == 0 ==> r.messages == CachedOrEmpty(s.cache, Some(id))
    ensures ans.GetFailed? ==>
      && r.conversationId == Some(id) && r.messages == CachedOrEmpty(s.cache, Some(id))
      && r.lastMeta == s.lastMeta
    ensures r.conversations == s.conversations && r.cache.convs == s.cache.convs
  {
    match ans
    case Got(cid, msgs) =>
      var m := if |msgs| > 0 then msgs else CachedOrEmpty(s.cache, Some(id));
      Settle(s, s.(conversationId := Some(cid), messages := m, lastMeta := None))
    case GetFailed =>
      Settle(s, s.(conversationId := Some(id), messages := CachedOrEmpty(s.cache, Some(id))))
  }

  /** With the backend down, reopening a conversation shows what was last
      saved for it. */
  lemma SelectOfflineRestores(s: State, id: string)
    requires id != "" && id in s.cache.msgs
    ensures Select(s, id, GetFailed).messages == s.cache.msgs[id]
  {
  }

  /** The cached list without the deleted conversation. */
  function Without(convs: seq<ConvItem>, id: string): (r: seq<ConvItem>)
    ensures forall c :: c in r <==> c in convs && c.id != id
    ensures IsSubseq(r, convs)
  {
    FilterIsSubseq(convs, (c: ConvItem) => c.id != id);
    Filter(convs, (c: ConvItem) => c.id != id)
  }

  /** Drops the conversation's cached messages and its cached list entry. */
  function PurgeCache(c: Cache, id: string): (r: Cache)
    ensures id !in r.msgs && r.msgs == c.msgs - {id}
    ensures forall x :: x in r.convs ==> x.id != id
    ensures r.last == c.last
  {
    c.(msgs := c.msgs - {id}, convs := Without(c.convs, id))
  }

  /** Closing the conversation if it is the open one. */
  function CloseIfOpen(s: State, id: string): (r: State)
    ensures s.conversationId == Some(id) ==> r.conversationId == None && r.messages == []
    ensures s.conversationId != Some(id) ==> r == s
    ensures r.conversations == s.conversations && r.cache == s.cache
  {
    Settle(s, if s.conversationId == Some(id) then s.(conversationId := None, messages := []) else s)
  }

  /** `onDeleteConversation(id)` as written: after a successful delete the
      page closes the conversation, refreshes the list, and only then purges
      the cache; a failed delete changes nothing. */
  function DeleteAsWritten(s: State, id: string, deleted: bool, ans: ListAnswer): (r: State)
    ensures !deleted ==> r == s
    ensures deleted ==> id !in r.cache.msgs && (forall x :: x in r.cache.convs ==> x.id != id)
    ensures deleted && s.conversationId == Some(id) ==> r.conversationId == None && r.messages == []
    ensures deleted && s.conversationId != Some(id) ==> r.conversationId == s.conversationId && r.messages == s.messages
  {
    if !deleted then s
    else
      var s1 := Refresh(CloseIfOpen(s, id), ans);
      s1.(cache := PurgeCache(s1.cache, id))
  }

  /** The refresh inside the as-written delete can put the deleted
      conversation back into the sidebar: the backend answers with an
      empty list (or fails), so the refresh falls back to the cached list,
      which still holds the conversation because it is purged afterwards. */
  lemma DeleteAsWrittenKeepsDeleted(c: ConvItem, now: int)
    ensures var s := Initial(now, Cache([c], map[], None)).(conversations := [c]);
      c in DeleteAsWritten(s, c.id, true, Listed([])).conversations
      && c in DeleteAsWritten(s, c.id, true, ListFailed).conversations
  {
  }

  /** `onDeleteConversation(id)` corrected: the conversation is removed from
      the cache and from the sidebar before the list is refreshed. */
  function Delete(s: State, id: string, deleted: bool, ans: ListAnswer): (r: State)
    ensures !deleted ==> r == s
    ensures deleted ==> id !in r.cache.msgs
    ensures deleted ==> forall x :: x in r.cache.convs && x.id == id ==> ans.Listed? && x in ans.list
    ensures deleted && s.conversationId == Some(id) ==> r.conversationId == None && r.messages == []
  {
    if !deleted then s
    else
      var s1 := CloseIfOpen(s, id);
      var s2 := s1.(cache := PurgeCache(s1.cache, id), conversations := Without(s1.conversations, id));
      Refresh(s2, ans)
  }

  /** After a successful delete the conversation is gone from the sidebar
      unless the backend itself still lists it. */
  lemma DeleteRemoves(s: State, id: string, ans: ListAnswer)
    ensures forall x :: x in Delete(s, id, true, ans).conversations && x.id == id ==>
      ans.Listed? && x in ans.list
  {
  }
}
