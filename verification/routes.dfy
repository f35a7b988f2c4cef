/** The chat endpoints of `routes.py`: a turn stores the raw user message,
    composes the prompt from the user's memory and an optional tool, asks
    the model, and stores the reply. The repository is the in-memory one;
    the retrieval search, the web search, the model and speech synthesis
    are parameters. */
module Routes {
  import opened Outcome
  import opened Text
  import ChatRepo
  import Memory

  // ---------------------------------------------------------------------------
  // Prompt composition
  // ---------------------------------------------------------------------------

  const MemoryIntro: string := "Use the user's profile and prior summaries to personalize and remain consistent.\n"
  const RagIntro: string := "Use the following context to answer.\n"
  const WebIntro: string := "Use the following web results if relevant.\n"
  const QuestionLabel: string := "\n\nQuestion: "

  /** The tool arguments a request may carry; a missing key is `None`. */
  datatype ToolArgs = ToolArgs(query: Option<string>, k: Option<int>)

  /** A retrieval hit; `score` is the score already printed with three
      decimals. */
  datatype Hit = Hit(score: string, text: string)

  datatype WebResult = WebResult(title: string, url: string, snippet: string)

  /** `text` wrapped as the question after `intro` and `context`. */
  function Wrap(intro: string, context: string, text: string): (r: string)
    ensures EndsWith(r, QuestionLabel + text)
  {
    var r := intro + context + QuestionLabel + text;
    assert r[|r| - |QuestionLabel + text|..] == QuestionLabel + text;
    r
  }

  /** The message with the user's memory in front, when there is any. */
  function WithMemory(message: string, memText: string): (r: string)
    ensures memText == "" ==> r == message
    ensures memText != "" ==> EndsWith(r, QuestionLabel + message) && StartsWith(r, MemoryIntro + memText)
  {
    if memText == "" then message
    else
      var r := Wrap(MemoryIntro, memText, message);
      assert r[..|MemoryIntro + memText|] == MemoryIntro + memText;
      r
  }

  function HitLines(hits: seq<Hit>, from: nat): seq<string>
    decreases |hits|
  {
    if |hits| == 0 then []
    else ["[doc " + NatToString(from) + " score=" + hits[0].score + "] " + hits[0].text]
         + HitLines(hits[1..], from + 1)
  }

  function WebLines(results: seq<WebResult>, from: nat): seq<string>
    decreases |results|
  {
    if |results| == 0 then []
    else ["[web " + NatToString(from) + "] " + results[0].title + " - " + results[0].url + "\n" + results[0].snippet]
         + WebLines(results[1..], from + 1)
  }

  lemma {:induction false} HitLinesCount(hits: seq<Hit>, from: nat)
    ensures |HitLines(hits, from)| == |hits|
    decreases |hits|
  {
    if |hits| > 0 {
      HitLinesCount(hits[1..], from + 1);
    }
  }

  /** The prompt after the tool step. The tool name is compared lower-cased;
      `rag_search` needs tool arguments, `web_search` defaults its query to
      the message and `k` to 5; a failing tool, or any other tool name,
      leaves the prompt as it was. */
  function WithTool(userMessage: string, tool: Option<string>, args: Option<ToolArgs>,
                    rag: (string, int) -> Result<seq<Hit>>,
                    web: (string, int) -> Result<seq<WebResult>>): (r: string)
    ensures var t := Lower(tool.GetOr(""));
            && (t != "rag_search" && t != "web_search" ==> r == userMessage)
            && (t == "rag_search" && args.None? ==> r == userMessage)
            && (t == "rag_search" && args.Some? ==>
                  var q := args.value.query.GetOr(userMessage);
                  var k := args.value.k.GetOr(5);
                  && (rag(q, k).Err? ==> r == userMessage)
                  && (rag(q, k).Ok? ==> r == Wrap(RagIntro, Join(HitLines(rag(q, k).value, 1), "\n\n"), userMessage)))
            && (t == "web_search" ==>
                  var a := args.GetOr(ToolArgs(None, None));
                  var q := a.query.GetOr(userMessage);
                  var k := a.k.GetOr(5);
                  && (web(q, k).Err? ==> r == userMessage)
                  && (web(q, k).Ok? ==> r == Wrap(WebIntro, Join(WebLines(web(q, k).value, 1), "\n\n"), userMessage)))
    ensures EndsWith(r, userMessage)
  {
    var t := Lower(tool.GetOr(""));
    var r :=
      if t == "rag_search" then
        if args.None? then userMessage
        else
          var q := args.value.query.GetOr(userMessage);
          match rag(q, args.value.k.GetOr(5))
          case Err(_) => userMessage
          case Ok(hits) => Wrap(RagIntro, Join(HitLines(hits, 1), "\n\n"), userMessage)
      else if t == "web_search" then
        var a := args.GetOr(ToolArgs(None, None));
        match web(a.query.GetOr(userMessage), a.k.GetOr(5))
        case Err(_) => userMessage
        case Ok(results) => Wrap(WebIntro, Join(WebLines(results, 1), "\n\n"), userMessage)
      else userMessage;
    EndsWithSuffix(r, QuestionLabel, userMessage);
    r
  }

  lemma EndsWithSuffix(s: string, a: string, b: string)
    requires EndsWith(s, a + b) || s == b
    ensures EndsWith(s, b)
  {
    if s != b {
      assert s[|s| - |b|..] == (a + b)[|a|..];
    }
  }

  /** The prompt sent to the model: memory first, then the tool context. */
  function ComposePrompt(message: string, memText: string, tool: Option<string>, args: Option<ToolArgs>,
                         rag: (string, int) -> Result<seq<Hit>>,
                         web: (string, int) -> Result<seq<WebResult>>): (r: string)
    ensures EndsWith(r, message)
    ensures memText != "" ==> EndsWith(r, QuestionLabel + message)
    ensures var t := Lower(tool.GetOr(""));
            t != "rag_search" && t != "web_search" ==> r == WithMemory(message, memText)
  {
    var m := WithMemory(message, memText);
    EndsWithSuffix(m, QuestionLabel, message);
    var r := WithTool(m, tool, args, rag, web);
    EndsWithTrans(r, m, message);
    if memText != "" then
      EndsWithTrans(r, m, QuestionLabel + message);
      r
    else r
  }

  lemma EndsWithTrans(a: string, b: string, c: string)
    requires EndsWith(a, b) && EndsWith(b, c)
    ensures EndsWith(a, c)
  {
    assert a[|a| - |c|..] == a[|a| - |b|..][|b| - |c|..];
  }

  /** Tool names differing only in letter case compose the same prompt. */
  lemma ToolNameCaseInsensitive(message: string, memText: string, tool: string, args: Option<ToolArgs>,
                                rag: (string, int) -> Result<seq<Hit>>,
                                web: (string, int) -> Result<seq<WebResult>>)
    ensures ComposePrompt(message, memText, Some(tool), args, rag, web)
         == ComposePrompt(message, memText, Some(Lower(tool)), args, rag, web)
  {
    assert Lower(Lower(tool)) == Lower(tool);
  }

  /** With no memory and no recognised tool the prompt is the message. */
  lemma PlainPrompt(message: string, tool: Option<string>, args: Option<ToolArgs>,
                    rag: (string, int) -> Result<seq<Hit>>,
                    web: (string, int) -> Result<seq<WebResult>>)
    requires Lower(tool.GetOr("")) != "rag_search" && Lower(tool.GetOr("")) != "web_search"
    ensures ComposePrompt(message, "", tool, args, rag, web) == message
  {
  }

  // ---------------------------------------------------------------------------
  // The chat turn
  // ---------------------------------------------------------------------------

  datatype ChatRequest = ChatRequest(
    message: string,
    quality: Option<string>,
    conversationId: Option<string>,
    userKey: Option<string>,
    tool: Option<string>,
    toolArgs: Option<ToolArgs>)

  /** What the model step returns: the reply, the model and the quality. */
  datatype Generated = Generated(reply: string, model: string, quality: string)

  datatype ChatResponse = ChatResponse(reply: string, model: string, quality: string, conversationId: string)

  /** The store after the turn, and the response or the error raised. */
  datatype ChatOutcome = ChatOutcome(store: ChatRepo.Store, response: Result<ChatResponse>)

  /** The model step of a turn: the reply is stored under `id` only when
      the model answers. */
  function ReplyStep(st: ChatRepo.Store, id: string, prompt: string, history: seq<ChatRepo.StoredMessage>,
                     now: int, generate: (string, seq<ChatRepo.StoredMessage>) -> Result<Generated>): (r: ChatOutcome)
    requires ChatRepo.Valid(st) && id in st.convs
    ensures ChatRepo.Valid(r.store) && r.store.convs.Keys == st.convs.Keys && id in r.store.msgs
    ensures generate(prompt, history).Err? ==> r == ChatOutcome(st, Err(generate(prompt, history).error))
    ensures generate(prompt, history).Ok? ==>
              var g := generate(prompt, history).value;
              && r.response == Ok(ChatResponse(g.reply, g.model, g.quality, id))
              && r.store.msgs[id] == st.msgs[id] + [ChatRepo.StoredMessage("assistant", g.reply, now)]
              && forall other | other in st.convs && other != id :: r.store.msgs[other] == st.msgs[other]
  {
    match generate(prompt, history)
    case Err(err) => ChatOutcome(st, Err(err))
    case Ok(g) =>
      var st2 := ChatRepo.AddMessage(st, id, "assistant", g.reply, now).value;
      ChatOutcome(st2, Ok(ChatResponse(g.reply, g.model, g.quality, id)))
  }

  /** `chat`: ensure the conversation, store the raw message, read the
      history back, compose the prompt and ask the model; the reply is
      stored only when the model answers. Reading back a soft-deleted
      conversation fails after the user message was stored. The caller
      supplies `mem`, the memory already loaded for `req.userKey`, and
      `generate`, which stands for `generate_reply` with the request's
      quality already bound; neither is derived from `req` here. */
  function Chat(st: ChatRepo.Store, req: ChatRequest, mem: Memory.UserMemory, freshId: string, now: int,
                rag: (string, int) -> Result<seq<Hit>>,
                web: (string, int) -> Result<seq<WebResult>>,
                generate: (string, seq<ChatRepo.StoredMessage>) -> Result<Generated>): (r: ChatOutcome)
    requires ChatRepo.Valid(st)
    ensures ChatRepo.Valid(r.store)
    ensures var e := ChatRepo.EnsureConversation(st, req.conversationId, req.message, req.userKey, freshId, now);
            var user := ChatRepo.StoredMessage("user", req.message, now);
            var history := e.store.msgs[e.id] + [user];
            var prompt := ComposePrompt(req.message, Memory.MemoryText(mem), req.tool, req.toolArgs, rag, web);
            && e.id in r.store.msgs
            && r.store.convs.Keys == e.store.convs.Keys
            && (!ChatRepo.Live(e.store, e.id) ==>
                  r.response == Err("Conversation not found") && r.store.msgs[e.id] == history)
            && (ChatRepo.Live(e.store, e.id) && generate(prompt, history).Err? ==>
                  r.response == Err(generate(prompt, history).error) && r.store.msgs[e.id] == history)
            && (ChatRepo.Live(e.store, e.id) && generate(prompt, history).Ok? ==>
                  && r.response.Ok?
                  && r.response.value.conversationId == e.id
                  && r.response.value.reply == generate(prompt, history).value.reply
                  && r.store.msgs[e.id] == history + [ChatRepo.StoredMessage("assistant", r.response.value.reply, now)])
  {
    var e := ChatRepo.EnsureConversation(st, req.conversationId, req.message, req.userKey, freshId, now);
    var st1 := ChatRepo.AddMessage(e.store, e.id, "user", req.message, now).value;
    match ChatRepo.GetConversation(st1, e.id)
    case Err(err) => ChatOutcome(st1, Err(err))
    case Ok(detail) =>
      var prompt := ComposePrompt(req.message, Memory.MemoryText(mem), req.tool, req.toolArgs, rag, web);
      ReplyStep(st1, e.id, prompt, detail.messages, now, generate)
  }

  /** A successful turn on a live conversation adds exactly two messages,
      the raw user message and the reply, and leaves every other
      conversation alone. */
  lemma ChatAddsTwo(st: ChatRepo.Store, req: ChatRequest, mem: Memory.UserMemory, freshId: string, now: int,
                    rag: (string, int) -> Result<seq<Hit>>,
                    web: (string, int) -> Result<seq<WebResult>>,
                    generate: (string, seq<ChatRepo.StoredMessage>) -> Result<Generated>)
    requires ChatRepo.Valid(st) && Truthy(req.conversationId) && ChatRepo.Live(st, req.conversationId.value)
    ensures var r := Chat(st, req, mem, freshId, now, rag, web, generate);
            var id := req.conversationId.value;
            && (r.response.Ok? ==> |r.store.msgs[id]| == |st.msgs[id]| + 2 && r.store.msgs[id][|st.msgs[id]|].content == req.message)
            && (r.response.Err? ==> |r.store.msgs[id]| == |st.msgs[id]| + 1)
            && (forall other | other in st.msgs && other != id :: r.store.msgs[other] == st.msgs[other])
  {
    var r := Chat(st, req, mem, freshId, now, rag, web, generate);
    var id := req.conversationId.value;
    var st1 := ChatRepo.AddMessage(st, id, "user", req.message, now).value;
    assert forall other | other in st.msgs && other != id :: st1.msgs[other] == st.msgs[other];
  }

  /** `chat_voice`: the chat turn, then speech for the reply; a synthesis
      failure is an error although both messages are already stored. */
  function ChatVoice(st: ChatRepo.Store, req: ChatRequest, mem: Memory.UserMemory, freshId: string, now: int,
                     rag: (string, int) -> Result<seq<Hit>>,
                     web: (string, int) -> Result<seq<WebResult>>,
                     generate: (string, seq<ChatRepo.StoredMessage>) -> Result<Generated>,
                     tts: string -> Result<string>): (r: (ChatRepo.Store, Result<(ChatResponse, string)>))
    requires ChatRepo.Valid(st)
    ensures var c := Chat(st, req, mem, freshId, now, rag, web, generate);
            && r.0 == c.store
            && (c.response.Err? ==> r.1 == Err(c.response.error))
            && (c.response.Ok? && tts(c.response.value.reply).Err? ==> r.1 == Err(tts(c.response.value.reply).error))
            && (r.1.Ok? ==> r.1.value.0 == c.response.value && tts(r.1.value.0.reply) == Ok(r.1.value.1))
  {
    var c := Chat(st, req, mem, freshId, now, rag, web, generate);
    match c.response
    case Err(e) => (c.store, Err(e))
    case Ok(resp) =>
      match tts(resp.reply)
      case Err(e) => (c.store, Err(e))
      case Ok(audio) => (c.store, Ok((resp, audio)))
  }

  // ---------------------------------------------------------------------------
  // Image and file turns
  // ---------------------------------------------------------------------------

  /** The user-side entry and title seed of `vision_summarize` and
      `files_ask`. */
  datatype Upload = Upload(titleSeed: string, userText: string, stored: string)

  /** Shared by both endpoints: the prompt stripped, or the default
      instruction (which has no surrounding whitespace to strip); the stored
      entry names the file and its type. */
  function UploadEntry(prompt: Option<string>, filename: Option<string>, mime: string,
                       tag: string, field: string, defaultText: string,
                       seedDefault: string, nameDefault: string): (u: Upload)
    ensures u.userText == (if Truthy(prompt) then PyStrip(prompt.value) else defaultText)
    ensures Truthy(prompt) ==> u.titleSeed == prompt.value
    ensures !Truthy(prompt) ==> u.titleSeed == (if Truthy(filename) then filename.value else seedDefault)
    ensures EndsWith(u.stored, "\n" + field + ": " + u.userText)
    ensures var name := if Truthy(filename) then filename.value else nameDefault;
      && StartsWith(u.stored, tag + " " + name + " (" + mime + ")")
      && |u.stored| == |tag + " " + name + " (" + mime + ")"| + |"\n" + field + ": " + u.userText|
  {
    var text := if Truthy(prompt) then PyStrip(prompt.value) else defaultText;
    var name := if Truthy(filename) then filename.value else nameDefault;
    var seed := if Truthy(prompt) then prompt.value else if Truthy(filename) then filename.value else seedDefault;
    var line := "\n" + field + ": " + text;
    EndsWithConcat(tag + " " + name + " (" + mime + ")", line);
    assert (tag + " " + name + " (" + mime + ")" + line)[..|tag + " " + name + " (" + mime + ")"|]
        == tag + " " + name + " (" + mime + ")";
    Upload(seed, text, tag + " " + name + " (" + mime + ")" + line)
  }

  const ImageDefault: string := "Summarize this image"
  const DocumentDefault: string := "Summarize this document"

  /** `vision_summarize`: with no prompt the instruction is "Summarize this
      image"; the content type defaults to `image/png`. */
  function VisionUpload(prompt: Option<string>, filename: Option<string>, mime: Option<string>): (u: Upload)
    ensures !Truthy(prompt) ==> u.userText == ImageDefault
    ensures Truthy(prompt) ==> u.userText == PyStrip(prompt.value)
    ensures EndsWith(u.stored, "\n" + "Instruction" + ": " + u.userText)
  {
    UploadEntry(prompt, filename, if Truthy(mime) then mime.value else "image/png",
                "[Image]", "Instruction", ImageDefault, "image summary", "uploaded image")
  }

  /** `files_ask`: with no prompt the question is "Summarize this document";
      the content type defaults to `application/octet-stream`. */
  function FileUpload(prompt: Option<string>, filename: Option<string>, mime: Option<string>): (u: Upload)
    ensures !Truthy(prompt) ==> u.userText == DocumentDefault
    ensures Truthy(prompt) ==> u.userText == PyStrip(prompt.value)
    ensures EndsWith(u.stored, "\n" + "Question" + ": " + u.userText)
  {
    UploadEntry(prompt, filename, if Truthy(mime) then mime.value else "application/octet-stream",
                "[File]", "Question", DocumentDefault, "file question", "uploaded file")
  }
}
