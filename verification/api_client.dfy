/** The request shaping of the browser API client `api.js`: which fields go
    into a JSON body or a multipart form, and what the two interceptors do
    to the outgoing headers and to a failed response. The HTTP transport is
    not modelled; a request is the value the client would hand to it. */
module ApiClient {
  import opened Outcome
  import opened Text
  import Auth

  /** Arguments of a retrieval tool call: `{ query, k }`. */
  datatype ToolArgs = ToolArgs(query: string, k: int)

  /** A value in a JSON body. */
  datatype Json = JStr(s: string) | JArgs(args: ToolArgs)

  type Body = map<string, Json>

  /** Optional arguments of `sendMessage` / `sendVoice` (`opts`). */
  datatype Opts = Opts(userKey: Option<string>, tool: Option<string>, toolArgs: Option<ToolArgs>)

  /** `voiceOptions` of `sendVoice`. */
  datatype VoiceOpts = VoiceOpts(voiceId: Option<string>, ttsModel: Option<string>, ttsOutput: Option<string>)

  const NoVoice: VoiceOpts := VoiceOpts(None, None, None)

  /** `body[key] = value` when `value` is truthy. */
  function PutIf(body: Body, key: string, value: Option<string>): (r: Body)
    ensures Truthy(value) ==> r == body[key := JStr(value.value)]
    ensures !Truthy(value) ==> r == body
  {
    if Truthy(value) then body[key := JStr(value.value)] else body
  }

  /** The body `sendMessage` posts to `/chat`. */
  function MessageBody(message: string, quality: Option<string>, conversationId: Option<string>, opts: Opts): (b: Body)
    ensures "message" in b && b["message"] == JStr(message)
    ensures "quality" in b <==> Truthy(quality)
    ensures "conversation_id" in b <==> Truthy(conversationId)
    ensures "user_key" in b <==> Truthy(opts.userKey)
    ensures "tool" in b <==> Truthy(opts.tool)
    ensures "tool_args" in b <==> Truthy(opts.tool) && opts.toolArgs.Some?
    ensures "tool_args" in b ==> b["tool_args"] == JArgs(opts.toolArgs.value)
    ensures "quality" in b ==> b["quality"] == JStr(quality.value)
    ensures "conversation_id" in b ==> b["conversation_id"] == JStr(conversationId.value)
    ensures "user_key" in b ==> b["user_key"] == JStr(opts.userKey.value)
    ensures "tool" in b ==> b["tool"] == JStr(opts.tool.value)
    ensures b.Keys <= {"message", "quality", "conversation_id", "user_key", "tool", "tool_args"}
    ensures forall k | k in b && k != "message" && k != "tool_args" :: b[k].JStr? && b[k].s != ""
  {
    var b := map["message" := JStr(message)];
    var b := PutIf(b, "quality", quality);
    var b := PutIf(b, "conversation_id", conversationId);
    var b := PutIf(b, "user_key", opts.userKey);
    if Truthy(opts.tool) then
      var b := b["tool" := JStr(opts.tool.value)];
      if opts.toolArgs.Some? then b["tool_args" := JArgs(opts.toolArgs.value)] else b
    else b
  }

  /** How a server reads a text field of a JSON body: absent, or not text,
      reads as missing. */
  function TextField(b: Body, key: string): Option<string> {
    if key in b && b[key].JStr? then Some(b[key].s) else None
  }

  /** Reading the chat body back gives the arguments, with every falsy
      optional argument read as missing, and the tool arguments only next
      to a tool. */
  lemma MessageBodyReadBack(message: string, quality: Option<string>, conversationId: Option<string>, opts: Opts)
    ensures var b := MessageBody(message, quality, conversationId, opts);
      && TextField(b, "message") == Some(message)
      && TextField(b, "quality") == (if Truthy(quality) then quality else None)
      && TextField(b, "conversation_id") == (if Truthy(conversationId) then conversationId else None)
      && TextField(b, "user_key") == (if Truthy(opts.userKey) then opts.userKey else None)
      && TextField(b, "tool") == (if Truthy(opts.tool) then opts.tool else None)
      && ("tool_args" in b ==> Truthy(opts.tool) && b["tool_args"] == JArgs(opts.toolArgs.value))
  {
  }

  /** The body `sendVoice` posts to `/chat/voice`: the chat body plus the
      voice fields that are set. */
  function VoiceBody(message: string, quality: Option<string>, conversationId: Option<string>, voice: VoiceOpts, opts: Opts): (b: Body)
    ensures "voice_id" in b <==> Truthy(voice.voiceId)
    ensures "tts_model" in b <==> Truthy(voice.ttsModel)
    ensures "tts_output" in b <==> Truthy(voice.ttsOutput)
    ensures "voice_id" in b ==> b["voice_id"] == JStr(voice.voiceId.value)
    ensures "tts_model" in b ==> b["tts_model"] == JStr(voice.ttsModel.value)
    ensures "tts_output" in b ==> b["tts_output"] == JStr(voice.ttsOutput.value)
    ensures forall k | k in MessageBody(message, quality, conversationId, opts) ::
      k in b && b[k] == MessageBody(message, quality, conversationId, opts)[k]
  {
    var b := MessageBody(message, quality, conversationId, opts);
    assert "voice_id" !in b && "tts_model" !in b && "tts_output" !in b;
    var b := PutIf(b, "voice_id", voice.voiceId);
    var b := PutIf(b, "tts_model", voice.ttsModel);
    PutIf(b, "tts_output", voice.ttsOutput)
  }

  /** Without voice options the voice body is exactly the chat body. */
  lemma VoiceWithoutOptions(message: string, quality: Option<string>, conversationId: Option<string>, opts: Opts)
    ensures VoiceBody(message, quality, conversationId, NoVoice, opts) == MessageBody(message, quality, conversationId, opts)
  {
  }

  /** The voice fields never overwrite a chat field. */
  lemma VoiceKeepsChatFields(message: string, quality: Option<string>, conversationId: Option<string>, voice: VoiceOpts, opts: Opts)
    ensures var b := VoiceBody(message, quality, conversationId, voice, opts);
      var m := MessageBody(message, quality, conversationId, opts);
      b.Keys == m.Keys + (b.Keys - m.Keys) && (b.Keys - m.Keys) <= {"voice_id", "tts_model", "tts_output"}
  {
  }

  /** A part of a multipart form. */
  datatype Part = FilePart(fileName: string) | TextPart(text: string)

  /** The form field names the upload endpoints accept. */
  datatype FormKey = FileKey | PromptKey | QualityKey | ConversationKey | UserKeyKey

  /** The wire name of a form field. */
  function WireName(k: FormKey): string {
    match k
    case FileKey => "file"
    case PromptKey => "prompt"
    case QualityKey => "quality"
    case ConversationKey => "conversation_id"
    case UserKeyKey => "user_key"
  }

  type Form = seq<(FormKey, Part)>

  /** The part `form.append(key, value)` adds when `value` is truthy. */
  function PartIf(key: FormKey, value: Option<string>): (r: Form)
    ensures |r| <= 1
    ensures r != [] <==> Truthy(value)
    ensures r != [] ==> r[0] == (key, TextPart(value.value))
  {
    if Truthy(value) then [(key, TextPart(value.value))] else []
  }

  /** The field names a form carries. */
  function Fields(form: Form): set<FormKey> {
    set i | 0 <= i < |form| :: form[i].0
  }

  lemma FieldsConcat(a: Form, b: Form)
    ensures Fields(a + b) == Fields(a) + Fields(b)
  {
    forall k | k in Fields(a + b)
      ensures k in Fields(a) + Fields(b)
    {
      var i :| 0 <= i < |a + b| && (a + b)[i].0 == k;
      if i >= |a| {
        assert b[i - |a|].0 == k;
      }
    }
    forall k | k in Fields(a)
      ensures k in Fields(a + b)
    {
      var i :| 0 <= i < |a| && a[i].0 == k;
      assert (a + b)[i].0 == k;
    }
    forall k | k in Fields(b)
      ensures k in Fields(a + b)
    {
      var i :| 0 <= i < |b| && b[i].0 == k;
      assert (a + b)[|a| + i].0 == k;
    }
  }

  /** The field of an optional part: the key alone, or nothing. */
  lemma FieldsOfPart(key: FormKey, value: Option<string>)
    ensures Fields(PartIf(key, value)) == if Truthy(value) then {key} else {}
  {
    if Truthy(value) {
      assert PartIf(key, value)[0].0 == key;
    }
  }

  /** The form `summarizeImage` and `askAboutFile` both build: the file
      first, then prompt, quality, conversation id and user key, each only
      when truthy. */
  function UploadForm(fileName: string, prompt: Option<string>, quality: Option<string>,
                      conversationId: Option<string>, userKey: Option<string>): (f: Form)
    ensures |f| >= 1 && f[0] == (FileKey, FilePart(fileName))
    ensures forall i | 1 <= i < |f| :: f[i].0 != FileKey
    ensures forall i | 1 <= i < |f| :: f[i].1.TextPart? && f[i].1.text != ""
    ensures |f| == 1 + (if Truthy(prompt) then 1 else 0) + (if Truthy(quality) then 1 else 0)
                     + (if Truthy(conversationId) then 1 else 0) + (if Truthy(userKey) then 1 else 0)
    ensures Ordered(f)
  {
    var u := PartIf(UserKeyKey, userKey);
    var c := PartIf(ConversationKey, conversationId) + u;
    var q := PartIf(QualityKey, quality) + c;
    var p := PartIf(PromptKey, prompt) + q;
    OrderedPart(UserKeyKey, userKey, []);
    assert u + [] == u;
    OrderedPart(ConversationKey, conversationId, u);
    OrderedPart(QualityKey, quality, c);
    OrderedPart(PromptKey, prompt, q);
    FileFirst(fileName, p);
    [(FileKey, FilePart(fileName))] + p
  }

  /** Every part is a non-empty text part of a field other than the file. */
  predicate TextParts(f: Form) {
    forall i | 0 <= i < |f| :: f[i].0 != FileKey && f[i].1.TextPart? && f[i].1.text != ""
  }

  /** The file part put before ordered text parts. */
  lemma FileFirst(fileName: string, p: Form)
    requires Ordered(p) && TextParts(p)
    ensures var f := [(FileKey, FilePart(fileName))] + p;
      && Ordered(f)
      && (forall i | 1 <= i < |f| :: f[i].0 != FileKey)
      && (forall i | 1 <= i < |f| :: f[i].1.TextPart? && f[i].1.text != "")
  {
    var f := [(FileKey, FilePart(fileName))] + p;
    assert forall i | 1 <= i < |f| :: f[i] == p[i - 1];
  }

  /** Position of a field in the order the upload forms append them. */
  function FieldRank(k: FormKey): nat {
    match k
    case FileKey => 0
    case PromptKey => 1
    case QualityKey => 2
    case ConversationKey => 3
    case UserKeyKey => 4
  }

  /** The parts of a form come in field order, so no field repeats. */
  predicate Ordered(f: Form) {
    forall i, j | 0 <= i < j < |f| :: FieldRank(f[i].0) < FieldRank(f[j].0)
  }

  /** An optional part put before parts of later fields keeps the order. */
  lemma OrderedPart(key: FormKey, value: Option<string>, rest: Form)
    requires Ordered(rest)
    requires forall i | 0 <= i < |rest| :: FieldRank(key) < FieldRank(rest[i].0)
    requires key != FileKey && TextParts(rest)
    ensures Ordered(PartIf(key, value) + rest) && TextParts(PartIf(key, value) + rest)
    ensures forall i | 0 <= i < |PartIf(key, value) + rest| :: FieldRank(key) <= FieldRank((PartIf(key, value) + rest)[i].0)
  {
    if Truthy(value) {
      var f := PartIf(key, value) + rest;
      assert forall i | 1 <= i < |f| :: f[i] == rest[i - 1];
    } else {
      assert PartIf(key, value) + rest == rest;
    }
  }

  /** How a server reads a text field of a form: the first part under that
      field name, when it is text. */
  function FormText(f: Form, key: FormKey): Option<string> {
    if |f| == 0 then None
    else if f[0].0 == key && f[0].1.TextPart? then Some(f[0].1.text)
    else if f[0].0 == key then None
    else FormText(f[1..], key)
  }

  /** A field the form does not carry reads as missing. */
  lemma {:induction false} FormTextMissing(f: Form, key: FormKey)
    requires forall i | 0 <= i < |f| :: f[i].0 != key
    ensures FormText(f, key) == None
  {
    if |f| > 0 {
      assert forall i | 0 <= i < |f[1..]| :: f[1..][i] == f[i + 1];
      FormTextMissing(f[1..], key);
    }
  }

  /** Reading through an optional part. */
  lemma FormTextPart(key: FormKey, value: Option<string>, rest: Form, k: FormKey)
    ensures k != key ==> FormText(PartIf(key, value) + rest, k) == FormText(rest, k)
    ensures k == key && Truthy(value) ==> FormText(PartIf(key, value) + rest, k) == value
    ensures k == key && !Truthy(value) ==> FormText(PartIf(key, value) + rest, k) == FormText(rest, k)
  {
    if Truthy(value) {
      assert (PartIf(key, value) + rest)[1..] == rest;
    } else {
      assert PartIf(key, value) + rest == rest;
    }
  }

  /** Reading the upload form back gives the optional arguments, each falsy
      one read as missing. */
  lemma UploadFormReadBack(fileName: string, prompt: Option<string>, quality: Option<string>,
                           conversationId: Option<string>, userKey: Option<string>)
    ensures var f := UploadForm(fileName, prompt, quality, conversationId, userKey);
      && FormText(f, PromptKey) == (if Truthy(prompt) then prompt else None)
      && FormText(f, QualityKey) == (if Truthy(quality) then quality else None)
      && FormText(f, ConversationKey) == (if Truthy(conversationId) then conversationId else None)
      && FormText(f, UserKeyKey) == (if Truthy(userKey) then userKey else None)
  {
    var u := PartIf(UserKeyKey, userKey);
    var c := PartIf(ConversationKey, conversationId) + u;
    var q := PartIf(QualityKey, quality) + c;
    var p := PartIf(PromptKey, prompt) + q;
    var f := UploadForm(fileName, prompt, quality, conversationId, userKey);
    assert f[1..] == p;
    forall k | k != FileKey
      ensures FormText(f, k) == FormText(p, k)
    {
    }
    FormTextPart(PromptKey, prompt, q, PromptKey);
    FormTextPart(PromptKey, prompt, q, QualityKey);
    FormTextPart(PromptKey, prompt, q, ConversationKey);
    FormTextPart(PromptKey, prompt, q, UserKeyKey);
    FormTextPart(QualityKey, quality, c, QualityKey);
    FormTextPart(QualityKey, quality, c, ConversationKey);
    FormTextPart(QualityKey, quality, c, UserKeyKey);
    FormTextPart(ConversationKey, conversationId, u, ConversationKey);
    FormTextPart(ConversationKey, conversationId, u, UserKeyKey);
    FormTextPart(UserKeyKey, userKey, [], UserKeyKey);
    assert u + [] == u;
    FormTextMissing(q, PromptKey);
    FormTextMissing(c, QualityKey);
    FormTextMissing(u, ConversationKey);
    FormTextMissing([], UserKeyKey);
  }

  /** Which form fields are present: the file, and exactly the truthy
      arguments. */
  lemma UploadFormFields(fileName: string, prompt: Option<string>, quality: Option<string>,
                         conversationId: Option<string>, userKey: Option<string>)
    ensures var fields := Fields(UploadForm(fileName, prompt, quality, conversationId, userKey));
      && FileKey in fields
      && (PromptKey in fields <==> Truthy(prompt))
      && (QualityKey in fields <==> Truthy(quality))
      && (ConversationKey in fields <==> Truthy(conversationId))
      && (UserKeyKey in fields <==> Truthy(userKey))
  {
    UploadFieldSet(fileName, prompt, quality, conversationId, userKey);
    KeySetMembers(prompt, quality, conversationId, userKey);
  }

  lemma KeySetMembers(prompt: Option<string>, quality: Option<string>,
                      conversationId: Option<string>, userKey: Option<string>)
    ensures var fields := {FileKey} + KeyIf(PromptKey, prompt) + KeyIf(QualityKey, quality)
                          + KeyIf(ConversationKey, conversationId) + KeyIf(UserKeyKey, userKey);
      && FileKey in fields
      && (PromptKey in fields <==> Truthy(prompt))
      && (QualityKey in fields <==> Truthy(quality))
      && (ConversationKey in fields <==> Truthy(conversationId))
      && (UserKeyKey in fields <==> Truthy(userKey))
  {
  }

  /** The key of an optional part, when it is sent. */
  function KeyIf(key: FormKey, value: Option<string>): set<FormKey> {
    if Truthy(value) then {key} else {}
  }

  lemma UploadFieldSet(fileName: string, prompt: Option<string>, quality: Option<string>,
                       conversationId: Option<string>, userKey: Option<string>)
    ensures Fields(UploadForm(fileName, prompt, quality, conversationId, userKey))
            == {FileKey} + KeyIf(PromptKey, prompt) + KeyIf(QualityKey, quality)
               + KeyIf(ConversationKey, conversationId) + KeyIf(UserKeyKey, userKey)
  {
    var head: Form := [(FileKey, FilePart(fileName))];
    var u := PartIf(UserKeyKey, userKey);
    var c := PartIf(ConversationKey, conversationId) + u;
    var q := PartIf(QualityKey, quality) + c;
    var p := PartIf(PromptKey, prompt) + q;
    FieldsConcat(PartIf(ConversationKey, conversationId), u);
    FieldsConcat(PartIf(QualityKey, quality), c);
    FieldsConcat(PartIf(PromptKey, prompt), q);
    FieldsConcat(head, p);
    assert Fields(head) == {FileKey} by {
      assert head[0].0 == FileKey;
    }
    FieldsOfPart(PromptKey, prompt);
    FieldsOfPart(QualityKey, quality);
    FieldsOfPart(ConversationKey, conversationId);
    FieldsOfPart(UserKeyKey, userKey);
  }

  /** Where a request goes and what it carries. */
  datatype Request = Request(path: string, body: Body, form: Form)

  function SendMessage(message: string, quality: Option<string>, conversationId: Option<string>, opts: Opts): Request {
    Request("/chat", MessageBody(message, quality, conversationId, opts), [])
  }

  function SendVoice(message: string, quality: Option<string>, conversationId: Option<string>, voice: VoiceOpts, opts: Opts): Request {
    Request("/chat/voice", VoiceBody(message, quality, conversationId, voice, opts), [])
  }

  function SummarizeImage(fileName: string, prompt: Option<string>, quality: Option<string>,
                          conversationId: Option<string>, userKey: Option<string>): Request {
    Request("/vision/summarize", map[], UploadForm(fileName, prompt, quality, conversationId, userKey))
  }

  function AskAboutFile(fileName: string, prompt: Option<string>, quality: Option<string>,
                        conversationId: Option<string>, userKey: Option<string>): Request {
    Request("/files/ask", map[], UploadForm(fileName, prompt, quality, conversationId, userKey))
  }

  /** The image and file endpoints receive the same form for the same
      arguments. */
  lemma UploadsShareForm(fileName: string, prompt: Option<string>, quality: Option<string>,
                         conversationId: Option<string>, userKey: Option<string>)
    ensures SummarizeImage(fileName, prompt, quality, conversationId, userKey).form
         == AskAboutFile(fileName, prompt, quality, conversationId, userKey).form
    ensures SummarizeImage(fileName, prompt, quality, conversationId, userKey).path
         != AskAboutFile(fileName, prompt, quality, conversationId, userKey).path
  {
  }

  // ---------------------------------------------------------------------------
  // Interceptors
  // ---------------------------------------------------------------------------

  /** What the browser keeps between requests: the stored token and the
      current location. */
  datatype Browser = Browser(token: Option<string>, location: string)

  const LoginPage: string := "/login"

  /** The request interceptor: in a browser, a stored token becomes the
      `Authorization: Bearer <token>` header; nothing else changes. */
  function WithAuth(headers: map<string, string>, inBrowser: bool, token: Option<string>): (h: map<string, string>)
    ensures "Authorization" in h && h != headers ==> inBrowser && Truthy(token)
    ensures inBrowser && Truthy(token) ==> "Authorization" in h && h["Authorization"] == "Bearer " + token.value
    ensures forall k | k in headers && k != "Authorization" :: k in h && h[k] == headers[k]
    ensures h.Keys <= headers.Keys + {"Authorization"}
    ensures !(inBrowser && Truthy(token)) ==> h == headers
  {
    if inBrowser && Truthy(token) then headers["Authorization" := "Bearer " + token.value]
    else headers
  }

  /** The error branch of the response interceptor: a 401 seen in a browser
      forgets the token and goes to the login page; the error itself is
      always passed on to the caller unchanged. */
  function OnResponseError<E>(status: Option<int>, error: E, inBrowser: bool, b: Browser): (r: (Browser, E))
    ensures r.1 == error
    ensures status == Some(401) && inBrowser ==> r.0 == Browser(None, LoginPage)
    ensures !(status == Some(401) && inBrowser) ==> r.0 == b
  {
    if status == Some(401) && inBrowser then (Browser(None, LoginPage), error)
    else (b, error)
  }

  /** A token without surrounding whitespace, attached by the request
      interceptor, is the very token the server's Bearer guard decodes. */
  lemma InterceptorMeetsGuard<C>(headers: map<string, string>, token: string, decode: string -> Option<C>)
    requires token != [] && PyStrip(token) == token
    ensures var h := WithAuth(headers, true, Some(token));
      Auth.RequireAdmin(Some(h["Authorization"]), decode) == Auth.DecodeToken(token, decode)
  {
    Auth.BearerRoundTrip(token, decode);
  }

  /** After a 401 the next request carries no credentials, so the server's
      strict guard answers "Missing credentials". */
  lemma LoggedOutAfter401<C, E>(headers: map<string, string>, error: E, b: Browser, decode: string -> Option<C>)
    requires "Authorization" !in headers
    ensures var b' := OnResponseError(Some(401), error, true, b).0;
      var h := WithAuth(headers, true, b'.token);
      var header := if "Authorization" in h then Some(h["Authorization"]) else None;
      header.None? && Auth.RequireAdmin(header, decode) == Auth.Unauthorized("Missing credentials")
  {
  }
}
