/** The backend conversation repository in its in-memory mode: the branch
    `chat_repo.py` falls back to once MongoDB is unreachable. Conversations
    live in a dictionary keyed by id (insertion-ordered, as Python dicts are),
    messages in a second dictionary of append-only lists; deletion is soft.
    The clock and the ObjectId generator are parameters. */
module ChatRepo {
  import opened Outcome
  import opened Text
  import opened Sorting

  // ---------------------------------------------------------------------------
  // Titles
  // ---------------------------------------------------------------------------

  const MaxTitle: nat := 60
  const DefaultTitle: string := "New conversation"

  /** A conversation title from its first message: stripped, newlines turned
      into spaces, cut to 57 characters plus "..." when longer than 60, and
      "New conversation" when nothing is left. */
  function TitleFrom(text: string): (title: string)
    ensures 0 < |title| <= MaxTitle
    ensures '\n' !in title
    ensures PyStrip(text) == [] ==> title == DefaultTitle
    ensures 0 < |PyStrip(text)| <= MaxTitle ==> title == ReplaceChar(PyStrip(text), '\n', ' ')
    ensures |PyStrip(text)| > MaxTitle ==> |title| == MaxTitle && EndsWith(title, "...") && title[..57] == ReplaceChar(PyStrip(text), '\n', ' ')[..57]
  {
    Cap(ReplaceChar(PyStrip(text), '\n', ' '))
  }

  /** The length rule alone: an empty text becomes the default title, a text
      over the limit keeps its first 57 characters and gains "...", anything
      else is kept. No line feed is introduced. */
  function Cap(t: string): (title: string)
    ensures 0 < |title| <= MaxTitle
    ensures t == [] ==> title == DefaultTitle
    ensures 0 < |t| <= MaxTitle ==> title == t
    ensures |t| > MaxTitle ==> |title| == MaxTitle && EndsWith(title, "...") && title[..57] == t[..57]
    ensures '\n' !in t ==> '\n' !in title
  {
    if |t| > MaxTitle then
      var r := t[..57] + "...";
      assert forall i | 0 <= i < |r| :: r[i] == if i < 57 then t[i] else '.';
      r
    else if t == [] then
      assert forall i | 0 <= i < |DefaultTitle| :: DefaultTitle[i] != '\n';
      DefaultTitle
    else t
  }

  lemma NoNewline(s: string)
    requires forall i | 0 <= i < |s| :: s[i] != '\n'
    ensures ReplaceChar(s, '\n', ' ') == s
  {
  }

  /** A title neither starts nor ends with whitespace. */
  lemma TitleIsClean(text: string)
    ensures !IsPySpace(TitleFrom(text)[0])
    ensures !IsPySpace(TitleFrom(text)[|TitleFrom(text)| - 1])
  {
    var s := PyStrip(text);
    StrippedEnds(text);
    ReplaceKeepsEnds(s, '\n', ' ');
    CapIsClean(ReplaceChar(s, '\n', ' '));
  }

  /** A stripped text starts and ends with a character that is neither
      whitespace nor a line feed. */
  lemma StrippedEnds(text: string)
    ensures var s := PyStrip(text);
            s == [] || (!IsPySpace(s[0]) && !IsPySpace(s[|s| - 1]) && s[0] != '\n' && s[|s| - 1] != '\n')
  {
    assert IsPySpace('\n');
  }

  lemma ReplaceKeepsEnds(s: string, a: char, b: char)
    requires s == [] || (s[0] != a && s[|s| - 1] != a)
    ensures var t := ReplaceChar(s, a, b);
            |t| == |s| && (s == [] || (t[0] == s[0] && t[|t| - 1] == s[|s| - 1]))
  {
  }

  /** The length rule keeps a text that neither starts nor ends with
      whitespace so. */
  lemma CapIsClean(t: string)
    requires t == [] || (!IsPySpace(t[0]) && !IsPySpace(t[|t| - 1]))
    ensures !IsPySpace(Cap(t)[0]) && !IsPySpace(Cap(t)[|Cap(t)| - 1])
  {
    var title := Cap(t);
    if t == [] {
      assert title[0] == 'N' && title[|title| - 1] == 'n';
    } else if |t| > MaxTitle {
      assert title[0] == t[0] && title[|title| - 1] == '.';
    }
  }

  /** A title is its own title: titles are already stripped, one line long
      and within the length limit. */
  lemma {:induction false} TitleIdempotent(text: string)
    ensures TitleFrom(TitleFrom(text)) == TitleFrom(text)
  {
    var title := TitleFrom(text);
    TitleIsClean(text);
    StripOfClean(title, IsPySpace);
    assert forall i | 0 <= i < |title| :: title[i] != '\n';
    NoNewline(title);
    assert PyStrip(title) == title;
  }

  /** Text that is already a clean single line of at most 60 characters is
      used verbatim as the title. */
  lemma CleanLineIsItsOwnTitle(text: string)
    requires 0 < |text| <= MaxTitle && '\n' !in text
    requires !IsPySpace(text[0]) && !IsPySpace(text[|text| - 1])
    ensures TitleFrom(text) == text
  {
    StripOfClean(text, IsPySpace);
    NoNewline(text);
  }

  // ---------------------------------------------------------------------------
  // The in-memory store
  // ---------------------------------------------------------------------------

  datatype StoredMessage = StoredMessage(role: string, content: string, createdAt: int)

  datatype Conversation = Conversation(
    id: string,
    title: string,
    userKey: Option<string>,
    createdAt: int,
    updatedAt: int,
    deletedAt: Option<int>)

  /** `order` is the insertion order of the conversation dictionary's keys. */
  datatype Store = Store(
    order: seq<string>,
    convs: map<string, Conversation>,
    msgs: map<string, seq<StoredMessage>>)

  ghost predicate Valid(st: Store) {
    && (forall i, j | 0 <= i < j < |st.order| :: st.order[i] != st.order[j])
    && (forall id :: id in st.convs <==> id in st.order)
    && (forall id :: id in st.convs <==> id in st.msgs)
    && (forall id | id in st.convs :: st.convs[id].id == id)
  }

  const EmptyStore := Store([], map[], map[])

  lemma EmptyStoreValid()
    ensures Valid(EmptyStore)
  {
  }

  predicate Live(st: Store, id: string) {
    id in st.convs && st.convs[id].deletedAt.None?
  }

  datatype Ensured = Ensured(store: Store, id: string)

  /** `ensure_conversation`: an existing id (even a soft-deleted one) is
      returned as is; otherwise a conversation under `freshId` is created with
      an empty message list. */
  function EnsureConversation(st: Store, conversationId: Option<string>, titleSeed: string,
                              userKey: Option<string>, freshId: string, now: int): (r: Ensured)
    requires Valid(st)
    ensures Valid(r.store)
    ensures r.id in r.store.convs
    ensures Truthy(conversationId) && conversationId.value in st.convs ==>
              r == Ensured(st, conversationId.value)
    ensures !(Truthy(conversationId) && conversationId.value in st.convs) ==>
              && r.id == freshId
              && r.store.convs[freshId] == Conversation(freshId, TitleFrom(titleSeed),
                   if Truthy(userKey) then userKey else None, now, now, None)
              && r.store.msgs[freshId] == []
              && (forall id | id in st.convs && id != freshId ::
                    id in r.store.convs && r.store.convs[id] == st.convs[id] && r.store.msgs[id] == st.msgs[id])
              && r.store.convs.Keys == st.convs.Keys + {freshId}
  {
    if Truthy(conversationId) && conversationId.value in st.convs then
      Ensured(st, conversationId.value)
    else
      var conv := Conversation(freshId, TitleFrom(titleSeed),
                               if Truthy(userKey) then userKey else None, now, now, None);
      var order := if freshId in st.convs then st.order else st.order + [freshId];
      var st' := Store(order, st.convs[freshId := conv], st.msgs[freshId := []]);
      InsertKeepsValid(st, freshId, conv, st');
      Ensured(st', freshId)
  }

  lemma InsertKeepsValid(st: Store, freshId: string, conv: Conversation, st': Store)
    requires Valid(st) && conv.id == freshId
    requires st' == Store(if freshId in st.convs then st.order else st.order + [freshId],
                          st.convs[freshId := conv], st.msgs[freshId := []])
    ensures Valid(st')
  {
    if freshId !in st.convs {
      assert freshId !in st.order;
      forall i, j | 0 <= i < j < |st'.order| ensures st'.order[i] != st'.order[j] {
        if j == |st.order| {
          assert st.order[i] in st.order;
        }
      }
    }
  }

  /** `add_message`: appends one message to an existing conversation and
      refreshes its `updated_at`; an unknown id raises. */
  function AddMessage(st: Store, id: string, role: string, content: string, now: int): (r: Result<Store>)
    requires Valid(st)
    ensures r.Err? <==> id !in st.convs
    ensures r.Ok? ==>
              && Valid(r.value)
              && id in r.value.msgs
              && r.value.msgs[id] == st.msgs[id] + [StoredMessage(role, content, now)]
              && r.value.convs[id] == st.convs[id].(updatedAt := now)
              && r.value.order == st.order
              && r.value.convs.Keys == st.convs.Keys
              && (forall other | other in st.convs && other != id ::
                    r.value.convs[other] == st.convs[other] && r.value.msgs[other] == st.msgs[other])
  {
    if id !in st.convs then Err("Conversation not found")
    else
      var conv := st.convs[id];
      Ok(Store(st.order,
               st.convs[id := conv.(updatedAt := now)],
               st.msgs[id := st.msgs[id] + [StoredMessage(role, content, now)]]))
  }

  datatype ConversationDoc = ConversationDoc(id: string, title: string, createdAt: int, updatedAt: int)
  datatype ConversationDetail = ConversationDetail(conv: ConversationDoc, messages: seq<StoredMessage>)

  /** `get_conversation`: missing and soft-deleted conversations raise;
      otherwise the messages come back in insertion order. */
  function GetConversation(st: Store, id: string): (r: Result<ConversationDetail>)
    requires Valid(st)
    ensures r.Err? <==> !Live(st, id)
    ensures r.Ok? ==> r.value.messages == st.msgs[id] && r.value.conv.id == id
                      && r.value.conv.title == st.convs[id].title
  {
    if !Live(st, id) then Err("Conversation not found")
    else
      var c := st.convs[id];
      Ok(ConversationDetail(ConversationDoc(c.id, c.title, c.createdAt, c.updatedAt), st.msgs[id]))
  }

  /** `delete_conversation`: a soft delete that stamps `deleted_at` and keeps
      the messages; unknown ids are ignored. */
  function DeleteConversation(st: Store, id: string, now: int): (r: Store)
    requires Valid(st)
    ensures Valid(r)
    ensures r.msgs == st.msgs && r.order == st.order && r.convs.Keys == st.convs.Keys
    ensures id !in st.convs ==> r == st
    ensures id in st.convs ==> r.convs[id] == st.convs[id].(deletedAt := Some(now))
    ensures forall other | other in st.convs && other != id :: r.convs[other] == st.convs[other]
    ensures !Live(r, id)
  {
    if id in st.convs then
      Store(st.order, st.convs[id := st.convs[id].(deletedAt := Some(now))], st.msgs)
    else st
  }

  datatype ListItem = ListItem(id: string, title: string, updatedAt: int)

  function ItemOf(c: Conversation): ListItem {
    ListItem(c.id, c.title, c.updatedAt)
  }

  function UpdatedAt(it: ListItem): int {
    it.updatedAt
  }

  /** The live conversations among `ids`, in the order given. */
  function LiveItems(st: Store, ids: seq<string>): (r: seq<ListItem>)
    requires forall k | 0 <= k < |ids| :: ids[k] in st.convs
    ensures forall it :: it in r <==> exists k | 0 <= k < |ids| :: Live(st, ids[k]) && it == ItemOf(st.convs[ids[k]])
  {
    if |ids| == 0 then []
    else
      var rest := LiveItems(st, ids[1..]);
      assert forall k | 0 <= k < |ids| - 1 :: ids[1..][k] == ids[k + 1];
      if Live(st, ids[0]) then [ItemOf(st.convs[ids[0]])] + rest else rest
  }

  /** `list_conversations`: the live conversations, newest update first. */
  function ListConversations(st: Store): (r: seq<ListItem>)
    requires Valid(st)
    ensures SortedDesc(r, UpdatedAt)
    ensures multiset(r) == multiset(LiveItems(st, st.order))
    ensures forall it :: it in r <==> (Live(st, it.id) && it == ItemOf(st.convs[it.id]))
  {
    var live := LiveItems(st, st.order);
    var r := SortDesc(live, UpdatedAt);
    forall it ensures it in r <==> it in live {
      assert it in r <==> it in multiset(r);
    }
    r
  }

  // ---------------------------------------------------------------------------
  // Properties relating the operations
  // ---------------------------------------------------------------------------

  /** A message added to a live conversation is the last one read back. */
  lemma AddThenGet(st: Store, id: string, role: string, content: string, now: int)
    requires Valid(st) && Live(st, id)
    ensures AddMessage(st, id, role, content, now).Ok?
    ensures var st' := AddMessage(st, id, role, content, now).value;
            GetConversation(st', id).Ok? &&
            GetConversation(st', id).value.messages == GetConversation(st, id).value.messages + [StoredMessage(role, content, now)]
  {
  }

  /** After a delete, the conversation can no longer be read or listed, but
      its messages are still stored. */
  lemma DeleteHides(st: Store, id: string, now: int)
    requires Valid(st)
    ensures GetConversation(DeleteConversation(st, id, now), id).Err?
    ensures forall it | it in ListConversations(DeleteConversation(st, id, now)) :: it.id != id
    ensures DeleteConversation(st, id, now).msgs == st.msgs
  {
  }

  /** Ensuring the id that `EnsureConversation` returned is a no-op. */
  lemma EnsureTwice(st: Store, seed: string, userKey: Option<string>, freshId: string, now: int,
                    seed2: string, fresh2: string, now2: int)
    requires Valid(st) && freshId != ""
    ensures var e := EnsureConversation(st, None, seed, userKey, freshId, now);
            EnsureConversation(e.store, Some(e.id), seed2, userKey, fresh2, now2) == e
  {
  }
}
