/** Long-term memory (`memory_service.py`): a per-user profile note, and one
    summary per conversation written after each turn. The database is a
    map of profiles and a sequence of summary documents; the summarizer is
    a parameter that may fail. */
module Memory {
  import opened Outcome
  import opened Text
  import opened Seqs
  import opened Sorting

  datatype SummaryDoc = SummaryDoc(
    conversationId: string,
    userKey: Option<string>,
    summary: Option<string>,
    updatedAt: int)

  datatype UserMemory = UserMemory(profile: string, summaries: seq<string>)

  function UpdatedAt(d: SummaryDoc): int {
    d.updatedAt
  }

  /** The text a summary document contributes: its summary, stripped. */
  function SummaryText(d: SummaryDoc): string {
    PyStrip(d.summary.GetOr(""))
  }

  // ---------------------------------------------------------------------------
  // Reading memory
  // ---------------------------------------------------------------------------

  /** A MongoDB cursor limit: 0 means no limit, and a negative limit counts
      like its absolute value. */
  function Limit<T>(s: seq<T>, n: int): (r: seq<T>)
    ensures |r| <= |s| && r == s[..|r|]
    ensures |r| == (if n == 0 then |s| else if n < 0 then Min(-n, |s|) else Min(n, |s|))
  {
    if n == 0 then s else if n < 0 then s[..Min(-n, |s|)] else s[..Min(n, |s|)]
  }

  function Min(a: int, b: int): int {
    if a < b then a else b
  }

  function Texts(ds: seq<SummaryDoc>): (r: seq<string>)
    ensures |r| == |ds| && forall i | 0 <= i < |ds| :: r[i] == SummaryText(ds[i])
  {
    seq(|ds|, i requires 0 <= i < |ds| => SummaryText(ds[i]))
  }

  /** The non-blank summary texts of `ds`, in order. */
  function Kept(ds: seq<SummaryDoc>): (r: seq<string>)
    ensures IsSubseq(r, Texts(ds))
    ensures forall t :: t in r <==> t != "" && t in Texts(ds)
  {
    FilterIsSubseq(Texts(ds), (t: string) => t != "");
    Filter(Texts(ds), (t: string) => t != "")
  }

  /** When no summary is blank, every one is kept, in order. */
  lemma KeptAll(ds: seq<SummaryDoc>)
    requires forall i | 0 <= i < |ds| :: SummaryText(ds[i]) != ""
    ensures Kept(ds) == Texts(ds)
  {
    FilterAll(Texts(ds), (t: string) => t != "");
  }

  /** The summary documents of one user. */
  function OwnDocs(key: string, docs: seq<SummaryDoc>): seq<SummaryDoc> {
    Filter(docs, (d: SummaryDoc) => d.userKey == Some(key))
  }

  /** The summary documents read for `key`: the user's documents, newest
      first, cut to the limit; every document left out is no newer than
      every document kept. */
  function Selected(key: string, docs: seq<SummaryDoc>, limit: int): (ds: seq<SummaryDoc>)
    ensures SortedDesc(ds, UpdatedAt)
    ensures forall d | d in ds :: d in docs && d.userKey == Some(key)
    ensures var n := |OwnDocs(key, docs)|;
            |ds| == (if limit == 0 then n else if limit < 0 then Min(-limit, n) else Min(limit, n))
    ensures forall d, e | d in OwnDocs(key, docs) && d !in ds && e in ds :: UpdatedAt(e) >= UpdatedAt(d)
  {
    var mine := OwnDocs(key, docs);
    var sorted := SortDesc(mine, UpdatedAt);
    var ds := Limit(sorted, limit);
    SortDescKeeps(mine, UpdatedAt);
    SortedPrefix(sorted, |ds|, UpdatedAt);
    TopOfSorted(sorted, |ds|, UpdatedAt);
    assert ds == sorted[..|ds|];
    assert forall d | d in ds :: d in sorted;
    ds
  }

  /** `get_user_memory`: nothing for a missing or empty user key; otherwise
      the profile note (or "") and the non-blank summaries of the newest
      `limit` documents. */
  function GetUserMemory(userKey: Option<string>, profiles: map<string, string>,
                         docs: seq<SummaryDoc>, limit: int): (m: UserMemory)
    ensures !Truthy(userKey) ==> m == UserMemory("", [])
    ensures Truthy(userKey) ==> m.profile == (if userKey.value in profiles then profiles[userKey.value] else "")
    ensures Truthy(userKey) ==> m.summaries == Kept(Selected(userKey.value, docs, limit))
    ensures forall t | t in m.summaries :: t != ""
  {
    if !Truthy(userKey) then UserMemory("", [])
    else
      var key := userKey.value;
      UserMemory(if key in profiles then profiles[key] else "", Kept(Selected(key, docs, limit)))
  }

  /** The limit applies before blank summaries are dropped: with a limit of
      one, a blank newest summary hides an older non-blank one. */
  lemma LimitBeforeBlankFilter()
    ensures var docs := [SummaryDoc("a", Some("u"), Some("older"), 1), SummaryDoc("b", Some("u"), Some(" "), 2)];
            GetUserMemory(Some("u"), map[], docs, 1).summaries == []
  {
    var docs := [SummaryDoc("a", Some("u"), Some("older"), 1), SummaryDoc("b", Some("u"), Some(" "), 2)];
    var ds := Selected("u", docs, 1);
    assert OwnDocs("u", docs) == docs;
    assert |ds| == 1 && ds[0] in docs;
    assert docs[0] != docs[1];
    assert docs[1] in ds;
    BlankSummary(docs[1]);
    KeptNone(ds);
  }

  /** A summary of white space only reads as blank. */
  lemma BlankSummary(d: SummaryDoc)
    requires d.summary == Some(" ")
    ensures SummaryText(d) == ""
  {
    assert AllSatisfy(" ", IsPySpace);
  }

  /** When every summary is blank, none is kept. */
  lemma KeptNone(ds: seq<SummaryDoc>)
    requires forall i | 0 <= i < |ds| :: SummaryText(ds[i]) == ""
    ensures Kept(ds) == []
  {
    FilterNone(Texts(ds), (t: string) => t != "");
  }

  const SummariesHeading: string := "Prior conversation summaries:"

  /** The sections of `get_memory_text`, in order. */
  function Sections(mem: UserMemory): seq<string> {
    (if mem.profile != "" then ["Profile:\n" + mem.profile] else [])
    + (if |mem.summaries| > 0 then [SummariesHeading + "\n" + "\n- " + Join(mem.summaries, "\n- ")] else [])
  }

  lemma SectionsJoined(mem: UserMemory)
    ensures var j := Join(Sections(mem), "\n\n");
            && (mem.profile != "" && |mem.summaries| > 0 ==>
                  var q := "Profile:\n" + mem.profile + "\n\n" + SummariesHeading;
                  |q| <= |j| && j[..|q|] == q)
            && (mem.profile != "" && |mem.summaries| == 0 ==> |j| >= 8 && j[..8] == "Profile:")
            && (mem.profile == "" && |mem.summaries| > 0 ==>
                  |SummariesHeading| <= |j| && j[..|SummariesHeading|] == SummariesHeading)
            && (mem.profile == "" && |mem.summaries| == 0 ==> j == "")
  {
    var ss := Sections(mem);
    var j := Join(ss, "\n\n");
    if mem.profile != "" && |mem.summaries| > 0 {
      var q := "Profile:\n" + mem.profile + "\n\n" + SummariesHeading;
      assert ss[1..] == [ss[1]];
      assert j == ss[0] + "\n\n" + ss[1];
      assert j[..|q|] == q;
    }
  }

  /** `get_memory_text`: a "Profile:" section when there is a profile, then
      the summaries as a bulleted list, separated by a blank line, the
      whole stripped. */
  function MemoryText(mem: UserMemory): (t: string)
    ensures t == "" <==> mem.profile == "" && |mem.summaries| == 0
    ensures mem.profile != "" && |mem.summaries| == 0 ==> StartsWith(t, "Profile:")
    ensures mem.profile != "" && |mem.summaries| > 0 ==>
              StartsWith(t, "Profile:\n" + mem.profile + "\n\n" + SummariesHeading)
    ensures mem.profile == "" && |mem.summaries| > 0 ==> StartsWith(t, SummariesHeading)
  {
    var joined := Join(Sections(mem), "\n\n");
    SectionsJoined(mem);
    MemoryTextPrefix(mem, joined);
    PyStrip(joined)
  }

  lemma MemoryTextPrefix(mem: UserMemory, joined: string)
    requires joined == Join(Sections(mem), "\n\n")
    ensures var t := PyStrip(joined);
            && (t == "" <==> mem.profile == "" && |mem.summaries| == 0)
            && (mem.profile != "" && |mem.summaries| == 0 ==> StartsWith(t, "Profile:"))
            && (mem.profile != "" && |mem.summaries| > 0 ==>
                  StartsWith(t, "Profile:\n" + mem.profile + "\n\n" + SummariesHeading))
            && (mem.profile == "" && |mem.summaries| > 0 ==> StartsWith(t, SummariesHeading))
  {
    SectionsJoined(mem);
    if mem.profile != "" && |mem.summaries| > 0 {
      StripKeepsPrefix(joined, "Profile:\n" + mem.profile + "\n\n" + SummariesHeading, IsPySpace);
    } else if mem.profile != "" {
      StripKeepsPrefix(joined, "Profile:", IsPySpace);
    } else if |mem.summaries| > 0 {
      StripKeepsPrefix(joined, SummariesHeading, IsPySpace);
    } else {
      assert AllSatisfy(joined, IsPySpace);
    }
  }

  // ---------------------------------------------------------------------------
  // Writing summaries
  // ---------------------------------------------------------------------------

  datatype ChatLine = ChatLine(role: string, content: string)

  function RenderLine(m: ChatLine): string {
    m.role + ": " + m.content
  }

  /** The transcript of `update_conversation_summary`: the last
      `maxMessages` messages as `role: content`, one per line. As in the
      source, a limit of 0 takes every message (`msgs[-0:]`). */
  function Transcript(msgs: seq<ChatLine>, maxMessages: int): (t: string)
    ensures var last := PySliceFrom(msgs, -maxMessages);
            && last == msgs[|msgs| - |last|..]
            && ((|last| > 0 && forall i | 0 <= i < |last| :: '\n' !in RenderLine(last[i])) ==>
                  Split(t, '\n') == seq(|last|, i requires 0 <= i < |last| => RenderLine(last[i])))
  {
    var last := PySliceFrom(msgs, -maxMessages);
    var lines := seq(|last|, i requires 0 <= i < |last| => RenderLine(last[i]));
    if |lines| > 0 && forall k | 0 <= k < |lines| :: '\n' !in lines[k] then
      SplitJoin(lines, '\n');
      Join(lines, "\n")
    else
      Join(lines, "\n")
  }

  /** The summary stored: the summarizer's text, or the first 800
      characters of the transcript when it fails. */
  function SummaryOf(transcript: string, summarized: Result<string>): (s: string)
    ensures summarized.Ok? ==> s == summarized.value
    ensures summarized.Err? ==> |s| == Min(800, |transcript|) && s == transcript[..|s|]
  {
    match summarized
    case Ok(text) => text
    case Err(_) => transcript[..Min(800, |transcript|)]
  }

  /** Summary documents hold at most one document per conversation. */
  predicate OnePerConversation(docs: seq<SummaryDoc>) {
    forall i, j | 0 <= i < j < |docs| :: docs[i].conversationId != docs[j].conversationId
  }

  /** The upsert keyed by conversation id: the document for that
      conversation is replaced, or added when there is none. */
  function Upsert(docs: seq<SummaryDoc>, doc: SummaryDoc): (r: seq<SummaryDoc>)
    requires OnePerConversation(docs)
    ensures OnePerConversation(r)
    ensures doc in r
    ensures forall d | d in docs && d.conversationId != doc.conversationId :: d in r
    ensures forall d | d in r && d != doc :: d in docs && d.conversationId != doc.conversationId
  {
    if |docs| == 0 then [doc]
    else
      HeadAndTail(docs);
      if docs[0].conversationId == doc.conversationId then
        ConsOnePer(doc, docs[1..]);
        [doc] + docs[1..]
      else
        var rest := Upsert(docs[1..], doc);
        ConsOnePer(docs[0], rest);
        [docs[0]] + rest
  }

  /** The tail of a valid list is valid and shares no conversation with
      the head. */
  lemma HeadAndTail(docs: seq<SummaryDoc>)
    requires OnePerConversation(docs) && |docs| > 0
    ensures OnePerConversation(docs[1..])
    ensures forall d | d in docs[1..] :: d.conversationId != docs[0].conversationId
    ensures forall d | d in docs :: d == docs[0] || d in docs[1..]
  {
    forall d | d in docs[1..] ensures d.conversationId != docs[0].conversationId {
      var k :| 0 <= k < |docs[1..]| && docs[1..][k] == d;
      assert docs[k + 1] == d;
    }
    assert forall i | 0 <= i < |docs| - 1 :: docs[1..][i] == docs[i + 1];
  }

  /** Putting a document in front of a valid list whose conversations all
      differ from its own keeps the list valid. */
  lemma ConsOnePer(x: SummaryDoc, rest: seq<SummaryDoc>)
    requires OnePerConversation(rest)
    requires forall d | d in rest :: d.conversationId != x.conversationId
    ensures OnePerConversation([x] + rest)
  {
    var r := [x] + rest;
    forall i, j | 0 <= i < j < |r| ensures r[i].conversationId != r[j].conversationId {
      assert r[j] == rest[j - 1] && r[j] in rest;
      if i > 0 {
        assert r[i] == rest[i - 1];
      }
    }
  }

  /** `update_conversation_summary`: the transcript of the latest messages
      summarized (or truncated when the summarizer fails) and upserted for
      the conversation, stamped `now`. */
  function UpdateConversationSummary(docs: seq<SummaryDoc>, conversationId: string, userKey: Option<string>,
                                     msgs: seq<ChatLine>, maxMessages: int,
                                     summarize: string -> Result<string>, now: int): (r: seq<SummaryDoc>)
    requires OnePerConversation(docs)
    ensures OnePerConversation(r)
    ensures var t := Transcript(msgs, maxMessages);
            SummaryDoc(conversationId, userKey, Some(SummaryOf(t, summarize(t))), now) in r
    ensures forall d | d in r :: d.conversationId == conversationId || d in docs
    ensures forall d | d in docs && d.conversationId != conversationId :: d in r
  {
    var t := Transcript(msgs, maxMessages);
    Upsert(docs, SummaryDoc(conversationId, userKey, Some(SummaryOf(t, summarize(t))), now))
  }

  /** Summarizing the same conversation twice leaves one document for it,
      the later one. */
  lemma UpsertTwice(docs: seq<SummaryDoc>, a: SummaryDoc, b: SummaryDoc)
    requires OnePerConversation(docs) && a.conversationId == b.conversationId
    ensures var r := Upsert(Upsert(docs, a), b);
            b in r && forall d | d in r && d.conversationId == b.conversationId :: d == b
  {
  }
}
