/** Retrieval-augmented generation helpers of `rag_service.py`: splitting a
    text into overlapping fixed-size chunks, the deterministic chunk ids of
    PDF ingestion, and the candidate count of the vector search stage. The
    PDF reader, the embedding model and the vector store are not modelled:
    the reader's outcome is a parameter. */
module Rag {
  import opened Outcome
  import opened Text

  const DefaultChunkSize: int := 1000
  const DefaultOverlap: int := 200

  function Min(a: int, b: int): int {
    if a <= b then a else b
  }

  function Max(a: int, b: int): int {
    if a >= b then a else b
  }

  // ---------------------------------------------------------------------------
  // Chunking
  // ---------------------------------------------------------------------------

  /** A chunk's position in the stripped text: the half-open slice
      `start..end`. */
  datatype Window = Window(start: nat, end: nat)

  /** The windows the chunking loop visits once `start` has been reached, for
      a text of `n` characters. */
  function WindowsFrom(n: nat, size: int, overlap: int, start: nat): (ws: seq<Window>)
    requires 0 < size && overlap < size
    ensures forall i | 0 <= i < |ws| :: start <= ws[i].start < ws[i].end <= n
    ensures forall i | 0 <= i < |ws| :: ws[i].end - ws[i].start <= size
    decreases n - start
  {
    if start >= n then []
    else
      var end := Min(n, start + size);
      if end >= n then [Window(start, end)]
      else
        var next: nat := Max(end - overlap, 0);
        [Window(start, end)] + WindowsFrom(n, size, overlap, next)
  }

  function Windows(n: nat, size: int, overlap: int): seq<Window>
    requires 0 < size && overlap < size
  {
    WindowsFrom(n, size, overlap, 0)
  }

  /** Every window but the last is exactly `size` long, and the next one
      starts `size - overlap` characters later. */
  predicate Stepped(ws: seq<Window>, size: int, overlap: int) {
    forall i | 0 <= i < |ws| - 1 ::
      ws[i].end == ws[i].start + size && ws[i + 1].start == ws[i].start + size - overlap
  }

  /** The loop advances by a constant stride. */
  lemma {:induction false} WindowsStep(n: nat, size: int, overlap: int, start: nat)
    requires 0 < size && overlap < size
    ensures Stepped(WindowsFrom(n, size, overlap, start), size, overlap)
    decreases n - start
  {
    var ws := WindowsFrom(n, size, overlap, start);
    if start < n && start + size < n {
      var end := start + size;
      var next: nat := end - overlap;
      WindowsStep(n, size, overlap, next);
      var rest := WindowsFrom(n, size, overlap, next);
      assert ws == [Window(start, end)] + rest;
      forall i | 0 <= i < |ws| - 1
        ensures ws[i].end == ws[i].start + size && ws[i + 1].start == ws[i].start + size - overlap
      {
        if i > 0 {
          assert ws[i] == rest[i - 1] && ws[i + 1] == rest[i];
        } else {
          assert ws[1] == rest[0];
        }
      }
    }
  }

  /** With a non-negative overlap the windows cover the text: the first one
      starts where the loop starts and the last one ends at the end of the
      text. */
  lemma {:induction false} WindowsCover(n: nat, size: int, overlap: int, start: nat)
    requires 0 <= overlap < size && start < n
    ensures var ws := WindowsFrom(n, size, overlap, start);
            |ws| > 0 && ws[0].start == start && ws[|ws| - 1].end == n
    decreases n - start
  {
    var end := Min(n, start + size);
    if end < n {
      WindowsCover(n, size, overlap, end - overlap);
    }
  }

  /** A text without characters has no windows. */
  lemma NoWindowsForEmpty(size: int, overlap: int)
    requires 0 < size && overlap < size
    ensures Windows(0, size, overlap) == []
  {
  }

  function Slices(t: string, ws: seq<Window>): (cs: seq<string>)
    requires forall i | 0 <= i < |ws| :: ws[i].start <= ws[i].end <= |t|
    ensures |cs| == |ws|
  {
    if |ws| == 0 then []
    else [t[ws[0].start..ws[0].end]] + Slices(t, ws[1..])
  }

  lemma {:induction false} SlicesAt(t: string, ws: seq<Window>)
    requires forall i | 0 <= i < |ws| :: ws[i].start <= ws[i].end <= |t|
    ensures forall i | 0 <= i < |ws| :: Slices(t, ws)[i] == t[ws[i].start..ws[i].end]
  {
    if |ws| > 0 {
      SlicesAt(t, ws[1..]);
      assert forall i | 1 <= i < |ws| :: ws[1..][i - 1] == ws[i];
    }
  }

  /** The chunks of an already stripped text, one slice per window: none for
      an empty text, and none longer than `size`. */
  function Chunks(t: string, size: int, overlap: int): (chunks: seq<string>)
    requires 0 < size && overlap < size
    ensures |chunks| == |Windows(|t|, size, overlap)|
    ensures |chunks| == 0 <==> |t| == 0
    ensures forall i | 0 <= i < |chunks| :: 0 < |chunks[i]| <= size
  {
    var ws := Windows(|t|, size, overlap);
    SlicesAt(t, ws);
    assert |t| > 0 ==> |ws| > 0 && ws[0] == Window(0, Min(|t|, size));
    Slices(t, ws)
  }

  /** `_chunk_text`: the stripped text cut into slices of at most `size`
      characters; a blank text has no chunks. */
  function ChunkText(text: string, size: int, overlap: int): (chunks: seq<string>)
    requires 0 < size && overlap < size
    ensures chunks == [] <==> PyStrip(text) == []
    ensures forall i | 0 <= i < |chunks| :: 0 < |chunks[i]| <= size
  {
    Chunks(PyStrip(text), size, overlap)
  }

  /** Each chunk is the slice of the stripped text under its window. */
  lemma ChunksAreSlices(t: string, size: int, overlap: int, i: nat)
    requires 0 < size && overlap < size
    requires i < |Chunks(t, size, overlap)|
    ensures var w := Windows(|t|, size, overlap)[i];
            Chunks(t, size, overlap)[i] == t[w.start..w.end] && IsSubstring(Chunks(t, size, overlap)[i], t)
  {
    var w := Windows(|t|, size, overlap)[i];
    SlicesAt(t, Windows(|t|, size, overlap));
    assert MatchesAt(t, t[w.start..w.end], w.start);
  }

  /** The chunking loop as written: it stops once a chunk reaches the end of
      the text, and otherwise steps back `overlap` characters from the end of
      the chunk just taken. */
  method ChunkTextLoop(text: string, size: int, overlap: int) returns (chunks: seq<string>)
    requires 0 < size && overlap < size
    ensures chunks == ChunkText(text, size, overlap)
  {
    var t := PyStrip(text);
    if t == [] {
      return [];
    }
    chunks := ChunksLoop(t, size, overlap);
  }

  /** One window of the loop and the ones after it. */
  lemma SlicesFrom(t: string, size: int, overlap: int, start: nat, end: nat, next: nat)
    requires 0 < size && overlap < size && start < |t|
    requires end == Min(|t|, start + size) && next == Max(end - overlap, 0)
    ensures var rest := WindowsFrom(|t|, size, overlap, start);
      && |rest| > 0 && rest[0] == Window(start, end)
      && Slices(t, rest) == [t[start..end]] + Slices(t, rest[1..])
      && (end >= |t| ==> rest[1..] == [])
      && (end < |t| ==> rest[1..] == WindowsFrom(|t|, size, overlap, next))
  {
  }

  method ChunksLoop(t: string, size: int, overlap: int) returns (chunks: seq<string>)
    requires 0 < size && overlap < size && t != []
    ensures chunks == Chunks(t, size, overlap)
  {
    var n := |t|;
    ghost var all := Slices(t, WindowsFrom(n, size, overlap, 0));
    chunks := [];
    var start: nat := 0;
    while start < n
      invariant chunks + Slices(t, WindowsFrom(n, size, overlap, start)) == all
      decreases n - start
    {
      var end: nat := Min(n, start + size);
      var next: nat := Max(end - overlap, 0);
      SlicesFrom(t, size, overlap, start, end, next);
      ghost var tail := Slices(t, WindowsFrom(n, size, overlap, start)[1..]);
      assert chunks + Slices(t, WindowsFrom(n, size, overlap, start)) == (chunks + [t[start..end]]) + tail;
      chunks := chunks + [t[start..end]];
      if end >= n {
        assert chunks == all;
        return;
      }
      start := next;
    }
  }

  /** Glues chunks back together: the first chunk whole, then every later
      chunk without its first `overlap` characters. */
  function Reassemble(chunks: seq<string>, overlap: nat): string {
    if |chunks| == 0 then [] else chunks[0] + Unoverlap(chunks[1..], overlap)
  }

  function Unoverlap(chunks: seq<string>, overlap: nat): string {
    if |chunks| == 0 then []
    else (if overlap <= |chunks[0]| then chunks[0][overlap..] else []) + Unoverlap(chunks[1..], overlap)
  }

  lemma {:induction false} UnoverlapFrom(t: string, size: int, overlap: nat, start: nat)
    requires overlap < size && start < |t| && start + overlap <= |t|
    ensures Unoverlap(Slices(t, WindowsFrom(|t|, size, overlap, start)), overlap) == t[start + overlap..]
    decreases |t| - start
  {
    var end := Min(|t|, start + size);
    var next := Max(end - overlap, 0);
    UnoverlapStep(t, size, overlap, start, end, next);
    if end < |t| {
      UnoverlapFrom(t, size, overlap, next);
      SplitSlice(t, start + overlap, end);
      assert Unoverlap(Slices(t, WindowsFrom(|t|, size, overlap, next)), overlap) == t[end..];
    }
  }

  /** The first window of the loop without its overlap, then the rest. */
  lemma UnoverlapStep(t: string, size: int, overlap: nat, start: nat, end: nat, next: nat)
    requires overlap < size && start < |t| && start + overlap <= |t|
    requires end == Min(|t|, start + size) && next == Max(end - overlap, 0)
    ensures start + overlap <= end
    ensures end >= |t| ==> Unoverlap(Slices(t, WindowsFrom(|t|, size, overlap, start)), overlap) == t[start + overlap..]
    ensures end < |t| ==>
              && next == end - overlap && next < |t|
              && Unoverlap(Slices(t, WindowsFrom(|t|, size, overlap, start)), overlap)
                 == t[start + overlap..end] + Unoverlap(Slices(t, WindowsFrom(|t|, size, overlap, next)), overlap)
  {
    SlicesFrom(t, size, overlap, start, end, next);
    var rest := Slices(t, WindowsFrom(|t|, size, overlap, start)[1..]);
    UnoverlapCons(t[start..end], rest, overlap);
    assert t[start..end][overlap..] == t[start + overlap..end];
    if end >= |t| {
      assert rest == [];
    }
  }

  lemma SplitSlice(t: string, a: nat, m: nat)
    requires a <= m <= |t|
    ensures t[a..] == t[a..m] + t[m..]
  {
  }

  lemma UnoverlapCons(c: string, cs: seq<string>, overlap: nat)
    requires overlap <= |c|
    ensures Unoverlap([c] + cs, overlap) == c[overlap..] + Unoverlap(cs, overlap)
  {
    assert ([c] + cs)[1..] == cs;
  }

  /** With a non-negative overlap, chunking loses nothing: gluing the chunks
      back together gives the text. */
  lemma ChunksReassemble(t: string, size: int, overlap: int)
    requires 0 <= overlap < size
    ensures Reassemble(Chunks(t, size, overlap), overlap) == t
  {
    if t != [] {
      var n := |t|;
      var end := Min(n, size);
      var next := Max(end - overlap, 0);
      SlicesFrom(t, size, overlap, 0, end, next);
      var rest := Slices(t, WindowsFrom(n, size, overlap, 0)[1..]);
      assert Chunks(t, size, overlap) == [t[0..end]] + rest;
      assert Reassemble([t[0..end]] + rest, overlap) == t[0..end] + Unoverlap(rest, overlap) by {
        assert ([t[0..end]] + rest)[1..] == rest;
      }
      if end < n {
        UnoverlapFrom(t, size, overlap, next);
        SplitSlice(t, 0, end);
      } else {
        assert rest == [];
      }
    }
  }

  /** `_chunk_text` loses nothing but the surrounding whitespace. */
  lemma ChunkTextReassemble(text: string, size: int, overlap: int)
    requires 0 <= overlap < size
    ensures Reassemble(ChunkText(text, size, overlap), overlap) == PyStrip(text)
  {
    ChunksReassemble(PyStrip(text), size, overlap);
  }

  /** Adjacent chunks share exactly `overlap` characters: the tail of one is
      the head of the next. */
  lemma ChunksOverlap(t: string, size: int, overlap: int, i: nat)
    requires 0 <= overlap < size
    requires i + 1 < |Chunks(t, size, overlap)|
    ensures var cs := Chunks(t, size, overlap);
            overlap <= |cs[i]| && overlap <= |cs[i + 1]| &&
            cs[i][|cs[i]| - overlap..] == cs[i + 1][..overlap]
  {
    var ws := Windows(|t|, size, overlap);
    var cs := Chunks(t, size, overlap);
    AdjacentWindows(|t|, size, overlap, i);
    SlicesAt(t, ws);
    SliceOverlap(t, ws[i].start, ws[i].end, ws[i + 1].start, ws[i + 1].end, overlap, cs[i], cs[i + 1]);
  }

  /** Window `i + 1` starts `overlap` characters before window `i` ends and
      ends no earlier. */
  lemma AdjacentWindows(n: nat, size: int, overlap: int, i: nat)
    requires 0 <= overlap < size
    requires i + 1 < |Windows(n, size, overlap)|
    ensures var ws := Windows(n, size, overlap);
            && ws[i].start + overlap <= ws[i].end <= ws[i + 1].end <= n
            && ws[i + 1].start + overlap == ws[i].end
  {
    var ws := Windows(n, size, overlap);
    WindowsStep(n, size, overlap, 0);
    assert ws[i].end == ws[i].start + size && ws[i + 1].start == ws[i].end - overlap;
    if i + 2 < |ws| {
      assert ws[i + 1].end == ws[i + 1].start + size;
    } else {
      WindowsCover(n, size, overlap, 0);
      assert ws[i + 1] == ws[|ws| - 1];
    }
  }

  /** Two slices where the second starts `overlap` characters before the
      first ends share those characters. */
  lemma SliceOverlap(t: string, a0: nat, a1: nat, b0: nat, b1: nat, overlap: nat, x: string, y: string)
    requires a0 + overlap <= a1 <= b1 <= |t| && b0 + overlap == a1
    requires x == t[a0..a1] && y == t[b0..b1]
    ensures overlap <= |x| && overlap <= |y| && x[|x| - overlap..] == y[..overlap]
  {
    assert x[|x| - overlap..] == t[b0..a1];
    assert y[..overlap] == t[b0..a1];
  }

  /** Every chunk but the last is exactly `size` characters long. */
  lemma FullChunks(t: string, size: int, overlap: int, i: nat)
    requires 0 < size && overlap < size
    requires i + 1 < |Chunks(t, size, overlap)|
    ensures |Chunks(t, size, overlap)[i]| == size
  {
    WindowsStep(|t|, size, overlap, 0);
    SlicesAt(t, Windows(|t|, size, overlap));
  }

  // ---------------------------------------------------------------------------
  // PDF ingestion
  // ---------------------------------------------------------------------------

  /** One upserted chunk: its deterministic id, its text and the page and
      chunk position the id is built from. */
  datatype ChunkRecord = ChunkRecord(
    id: string,
    text: string,
    page: nat,
    chunkIndex: nat,
    docId: string,
    filename: string,
    userKey: Option<string>)

  datatype IngestReport = IngestReport(count: nat, docId: string, records: seq<ChunkRecord>)

  /** `f"{doc_id}:{page}:{chunk}"`. */
  function ChunkId(docId: string, page: nat, chunkIndex: nat): string {
    docId + ":" + NatToString(page) + ":" + NatToString(chunkIndex)
  }

  /** Chunk ids of one document are distinct: the page and chunk numbers can
      be read back from the id. */
  lemma ChunkIdInjective(docId: string, p: nat, c: nat, p': nat, c': nat)
    requires ChunkId(docId, p, c) == ChunkId(docId, p', c')
    ensures p == p' && c == c'
  {
    var a, b := NatToString(p), NatToString(c);
    var a', b' := NatToString(p'), NatToString(c');
    assert ':' !in a && ':' !in a';
    var s := ChunkId(docId, p, c);
    assert s == docId + ([':'] + (a + [':'] + b));
    assert s == docId + ([':'] + (a' + [':'] + b'));
    assert s[|docId| + 1..] == a + [':'] + b;
    assert s[|docId| + 1..] == a' + [':'] + b';
    SplitAtSeparator(a, b, a', b', ':');
    NatToStringInjective(p, p');
    NatToStringInjective(c, c');
  }

  /** The records of one page's chunks, the chunks numbered from 0. */
  function PageRecords(chunks: seq<string>, page: nat, docId: string, filename: string,
                       userKey: Option<string>): (rs: seq<ChunkRecord>)
    ensures |rs| == |chunks|
    ensures forall c | 0 <= c < |rs| ::
              rs[c] == ChunkRecord(ChunkId(docId, page, c), chunks[c], page, c, docId, filename, userKey)
  {
    seq(|chunks|, c requires 0 <= c < |chunks| =>
      ChunkRecord(ChunkId(docId, page, c), chunks[c], page, c, docId, filename, userKey))
  }

  /** The record holds chunk `chunkIndex` of its page, the pages of
      `pageChunks` being numbered from `before + 1`. */
  predicate HoldsChunk(rec: ChunkRecord, pageChunks: seq<seq<string>>, before: nat) {
    && before < rec.page <= before + |pageChunks|
    && rec.chunkIndex < |pageChunks[rec.page - before - 1]|
    && rec.text == pageChunks[rec.page - before - 1][rec.chunkIndex]
  }

  predicate AllHoldChunks(rs: seq<ChunkRecord>, pageChunks: seq<seq<string>>, before: nat) {
    forall i | 0 <= i < |rs| :: HoldsChunk(rs[i], pageChunks, before)
  }

  /** The records of the pages that follow page number `before`, given each
      page's chunks. */
  function PagesRecords(pageChunks: seq<seq<string>>, before: nat, docId: string, filename: string,
                        userKey: Option<string>): (rs: seq<ChunkRecord>)
    ensures forall i | 0 <= i < |rs| :: before < rs[i].page <= before + |pageChunks|
    ensures forall i | 0 <= i < |rs| :: rs[i].id == ChunkId(docId, rs[i].page, rs[i].chunkIndex)
    ensures forall i | 0 <= i < |rs| :: rs[i].docId == docId && rs[i].userKey == userKey && rs[i].filename == filename
  {
    if |pageChunks| == 0 then []
    else
      var head := PageRecords(pageChunks[0], before + 1, docId, filename, userKey);
      var tail := PagesRecords(pageChunks[1..], before + 1, docId, filename, userKey);
      var rs := head + tail;
      assert forall i | |head| <= i < |rs| :: rs[i] == tail[i - |head|];
      rs
  }

  /** Every record holds the chunk its page and chunk number name. */
  lemma {:induction false} PagesRecordsHoldChunks(pageChunks: seq<seq<string>>, before: nat, docId: string,
                                                  filename: string, userKey: Option<string>)
    ensures AllHoldChunks(PagesRecords(pageChunks, before, docId, filename, userKey), pageChunks, before)
  {
    if |pageChunks| > 0 {
      var head := PageRecords(pageChunks[0], before + 1, docId, filename, userKey);
      var tail := PagesRecords(pageChunks[1..], before + 1, docId, filename, userKey);
      PagesRecordsHoldChunks(pageChunks[1..], before + 1, docId, filename, userKey);
      var rs := head + tail;
      forall i | 0 <= i < |rs| ensures HoldsChunk(rs[i], pageChunks, before) {
        if i < |head| {
          assert rs[i] == head[i];
        } else {
          var j := i - |head|;
          assert rs[i] == tail[j];
          assert HoldsChunk(tail[j], pageChunks[1..], before + 1);
          HoldsChunkShift(tail[j], pageChunks, before);
        }
      }
    }
  }

  /** A record of the later pages holds its chunk in the whole list too. */
  lemma HoldsChunkShift(rec: ChunkRecord, pageChunks: seq<seq<string>>, before: nat)
    requires |pageChunks| > 0 && HoldsChunk(rec, pageChunks[1..], before + 1)
    ensures HoldsChunk(rec, pageChunks, before)
  {
    assert pageChunks[1..][rec.page - (before + 1) - 1] == pageChunks[rec.page - before - 1];
  }

  predicate DistinctPositions(rs: seq<ChunkRecord>) {
    forall i, j | 0 <= i < j < |rs| :: rs[i].page != rs[j].page || rs[i].chunkIndex != rs[j].chunkIndex
  }

  predicate DistinctIds(rs: seq<ChunkRecord>) {
    forall i, j | 0 <= i < j < |rs| :: rs[i].id != rs[j].id
  }

  /** No two records of an ingestion share both page and chunk number. */
  lemma {:induction false} PagesRecordsDistinct(pageChunks: seq<seq<string>>, before: nat, docId: string,
                                                filename: string, userKey: Option<string>)
    ensures DistinctPositions(PagesRecords(pageChunks, before, docId, filename, userKey))
  {
    if |pageChunks| > 0 {
      var head := PageRecords(pageChunks[0], before + 1, docId, filename, userKey);
      var tail := PagesRecords(pageChunks[1..], before + 1, docId, filename, userKey);
      PagesRecordsDistinct(pageChunks[1..], before + 1, docId, filename, userKey);
      var rs := head + tail;
      forall i, j | 0 <= i < j < |rs| ensures rs[i].page != rs[j].page || rs[i].chunkIndex != rs[j].chunkIndex {
        if j < |head| {
          assert rs[i] == head[i] && rs[j] == head[j];
        } else if i < |head| {
          assert rs[i] == head[i] && rs[j] == tail[j - |head|];
        } else {
          assert rs[i] == tail[i - |head|] && rs[j] == tail[j - |head|];
        }
      }
    }
  }

  /** Total number of chunks over all pages. */
  function TotalChunks(pageChunks: seq<seq<string>>): nat {
    if |pageChunks| == 0 then 0 else |pageChunks[0]| + TotalChunks(pageChunks[1..])
  }

  lemma {:induction false} PagesRecordsCount(pageChunks: seq<seq<string>>, before: nat, docId: string,
                                             filename: string, userKey: Option<string>)
    ensures |PagesRecords(pageChunks, before, docId, filename, userKey)| == TotalChunks(pageChunks)
  {
    if |pageChunks| > 0 {
      PagesRecordsCount(pageChunks[1..], before + 1, docId, filename, userKey);
    }
  }

  /** The chunks of every page; a page whose text could not be extracted
      counts as empty. */
  function PageChunks(pages: seq<Option<string>>, size: int, overlap: int): (pcs: seq<seq<string>>)
    requires 0 < size && overlap < size
    ensures |pcs| == |pages|
    ensures forall p | 0 <= p < |pages| :: pcs[p] == ChunkText(pages[p].GetOr(""), size, overlap)
  {
    seq(|pages|, p requires 0 <= p < |pages| => ChunkText(pages[p].GetOr(""), size, overlap))
  }

  /** `ingest_pdf_bytes`: an unreadable PDF is an error; otherwise every page
      is chunked and each chunk upserted under `docId:page:chunk`, pages
      numbered from 1. `docId` is the SHA-256 digest of the bytes, which is
      not modelled. */
  function IngestPdf(pages: Result<seq<Option<string>>>, docId: string, filename: string,
                     userKey: Option<string>, size: int, overlap: int): (r: Result<IngestReport>)
    requires 0 < size && overlap < size
    ensures r.Err? <==> pages.Err?
    ensures pages.Err? ==> r.error == "Failed to read PDF: " + pages.error
    ensures r.Ok? ==>
              && r.value.docId == docId
              && r.value.count == |r.value.records| == TotalChunks(PageChunks(pages.value, size, overlap))
              && (forall i | 0 <= i < |r.value.records| ::
                    && 1 <= r.value.records[i].page <= |pages.value|
                    && r.value.records[i].docId == docId
                    && r.value.records[i].userKey == (if Truthy(userKey) then userKey else None)
                    && r.value.records[i].filename == filename)
    ensures r.Ok? ==> forall i | 0 <= i < |r.value.records| ::
              && HoldsChunk(r.value.records[i], PageChunks(pages.value, size, overlap), 0)
              && r.value.records[i].id == ChunkId(docId, r.value.records[i].page, r.value.records[i].chunkIndex)
  {
    if pages.Err? then Err("Failed to read PDF: " + pages.error)
    else
      var key := if Truthy(userKey) then userKey else None;
      var pcs := PageChunks(pages.value, size, overlap);
      var rs := PagesRecords(pcs, 0, docId, filename, key);
      PagesRecordsCount(pcs, 0, docId, filename, key);
      PagesRecordsHoldChunks(pcs, 0, docId, filename, key);
      Ok(IngestReport(|rs|, docId, rs))
  }

  /** Re-ingesting a document overwrites instead of duplicating: no two
      chunks of one ingestion share an id. */
  lemma IngestIdsDistinct(pages: seq<Option<string>>, docId: string, filename: string,
                          userKey: Option<string>, size: int, overlap: int)
    requires 0 < size && overlap < size
    ensures IngestPdf(Ok(pages), docId, filename, userKey, size, overlap).Ok?
    ensures DistinctIds(IngestPdf(Ok(pages), docId, filename, userKey, size, overlap).value.records)
  {
    var key := if Truthy(userKey) then userKey else None;
    var pcs := PageChunks(pages, size, overlap);
    var rs := PagesRecords(pcs, 0, docId, filename, key);
    PagesRecordsDistinct(pcs, 0, docId, filename, key);
    forall i, j | 0 <= i < j < |rs| ensures rs[i].id != rs[j].id {
      if rs[i].id == rs[j].id {
        ChunkIdInjective(docId, rs[i].page, rs[i].chunkIndex, rs[j].page, rs[j].chunkIndex);
      }
    }
  }

  // ---------------------------------------------------------------------------
  // Vector search
  // ---------------------------------------------------------------------------

  datatype SearchStage = SearchStage(numCandidates: int, limit: int)

  /** The `$vectorSearch` stage of `query_similar`: at least 200 candidates
      and at least 40 per requested result, so there are never fewer
      candidates than results. */
  function VectorSearchStage(k: int): (st: SearchStage)
    ensures st.limit == k
    ensures st.numCandidates >= 200 && st.numCandidates >= k * 40
    ensures st.numCandidates == 200 || st.numCandidates == k * 40
    ensures k >= 0 ==> st.numCandidates >= st.limit
  {
    SearchStage(Max(200, k * 40), k)
  }
}
