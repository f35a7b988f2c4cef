/** Batch archiving of old messages (`archive_service.py`): documents are
    read from a cursor in order, written out in parts of at most
    `batch_size` lines, and deleted part by part after each write. The
    cursor is a sequence, the JSON rendering of a document is its `line`,
    and the writer and deleter are recorded as effects. */
module Archive {
  import opened Arith

  /** A message document: its id and its JSON line. */
  datatype Doc = Doc(id: string, line: string)

  /** What the archiver asks of the outside world, in order. */
  datatype Effect = Write(part: nat, lines: seq<string>) | Delete(ids: seq<string>)

  datatype Stats = Stats(total: nat, uploaded: nat, deleted: nat, parts: nat)

  /** The report of `archive_messages_local`. */
  datatype Report = Report(totalCandidates: nat, uploaded: nat, deleted: nat, parts: nat, dryRun: bool)

  function Concat<T>(parts: seq<seq<T>>): seq<T> {
    if |parts| == 0 then [] else parts[0] + Concat(parts[1..])
  }

  lemma {:induction false} ConcatAppend<T>(a: seq<seq<T>>, b: seq<seq<T>>)
    ensures Concat(a + b) == Concat(a) + Concat(b)
  {
    if |a| == 0 {
      assert a + b == b;
    } else {
      ConcatAppend(a[1..], b);
      calc {
        Concat(a + b);
        (a + b)[0] + Concat((a + b)[1..]);
        { assert (a + b)[1..] == a[1..] + b; }
        a[0] + Concat(a[1..] + b);
        a[0] + (Concat(a[1..]) + Concat(b));
      }
    }
  }

  /** The reference split: consecutive parts of `b` elements, the last one
      possibly shorter. */
  function Batches<T>(xs: seq<T>, b: nat): (r: seq<seq<T>>)
    requires b > 0
    decreases |xs|
  {
    if |xs| == 0 then []
    else if |xs| <= b then [xs]
    else [xs[..b]] + Batches(xs[b..], b)
  }

  /** The parts put back together are the input, in order. */
  lemma {:induction false} BatchesConcat<T>(xs: seq<T>, b: nat)
    requires b > 0
    ensures Concat(Batches(xs, b)) == xs
    decreases |xs|
  {
    if |xs| > b {
      BatchesConcat(xs[b..], b);
      assert Batches(xs, b)[1..] == Batches(xs[b..], b);
      assert xs == xs[..b] + xs[b..];
    }
  }

  lemma DivStep(x: nat, b: nat)
    requires b > 0
    ensures (x + b) / b == x / b + 1
  {
    DivUnique(x + b, b, x / b + 1, x % b);
  }

  /** There are `ceil(|xs| / b)` parts. */
  lemma {:induction false} BatchesCount<T>(xs: seq<T>, b: nat)
    requires b > 0
    ensures |Batches(xs, b)| == (|xs| + b - 1) / b
    decreases |xs|
  {
    if |xs| == 0 {
    } else if |xs| <= b {
      DivUnique(|xs| + b - 1, b, 1, |xs| - 1);
    } else {
      BatchesCount(xs[b..], b);
      DivStep(|xs| - b + b - 1, b);
    }
  }

  /** Every part is non-empty and at most `b` long, and every part but the
      last is exactly `b` long. */
  lemma {:induction false} BatchesSizes<T>(xs: seq<T>, b: nat)
    requires b > 0
    ensures forall i | 0 <= i < |Batches(xs, b)| :: 0 < |Batches(xs, b)[i]| <= b
    ensures forall i | 0 <= i < |Batches(xs, b)| - 1 :: |Batches(xs, b)[i]| == b
    decreases |xs|
  {
    if |xs| > b {
      var rest := Batches(xs[b..], b);
      BatchesSizes(xs[b..], b);
      assert Batches(xs, b) == [xs[..b]] + rest;
      assert forall i | 1 <= i < |Batches(xs, b)| :: Batches(xs, b)[i] == rest[i - 1];
    }
  }

  /** A split into full parts followed by a shorter open part is the
      reference split. */
  lemma {:induction false} BatchesOfFull<T>(done: seq<seq<T>>, cur: seq<T>, b: nat)
    requires b > 0
    requires forall i | 0 <= i < |done| :: |done[i]| == b
    requires |cur| < b
    ensures Batches(Concat(done) + cur, b) == done + (if |cur| > 0 then [cur] else [])
  {
    if |done| > 0 {
      var rest := done[1..];
      assert forall i | 0 <= i < |rest| :: rest[i] == done[i + 1];
      BatchesOfFull(rest, cur, b);
      var xs := Concat(done) + cur;
      var tail := Concat(rest) + cur;
      assert xs == done[0] + tail;
      assert xs[..b] == done[0];
      assert xs[b..] == tail;
      assert done == [done[0]] + rest;
      if |tail| == 0 {
        assert |cur| == 0;
        assert Batches(tail, b) == [];
        assert Batches(xs, b) == [xs];
        assert Batches(tail, b) == rest + (if |cur| > 0 then [cur] else []);
        assert rest == [];
      } else {
        assert Batches(xs, b) == [done[0]] + Batches(tail, b);
      }
    } else {
      assert Concat(done) + cur == cur;
    }
  }

  function Lines(docs: seq<Doc>): (r: seq<string>)
    ensures |r| == |docs|
    ensures forall i | 0 <= i < |docs| :: r[i] == docs[i].line
  {
    seq(|docs|, i requires 0 <= i < |docs| => docs[i].line)
  }

  function Ids(docs: seq<Doc>): (r: seq<string>)
    ensures |r| == |docs|
    ensures forall i | 0 <= i < |docs| :: r[i] == docs[i].id
  {
    seq(|docs|, i requires 0 <= i < |docs| => docs[i].id)
  }

  /** The effects of writing `parts`, numbered from `first`: each part is
      written, then its ids are deleted when a deleter is given. */
  function PartEffects(parts: seq<seq<Doc>>, first: nat, deleter: bool): seq<Effect> {
    if |parts| == 0 then []
    else [Write(first, Lines(parts[0]))] + (if deleter then [Delete(Ids(parts[0]))] else [])
         + PartEffects(parts[1..], first + 1, deleter)
  }

  lemma {:induction false} PartEffectsAppend(parts: seq<seq<Doc>>, p: seq<Doc>, first: nat, deleter: bool)
    ensures PartEffects(parts + [p], first, deleter)
         == PartEffects(parts, first, deleter)
            + [Write(first + |parts|, Lines(p))] + (if deleter then [Delete(Ids(p))] else [])
  {
    if |parts| == 0 {
      assert parts + [p] == [p];
    } else {
      PartEffectsAppend(parts[1..], p, first + 1, deleter);
      assert (parts + [p])[1..] == parts[1..] + [p];
    }
  }

  /** The lines handed to the writer, in order. */
  function Written(effects: seq<Effect>): seq<string> {
    if |effects| == 0 then []
    else (if effects[0].Write? then effects[0].lines else []) + Written(effects[1..])
  }

  /** The ids handed to the deleter, in order. */
  function Deleted(effects: seq<Effect>): seq<string> {
    if |effects| == 0 then []
    else (if effects[0].Delete? then effects[0].ids else []) + Deleted(effects[1..])
  }

  /** Each document is written exactly once, in cursor order, and deleted
      exactly once when a deleter is given. */
  lemma {:induction false} PartEffectsCover(parts: seq<seq<Doc>>, first: nat, deleter: bool)
    ensures Written(PartEffects(parts, first, deleter)) == Lines(Concat(parts))
    ensures Deleted(PartEffects(parts, first, deleter)) == (if deleter then Ids(Concat(parts)) else [])
  {
    if |parts| > 0 {
      PartEffectsCover(parts[1..], first + 1, deleter);
      var head := [Write(first, Lines(parts[0]))] + (if deleter then [Delete(Ids(parts[0]))] else []);
      var tail := PartEffects(parts[1..], first + 1, deleter);
      WrittenAppend(head, tail);
      DeletedAppend(head, tail);
      if deleter {
        assert head[1..] == [Delete(Ids(parts[0]))];
        assert Written(head) == Lines(parts[0]) + Written(head[1..]);
        assert Deleted(head) == Deleted(head[1..]);
      }
      LinesAppend(parts[0], Concat(parts[1..]));
    }
  }

  /** A writer or deleter that raises ends `_archive_cursor` part-way, so
      only a prefix of the effects happens. Cut anywhere, the effects have
      written the first lines of the cursor and deleted the ids of a no
      longer run of its first documents: no document is deleted before its
      line was handed to the writer. */
  lemma {:induction false} EffectsPrefixDeletesOnlyWritten(parts: seq<seq<Doc>>, first: nat, k: nat)
    requires k <= |PartEffects(parts, first, true)|
    ensures var e := PartEffects(parts, first, true)[..k];
            var docs := Concat(parts);
            && |Deleted(e)| <= |Written(e)| <= |docs|
            && Written(e) == Lines(docs[..|Written(e)|])
            && Deleted(e) == Ids(docs[..|Deleted(e)|])
  {
    var e := PartEffects(parts, first, true)[..k];
    var docs := Concat(parts);
    if k == 0 {
      assert e == [];
      assert docs[..0] == [];
    } else {
      var p := parts[0];
      var rd := Concat(parts[1..]);
      var head := [Write(first, Lines(p)), Delete(Ids(p))];
      var tailE := PartEffects(parts[1..], first + 1, true);
      assert PartEffects(parts, first, true) == head + tailE;
      assert docs == p + rd;
      PartEffectsHead(p, first);
      if k == 1 {
        assert e == [Write(first, Lines(p))];
        ExtendPrefix(p, rd, 0);
        ExtendPrefix([], rd, 0);
      } else {
        var t := tailE[..k - 2];
        assert e == head + t;
        EffectsPrefixDeletesOnlyWritten(parts[1..], first + 1, k - 2);
        WrittenAppend(head, t);
        DeletedAppend(head, t);
        ExtendPrefix(p, rd, |Written(t)|);
        ExtendPrefix(p, rd, |Deleted(t)|);
      }
    }
  }

  /** The effects of one part, and of its write alone. */
  lemma PartEffectsHead(p: seq<Doc>, first: nat)
    ensures Written([Write(first, Lines(p)), Delete(Ids(p))]) == Lines(p)
    ensures Deleted([Write(first, Lines(p)), Delete(Ids(p))]) == Ids(p)
    ensures Written([Write(first, Lines(p))]) == Lines(p)
    ensures Deleted([Write(first, Lines(p))]) == []
  {
    var head := [Write(first, Lines(p)), Delete(Ids(p))];
    assert head[1..] == [Delete(Ids(p))];
    assert Written(head[1..]) == [] + Written([]);
    assert Deleted(head[1..]) == Ids(p) + Deleted([]);
    assert Written([Write(first, Lines(p))]) == Lines(p) + Written([]);
  }

  /** A part followed by a prefix of the later documents is a prefix of all
      of them. */
  lemma ExtendPrefix(p: seq<Doc>, rd: seq<Doc>, m: nat)
    requires m <= |rd|
    ensures Lines(p) + Lines(rd[..m]) == Lines((p + rd)[..|p| + m])
    ensures Ids(p) + Ids(rd[..m]) == Ids((p + rd)[..|p| + m])
  {
    LinesAppend(p, rd[..m]);
    assert (p + rd)[..|p| + m] == p + rd[..m];
  }

  lemma {:induction false} WrittenAppend(a: seq<Effect>, b: seq<Effect>)
    ensures Written(a + b) == Written(a) + Written(b)
  {
    if |a| == 0 {
      assert a + b == b;
    } else {
      WrittenAppend(a[1..], b);
      var w := if a[0].Write? then a[0].lines else [];
      calc {
        Written(a + b);
        w + Written((a + b)[1..]);
        { assert (a + b)[1..] == a[1..] + b; }
        w + Written(a[1..] + b);
        w + (Written(a[1..]) + Written(b));
        { assert w + (Written(a[1..]) + Written(b)) == (w + Written(a[1..])) + Written(b); }
        Written(a) + Written(b);
      }
    }
  }

  lemma {:induction false} DeletedAppend(a: seq<Effect>, b: seq<Effect>)
    ensures Deleted(a + b) == Deleted(a) + Deleted(b)
  {
    if |a| == 0 {
      assert a + b == b;
    } else {
      DeletedAppend(a[1..], b);
      var d := if a[0].Delete? then a[0].ids else [];
      calc {
        Deleted(a + b);
        d + Deleted((a + b)[1..]);
        { assert (a + b)[1..] == a[1..] + b; }
        d + Deleted(a[1..] + b);
        d + (Deleted(a[1..]) + Deleted(b));
        { assert d + (Deleted(a[1..]) + Deleted(b)) == (d + Deleted(a[1..])) + Deleted(b); }
        Deleted(a) + Deleted(b);
      }
    }
  }

  lemma LinesAppend(a: seq<Doc>, b: seq<Doc>)
    ensures Lines(a + b) == Lines(a) + Lines(b)
    ensures Ids(a + b) == Ids(a) + Ids(b)
  {
  }

  /** Closing a part of `_archive_cursor`: the part counter advances and,
      unless on a dry run, the part is written (and its documents deleted
      when `deleter`), so the counters keep describing the closed parts. */
  method ClosePart(ghost done: seq<seq<Doc>>, cur: seq<Doc>, part: int, effects: seq<Effect>,
                   uploaded: int, deleted: int, dryRun: bool, deleter: bool)
    returns (part': int, effects': seq<Effect>, uploaded': int, deleted': int)
    requires part == |done|
    requires dryRun ==> effects == [] && uploaded == 0 && deleted == 0
    requires !dryRun ==> effects == PartEffects(done, 1, deleter)
                         && uploaded == |Concat(done)|
                         && deleted == (if deleter then |Concat(done)| else 0)
    ensures part' == |done + [cur]| && Concat(done + [cur]) == Concat(done) + cur
    ensures dryRun ==> effects' == [] && uploaded' == 0 && deleted' == 0
    ensures !dryRun ==> effects' == PartEffects(done + [cur], 1, deleter)
                        && uploaded' == |Concat(done + [cur])|
                        && deleted' == (if deleter then |Concat(done + [cur])| else 0)
  {
    ConcatAppend(done, [cur]);
    assert Concat([cur]) == cur + Concat([cur][1..]);
    part', effects', uploaded', deleted' := part + 1, effects, uploaded, deleted;
    if !dryRun {
      PartEffectsAppend(done, cur, 1, deleter);
      effects' := effects' + [Write(part', Lines(cur))];
      uploaded' := uploaded' + |cur|;
      if deleter {
        effects' := effects' + [Delete(Ids(cur))];
        deleted' := deleted' + |cur|;
      }
    }
  }

  /** `_archive_cursor`: a batch size of 0 or less closes a part after every
      document, as `len(lines) >= batch_size` then always holds. */
  method ArchiveCursor(docs: seq<Doc>, batchSize: int, dryRun: bool, deleter: bool)
    returns (stats: Stats, effects: seq<Effect>)
    ensures var b := if batchSize < 1 then 1 else batchSize;
            && stats.total == |docs|
            && stats.parts == |Batches(docs, b)|
            && (dryRun ==> effects == [] && stats.uploaded == 0 && stats.deleted == 0)
            && (!dryRun ==> effects == PartEffects(Batches(docs, b), 1, deleter)
                            && stats.uploaded == |docs|
                            && stats.deleted == (if deleter then |docs| else 0))
  {
    var b := if batchSize < 1 then 1 else batchSize;
    var total, uploaded, deleted, part := 0, 0, 0, 0;
    var cur: seq<Doc> := [];
    ghost var done: seq<seq<Doc>> := [];
    effects := [];
    var i := 0;
    while i < |docs|
      invariant 0 <= i <= |docs|
      invariant total == i && part == |done| && |cur| < b
      invariant forall k | 0 <= k < |done| :: |done[k]| == b
      invariant Concat(done) + cur == docs[..i]
      invariant dryRun ==> effects == [] && uploaded == 0 && deleted == 0
      invariant !dryRun ==> effects == PartEffects(done, 1, deleter)
                            && uploaded == |Concat(done)|
                            && deleted == (if deleter then |Concat(done)| else 0)
    {
      total := total + 1;
      cur := cur + [docs[i]];
      assert docs[..i + 1] == docs[..i] + [docs[i]];
      if |cur| >= b {
        part, effects, uploaded, deleted := ClosePart(done, cur, part, effects, uploaded, deleted, dryRun, deleter);
        done := done + [cur];
        cur := [];
      }
      i := i + 1;
    }
    assert docs[..|docs|] == docs;
    BatchesOfFull(done, cur, b);
    if |cur| > 0 {
      part, effects, uploaded, deleted := ClosePart(done, cur, part, effects, uploaded, deleted, dryRun, deleter);
      done := done + [cur];
    }
    assert Batches(docs, b) == done;
    stats := Stats(total, uploaded, deleted, part);
  }

  /** `archive_messages_local`'s report: the counts of the batching, with
      nothing reported as uploaded or deleted on a dry run. */
  method ArchiveLocal(docs: seq<Doc>, batchSize: int, dryRun: bool) returns (report: Report, effects: seq<Effect>)
    ensures report.totalCandidates == |docs| && report.dryRun == dryRun
    ensures dryRun ==> effects == [] && report.uploaded == 0 && report.deleted == 0
    ensures !dryRun ==> report.uploaded == |docs| && report.deleted == |docs|
                        && Written(effects) == Lines(docs) && Deleted(effects) == Ids(docs)
    ensures batchSize >= 1 ==> report.parts == (|docs| + batchSize - 1) / batchSize
  {
    var stats;
    stats, effects := ArchiveCursor(docs, batchSize, dryRun, true);
    var b := if batchSize < 1 then 1 else batchSize;
    BatchesCount(docs, b);
    BatchesConcat(docs, b);
    PartEffectsCover(Batches(docs, b), 1, true);
    report := Report(stats.total, if dryRun then 0 else stats.uploaded,
                     if dryRun then 0 else stats.deleted, stats.parts, dryRun);
  }
}
