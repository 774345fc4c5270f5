/** Resumable ingestion: what is on disk between one commit and the next (`app/rag/pipeline.py`). */
module Ingestion {
  import opened Wrappers

  /** Where an interrupted ingestion resumes; `Nothing` is a NULL stage. */
  datatype Stage = Nothing | Embed | Tag

  datatype Vector = Vector(id: int)

  datatype StagedRow = StagedRow(text: string, vector: Vector)

  /** A chunk's id: drawn afresh for each ordinal of each publishing run. */
  datatype ChunkId = Drawn(run: nat, ordinal: nat)

  /** A chunk; `live` is `superseded_at IS NULL`. */
  datatype ChunkRow = ChunkRow(ordinal: nat, text: string, vector: Option<Vector>, live: bool)

  /** Everything a crash leaves behind: the committed rows of one source, and its saved extraction. */
  datatype Disk = Disk(
    stage: Stage, done: bool, duplicate: bool, count: nat,
    staged: map<nat, StagedRow>, chunks: map<ChunkId, ChunkRow>, saved: Option<seq<string>>)

  /**
    What a run is given: its number, the units extraction yields, whether another source says the
    same, the chunker, the embedder, the chunks cited at publish time, how many chunks one window
    embeds, and the two budgets.
   */
  datatype Job = Job(
    run: nat, units: seq<string>, twin: bool, chunkOf: seq<string> -> seq<string>, vectorOf: string -> Vector,
    cited: set<ChunkId>, window: nat, maxChars: nat, maxChunks: nat)

  datatype Error = ExtractionTooLarge | EmptyExtraction | TooManyChunks

  function Chars(units: seq<string>): nat {
    if units == [] then 0 else |units[0]| + Chars(units[1..])
  }

  /** The size an extraction is judged by is its units' lengths added up. */
  lemma {:induction false} CharsAddUp(before: seq<string>, unit: string)
    ensures Chars(before + [unit]) == Chars(before) + |unit| && Chars([]) == 0
    decreases |before|
  {
    if before == [] {
      assert [] + [unit] == [unit];
    } else {
      CharsAddUp(before[1..], unit);
      assert (before + [unit])[1..] == before[1..] + [unit];
    }
  }

  // ---- `supersede_chunks` and `_publish` ------------------------------------------------

  /** Live chunks retire: the cited ones stay as history without a vector, the others go. */
  function Retired(chunks: map<ChunkId, ChunkRow>, cited: set<ChunkId>): map<ChunkId, ChunkRow> {
    map id | id in chunks && (!chunks[id].live || id in cited) ::
      if chunks[id].live then chunks[id].(live := false, vector := None) else chunks[id]
  }

  function LiveRow(o: nat, row: StagedRow): ChunkRow {
    ChunkRow(o, row.text, Some(row.vector), true)
  }

  function NewChunks(run: nat, staged: map<nat, StagedRow>): map<ChunkId, ChunkRow> {
    map o | o in staged :: Drawn(run, o) := LiveRow(o, staged[o])
  }

  function Published(job: Job, d: Disk): Disk {
    d.(stage := Tag, done := true, count := |d.staged|, staged := map[],
       chunks := Retired(d.chunks, job.cited) + NewChunks(job.run, d.staged))
  }

  /** No chunk has an id this run will draw. */
  predicate FreshRun(job: Job, d: Disk) {
    forall id :: id in d.chunks ==> id.run != job.run
  }

  // ---- `_extract` and `_embed` ------------------------------------------------------------

  /** A duplicate is finished at extraction: it stops answering for itself. */
  function Deferred(job: Job, d: Disk): Disk {
    d.(stage := Nothing, done := true, duplicate := true, count := 0, chunks := Retired(d.chunks, job.cited))
  }

  function Extracted(job: Job, d: Disk): Disk {
    d.(stage := Embed, duplicate := false, saved := Some(job.units))
  }

  /** The texts the embed stage works on: the chunks of the saved extraction. */
  function TextsOf(job: Job, d: Disk): seq<string> {
    if d.saved.Some? then job.chunkOf(d.saved.value) else []
  }

  /** `todo`, from ordinal `o` on: the ordinals not staged yet. */
  function TodoFrom(staged: map<nat, StagedRow>, n: nat, o: nat): seq<nat>
    decreases n - o
  {
    if o >= n then [] else if o in staged then TodoFrom(staged, n, o + 1) else [o] + TodoFrom(staged, n, o + 1)
  }

  function RowFor(job: Job, texts: seq<string>, o: nat): StagedRow
    requires o < |texts|
  {
    StagedRow(texts[o], job.vectorOf(texts[o]))
  }

  /** `staged` with a window of ordinals embedded. */
  function Staged(job: Job, texts: seq<string>, staged: map<nat, StagedRow>, part: seq<nat>): map<nat, StagedRow>
    requires forall o :: o in part ==> o < |texts|
  {
    staged + (map o | o in part :: RowFor(job, texts, o))
  }

  lemma {:induction false} TodoIsMissing(staged: map<nat, StagedRow>, n: nat, o: nat)
    ensures forall k :: k in TodoFrom(staged, n, o) <==> o <= k < n && k !in staged
    ensures forall i, j :: 0 <= i < j < |TodoFrom(staged, n, o)| ==> TodoFrom(staged, n, o)[i] < TodoFrom(staged, n, o)[j]
    decreases n - o
  {
    if o < n {
      TodoIsMissing(staged, n, o + 1);
      var rest := TodoFrom(staged, n, o + 1);
      if o !in staged {
        LeastInFront(o, rest);
        assert TodoFrom(staged, n, o) == [o] + rest;
      }
    }
  }

  lemma LeastInFront(o: nat, rest: seq<nat>)
    requires forall k :: k in rest ==> o < k
    requires forall i, j :: 0 <= i < j < |rest| ==> rest[i] < rest[j]
    ensures forall i, j :: 0 <= i < j < |[o] + rest| ==> ([o] + rest)[i] < ([o] + rest)[j]
    ensures forall k :: k in [o] + rest <==> k == o || k in rest
  {
    assert forall i :: 0 <= i < |rest| ==> rest[i] in rest;
  }

  lemma FirstIsPart(s: seq<nat>, n: nat)
    ensures forall o :: o in First(s, n) ==> o in s
    ensures s != [] && n > 0 ==> First(s, n) != []
  {
  }

  /** A window is the front of what is to do, as long as it can be. */
  lemma WindowIsFull(s: seq<nat>, n: nat)
    ensures First(s, n) <= s && |First(s, n)| == if n < |s| then n else |s|
  {
  }

  function First(s: seq<nat>, n: nat): seq<nat> {
    if n <= |s| then s[..n] else s
  }

  // ---- What comes next --------------------------------------------------------------------

  /** What `run` does next from a disk: commit, raise and roll back, or return. */
  datatype Next = Commits(disk: Disk) | Raises(error: Error) | Returns

  function EmbedNext(job: Job, d: Disk): Next {
    var texts := TextsOf(job, d);
    if texts == [] then Raises(EmptyExtraction)
    else if |texts| > job.maxChunks then Raises(TooManyChunks)
    else
      var todo := TodoFrom(d.staged, |texts|, 0);
      TodoIsMissing(d.staged, |texts|, 0);
      FirstIsPart(todo, job.window);
      if todo == [] then Commits(Published(job, d))
      else Commits(d.(staged := Staged(job, texts, d.staged, First(todo, job.window))))
  }

  function ExtractNext(job: Job, d: Disk): Next {
    if Chars(job.units) > job.maxChars then Raises(ExtractionTooLarge)
    else if job.twin then Commits(Deferred(job, d))
    else Commits(Extracted(job, d))
  }

  /** The next committed state of a run that starts, or is resumed, at this disk. */
  function NextOf(job: Job, d: Disk): Next {
    if d.done then Returns
    else
      match d.stage
      case Nothing => ExtractNext(job, d)
      case Embed => EmbedNext(job, d)
      case Tag => Returns
  }

  // ---- Every run, however often it is interrupted ---------------------------------------

  /** What the embed stage still has to embed. */
  function Missing(job: Job, d: Disk): nat {
    |TodoFrom(d.staged, |TextsOf(job, d)|, 0)|
  }

  /** How far a disk is from done. */
  function Ahead(job: Job, d: Disk): nat {
    if d.done then 0
    else
      match d.stage
      case Nothing => 3 + |job.chunkOf(job.units)|
      case Embed => 1 + Missing(job, d)
      case Tag => 0
  }

  lemma {:induction false} TodoShrinks(staged: map<nat, StagedRow>, more: map<nat, StagedRow>, n: nat, o: nat)
    requires staged.Keys <= more.Keys
    ensures |TodoFrom(more, n, o)| <= |TodoFrom(staged, n, o)| <= (if o < n then n - o else 0)
    ensures (exists k :: o <= k < n && k in more && k !in staged) ==> |TodoFrom(more, n, o)| < |TodoFrom(staged, n, o)|
    decreases n - o
  {
    if o < n {
      TodoShrinks(staged, more, n, o + 1);
    }
  }

  /** Every commit brings the run nearer to done. */
  lemma CommitsAreProgress(job: Job, d: Disk)
    requires NextOf(job, d).Commits? && job.window >= 1
    ensures Ahead(job, NextOf(job, d).disk) < Ahead(job, d)
  {
    var texts := TextsOf(job, d);
    var todo := TodoFrom(d.staged, |texts|, 0);
    if d.stage.Embed? && todo != [] {
      TodoIsMissing(d.staged, |texts|, 0);
      FirstIsPart(todo, job.window);
      var more := Staged(job, texts, d.staged, First(todo, job.window));
      TodoShrinks(d.staged, more, |texts|, 0);
      var k := First(todo, job.window)[0];
      assert k in more && k !in d.staged;
    } else if d.stage.Nothing? && !job.twin {
      TodoShrinks(d.staged, d.staged, |job.chunkOf(job.units)|, 0);
    }
  }

  /** What a run that is not interrupted leaves on disk, and the error if it raises. */
  function Finish(job: Job, d: Disk): (Disk, Option<Error>)
    requires job.window >= 1
    decreases Ahead(job, d)
  {
    match NextOf(job, d)
    case Commits(next) => CommitsAreProgress(job, d); Finish(job, next)
    case Raises(error) => (d, Some(error))
    case Returns => (d, None)
  }

  /**
    A run raises exactly when the extraction is too large to be kept, or, once it is saved, when
    it has no chunks or too many of them; a raise commits nothing.
   */
  lemma RaisesExactlyWhen(job: Job, d: Disk)
    ensures NextOf(job, d) == Raises(ExtractionTooLarge) <==> !d.done && d.stage.Nothing? && Chars(job.units) > job.maxChars
    ensures NextOf(job, d) == Raises(EmptyExtraction) <==> !d.done && d.stage.Embed? && TextsOf(job, d) == []
    ensures NextOf(job, d) == Raises(TooManyChunks) <==>
      !d.done && d.stage.Embed? && TextsOf(job, d) != [] && |TextsOf(job, d)| > job.maxChunks
    ensures NextOf(job, d).Raises? && job.window >= 1 ==> Finish(job, d) == (d, Some(NextOf(job, d).error))
  {
  }

  // ---- What a finished run leaves ---------------------------------------------------------

  /** Every chunk of the text, with its own vector. */
  function Full(job: Job, texts: seq<string>): map<nat, StagedRow> {
    map o: nat | o < |texts| :: RowFor(job, texts, o)
  }

  predicate WithinBudget(job: Job, texts: seq<string>) {
    texts != [] && |texts| <= job.maxChunks
  }

  lemma NothingMissing(job: Job, texts: seq<string>, staged: map<nat, StagedRow>)
    requires TodoFrom(staged, |texts|, 0) == []
    ensures Full(job, texts) + staged == staged
  {
    TodoIsMissing(staged, |texts|, 0);
    forall o: nat | o < |texts|
      ensures o in staged
    {
      assert o !in TodoFrom(staged, |texts|, 0);
    }
  }

  lemma WindowIsPartOfFull(job: Job, texts: seq<string>, staged: map<nat, StagedRow>, part: seq<nat>)
    requires forall o :: o in part ==> o < |texts| && o !in staged
    ensures Full(job, texts) + Staged(job, texts, staged, part) == Full(job, texts) + staged
  {
  }

  /** The embed stage ends by publishing what was staged, completed with every chunk that was not. */
  lemma {:induction false} EmbedFinishes(job: Job, d: Disk)
    requires job.window >= 1 && d.stage.Embed? && !d.done && WithinBudget(job, TextsOf(job, d))
    ensures Finish(job, d) == (Published(job, d.(staged := Full(job, TextsOf(job, d)) + d.staged)), None)
    decreases Missing(job, d)
  {
    var texts := TextsOf(job, d);
    var todo := TodoFrom(d.staged, |texts|, 0);
    TodoIsMissing(d.staged, |texts|, 0);
    if todo == [] {
      NothingMissing(job, texts, d.staged);
      assert d.(staged := d.staged) == d;
    } else {
      var part := First(todo, job.window);
      FirstIsPart(todo, job.window);
      CommitsAreProgress(job, d);
      WindowIsPartOfFull(job, texts, d.staged, part);
      WindowFinishes(job, d, d.(staged := Staged(job, texts, d.staged, part)));
      EmbedFinishes(job, d.(staged := Staged(job, texts, d.staged, part)));
    }
  }

  lemma WindowFinishes(job: Job, d: Disk, next: Disk)
    requires job.window >= 1 && NextOf(job, d) == Commits(next)
    ensures Finish(job, d) == Finish(job, next) && Ahead(job, next) < Ahead(job, d)
  {
    CommitsAreProgress(job, d);
  }

  /** A run from the start, for a source that is no one's twin, ends as its embed stage does. */
  lemma ExtractFinishes(job: Job, d: Disk)
    requires job.window >= 1 && d.stage.Nothing? && !d.done && !job.twin && Chars(job.units) <= job.maxChars
    requires WithinBudget(job, job.chunkOf(job.units))
    ensures Finish(job, d)
         == (Published(job, Extracted(job, d).(staged := Full(job, job.chunkOf(job.units)) + d.staged)), None)
  {
    CommitsAreProgress(job, d);
    EmbedFinishes(job, Extracted(job, d));
  }

  /** What retrieval sees of the chunks, ids aside. */
  function Live(chunks: map<ChunkId, ChunkRow>): set<ChunkRow> {
    set id | id in chunks && chunks[id].live :: chunks[id]
  }

  /** Chunk `i` of the text at ordinal `i`, with its own vector, and nothing else. */
  function AllOf(job: Job, texts: seq<string>): set<ChunkRow> {
    set o: nat | o < |texts| :: LiveRow(o, RowFor(job, texts, o))
  }

  function RowsOf(staged: map<nat, StagedRow>): set<ChunkRow> {
    set o | o in staged :: LiveRow(o, staged[o])
  }

  lemma PublishedIsLive(job: Job, d: Disk)
    ensures Live(Published(job, d).chunks) == RowsOf(d.staged)
  {
    var chunks := Published(job, d).chunks;
    forall row | row in RowsOf(d.staged)
      ensures row in Live(chunks)
    {
      var o :| o in d.staged && LiveRow(o, d.staged[o]) == row;
      assert Drawn(job.run, o) in NewChunks(job.run, d.staged) && chunks[Drawn(job.run, o)] == row;
    }
    forall row | row in Live(chunks)
      ensures row in RowsOf(d.staged)
    {
      var id :| id in chunks && chunks[id].live && chunks[id] == row;
      assert id in NewChunks(job.run, d.staged);
    }
  }

  /** What is staged is part of what this run would stage. */
  predicate StagedFits(job: Job, texts: seq<string>, staged: map<nat, StagedRow>) {
    forall o :: o in staged ==> o < |texts| && staged[o] == RowFor(job, texts, o)
  }

  lemma FittingIsFull(job: Job, texts: seq<string>, staged: map<nat, StagedRow>)
    requires StagedFits(job, texts, staged)
    ensures Full(job, texts) + staged == Full(job, texts)
  {
  }

  lemma StaleShows(job: Job, texts: seq<string>, staged: map<nat, StagedRow>, o: nat)
    requires o in staged && !(o < |texts| && staged[o] == RowFor(job, texts, o))
    ensures RowsOf(staged) != AllOf(job, texts)
  {
    var row := LiveRow(o, staged[o]);
    assert row in RowsOf(staged);
    assert row !in AllOf(job, texts);
  }

  lemma RowsRightExactlyWhen(job: Job, texts: seq<string>, staged: map<nat, StagedRow>)
    ensures RowsOf(Full(job, texts) + staged) == AllOf(job, texts) <==> StagedFits(job, texts, staged)
  {
    if StagedFits(job, texts, staged) {
      FittingIsFull(job, texts, staged);
      RowsOfFull(job, texts);
    } else {
      var o :| o in staged && !(o < |texts| && staged[o] == RowFor(job, texts, o));
      StaleShows(job, texts, Full(job, texts) + staged, o);
    }
  }

  /** The published chunks are the text's, each once, exactly when what was staged before fits the text. */
  lemma PublishedRightExactlyWhen(job: Job, d: Disk, texts: seq<string>)
    ensures Live(Published(job, d.(staged := Full(job, texts) + d.staged)).chunks) == AllOf(job, texts)
      <==> StagedFits(job, texts, d.staged)
  {
    PublishedIsLive(job, d.(staged := Full(job, texts) + d.staged));
    RowsRightExactlyWhen(job, texts, d.staged);
  }

  lemma RowsOfFull(job: Job, texts: seq<string>)
    ensures RowsOf(Full(job, texts)) == AllOf(job, texts) && |Full(job, texts)| == |texts|
  {
    forall row | row in AllOf(job, texts)
      ensures row in RowsOf(Full(job, texts))
    {
      var o: nat :| o < |texts| && row == LiveRow(o, RowFor(job, texts, o));
      assert o in Full(job, texts);
    }
    KeysBelow(Full(job, texts), |texts|);
  }

  lemma {:induction false} KeysBelow(m: map<nat, StagedRow>, n: nat)
    requires forall o: nat :: o in m <==> o < n
    ensures |m| == n
    decreases n
  {
    if n > 0 {
      var rest := map o | o in m && o != n - 1 :: m[o];
      assert rest.Keys == m.Keys - {n - 1};
      KeysBelow(rest, n - 1);
      assert |m.Keys| == |rest.Keys| + 1;
    } else {
      assert m.Keys == {};
    }
  }

  // ---- Interruption -------------------------------------------------------------------------

  /** The saved extraction is in the blob store before the commit that says so. */
  function SavedEarly(job: Job, d: Disk): Disk {
    d.(saved := Some(job.units))
  }

  predicate SavesText(job: Job, d: Disk) {
    !d.done && d.stage.Nothing? && !job.twin && Chars(job.units) <= job.maxChars
  }

  /** Every state an uninterrupted run leaves on disk on its way, in order. */
  function Trail(job: Job, d: Disk): seq<Disk>
    requires job.window >= 1
    decreases Ahead(job, d)
  {
    match NextOf(job, d)
    case Commits(next) =>
      CommitsAreProgress(job, d);
      (if SavesText(job, d) then [SavedEarly(job, d), next] else [next]) + Trail(job, next)
    case Raises(_) => []
    case Returns => []
  }

  /** Resuming from wherever a run was interrupted ends just as the run would have. */
  lemma {:induction false} ResumingFinishesTheSame(job: Job, d: Disk, x: Disk)
    requires job.window >= 1 && x in Trail(job, d)
    ensures Finish(job, x) == Finish(job, d)
    decreases Ahead(job, d)
  {
    var next := NextOf(job, d).disk;
    CommitsAreProgress(job, d);
    if SavesText(job, d) && x == SavedEarly(job, d) {
      assert NextOf(job, x) == NextOf(job, d);
    } else if x != next {
      ResumingFinishesTheSame(job, next, x);
    }
  }

  /** Interrupted, resumed elsewhere and interrupted again, however often. */
  ghost predicate Interrupted(job: Job, d: Disk, x: Disk, times: nat)
    requires job.window >= 1
    decreases times
  {
    x == d || (times > 0 && exists y :: y in Trail(job, d) && Interrupted(job, y, x, times - 1))
  }

  lemma {:induction false} EveryResumptionFinishesTheSame(job: Job, d: Disk, x: Disk, times: nat)
    requires job.window >= 1 && Interrupted(job, d, x, times)
    ensures Finish(job, x) == Finish(job, d)
    decreases times
  {
    if x != d {
      var y :| y in Trail(job, d) && Interrupted(job, y, x, times - 1);
      ResumingFinishesTheSame(job, d, y);
      EveryResumptionFinishesTheSame(job, y, x, times - 1);
    }
  }

  /** A window embeds only ordinals not committed before it, and leaves those as they were. */
  lemma NeverEmbeddedAgain(job: Job, d: Disk)
    requires d.stage.Embed? && !d.done && NextOf(job, d).Commits? && !NextOf(job, d).disk.done
    ensures var after := NextOf(job, d).disk.staged;
            && d.staged.Keys <= after.Keys
            && (forall o :: o in d.staged ==> after[o] == d.staged[o])
            && after.Keys - d.staged.Keys
                 == (set o | o in First(TodoFrom(d.staged, |TextsOf(job, d)|, 0), job.window))
  {
    TodoIsMissing(d.staged, |TextsOf(job, d)|, 0);
    FirstIsPart(TodoFrom(d.staged, |TextsOf(job, d)|, 0), job.window);
  }

  /** What a run from here publishes. */
  function Incoming(job: Job, d: Disk): seq<string> {
    if d.stage.Embed? then TextsOf(job, d) else job.chunkOf(job.units)
  }

  /** Nothing is staged before extraction, and what is staged after it fits the saved text. */
  predicate Resumable(job: Job, d: Disk) {
    && !d.done && !d.stage.Tag?
    && (d.stage.Nothing? ==> d.staged == map[])
    && StagedFits(job, Incoming(job, d), d.staged)
  }

  lemma NextStaysResumable(job: Job, d: Disk)
    requires job.window >= 1 && Resumable(job, d) && NextOf(job, d).Commits? && !NextOf(job, d).disk.done
    ensures Resumable(job, NextOf(job, d).disk) && Incoming(job, NextOf(job, d).disk) == Incoming(job, d)
  {
    TodoIsMissing(d.staged, |TextsOf(job, d)|, 0);
    FirstIsPart(TodoFrom(d.staged, |TextsOf(job, d)|, 0), job.window);
  }

  lemma NextIsOldOrNew(job: Job, d: Disk)
    requires Resumable(job, d) && NextOf(job, d).Commits?
    ensures var x := NextOf(job, d).disk;
            || (!x.done && x.chunks == d.chunks)
            || (x.duplicate && job.twin && Live(x.chunks) == {})
            || (x.done && Live(x.chunks) == AllOf(job, Incoming(job, d)) && x.count == |Incoming(job, d)|)
  {
    if d.stage.Embed? && NextOf(job, d).disk.done {
      var texts := TextsOf(job, d);
      TodoIsMissing(d.staged, |texts|, 0);
      assert forall o: nat :: o < |texts| && o !in d.staged ==> o in TodoFrom(d.staged, |texts|, 0);
      assert d.staged == Full(job, texts);
      PublishedIsLive(job, d);
      RowsOfFull(job, texts);
    }
  }

  /**
    At every moment of a run the live chunks are wholly the old ones or wholly the new: chunk `i`
    of the saved text at ordinal `i` with its own vector. Only a twin leaves none.
   */
  lemma {:induction false} WhollyOldOrNew(job: Job, d: Disk, x: Disk)
    requires job.window >= 1 && Resumable(job, d) && x in Trail(job, d)
    ensures || Live(x.chunks) == Live(d.chunks)
            || (x.done && Live(x.chunks) == AllOf(job, Incoming(job, d)) && x.count == |Incoming(job, d)|)
            || (x.duplicate && job.twin && Live(x.chunks) == {})
    decreases Ahead(job, d)
  {
    var next := NextOf(job, d).disk;
    CommitsAreProgress(job, d);
    NextIsOldOrNew(job, d);
    if x != next && x != SavedEarly(job, d) {
      NextStaysResumable(job, d);
      WhollyOldOrNew(job, next, x);
    }
  }

  /** A chunk cited at publish time, or already history, keeps its text and place through a commit. */
  lemma NextKeepsCited(job: Job, d: Disk, id: ChunkId)
    requires FreshRun(job, d) && NextOf(job, d).Commits? && id in d.chunks && (id in job.cited || !d.chunks[id].live)
    ensures var x := NextOf(job, d).disk;
            id in x.chunks && x.chunks[id].text == d.chunks[id].text && x.chunks[id].ordinal == d.chunks[id].ordinal
            && (x.chunks[id] == d.chunks[id] || (!x.chunks[id].live && x.done))
  {
    assert id !in NewChunks(job.run, d.staged);
  }

  lemma {:induction false} CitedKeepTheirText(job: Job, d: Disk, x: Disk, id: ChunkId)
    requires job.window >= 1 && FreshRun(job, d) && x in Trail(job, d)
    requires id in d.chunks && (id in job.cited || !d.chunks[id].live)
    ensures id in x.chunks && x.chunks[id].text == d.chunks[id].text && x.chunks[id].ordinal == d.chunks[id].ordinal
    decreases Ahead(job, d)
  {
    var next := NextOf(job, d).disk;
    CommitsAreProgress(job, d);
    NextKeepsCited(job, d, id);
    if x != next && x != SavedEarly(job, d) {
      assert !next.done;
      CitedKeepTheirText(job, next, x, id);
    }
  }

  /**
    From any resumable disk a run within its budgets ends with chunk `i` of the saved text at
    ordinal `i` and its own vector, each once, the source done and nothing left staged.
   */
  lemma RunsEndRight(job: Job, d: Disk)
    requires job.window >= 1 && Resumable(job, d) && WithinBudget(job, Incoming(job, d))
    requires d.stage.Nothing? ==> !job.twin && Chars(job.units) <= job.maxChars
    ensures var r := Finish(job, d);
            && r.1.None? && r.0.done && r.0.staged == map[] && r.0.count == |Incoming(job, d)|
            && Live(r.0.chunks) == AllOf(job, Incoming(job, d))
  {
    var texts := Incoming(job, d);
    if d.stage.Embed? {
      EmbedFinishes(job, d);
      PublishedRightExactlyWhen(job, d, texts);
    } else {
      ExtractFinishes(job, d);
      PublishedRightExactlyWhen(job, Extracted(job, d), texts);
    }
    FittingIsFull(job, texts, d.staged);
    RowsOfFull(job, texts);
  }

  /** A source another one says the same as is finished with nothing live of its own, and nothing else of it touched. */
  lemma DuplicateAnswersNothing(job: Job, d: Disk)
    requires job.window >= 1 && d.stage.Nothing? && !d.done && job.twin && Chars(job.units) <= job.maxChars
    ensures var r := Finish(job, d);
            && r.1.None? && r.0.done && r.0.duplicate && r.0.stage.Nothing? && r.0.count == 0
            && r.0.staged == d.staged && r.0.saved == d.saved
            && (forall id :: id in r.0.chunks ==> !r.0.chunks[id].live && id in d.chunks)
            && (forall id :: id in d.chunks && (!d.chunks[id].live || id in job.cited) ==>
                  id in r.0.chunks && r.0.chunks[id].text == d.chunks[id].text)
  {
    CommitsAreProgress(job, d);
  }

  // ---- The chunks a finished run leaves, field by field -----------------------------------

  ghost predicate HasLiveAt(chunks: map<ChunkId, ChunkRow>, i: nat) {
    exists id :: id in chunks && chunks[id].live && chunks[id].ordinal == i
  }

  /** Every live chunk is a text under its own place with its own vector, and every place has exactly one. */
  ghost predicate ChunksAreTexts(job: Job, chunks: map<ChunkId, ChunkRow>, texts: seq<string>) {
    && (forall id :: id in chunks && chunks[id].live ==>
          && chunks[id].ordinal < |texts|
          && chunks[id].text == texts[chunks[id].ordinal]
          && chunks[id].vector == Some(job.vectorOf(texts[chunks[id].ordinal])))
    && (forall i: nat :: i < |texts| ==> HasLiveAt(chunks, i))
    && (forall a, b :: a in chunks && b in chunks && chunks[a].live && chunks[b].live && chunks[a].ordinal == chunks[b].ordinal
          ==> a == b)
  }

  /** Of the chunks there were before, those live and not cited are gone; the cited stay as they were without a vector. */
  ghost predicate OldAreRetired(job: Job, before: map<ChunkId, ChunkRow>, after: map<ChunkId, ChunkRow>) {
    forall id :: id in before ==>
      && (id in after <==> !before[id].live || id in job.cited)
      && (!before[id].live ==> after[id] == before[id])
      && (before[id].live && id in job.cited ==>
            after[id] == ChunkRow(before[id].ordinal, before[id].text, None, false))
  }

  /** A live chunk after publication is the one drawn for a staged ordinal, and says what was staged there. */
  lemma PublishedRow(job: Job, d: Disk, id: ChunkId)
    requires id in Published(job, d).chunks && Published(job, d).chunks[id].live
    ensures var row := Published(job, d).chunks[id];
            && row.ordinal in d.staged && id == Drawn(job.run, row.ordinal)
            && row.text == d.staged[row.ordinal].text && row.vector == Some(d.staged[row.ordinal].vector)
  {
    assert id in NewChunks(job.run, d.staged);
  }

  lemma StagedIsPublished(job: Job, d: Disk, o: nat)
    requires o in d.staged
    ensures HasLiveAt(Published(job, d).chunks, o)
  {
    var id := Drawn(job.run, o);
    assert id in NewChunks(job.run, d.staged);
    assert id in Published(job, d).chunks && Published(job, d).chunks[id] == LiveRow(o, d.staged[o]);
  }

  lemma PublishedChunks(job: Job, d: Disk, texts: seq<string>)
    requires forall o: nat :: o in d.staged <==> o < |texts|
    requires forall o: nat :: o in d.staged ==> d.staged[o] == StagedRow(texts[o], job.vectorOf(texts[o]))
    ensures ChunksAreTexts(job, Published(job, d).chunks, texts)
  {
    var chunks := Published(job, d).chunks;
    forall id | id in chunks && chunks[id].live
      ensures id == Drawn(job.run, chunks[id].ordinal) && chunks[id].ordinal in d.staged
      ensures chunks[id].text == d.staged[chunks[id].ordinal].text
      ensures chunks[id].vector == Some(d.staged[chunks[id].ordinal].vector)
    {
      PublishedRow(job, d, id);
    }
    forall i: nat | i < |texts|
      ensures HasLiveAt(chunks, i)
    {
      StagedIsPublished(job, d, i);
    }
  }

  lemma PublishedRetires(job: Job, d: Disk, before: map<ChunkId, ChunkRow>)
    requires FreshRun(job, d) && before == d.chunks
    ensures OldAreRetired(job, before, Published(job, d).chunks)
  {
    forall id | id in before
      ensures id !in NewChunks(job.run, d.staged)
    {
      assert id.run != job.run;
    }
  }

  /**
    What an uninterrupted run, or the resumption of one, leaves: each live chunk is a text of the
    extraction at its own place with the vector of that very text, each place has one, and the
    chunks there were before are deleted unless cited.
   */
  lemma FinishedChunksAreTheTexts(job: Job, d: Disk)
    requires job.window >= 1 && FreshRun(job, d) && !d.done && !d.stage.Tag?
    requires d.stage.Nothing? ==> !job.twin && Chars(job.units) <= job.maxChars && d.staged == map[]
    requires d.stage.Embed? ==> d.saved.Some?
    requires var texts := if d.stage.Nothing? then job.chunkOf(job.units) else job.chunkOf(d.saved.value);
             && 0 < |texts| <= job.maxChunks
             && forall o :: o in d.staged ==> o < |texts| && d.staged[o] == StagedRow(texts[o], job.vectorOf(texts[o]))
    ensures var texts := if d.stage.Nothing? then job.chunkOf(job.units) else job.chunkOf(d.saved.value);
            var end := Finish(job, d).0;
            && ChunksAreTexts(job, end.chunks, texts) && OldAreRetired(job, d.chunks, end.chunks)
            && end.stage.Tag? && end.done && end.count == |texts| && end.staged == map[]
  {
    if d.stage.Nothing? {
      ExtractFinishes(job, d);
      FullIsPublished(job, Extracted(job, d), job.chunkOf(job.units), d.chunks);
    } else {
      EmbedFinishes(job, d);
      FullIsPublished(job, d, job.chunkOf(d.saved.value), d.chunks);
    }
  }

  lemma FullIsPublished(job: Job, d: Disk, texts: seq<string>, before: map<ChunkId, ChunkRow>)
    requires FreshRun(job, d) && before == d.chunks
    requires forall o :: o in d.staged ==> o < |texts| && d.staged[o] == StagedRow(texts[o], job.vectorOf(texts[o]))
    ensures var end := Published(job, d.(staged := Full(job, texts) + d.staged));
            && ChunksAreTexts(job, end.chunks, texts) && OldAreRetired(job, before, end.chunks)
            && end.stage.Tag? && end.done && end.count == |texts| && end.staged == map[]
  {
    var full := d.(staged := Full(job, texts) + d.staged);
    FullOnceStaged(job, texts, d.staged);
    PublishedChunks(job, full, texts);
    PublishedRetires(job, full, before);
  }

  lemma FullOnceStaged(job: Job, texts: seq<string>, staged: map<nat, StagedRow>)
    requires forall o :: o in staged ==> o < |texts| && staged[o] == StagedRow(texts[o], job.vectorOf(texts[o]))
    ensures var full := Full(job, texts) + staged;
            && (forall o: nat :: o in full <==> o < |texts|) && |full| == |texts|
            && forall o: nat :: o in full ==> full[o] == StagedRow(texts[o], job.vectorOf(texts[o]))
  {
    KeysBelow(Full(job, texts) + staged, |texts|);
  }

  /** Starting over without discarding what was staged publishes the right chunks only if that already fits. */
  lemma StartingOverIsRightExactlyWhen(job: Job, d: Disk)
    requires job.window >= 1 && !d.done && d.stage.Nothing? && !job.twin && Chars(job.units) <= job.maxChars
    requires WithinBudget(job, job.chunkOf(job.units))
    ensures Live(Finish(job, d).0.chunks) == AllOf(job, job.chunkOf(job.units))
      <==> StagedFits(job, job.chunkOf(job.units), d.staged)
  {
    ExtractFinishes(job, d);
    PublishedRightExactlyWhen(job, Extracted(job, d), job.chunkOf(job.units));
  }

  /** A chunker that leaves units as they are. */
  function AsTheyAre(units: seq<string>): seq<string> {
    units
  }

  /** An instance: one row of an earlier text still staged, the text replaced, and the run starts at extraction. */
  lemma StaleRowIsPublished(vectorOf: string -> Vector)
    ensures var job := Job(1, ["new"], false, AsTheyAre, vectorOf, {}, 1, 10, 10);
            var d := Disk(Nothing, false, false, 0, map[0 := StagedRow("old", vectorOf("old"))], map[], None);
            Live(Finish(job, d).0.chunks) != AllOf(job, ["new"])
  {
    var job := Job(1, ["new"], false, AsTheyAre, vectorOf, {}, 1, 10, 10);
    var d := Disk(Nothing, false, false, 0, map[0 := StagedRow("old", vectorOf("old"))], map[], None);
    assert Chars(job.units[1..]) == 0;
    assert "old"[0] != "new"[0];
    assert 0 in d.staged && d.staged[0].text == "old" && RowFor(job, ["new"], 0).text == "new";
    StartingOverIsRightExactlyWhen(job, d);
  }

  // ---- Windows are taken off the front of what is to do ---------------------------------

  lemma {:induction false} SameTodo(staged: map<nat, StagedRow>, more: map<nat, StagedRow>, n: nat, o: nat)
    requires forall j :: o <= j < n ==> (j in more <==> j in staged)
    ensures TodoFrom(more, n, o) == TodoFrom(staged, n, o)
    decreases n - o
  {
    if o < n {
      SameTodo(staged, more, n, o + 1);
    }
  }

  /** Staging the first ordinals of what is to do leaves the rest to do. */
  lemma {:induction false} TodoDrops(
    staged: map<nat, StagedRow>, more: map<nat, StagedRow>, n: nat, o: nat, part: seq<nat>, after: seq<nat>)
    requires TodoFrom(staged, n, o) == part + after
    requires forall j :: o <= j < n ==> (j in more <==> j in staged || j in part)
    ensures TodoFrom(more, n, o) == after
    decreases n - o
  {
    if part == [] {
      SameTodo(staged, more, n, o);
      assert part + after == after;
    } else if o in staged {
      TodoDrops(staged, more, n, o + 1, part, after);
    } else {
      assert (part + after)[0] == o;
      assert (part + after)[1..] == part[1..] + after;
      assert part == [o] + part[1..];
      TodoDrops(staged, more, n, o + 1, part[1..], after);
    }
  }

  lemma TodoAfterWindow(job: Job, texts: seq<string>, staged: map<nat, StagedRow>, part: seq<nat>, after: seq<nat>)
    requires TodoFrom(staged, |texts|, 0) == part + after && forall o :: o in part ==> o < |texts|
    ensures TodoFrom(Staged(job, texts, staged, part), |texts|, 0) == after
  {
    TodoDrops(staged, Staged(job, texts, staged, part), |texts|, 0, part, after);
  }
}

/** The run itself, as the source writes it: a session that commits stage by stage. */
module IngestionRun {
  import opened Wrappers
  import opened Ingestion

  function TokensOf(texts: seq<string>): nat {
    if texts == [] then 0 else |texts[0]| + TokensOf(texts[1..])
  }

  function VectorsOf(vectorOf: string -> Vector, texts: seq<string>): seq<Vector> {
    seq(|texts|, i requires 0 <= i < |texts| => vectorOf(texts[i]))
  }

  /** `texts[i : i + size]` for each multiple `i` of the size. */
  function Batches(texts: seq<string>, size: nat): seq<seq<string>>
    requires size >= 1
    decreases |texts|
  {
    if texts == [] then []
    else if |texts| <= size then [texts]
    else [texts[..size]] + Batches(texts[size..], size)
  }

  function Together(batches: seq<seq<string>>): seq<string> {
    if batches == [] then [] else Together(batches[..|batches| - 1]) + batches[|batches| - 1]
  }

  lemma {:induction false} TogetherCons(first: seq<string>, rest: seq<seq<string>>)
    ensures Together([first] + rest) == first + Together(rest)
    decreases |rest|
  {
    if rest != [] {
      TogetherCons(first, rest[..|rest| - 1]);
      assert ([first] + rest)[..|rest|] == [first] + rest[..|rest| - 1];
    } else {
      assert ([first] + rest)[..0] == [];
    }
  }

  /** Batching cuts the texts and nothing more, and no batch is empty or over its size. */
  lemma {:induction false} BatchesAreTexts(texts: seq<string>, size: nat)
    requires size >= 1
    ensures Together(Batches(texts, size)) == texts
    ensures forall b :: b in Batches(texts, size) ==> 0 < |b| <= size
    ensures forall i :: 0 <= i < |Batches(texts, size)| - 1 ==> |Batches(texts, size)[i]| == size
    decreases |texts|
  {
    if |texts| > size {
      BatchesAreTexts(texts[size..], size);
      TogetherCons(texts[..size], Batches(texts[size..], size));
      assert texts[..size] + texts[size..] == texts;
    } else if texts != [] {
      TogetherCons(texts, []);
      assert [texts] + [] == [texts];
    }
  }

  /** What the first `n` batches cost: those that were answered are billed, whatever became of the others. */
  function Billed(batches: seq<seq<string>>, answers: nat -> bool, n: nat): nat
    requires n <= |batches|
  {
    if n == 0 then 0
    else Billed(batches, answers, n - 1) + if answers(n - 1) then TokensOf(batches[n - 1]) else 0
  }

  lemma {:induction false} TokensJoin(a: seq<string>, b: seq<string>)
    ensures TokensOf(a + b) == TokensOf(a) + TokensOf(b)
    decreases |a|
  {
    if a == [] {
      assert a + b == b;
    } else {
      assert (a + b)[1..] == a[1..] + b;
      TokensJoin(a[1..], b);
    }
  }

  /** If every batch is answered, every text is billed once. */
  lemma {:induction false} BilledInFull(batches: seq<seq<string>>, answers: nat -> bool, n: nat)
    requires n <= |batches| && forall b :: 0 <= b < n ==> answers(b)
    ensures Billed(batches, answers, n) == TokensOf(Together(batches[..n]))
    decreases n
  {
    if n > 0 {
      BilledInFull(batches, answers, n - 1);
      assert batches[..n][..n - 1] == batches[..n - 1];
      TokensJoin(Together(batches[..n - 1]), batches[n - 1]);
    }
  }

  /** `embed_in_batches`: one vector per text in order, or none at all if any batch fails; `answers` says which do not. */
  method EmbedInBatches(vectorOf: string -> Vector, texts: seq<string>, size: nat, answers: nat -> bool)
    returns (vectors: Option<seq<Vector>>, usage: nat)
    requires size >= 1
    ensures vectors.Some? <==> forall b :: 0 <= b < |Batches(texts, size)| ==> answers(b)
    ensures vectors.Some? ==> vectors.value == VectorsOf(vectorOf, texts)
    ensures usage == Billed(Batches(texts, size), answers, |Batches(texts, size)|)
    ensures vectors.Some? ==> usage == TokensOf(texts)
  {
    var batches := Batches(texts, size);
    var found: seq<Vector> := [];
    var failed := false;
    usage := 0;
    for i := 0 to |batches|
      invariant failed <==> exists b :: 0 <= b < i && !answers(b)
      invariant !failed ==> found == VectorsOf(vectorOf, Together(batches[..i]))
      invariant usage == Billed(batches, answers, i)
    {
      assert batches[..i + 1][..i] == batches[..i];
      if answers(i) {
        found := found + VectorsOf(vectorOf, batches[i]);
        usage := usage + TokensOf(batches[i]);
      } else {
        failed := true;
      }
    }
    assert batches[..|batches|] == batches;
    BatchesAreTexts(texts, size);
    if !failed {
      BilledInFull(batches, answers, |batches|);
    }
    vectors := if failed then None else Some(found);
  }

  function TextsAt(texts: seq<string>, part: seq<nat>): seq<string>
    requires forall o :: o in part ==> o < |texts|
  {
    seq(|part|, i requires 0 <= i < |part| => assert part[i] in part; texts[part[i]])
  }

  lemma StagedMore(job: Job, texts: seq<string>, staged: map<nat, StagedRow>, part: seq<nat>, i: nat)
    requires i < |part| && forall o :: o in part ==> o < |texts|
    ensures part[i] in part && (forall o :: o in part[..i] ==> o < |texts|)
    ensures var more := part[..i + 1]; forall o :: o in more ==> o < |texts|
    ensures Staged(job, texts, staged, part[..i + 1]) == Staged(job, texts, staged, part[..i])[part[i] := RowFor(job, texts, part[i])]
  {
    assert part[..i + 1] == part[..i] + [part[i]];
    forall o | o in part[..i]
      ensures o in part
    {
      var j :| 0 <= j < i && part[j] == o;
    }
  }

  /** When the embed stage raises, and when it publishes. */
  lemma EmbedNextIs(job: Job, d: Disk)
    requires !d.done && d.stage.Embed?
    ensures var texts := TextsOf(job, d);
            && (texts == [] ==> NextOf(job, d) == Raises(EmptyExtraction))
            && (texts != [] && |texts| > job.maxChunks ==> NextOf(job, d) == Raises(TooManyChunks))
            && (WithinBudget(job, texts) && TodoFrom(d.staged, |texts|, 0) == [] ==> NextOf(job, d) == Commits(Published(job, d)))
  {
  }

  /** The next window is the next commit, and what it leaves to do is what comes after it. */
  lemma WindowIsNext(job: Job, d: Disk, part: seq<nat>)
    requires job.window >= 1 && !d.done && d.stage.Embed? && WithinBudget(job, TextsOf(job, d))
    requires TodoFrom(d.staged, |TextsOf(job, d)|, 0) != []
    requires part == First(TodoFrom(d.staged, |TextsOf(job, d)|, 0), job.window)
    ensures part != [] && part <= TodoFrom(d.staged, |TextsOf(job, d)|, 0)
    ensures forall o :: o in part ==> o < |TextsOf(job, d)|
    ensures var next := d.(staged := Staged(job, TextsOf(job, d), d.staged, part));
            && NextOf(job, d) == Commits(next) && Trail(job, d) == [next] + Trail(job, next)
            && TodoFrom(next.staged, |TextsOf(job, d)|, 0) == TodoFrom(d.staged, |TextsOf(job, d)|, 0)[|part|..]
  {
    var texts := TextsOf(job, d);
    var todo := TodoFrom(d.staged, |texts|, 0);
    TodoIsMissing(d.staged, |texts|, 0);
    FirstIsPart(todo, job.window);
    assert todo == part + todo[|part|..];
    TodoAfterWindow(job, texts, d.staged, part, todo[|part|..]);
  }

  /** How a run came out: the chunk count it returns, an error it raises, or a provider that failed it. */
  datatype Outcome = Ok(count: nat) | Error(error: Ingestion.Error) | ProviderFailed

  function LiveIds(chunks: map<ChunkId, ChunkRow>): set<ChunkId> {
    set id | id in chunks && chunks[id].live
  }

  /** Deleting the uncited live chunks and then updating the cited ones retires them all. */
  lemma RetiredInSteps(chunks: map<ChunkId, ChunkRow>, all: set<ChunkId>)
    ensures LiveIds(chunks) == {} ==> Retired(chunks, all) == chunks
    ensures var cited, rows := LiveIds(chunks) * all, chunks - (LiveIds(chunks) - all);
            Retired(chunks, all)
              == map id | id in rows :: if id in cited then rows[id].(live := false, vector := None) else rows[id]
  {
    if LiveIds(chunks) == {} {
      assert forall id :: id in chunks ==> id !in LiveIds(chunks);
    }
  }

  class Worker {
    const job: Job
    const batchSize: nat
    /** Which embed requests of this run are answered. */
    const answers: (nat, nat) -> bool
    /** What is on disk, and what the session has written but not committed. */
    var disk: Disk
    var work: Disk
    ghost var trail: seq<Disk>

    constructor (j: Job, size: nat, a: (nat, nat) -> bool, d: Disk)
      ensures job == j && batchSize == size && answers == a && disk == d && work == d && trail == []
    {
      job := j;
      batchSize := size;
      answers := a;
      disk := d;
      work := d;
      trail := [];
    }

    method Commit()
      modifies this`disk, this`trail
      ensures disk == work && trail == old(trail) + [work]
    {
      disk := work;
      trail := trail + [work];
    }

    method Rollback()
      modifies this`work
      ensures work == disk
    {
      work := disk;
    }

    /** `supersede_chunks`. */
    method Supersede() returns (kept: nat, deleted: nat)
      modifies this`work
      ensures work == old(work).(chunks := Retired(old(work).chunks, job.cited))
      ensures kept == |LiveIds(old(work).chunks) * job.cited|
      ensures kept + deleted == |LiveIds(old(work).chunks)|
    {
      var current := LiveIds(work.chunks);
      RetiredInSteps(work.chunks, job.cited);
      if current == {} {
        return 0, 0;
      }
      var cited := current * job.cited;
      var uncited := current - job.cited;
      assert current == cited + uncited;
      var rows := work.chunks - uncited;
      rows := map id | id in rows :: if id in cited then rows[id].(live := false, vector := None) else rows[id];
      work := work.(chunks := rows);
      return |cited|, |uncited|;
    }

    /** `_extract`: false when the source is a twin, and done. */
    method Extract() returns (outcome: Option<Outcome>)
      requires work == disk && !disk.done && disk.stage.Nothing?
      modifies this
      ensures work == disk
      ensures match NextOf(job, old(disk))
              case Raises(error) => disk == old(disk) && trail == old(trail) && outcome == Some(Error(error))
              case Commits(next) =>
                && disk == next && (outcome == if job.twin then Some(Ok(0)) else None)
                && trail == old(trail) + (if SavesText(job, old(disk)) then [SavedEarly(job, old(disk)), next] else [next])
              case Returns => false
    {
      if Chars(job.units) > job.maxChars {
        return Some(Error(ExtractionTooLarge));
      }
      if job.twin {
        work := work.(duplicate := true);
        var kept, deleted := Supersede();
        work := work.(done := true, stage := Nothing, count := 0);
        Commit();
        return Some(Ok(0));
      }
      disk := disk.(saved := Some(job.units));
      trail := trail + [disk];
      work := work.(saved := Some(job.units), duplicate := false, stage := Embed);
      Commit();
      assert old(trail) + [SavedEarly(job, old(disk))] + [disk] == old(trail) + [SavedEarly(job, old(disk)), disk];
      return None;
    }

    /** `_publish`. */
    method Publish() returns (count: nat)
      requires work == disk
      modifies this
      ensures disk == Published(job, old(disk)) && work == disk && count == |old(disk).staged|
      ensures trail == old(trail) + [disk]
    {
      var kept, deleted := Supersede();
      count := |work.staged|;
      work := work.(chunks := work.chunks + NewChunks(job.run, work.staged));
      work := work.(staged := map[]);
      work := work.(done := true, stage := Tag, count := count);
      Commit();
    }

    /** One window of `_embed`: embed its texts, stage them, commit; false if the provider fails it. */
    method EmbedWindow(texts: seq<string>, part: seq<nat>, call: nat) returns (done: bool)
      requires batchSize >= 1 && work == disk && forall o :: o in part ==> o < |texts|
      modifies this
      ensures work == disk
      ensures done ==> disk == old(disk).(staged := Staged(job, texts, old(disk).staged, part)) && trail == old(trail) + [disk]
      ensures !done ==> disk == old(disk) && trail == old(trail)
      ensures (forall b :: answers(call, b)) ==> done
    {
      var vectors, usage := EmbedInBatches(job.vectorOf, TextsAt(texts, part), batchSize, (b: nat) => answers(call, b));
      if vectors.None? {
        Rollback();
        return false;
      }
      StageRows(texts, part, vectors.value);
      Commit();
      return true;
    }

    method StageRows(texts: seq<string>, part: seq<nat>, vectors: seq<Vector>)
      requires forall o :: o in part ==> o < |texts|
      requires vectors == VectorsOf(job.vectorOf, TextsAt(texts, part))
      modifies this`work
      ensures work == old(work).(staged := Staged(job, texts, old(work).staged, part))
    {
      assert part[..0] == [];
      for i := 0 to |part|
        invariant forall o :: o in part[..i] ==> o < |texts|
        invariant work == old(work).(staged := Staged(job, texts, old(work).staged, part[..i]))
      {
        StagedMore(job, texts, old(work).staged, part, i);
        work := work.(staged := work.staged[part[i] := StagedRow(texts[part[i]], vectors[i])]);
      }
      assert part[..|part|] == part;
    }

    /** The disk is where a run from `d` would have it by now, and what is still to come is still to come. */
    ghost predicate OnTrack(d: Disk, before: seq<Disk>)
      reads this
      requires job.window >= 1
    {
      && trail + Trail(job, disk) == before + Trail(job, d)
      && Finish(job, disk) == Finish(job, d)
    }

    /** One more window of a run that is on track. */
    method NextWindow(ghost d: Disk, ghost before: seq<Disk>, part: seq<nat>, call: nat) returns (done: bool)
      requires job.window >= 1 && batchSize >= 1 && work == disk && !disk.done && disk.stage.Embed? && OnTrack(d, before)
      requires WithinBudget(job, TextsOf(job, disk)) && TodoFrom(disk.staged, |TextsOf(job, disk)|, 0) != []
      requires part == First(TodoFrom(disk.staged, |TextsOf(job, disk)|, 0), job.window)
      modifies this
      ensures work == disk && disk == old(disk).(staged := disk.staged) && OnTrack(d, before)
      ensures part != [] && part <= TodoFrom(old(disk).staged, |TextsOf(job, disk)|, 0)
      ensures done ==>
        TodoFrom(disk.staged, |TextsOf(job, disk)|, 0) == TodoFrom(old(disk).staged, |TextsOf(job, disk)|, 0)[|part|..]
      ensures !done ==> exists b :: !answers(call, b)
    {
      var texts := TextsOf(job, disk);
      WindowIsNext(job, disk, part);
      ghost var next := disk.(staged := Staged(job, texts, disk.staged, part));
      Regroup(trail, next, Trail(job, next));
      WindowFinishes(job, disk, next);
      done := EmbedWindow(texts, part, call);
    }

    /** `_embed`: the windows of what is not staged yet, each committed before the next. */
    method EmbedStage(ghost d: Disk, ghost before: seq<Disk>) returns (outcome: Option<Outcome>)
      requires job.window >= 1 && batchSize >= 1 && work == disk && !disk.done && disk.stage.Embed? && OnTrack(d, before)
      modifies this
      ensures work == disk && !disk.done && disk.stage.Embed? && OnTrack(d, before)
      ensures outcome.None? ==> NextOf(job, disk) == Commits(Published(job, disk))
      ensures outcome.Some? && outcome.value.Error? ==> NextOf(job, disk) == Raises(outcome.value.error)
      ensures outcome == Some(ProviderFailed) ==> exists call, b :: !answers(call, b)
      ensures outcome.Some? ==> !outcome.value.Ok?
    {
      var texts := TextsOf(job, disk);
      EmbedNextIs(job, disk);
      if texts == [] {
        return Some(Error(EmptyExtraction));
      }
      if |texts| > job.maxChunks {
        return Some(Error(TooManyChunks));
      }
      var todo := TodoFrom(disk.staged, |texts|, 0);
      var start, call := 0, 0;
      while start < |todo|
        invariant work == disk && !disk.done && disk.stage.Embed? && TextsOf(job, disk) == texts && OnTrack(d, before)
        invariant start <= |todo| && TodoFrom(disk.staged, |texts|, 0) == todo[start..]
      {
        var part := First(todo[start..], job.window);
        var done := NextWindow(d, before, part, call);
        if !done {
          return Some(ProviderFailed);
        }
        start := start + |part|;
        call := call + 1;
      }
      EmbedNextIs(job, disk);
      return None;
    }

    /** `run`, from whatever stage the disk is at. */
    method Run() returns (outcome: Outcome)
      requires job.window >= 1 && batchSize >= 1 && work == disk && !disk.done && !disk.stage.Tag?
      modifies this
      ensures work == disk && OnTrack(old(disk), old(trail))
      ensures outcome.ProviderFailed? || (disk, if outcome.Error? then Some(outcome.error) else None) == Finish(job, old(disk))
      ensures outcome.Ok? ==> outcome.count == disk.count
      ensures outcome.ProviderFailed? ==> exists call, b :: !answers(call, b)
    {
      ghost var d, before := disk, trail;
      if disk.stage.Nothing? {
        ExtractFits(job, d, before);
        var early := Extract();
        if early.Some? {
          return early.value;
        }
      }
      var failed := EmbedStage(d, before);
      if failed.Some? {
        return failed.value;
      }
      Regroup(trail, Published(job, disk), []);
      PublishEnds(job, disk);
      var count := Publish();
      return Ok(count);
    }
  }

  lemma Regroup(trail: seq<Disk>, next: Disk, rest: seq<Disk>)
    ensures trail + ([next] + rest) == trail + [next] + rest
  {
  }

  lemma PublishEnds(job: Job, d: Disk)
    requires job.window >= 1 && NextOf(job, d) == Commits(Published(job, d))
    ensures Trail(job, d) == [Published(job, d)] + Trail(job, Published(job, d)) && Trail(job, Published(job, d)) == []
    ensures Finish(job, d) == (Published(job, d), None) == Finish(job, Published(job, d))
  {
    CommitsAreProgress(job, d);
  }

  lemma ExtractFits(job: Job, d: Disk, before: seq<Disk>)
    requires job.window >= 1 && !d.done && d.stage.Nothing?
    ensures NextOf(job, d).Commits? ==>
      var next := NextOf(job, d).disk;
      && Finish(job, next) == Finish(job, d)
      && before + (if SavesText(job, d) then [SavedEarly(job, d), next] else [next]) + Trail(job, next) == before + Trail(job, d)
  {
    if NextOf(job, d).Commits? {
      CommitsAreProgress(job, d);
    }
  }
}
