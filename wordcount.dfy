/**
 The word counter proper: the dispatch loop that cuts each input file into
 chunks of a fixed number of lowered lines and hands each chunk to a worker
 (`Worker.CountThread`), and the driver that runs every file and then prints
 the shared table.

 The worker pool of the original runs chunks concurrently. Here each chunk
 is run at the moment it is handed to the pool, which is one of the
 schedules the pool allows; `Frequency.PlusAllPermutation` shows that the
 order in which the chunk tables are added up does not change the result.
 */
module WordCount {
  import opened Text
  import opened Tokenizer
  import opened Frequency
  import opened Report
  import opened Chunks
  import opened Worker

  const MinChunkSize := 10
  const MaxChunkSize := 5000
  const MinThreads := 1
  const MaxThreads := 100

  /** The range check of `Initialize`: the run is refused when the chunk
      size or the thread count is out of range. `Start` states what it
      decides. */
  predicate ValidArguments(chunkSize: int, maxThreadNumber: int)
  {
    !(chunkSize < MinChunkSize || chunkSize > MaxChunkSize || maxThreadNumber < MinThreads || maxThreadNumber > MaxThreads)
  }

  /** `executor.execute(currentThread)` on a worker holding lines
      start..end of the lowered file: the worker runs, and the chunk and
      its report join those already handed over. The chunks so far stay
      the chunking of the lines submitted so far, and the shared table
      stays the sum of the chunk tables. */
  method SubmitChunk(t: CountThread, chunks: seq<Chunk>, reports: seq<seq<string>>,
                     ghost outputDir: string, ghost fileName: string, ghost lowered: seq<string>,
                     ghost size: nat, ghost chunkNumber: nat, ghost start: nat, ghost end: nat, ghost main0: Table)
    returns (chunks': seq<Chunk>, reports': seq<seq<string>>)
    requires 0 < end - start <= size && start == FullLines(chunkNumber, size) && end <= |lowered|
    requires t.Pending(t.mainWordMap, ChunkName(outputDir, fileName, chunkNumber), lowered[start..end])
    requires Dispatched(outputDir, fileName, lowered[..start], size, chunks, reports, main0, t.mainWordMap.counts)
    modifies t.wordMap, t.mainWordMap
    ensures Dispatched(outputDir, fileName, lowered[..end], size, chunks', reports', main0, t.mainWordMap.counts)
    ensures end - start == size ==> end == FullLines(chunkNumber + 1, size)
  {
    ChunkAfter(outputDir, fileName, lowered, size, chunkNumber, start, end);
    var report := t.Run();
    var chunk := Chunk(t.outputPath, t.linesToProcess);
    PlusEmpty(LocalTable(chunk));
    LocalReportsSnoc(chunks, chunk);
    LocalTablesSnoc(main0, chunks, chunk);
    chunks' := chunks + [chunk];
    reports' := reports + [report];
  }

  /** The worker for the current chunk, created on the chunk's first line
      (`if (currentThread == null)`), receives the lowered line. */
  method Enlist(t: CountThread?, path: string, mainWordMap: WordTable, line: string, ghost pending: seq<string>)
    returns (t': CountThread)
    requires t == null ==> pending == []
    requires t != null ==> t.Pending(mainWordMap, path, pending)
    modifies if t == null then {} else {t}
    ensures t != null ==> t' == t
    ensures t == null ==> fresh(t') && fresh(t'.wordMap)
    ensures t'.Pending(mainWordMap, path, pending + [ToLower(line)])
  {
    if t == null {
      t' := new CountThread(path, mainWordMap);
    } else {
      t' := t;
    }
    t'.linesToProcess := t'.linesToProcess + [ToLower(line)];
  }

  /** One turn of the loop of `main` over the lines of a file: a worker is
      created when a chunk begins, the lowered line joins the worker's
      lines, and a worker holding chunkSize lines is handed over. Before
      the turn the first i lowered lines have been taken, after it the
      first end = i + 1. */
  method TakeLine(outputDir: string, fileName: string, line: string, chunkSize: nat, mainWordMap: WordTable,
                  t: CountThread?, linesProcessed: nat, chunkNumber: nat,
                  chunks: seq<Chunk>, reports: seq<seq<string>>,
                  ghost lowered: seq<string>, ghost start: nat, ghost i: nat, ghost end: nat, ghost main0: Table)
    returns (t': CountThread?, linesProcessed': nat, chunkNumber': nat,
             chunks': seq<Chunk>, reports': seq<seq<string>>, ghost start': nat)
    requires 0 < chunkSize && linesProcessed < chunkSize
    requires end == i + 1 && end <= |lowered| && lowered[i] == ToLower(line)
    requires start == FullLines(chunkNumber, chunkSize) && i == start + linesProcessed
    requires Dispatched(outputDir, fileName, lowered[..start], chunkSize, chunks, reports, main0, mainWordMap.counts)
    requires (t == null) == (linesProcessed == 0)
    requires t != null ==> t.Pending(mainWordMap, ChunkName(outputDir, fileName, chunkNumber), lowered[start..i])
    modifies mainWordMap, if t == null then {} else {t, t.wordMap}
    ensures linesProcessed' < chunkSize
    ensures start' == FullLines(chunkNumber', chunkSize) && end == start' + linesProcessed'
    ensures Dispatched(outputDir, fileName, lowered[..start'], chunkSize, chunks', reports', main0, mainWordMap.counts)
    ensures (t' == null) == (linesProcessed' == 0)
    ensures t' != null ==> (if t == null then fresh(t') && fresh(t'.wordMap) else t' == t)
    ensures t' != null ==> t'.Pending(mainWordMap, ChunkName(outputDir, fileName, chunkNumber'), lowered[start'..end])
  {
    SliceStep(lowered, start, i, end);
    var u := Enlist(t, ChunkName(outputDir, fileName, chunkNumber), mainWordMap, line, lowered[start..i]);
    t', linesProcessed', chunkNumber', chunks', reports', start' :=
      SealIfFull(u, linesProcessed + 1, chunkSize, chunkNumber, chunks, reports, mainWordMap,
                 outputDir, fileName, lowered, start, end, main0);
  }

  /** `if (linesProcessed == chunkSize)`: a worker holding a full chunk is
      handed over and the next line starts a new chunk; a worker with room
      left keeps its lines. */
  method SealIfFull(t: CountThread, linesProcessed: nat, chunkSize: nat, chunkNumber: nat,
                    chunks: seq<Chunk>, reports: seq<seq<string>>, mainWordMap: WordTable,
                    ghost outputDir: string, ghost fileName: string, ghost lowered: seq<string>,
                    ghost start: nat, ghost end: nat, ghost main0: Table)
    returns (t': CountThread?, linesProcessed': nat, chunkNumber': nat,
             chunks': seq<Chunk>, reports': seq<seq<string>>, ghost start': nat)
    requires 0 < linesProcessed <= chunkSize
    requires start == FullLines(chunkNumber, chunkSize) && end == start + linesProcessed && end <= |lowered|
    requires t.Pending(mainWordMap, ChunkName(outputDir, fileName, chunkNumber), lowered[start..end])
    requires Dispatched(outputDir, fileName, lowered[..start], chunkSize, chunks, reports, main0, mainWordMap.counts)
    modifies t.wordMap, mainWordMap
    ensures linesProcessed' < chunkSize
    ensures start' == FullLines(chunkNumber', chunkSize) && end == start' + linesProcessed'
    ensures Dispatched(outputDir, fileName, lowered[..start'], chunkSize, chunks', reports', main0, mainWordMap.counts)
    ensures (t' == null) == (linesProcessed' == 0)
    ensures t' != null ==> t' == t
    ensures t' != null ==> t'.Pending(mainWordMap, ChunkName(outputDir, fileName, chunkNumber'), lowered[start'..end])
  {
    if linesProcessed == chunkSize {
      chunks', reports' := SubmitChunk(t, chunks, reports, outputDir, fileName, lowered,
                                       chunkSize, chunkNumber, start, end, main0);
      t', linesProcessed', chunkNumber', start' := null, 0, chunkNumber + 1, end;
    } else {
      t', linesProcessed', chunkNumber', chunks', reports', start' := t, linesProcessed, chunkNumber, chunks, reports, start;
    }
  }

  /** The loop of `main` over the lines of one file, with the hand-over of
      the last, partly filled chunk: the chunks handed over are the chunking
      of the lowered file, each worker's report is that of its chunk, and
      the shared table grows by the table of the lowered file. */
  method DispatchFile(outputDir: string, fileName: string, lines: seq<string>, chunkSize: nat,
                      mainWordMap: WordTable)
    returns (chunks: seq<Chunk>, reports: seq<seq<string>>)
    requires 0 < chunkSize
    modifies mainWordMap
    ensures chunks == Chunking(outputDir, fileName, LowerLines(lines), chunkSize, 0)
    ensures mainWordMap.counts == Plus(old(mainWordMap.counts), Tally(TokensOfLines(LowerLines(lines))))
    ensures reports == LocalReports(chunks)
  {
    ghost var lowered := LoweredLines(lines);
    ghost var main0 := mainWordMap.counts;
    chunks, reports := [], [];
    PlusEmptyRight(main0);
    var chunkNumber: nat := 0;
    var linesProcessed: nat := 0;
    var currentThread: CountThread? := null;
    ghost var start: nat := 0;
    var i := 0;
    while i < |lines|
      invariant 0 <= i <= |lines|
      invariant linesProcessed < chunkSize
      invariant start == FullLines(chunkNumber, chunkSize) && i == start + linesProcessed
      invariant Dispatched(outputDir, fileName, lowered[..start], chunkSize, chunks, reports, main0, mainWordMap.counts)
      invariant (currentThread == null) == (linesProcessed == 0)
      invariant currentThread != null ==> fresh(currentThread) && fresh(currentThread.wordMap)
      invariant currentThread != null ==>
                  currentThread.Pending(mainWordMap, ChunkName(outputDir, fileName, chunkNumber), lowered[start..i])
    {
      var prev := i;
      i := i + 1;
      currentThread, linesProcessed, chunkNumber, chunks, reports, start :=
        TakeLine(outputDir, fileName, lines[prev], chunkSize, mainWordMap, currentThread, linesProcessed,
                 chunkNumber, chunks, reports, lowered, start, prev, i, main0);
    }
    if linesProcessed > 0 {
      chunks, reports := SubmitChunk(currentThread, chunks, reports, outputDir, fileName, lowered,
                                     chunkSize, chunkNumber, start, i, main0);
      start := i;
    }
    assert lowered[..start] == lowered by {
      assert start == |lowered|;
    }
    LoweredLinesAre(lines, lowered);
    ChunksCountLines(outputDir, fileName, lowered, chunkSize);
  }

  /** The lowered lines, described line by line only, so that the dispatch
      loop reasons about them without unfolding LowerLines. */
  lemma LoweredLines(lines: seq<string>) returns (lowered: seq<string>)
    ensures |lowered| == |lines|
    ensures forall k :: 0 <= k < |lines| ==> lowered[k] == ToLower(lines[k])
  {
    lowered := LowerLines(lines);
    LowerLinesAt(lines);
  }

  /** A sequence lowering lines line by line is LowerLines(lines). */
  lemma LoweredLinesAre(lines: seq<string>, lowered: seq<string>)
    requires |lowered| == |lines|
    requires forall k :: 0 <= k < |lines| ==> lowered[k] == ToLower(lines[k])
    ensures lowered == LowerLines(lines)
  {
    LowerLinesAt(lines);
  }

  lemma SliceStep(s: seq<string>, start: nat, i: nat, end: nat)
    requires start <= i < |s| && end == i + 1
    ensures s[start..end] == s[start..i] + [s[i]]
  {
  }


  /** `main` from the start of processing on: every file is cut into chunks
      and its chunks are counted, then the shared table is printed. Returns
      all chunks, each chunk's own report, and the lines of `results.txt`.
      The shared table counts every word of every file exactly once, and is
      the pointwise sum of the chunk tables. */
  method CountFiles(outputDir: string, files: seq<SourceFile>, chunkSize: nat)
    returns (chunks: seq<Chunk>, chunkReports: seq<seq<string>>, results: seq<string>)
    requires 0 < chunkSize
    ensures chunks == FileChunks(outputDir, files, chunkSize)
    ensures chunkReports == LocalReports(chunks)
    ensures results == ReportLines(Ranking(Tally(TokensOfLines(AllFileLines(files)))))
    ensures results == ReportLines(Ranking(PlusAll(LocalTables(chunks))))
  {
    var mainWordMap := new WordTable();
    chunks, chunkReports := [], [];
    for f := 0 to |files|
      invariant chunks == FileChunks(outputDir, files[..f], chunkSize)
      invariant chunkReports == LocalReports(chunks)
      invariant mainWordMap.counts == Tally(TokensOfLines(AllFileLines(files[..f])))
    {
      ghost var before := AllFileLines(files[..f]);
      var cs, rs := DispatchFile(outputDir, files[f].name, files[f].lines, chunkSize, mainWordMap);
      assert files[..f + 1][..f] == files[..f];
      assert files[..f + 1][f] == files[f];
      PlusEmpty(Tally(TokensOfLines(before)));
      AddTokens(map[], TokensOfLines(before), TokensOfLines(LowerLines(files[f].lines)));
      TokensOfLinesAppend(before, LowerLines(files[f].lines));
      PlusEmpty(Tally(TokensOfLines(AllFileLines(files[..f + 1]))));
      LocalReportsAppend(chunks, cs);
      chunks := chunks + cs;
      chunkReports := chunkReports + rs;
    }
    assert files[..|files|] == files;
    results := WordMapToFile(mainWordMap.counts);
    FileChunksFlatten(outputDir, files, chunkSize);
    GlobalIsSumOfLocals(chunks);
  }

  /** `main`: `if (!Initialize(args)) return;`, then the processing. A
      chunk size or thread count out of range stops the run before any
      file is read; otherwise every file is counted and `results.txt` is
      the ranking of the table of all their words. */
  method Start(outputDir: string, files: seq<SourceFile>, chunkSize: int, maxThreadNumber: int)
    returns (ran: bool, chunks: seq<Chunk>, chunkReports: seq<seq<string>>, results: seq<string>)
    ensures ran <==> MinChunkSize <= chunkSize <= MaxChunkSize && MinThreads <= maxThreadNumber <= MaxThreads
    ensures !ran ==> chunks == [] && chunkReports == [] && results == []
    ensures ran ==> chunks == FileChunks(outputDir, files, chunkSize) && chunkReports == LocalReports(chunks)
    ensures ran ==> results == ReportLines(Ranking(Tally(TokensOfLines(AllFileLines(files)))))
  {
    if !ValidArguments(chunkSize, maxThreadNumber) {
      return false, [], [], [];
    }
    ran := true;
    chunks, chunkReports, results := CountFiles(outputDir, files, chunkSize);
  }
}
