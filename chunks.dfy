/**
 The specification side of the word counter: the words of a sequence of
 lines, the lowering of a file, how a file is cut into numbered chunks,
 each chunk's own table and report, and how those tables add up to the
 table of the whole input.
 */
module Chunks {
  import opened Text
  import opened Tokenizer
  import opened Frequency
  import opened Report

  /** The words of a sequence of lines, line after line. */
  function TokensOfLines(ls: seq<string>): seq<string>
  {
    if ls == [] then [] else TokensOfLines(ls[..|ls| - 1]) + Tokens(ls[|ls| - 1])
  }

  lemma {:induction false} TokensOfLinesAppend(a: seq<string>, b: seq<string>)
    ensures TokensOfLines(a + b) == TokensOfLines(a) + TokensOfLines(b)
    decreases |b|
  {
    if b == [] {
      assert a + b == a;
    } else {
      var init, last := b[..|b| - 1], b[|b| - 1];
      assert (a + b)[..|a + b| - 1] == a + init;
      assert (a + b)[|a + b| - 1] == last;
      TokensOfLinesAppend(a, init);
      var ta, ti, tl := TokensOfLines(a), TokensOfLines(init), Tokens(last);
      assert TokensOfLines(a + b) == (ta + ti) + tl;
      assert TokensOfLines(b) == ti + tl;
      AppendAssociates(ta, ti, tl);
    }
  }

  /** Everything a worker counts is a word. */
  lemma {:induction false} TokensOfLinesAreWords(ls: seq<string>)
    ensures forall w :: w in TokensOfLines(ls) ==> IsWord(w)
    decreases |ls|
  {
    if ls != [] {
      TokensOfLinesAreWords(ls[..|ls| - 1]);
      TokensAreWords(ls[|ls| - 1]);
    }
  }

  /** One line of the loop in `main`: `lineToProcess.toLowerCase()`. */
  function LowerLines(lines: seq<string>): (r: seq<string>)
    ensures |r| == |lines|
  {
    if lines == [] then [] else LowerLines(lines[..|lines| - 1]) + [ToLower(lines[|lines| - 1])]
  }

  /** Line k of the lowered file is line k of the file, lowered. */
  lemma {:induction false} LowerLinesAt(lines: seq<string>)
    ensures forall k :: 0 <= k < |lines| ==> LowerLines(lines)[k] == ToLower(lines[k])
    decreases |lines|
  {
    if lines != [] {
      var init := lines[..|lines| - 1];
      LowerLinesAt(init);
      forall k | 0 <= k < |lines|
        ensures LowerLines(lines)[k] == ToLower(lines[k])
      {
        if k < |init| {
          assert LowerLines(lines)[k] == LowerLines(init)[k];
          assert init[k] == lines[k];
        }
      }
    }
  }

  /** A sealed chunk: the file its local report goes to, and its lines. */
  datatype Chunk = Chunk(outputPath: string, lines: seq<string>)

  /** `outputDirPath + "\\" + file.getName() + "_" + chunkNumber + ".chunk"` */
  function ChunkName(outputDir: string, fileName: string, k: nat): string
  {
    outputDir + "\\" + fileName + "_" + NatToString(k) + ".chunk"
  }

  /** Different chunk numbers of one file give different names. */
  lemma ChunkNamesDistinct(outputDir: string, fileName: string, a: nat, b: nat)
    requires a != b
    ensures ChunkName(outputDir, fileName, a) != ChunkName(outputDir, fileName, b)
  {
    var prefix := outputDir + "\\" + fileName + "_";
    var na, nb := NatToString(a), NatToString(b);
    if ChunkName(outputDir, fileName, a) == ChunkName(outputDir, fileName, b) {
      var x, y := prefix + na + ".chunk", prefix + nb + ".chunk";
      assert |na| == |nb|;
      assert x[|prefix|..|prefix| + |na|] == na;
      assert y[|prefix|..|prefix| + |nb|] == nb;
      NatToStringInjective(a, b);
    }
  }

  function Min(a: int, b: int): int { if a <= b then a else b }

  /** The chunks of a file whose (lowered) lines are ls, numbered from k on:
      runs of `size` lines, the last one possibly shorter. */
  function Chunking(outputDir: string, fileName: string, ls: seq<string>, size: nat, k: nat): seq<Chunk>
    requires size > 0
    decreases |ls|
  {
    if ls == [] then []
    else
      var n := Min(size, |ls|);
      [Chunk(ChunkName(outputDir, fileName, k), ls[..n])]
        + Chunking(outputDir, fileName, ls[n..], size, k + 1)
  }

  /** The lines of a sequence of chunks, chunk after chunk. */
  function AllLines(cs: seq<Chunk>): seq<string>
  {
    if cs == [] then [] else cs[0].lines + AllLines(cs[1..])
  }

  lemma {:induction false} AllLinesAppend(a: seq<Chunk>, b: seq<Chunk>)
    ensures AllLines(a + b) == AllLines(a) + AllLines(b)
  {
    if a == [] {
      assert a + b == b;
    } else {
      assert (a + b)[0] == a[0];
      assert (a + b)[1..] == a[1..] + b;
      AllLinesAppend(a[1..], b);
    }
  }

  /** A file of N lines gives ceil(N / size) chunks, that is, the least
      number m of chunks with N <= m * size; none for an empty file. */
  lemma {:induction false} ChunkCount(outputDir: string, fileName: string, ls: seq<string>, size: nat, k: nat)
    requires size > 0
    ensures var cs := Chunking(outputDir, fileName, ls, size, k);
      && (|cs| - 1) * size < |ls| <= |cs| * size
      && (cs == [] <==> ls == [])
    decreases |ls|
  {
    if ls != [] {
      var n := Min(size, |ls|);
      var rest := Chunking(outputDir, fileName, ls[n..], size, k + 1);
      ChunkCount(outputDir, fileName, ls[n..], size, k + 1);
      var m := |rest|;
      assert (m + 1) * size == m * size + size;
      if m > 0 {
        assert (m - 1) * size == m * size - size;
      }
    }
  }

  /** Every chunk but the last has exactly `size` lines, the last between 1
      and `size`. */
  lemma {:induction false} ChunkSizes(outputDir: string, fileName: string, ls: seq<string>, size: nat, k: nat)
    requires size > 0
    ensures var cs := Chunking(outputDir, fileName, ls, size, k);
      && (forall i :: 0 <= i < |cs| - 1 ==> |cs[i].lines| == size)
      && (cs != [] ==> 1 <= |cs[|cs| - 1].lines| <= size)
    decreases |ls|
  {
    var cs := Chunking(outputDir, fileName, ls, size, k);
    if ls != [] {
      var n := Min(size, |ls|);
      var rest := Chunking(outputDir, fileName, ls[n..], size, k + 1);
      ChunkSizes(outputDir, fileName, ls[n..], size, k + 1);
      assert cs == [Chunk(ChunkName(outputDir, fileName, k), ls[..n])] + rest;
      if rest == [] {
        assert ls[n..] == [] by {
          ChunkCount(outputDir, fileName, ls[n..], size, k + 1);
        }
      }
      forall i | 0 <= i < |cs| - 1
        ensures |cs[i].lines| == size
      {
        if i > 0 {
          assert cs[i] == rest[i - 1];
        } else {
          assert rest != [];
          ChunkCount(outputDir, fileName, ls[n..], size, k + 1);
        }
      }
    }
  }

  /** Chunk i is numbered k + i. */
  lemma {:induction false} ChunkNumbers(outputDir: string, fileName: string, ls: seq<string>, size: nat, k: nat)
    requires size > 0
    ensures forall i :: 0 <= i < |Chunking(outputDir, fileName, ls, size, k)| ==>
      Chunking(outputDir, fileName, ls, size, k)[i].outputPath == ChunkName(outputDir, fileName, k + i)
    decreases |ls|
  {
    var cs := Chunking(outputDir, fileName, ls, size, k);
    if ls != [] {
      var n := Min(size, |ls|);
      var rest := Chunking(outputDir, fileName, ls[n..], size, k + 1);
      ChunkNumbers(outputDir, fileName, ls[n..], size, k + 1);
      assert cs == [Chunk(ChunkName(outputDir, fileName, k), ls[..n])] + rest;
      forall i | 0 <= i < |cs|
        ensures cs[i].outputPath == ChunkName(outputDir, fileName, k + i)
      {
        if i > 0 {
          assert cs[i] == rest[i - 1];
          assert rest[i - 1].outputPath == ChunkName(outputDir, fileName, (k + 1) + (i - 1));
          assert (k + 1) + (i - 1) == k + i;
        }
      }
    }
  }

  /** The chunks, put back together, are the file's lines in order. */
  lemma {:induction false} ChunkingFlatten(outputDir: string, fileName: string, ls: seq<string>, size: nat, k: nat)
    requires size > 0
    ensures AllLines(Chunking(outputDir, fileName, ls, size, k)) == ls
    decreases |ls|
  {
    if ls != [] {
      var n := Min(size, |ls|);
      ChunkingFlatten(outputDir, fileName, ls[n..], size, k + 1);
      assert ls == ls[..n] + ls[n..];
    }
  }

  /** The number of lines in m full chunks (m * size, by repeated addition). */
  function FullLines(m: nat, size: nat): nat
  {
    if m == 0 then 0 else FullLines(m - 1, size) + size
  }

  /** Cutting a file after a whole number m of chunks: the chunks of the
      rest follow, numbered from k + m. */
  lemma {:induction false} ChunkingAppend(outputDir: string, fileName: string, a: seq<string>, b: seq<string>,
                                          size: nat, k: nat, m: nat)
    requires size > 0 && |a| == FullLines(m, size)
    ensures Chunking(outputDir, fileName, a + b, size, k)
         == Chunking(outputDir, fileName, a, size, k) + Chunking(outputDir, fileName, b, size, k + m)
    decreases m
  {
    if m == 0 {
      assert a == [];
      assert a + b == b;
    } else {
      var first := Chunk(ChunkName(outputDir, fileName, k), a[..size]);
      var ra, rb := Chunking(outputDir, fileName, a[size..], size, k + 1), Chunking(outputDir, fileName, b, size, k + m);
      assert |a| == FullLines(m - 1, size) + size;
      ChunkingHead(outputDir, fileName, a, b, size, k);
      ChunkingAppend(outputDir, fileName, a[size..], b, size, k + 1, m - 1);
      AppendAssociates([first], ra, rb);
    }
  }

  /** A file of at least `size` lines, with or without more lines after
      it, starts with the same full chunk. */
  lemma ChunkingHead(outputDir: string, fileName: string, a: seq<string>, b: seq<string>, size: nat, k: nat)
    requires 0 < size <= |a|
    ensures Chunking(outputDir, fileName, a, size, k)
         == [Chunk(ChunkName(outputDir, fileName, k), a[..size])] + Chunking(outputDir, fileName, a[size..], size, k + 1)
    ensures Chunking(outputDir, fileName, a + b, size, k)
         == [Chunk(ChunkName(outputDir, fileName, k), a[..size])] + Chunking(outputDir, fileName, a[size..] + b, size, k + 1)
  {
    assert (a + b)[..size] == a[..size];
    assert (a + b)[size..] == a[size..] + b;
  }

  /** A run of at most `size` lines is one chunk. */
  lemma ChunkingSingle(outputDir: string, fileName: string, b: seq<string>, size: nat, k: nat)
    requires 0 < |b| <= size
    ensures Chunking(outputDir, fileName, b, size, k) == [Chunk(ChunkName(outputDir, fileName, k), b)]
  {
    assert b[..|b|] == b;
    assert b[|b|..] == [];
  }

  /** The table a chunk worker builds for its own chunk. */
  function LocalTable(c: Chunk): Table
  {
    Tally(TokensOfLines(c.lines))
  }

  /** The chunk tables, one per chunk, in order. */
  function LocalTables(cs: seq<Chunk>): (ts: seq<Table>)
    ensures |ts| == |cs|
  {
    if cs == [] then [] else LocalTables(cs[..|cs| - 1]) + [LocalTable(cs[|cs| - 1])]
  }

  /** Table k is the table of chunk k. */
  lemma {:induction false} LocalTablesAt(cs: seq<Chunk>)
    ensures forall k :: 0 <= k < |cs| ==> LocalTables(cs)[k] == LocalTable(cs[k])
  {
    forall k | 0 <= k < |cs|
      ensures LocalTables(cs)[k] == LocalTable(cs[k])
    {
      LocalTableAt(cs, k);
    }
  }

  lemma {:induction false} LocalTableAt(cs: seq<Chunk>, k: nat)
    requires k < |cs|
    ensures LocalTables(cs)[k] == LocalTable(cs[k])
    decreases |cs|
  {
    var init := cs[..|cs| - 1];
    var last := LocalTable(cs[|cs| - 1]);
    assert LocalTables(cs) == LocalTables(init) + [last];
    if k < |init| {
      LocalTableAt(init, k);
      assert init[k] == cs[k];
      assert LocalTables(cs)[k] == LocalTables(init)[k];
    } else {
      assert k == |cs| - 1;
      assert LocalTables(cs)[k] == last;
    }
  }

  /** What a chunk worker writes to its chunk's output file. */
  ghost function LocalReport(c: Chunk): seq<string>
  {
    ReportLines(Ranking(LocalTable(c)))
  }

  /** The reports of a sequence of chunks, one per chunk. */
  ghost function LocalReports(cs: seq<Chunk>): (rs: seq<seq<string>>)
    ensures |rs| == |cs|
  {
    if cs == [] then [] else LocalReports(cs[..|cs| - 1]) + [LocalReport(cs[|cs| - 1])]
  }

  /** Report k is the report of chunk k. */
  lemma {:induction false} LocalReportsAt(cs: seq<Chunk>)
    ensures forall k :: 0 <= k < |cs| ==> LocalReports(cs)[k] == LocalReport(cs[k])
    decreases |cs|
  {
    if cs != [] {
      var init := cs[..|cs| - 1];
      LocalReportsAt(init);
      forall k | 0 <= k < |cs|
        ensures LocalReports(cs)[k] == LocalReport(cs[k])
      {
        if k < |init| {
          assert LocalReports(cs)[k] == LocalReports(init)[k];
          assert init[k] == cs[k];
        }
      }
    }
  }

  lemma {:induction false} LocalReportsAppend(a: seq<Chunk>, b: seq<Chunk>)
    ensures LocalReports(a + b) == LocalReports(a) + LocalReports(b)
    decreases |b|
  {
    if b == [] {
      assert a + b == a;
    } else {
      assert (a + b)[..|a + b| - 1] == a + b[..|b| - 1];
      LocalReportsAppend(a, b[..|b| - 1]);
    }
  }

  /** The table of all the chunks' lines is the pointwise sum of the chunk
      tables. */
  lemma {:induction false} GlobalIsSumOfLocals(cs: seq<Chunk>)
    ensures Tally(TokensOfLines(AllLines(cs))) == PlusAll(LocalTables(cs))
    decreases |cs|
  {
    if cs == [] {
      assert Tally([]) == map[];
    } else {
      var init, last := cs[..|cs| - 1], cs[|cs| - 1];
      assert cs == init + [last];
      GlobalIsSumOfLocals(init);
      AllLinesAppend(init, [last]);
      assert AllLines([last]) == last.lines;
      TokensOfLinesAppend(AllLines(init), last.lines);
      TallyAppend(TokensOfLines(AllLines(init)), TokensOfLines(last.lines));
      PlusAllSnoc(LocalTables(init), LocalTable(last));
    }
  }

  /** However a file is cut into chunks, the chunk tables add up to the
      same table, whose counts sum to the number of words in the file. */
  lemma ChunkSizeIrrelevant(outputDir: string, fileName: string, ls: seq<string>, c1: nat, c2: nat)
    requires c1 > 0 && c2 > 0
    ensures PlusAll(LocalTables(Chunking(outputDir, fileName, ls, c1, 0)))
         == PlusAll(LocalTables(Chunking(outputDir, fileName, ls, c2, 0)))
    ensures Total(PlusAll(LocalTables(Chunking(outputDir, fileName, ls, c1, 0)))) == |TokensOfLines(ls)|
  {
    ChunkingFlatten(outputDir, fileName, ls, c1, 0);
    ChunkingFlatten(outputDir, fileName, ls, c2, 0);
    GlobalIsSumOfLocals(Chunking(outputDir, fileName, ls, c1, 0));
    GlobalIsSumOfLocals(Chunking(outputDir, fileName, ls, c2, 0));
    TotalTally(TokensOfLines(ls));
  }


  /** What has been handed over after the first `seen` lowered lines of a
      file: their chunking, one report per chunk, and the shared table grown
      by every chunk table. */
  ghost predicate Dispatched(outputDir: string, fileName: string, seen: seq<string>, size: nat,
                             chunks: seq<Chunk>, reports: seq<seq<string>>, main0: Table, counts: Table)
    requires size > 0
  {
    && chunks == Chunking(outputDir, fileName, seen, size, 0)
    && reports == LocalReports(chunks)
    && counts == Plus(main0, PlusAll(LocalTables(chunks)))
  }

  lemma LocalReportsSnoc(cs: seq<Chunk>, c: Chunk)
    ensures LocalReports(cs + [c]) == LocalReports(cs) + [LocalReport(c)]
  {
    assert (cs + [c])[..|cs|] == cs;
  }

  /** The chunk tables of a file add up to the table of the file's words. */
  lemma ChunksCountLines(outputDir: string, fileName: string, ls: seq<string>, size: nat)
    requires size > 0
    ensures PlusAll(LocalTables(Chunking(outputDir, fileName, ls, size, 0))) == Tally(TokensOfLines(ls))
  {
    ChunkingFlatten(outputDir, fileName, ls, size, 0);
    GlobalIsSumOfLocals(Chunking(outputDir, fileName, ls, size, 0));
  }

  lemma LocalTablesSnoc(main0: Table, cs: seq<Chunk>, c: Chunk)
    ensures Plus(Plus(main0, PlusAll(LocalTables(cs))), LocalTable(c))
         == Plus(main0, PlusAll(LocalTables(cs + [c])))
  {
    assert (cs + [c])[..|cs|] == cs;
    PlusAllSnoc(LocalTables(cs), LocalTable(c));
    PlusAssociates(main0, PlusAll(LocalTables(cs)), LocalTable(c));
  }


  /** Sealing the chunk that holds lines start..end: the chunking of the
      first `end` lines gains that one chunk. */
  lemma ChunkAfter(outputDir: string, fileName: string, lowered: seq<string>, size: nat, chunkNumber: nat,
                   start: nat, end: nat)
    requires 0 < end - start <= size && start == FullLines(chunkNumber, size) && end <= |lowered|
    ensures Chunking(outputDir, fileName, lowered[..end], size, 0)
         == Chunking(outputDir, fileName, lowered[..start], size, 0)
            + [Chunk(ChunkName(outputDir, fileName, chunkNumber), lowered[start..end])]
  {
    assert lowered[..end] == lowered[..start] + lowered[start..end];
    ChunkAfterFull(outputDir, fileName, lowered[..start], lowered[start..end], size, chunkNumber);
  }

  lemma ChunkAfterFull(outputDir: string, fileName: string, a: seq<string>, b: seq<string>, size: nat, chunkNumber: nat)
    requires 0 < |b| <= size && |a| == FullLines(chunkNumber, size)
    ensures Chunking(outputDir, fileName, a + b, size, 0)
         == Chunking(outputDir, fileName, a, size, 0) + [Chunk(ChunkName(outputDir, fileName, chunkNumber), b)]
  {
    ChunkingAppend(outputDir, fileName, a, b, size, 0, chunkNumber);
    ChunkingSingle(outputDir, fileName, b, size, chunkNumber);
  }

  /** An input file: its base name and its lines. */
  datatype SourceFile = SourceFile(name: string, lines: seq<string>)

  /** The lowered lines of all files, file after file. */
  function AllFileLines(files: seq<SourceFile>): seq<string>
  {
    if files == [] then [] else AllFileLines(files[..|files| - 1]) + LowerLines(files[|files| - 1].lines)
  }

  /** The chunks of all files, file after file. */
  function FileChunks(outputDir: string, files: seq<SourceFile>, size: nat): seq<Chunk>
    requires size > 0
  {
    if files == [] then []
    else
      var last := files[|files| - 1];
      FileChunks(outputDir, files[..|files| - 1], size) + Chunking(outputDir, last.name, LowerLines(last.lines), size, 0)
  }

  /** The chunks of all files carry all the files' lines, in order. */
  lemma {:induction false} FileChunksFlatten(outputDir: string, files: seq<SourceFile>, size: nat)
    requires size > 0
    ensures AllLines(FileChunks(outputDir, files, size)) == AllFileLines(files)
    decreases |files|
  {
    if files != [] {
      var init, last := files[..|files| - 1], files[|files| - 1];
      FileChunksFlatten(outputDir, init, size);
      ChunkingFlatten(outputDir, last.name, LowerLines(last.lines), size, 0);
      AllLinesAppend(FileChunks(outputDir, init, size), Chunking(outputDir, last.name, LowerLines(last.lines), size, 0));
    }
  }

  /** Count conservation for a whole run: the counts of `results.txt` add
      up to the number of words in all files. */
  lemma RunConservesCount(files: seq<SourceFile>)
    ensures Total(Tally(TokensOfLines(AllFileLines(files)))) == |TokensOfLines(AllFileLines(files))|
    ensures forall w :: w in Tally(TokensOfLines(AllFileLines(files))) ==> IsWord(w)
  {
    TotalTally(TokensOfLines(AllFileLines(files)));
    TokensOfLinesAreWords(AllFileLines(files));
    TallyKeys(TokensOfLines(AllFileLines(files)));
  }
}
