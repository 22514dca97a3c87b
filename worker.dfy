/**
 The chunk worker (`CountThread`): it holds the lowered lines of one chunk,
 and its `run` counts every word of those lines into its own table and
 into the table shared by all workers, then writes its own table out.
 */
module Worker {
  import opened Tokenizer
  import opened Frequency
  import opened Report
  import opened Chunks

  /** Counting piece j of a split line: an empty piece changes nothing, a
      word is one Inc. */
  lemma CountPiece(m: Table, words: seq<string>, j: nat)
    requires j < |words|
    ensures |words[j]| != 0 ==>
      Plus(m, Tally(NonEmpty(words[..j + 1]))) == Inc(Plus(m, Tally(NonEmpty(words[..j]))), words[j])
    ensures |words[j]| == 0 ==>
      Plus(m, Tally(NonEmpty(words[..j + 1]))) == Plus(m, Tally(NonEmpty(words[..j])))
  {
    var before, w := NonEmpty(words[..j]), words[j];
    var after := NonEmpty(words[..j + 1]);
    assert after == before + (if w == "" then [] else [w]) by {
      assert words[..j + 1] == words[..j] + [w];
      NonEmptyAppend(words[..j], [w]);
      assert NonEmpty([w]) == (if w == "" then [] else [w]) + NonEmpty([]);
    }
    if |w| != 0 {
      AddToken(m, before, w);
    } else {
      assert after == before;
    }
  }

  /** Counting line i after lines 0..i-1 is counting lines 0..i. */
  lemma CountLines(m: Table, lines: seq<string>, i: nat)
    requires i < |lines|
    ensures Plus(Plus(m, Tally(TokensOfLines(lines[..i]))), Tally(Tokens(lines[i])))
         == Plus(m, Tally(TokensOfLines(lines[..i + 1])))
  {
    AddTokens(m, TokensOfLines(lines[..i]), Tokens(lines[i]));
    assert lines[..i + 1][..i] == lines[..i];
  }

  /** The chunk worker: a chunk's lines, its own table, the shared table,
      and where its own table is written. */
  class CountThread {
    var linesToProcess: seq<string>
    const wordMap: WordTable
    const mainWordMap: WordTable
    const outputPath: string

    /** The worker's own table is not the shared one. */
    ghost predicate Valid()
    {
      wordMap != mainWordMap
    }

    /** A worker for the chunk written to path, holding lines, that shares
        main and has counted nothing yet. */
    ghost predicate Pending(main: WordTable, path: string, lines: seq<string>)
      reads this, wordMap
    {
      Valid() && mainWordMap == main && wordMap.counts == map[] && outputPath == path && linesToProcess == lines
    }

    constructor (outputPath: string, mainWordMap: WordTable)
      ensures Valid()
      ensures this.outputPath == outputPath && this.mainWordMap == mainWordMap
      ensures fresh(wordMap) && wordMap.counts == map[]
      ensures linesToProcess == []
    {
      this.outputPath := outputPath;
      this.mainWordMap := mainWordMap;
      wordMap := new WordTable();
      linesToProcess := [];
    }

    /** `addWord`: one more occurrence of word, in both tables. */
    method AddWord(word: string)
      requires Valid()
      modifies wordMap, mainWordMap
      ensures wordMap.counts == Inc(old(wordMap.counts), word)
      ensures mainWordMap.counts == Inc(old(mainWordMap.counts), word)
    {
      wordMap.Add(word);
      mainWordMap.Add(word);
    }

    /** One step of the inner loop of `run`: piece j of a split line is
        counted into both tables when it is a word and skipped when it is
        empty, so that both tables then hold pieces 0..j. */
    method CountWord(words: seq<string>, j: nat, ghost local0: Table, ghost main0: Table)
      requires Valid() && j < |words|
      requires wordMap.counts == Plus(local0, Tally(NonEmpty(words[..j])))
      requires mainWordMap.counts == Plus(main0, Tally(NonEmpty(words[..j])))
      modifies wordMap, mainWordMap
      ensures wordMap.counts == Plus(local0, Tally(NonEmpty(words[..j + 1])))
      ensures mainWordMap.counts == Plus(main0, Tally(NonEmpty(words[..j + 1])))
    {
      CountPiece(local0, words, j);
      CountPiece(main0, words, j);
      if |words[j]| != 0 {
        AddWord(words[j]);
      }
    }

    /** The inner loop of `run`: every non-empty piece of one line, in
        order, is counted into both tables. */
    method CountLine(line: string)
      requires Valid()
      modifies wordMap, mainWordMap
      ensures wordMap.counts == Plus(old(wordMap.counts), Tally(Tokens(line)))
      ensures mainWordMap.counts == Plus(old(mainWordMap.counts), Tally(Tokens(line)))
    {
      ghost var local0, main0 := wordMap.counts, mainWordMap.counts;
      var words := Split(line);
      var j := 0;
      while j < |words|
        invariant 0 <= j <= |words|
        invariant wordMap.counts == Plus(local0, Tally(NonEmpty(words[..j])))
        invariant mainWordMap.counts == Plus(main0, Tally(NonEmpty(words[..j])))
      {
        CountWord(words, j, local0, main0);
        j := j + 1;
      }
      assert words[..j] == words;
    }

    /** `run`: count every word of every line, in order, into both tables;
        then produce the lines of the worker's own report. */
    method Run() returns (report: seq<string>)
      requires Valid()
      modifies wordMap, mainWordMap
      ensures wordMap.counts == Plus(old(wordMap.counts), Tally(TokensOfLines(linesToProcess)))
      ensures mainWordMap.counts == Plus(old(mainWordMap.counts), Tally(TokensOfLines(linesToProcess)))
      ensures report == ReportLines(Ranking(wordMap.counts))
    {
      ghost var local0, main0 := wordMap.counts, mainWordMap.counts;
      var i := 0;
      while i < |linesToProcess|
        invariant 0 <= i <= |linesToProcess|
        invariant wordMap.counts == Plus(local0, Tally(TokensOfLines(linesToProcess[..i])))
        invariant mainWordMap.counts == Plus(main0, Tally(TokensOfLines(linesToProcess[..i])))
      {
        CountLine(linesToProcess[i]);
        CountLines(local0, linesToProcess, i);
        CountLines(main0, linesToProcess, i);
        i := i + 1;
      }
      assert linesToProcess[..i] == linesToProcess;
      report := WordMapToFile(wordMap.counts);
    }
  }
}
