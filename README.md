# Word counter: a verified model

`WordCount` reads text files line by line, lowers each line, and cuts every
file into chunks of a fixed number of lines. Each chunk goes to a worker
(`CountThread`) that runs in a fixed-size thread pool. The worker takes each
line apart at every run of characters outside `a`..`z`, drops the empty
pieces, and counts every remaining word twice: once into its own table and
once into a table shared by all workers. It then writes its own table to the
chunk's `.chunk` file. Once every file has been dispatched, the pool is shut
down and `main` waits for every worker to finish (lines 104-109); only then
is the shared table written to `results.txt`. Both kinds of report list one `word count` line
per word, highest count first.

The model is split into modules that follow the program:

- `Text` models `String.toLowerCase` (restricted to ASCII) and
  `Integer.toString`.
- `Tokenizer` models `split("[^a-z]+")` and the `word.length() != 0` filter.
- `Frequency` models the `HashMap<String, Integer>` tables: `Inc` is one
  `put`, `Plus` is a pointwise sum, and `Tally` is the table of a token
  sequence. `WordTable` is the map object as a class.
- `Report` models `entriesSortedByValues` (a sorted insertion into a tree
  set) and `WordMapToFile` (the printed lines). It also models the
  original's comparator as written.
- `Chunks` holds the specification functions. `Chunking` is how a file is
  cut into chunks. There are the per-chunk tables and reports, and the
  lemmas relating the whole to its parts.
- `Worker` models the class `CountThread`: the fields it updates, `addWord`,
  and `run`.
- `WordCount` models the loop of `main` over the lines of a file
  (`DispatchFile`, built from `TakeLine`, `Enlist`, `SealIfFull` and
  `SubmitChunk`), the loop over the files (`CountFiles`), and `main`
  itself, which runs only when the arguments pass the range check
  (`Start`).

Running a worker on the pool is modelled as running it to completion the
moment it is handed over. That is one schedule the pool allows. Two lemmas
cover the other schedules, as far as counts go:

- `Frequency.PlusAllPermutation`: the chunk tables summed in any order give
  the same shared table.
- `Frequency.TallyPermutation`: any rearrangement of all the tokens gives
  the same table. Interleaving the workers' single `put`s on the shared
  map, with none lost, is such a rearrangement. `Frequency.IncCommutes` is
  the step of it: two increments commute.

Two facts about the code shape the model:

- A chunk holds lowered lines, because line 85 lowers each line before
  buffering it.
- Workers update the shared `HashMap` with no synchronisation (line 38).

## Model

| member | source | states |
|---|---|---|
| Text.ToLower | src/WordCount.java:85 | lowering keeps the length of the line |
| Text.ToLowerEffect | src/WordCount.java:85 | after lowering no character is upper case; an upper-case letter becomes its own lower-case letter (code point + 32); a character lands in `a`..`z` exactly when it was an ASCII letter; every other character is kept |
| Text.NatToString | src/WordCount.java:134 | a count prints as a non-empty string of digits, with a leading zero only for 0 itself |
| Text.ParseNatToString | src/WordCount.java:134 | reading a printed count back gives the count |
| Text.NatToStringInjective | src/WordCount.java:82 | different numbers print differently |
| Tokenizer.Split | src/WordCount.java:25 | defines `split("[^a-z]+")`: the pieces between maximal separator runs, trailing empty pieces dropped, and `[""]` for an empty line; its laws are the rows below |
| Tokenizer.Tokens | src/WordCount.java:25-27 | defines the words counted for a line: the non-empty pieces of `Split`; fixed by TokensAreWords, TokensConcat, TokensOfWord and TokensAtSeparator |
| Tokenizer.SkipKeepsLetters | src/WordCount.java:25 | skipping a run of separators loses no letter |
| Tokenizer.PiecesAreLetters | src/WordCount.java:25 | no piece of a split line holds a character outside `a`..`z` |
| Tokenizer.PiecesConcat | src/WordCount.java:25 | the pieces, joined, are exactly the letters of the line |
| Tokenizer.DropTrailingEmpty | src/WordCount.java:25 | `split` keeps a prefix of the pieces that does not end in an empty piece, and drops only empty pieces |
| Tokenizer.PiecesTrailing | src/WordCount.java:25 | a line ending in a separator has an empty last piece before trailing pieces are dropped |
| Tokenizer.PiecesAtSeparator | src/WordCount.java:25 | the pieces of `s c t`, for a separator c, are those of s (less a trailing empty one) followed by those of t after its separator run |
| Tokenizer.NonEmptyKeeps | src/WordCount.java:26-27 | the filter yields only non-empty pieces of the split |
| Tokenizer.NonEmptyAppend | src/WordCount.java:26-27 | filtering distributes over concatenation |
| Tokenizer.TokensByPieces | src/WordCount.java:25-27 | dropping the trailing empty pieces first changes nothing about the words counted |
| Tokenizer.TokensAreWords | src/WordCount.java:25-28 | every word counted is a non-empty run of `a`..`z` |
| Tokenizer.TokensConcat | src/WordCount.java:25-28 | the words of a line, joined, are exactly its letters |
| Tokenizer.TokensOfWord | src/WordCount.java:25-28 | a word alone on a line is counted whole, once |
| Tokenizer.TokensAtSeparator | src/WordCount.java:25-28 | the words of `s c t`, for a separator c, are the words of s followed by the words of t |
| Frequency.Inc | src/WordCount.java:37-38 | defines one `put(w, (containsKey(w) ? get(w) : 0) + 1)`; what it does is IncEffect |
| Frequency.Tally | src/WordCount.java:24-30 | defines the table built by counting a token sequence one `put` at a time; checked against a multiset by TallyCounts |
| Frequency.IncEffect | src/WordCount.java:37-38 | one `put` adds 1 to the word's count, or enters it with count 1, and changes no other entry |
| Frequency.Plus | src/WordCount.java:37-38 | the pointwise sum has the words of both tables, each with the sum of its counts |
| Frequency.TallyCounts | src/WordCount.java:24-30 | the table of a token sequence counts each word as often as it occurs in the sequence |
| Frequency.TallyKeys | src/WordCount.java:24-30 | the words of the table are exactly the tokens seen, each with a count of at least 1 |
| Frequency.TotalInc | src/WordCount.java:37 | one increment adds exactly 1 to the sum of all counts |
| Frequency.TotalTally | src/WordCount.java:24-30 | the counts of the table of a token sequence add up to its length |
| Frequency.TallyAppend | src/WordCount.java:24-30 | the tables of consecutive token sequences add up pointwise |
| Frequency.PlusCommutes | src/WordCount.java:38 | the order of two summands does not matter |
| Frequency.PlusAssociates | src/WordCount.java:38 | summing is associative |
| Frequency.PlusInc | src/WordCount.java:38 | incrementing a sum is incrementing a summand |
| Frequency.AddToken | src/WordCount.java:28 | counting one more token into m + table(ws) gives m + table(ws + [w]) |
| Frequency.AddTokens | src/WordCount.java:24-30 | absorbing table(vs) into m + table(ws) gives m + table(ws + vs) |
| Frequency.PlusAllRemove | src/WordCount.java:88 | taking one chunk table out of the sum and adding it last changes nothing |
| Frequency.PlusAllPermutation | src/WordCount.java:88-95 | chunk tables summed in any order give the same table, so the order in which workers finish does not change the shared table |
| Frequency.IncCommutes | src/WordCount.java:38 | two increments of the shared table, in either order, give the same table |
| Frequency.TallyPermutation | src/WordCount.java:24-38 | two token sequences with the same tokens, each as often, give the same table; so does any interleaving of the workers' increments with none lost |
| Frequency.WordTable.constructor | src/WordCount.java:18 | a new map is empty |
| Frequency.WordTable.Add | src/WordCount.java:37 | `put(w, (containsKey(w) ? get(w) : 0) + 1)` turns the table into Inc of the old one |
| Report.SourceComparator | src/WordCount.java:117-124 | defines the comparator as written: count descending, and 1 for two different words of equal count; its properties are the next rows and the finding below |
| Report.LexIrreflexive | src/WordCount.java:117-124 | no word sorts before itself |
| Report.LexTransitive | src/WordCount.java:117-124 | the word order is transitive |
| Report.LexTotal | src/WordCount.java:117-124 | of two different words one sorts first |
| Report.BeforeIrreflexive | src/WordCount.java:117-124 | no entry ranks before itself |
| Report.BeforeTransitive | src/WordCount.java:117-124 | the ranking order is transitive |
| Report.BeforeTotal | src/WordCount.java:117-124 | of two different entries one ranks first |
| Report.SourceComparatorKeepsEntries | src/WordCount.java:117-124 | the original comparator answers 0 only for identical entries, so the tree set drops no entry; where counts differ it agrees with the ranking order |
| Report.SourceComparatorNotAntisymmetric | src/WordCount.java:117-124 | two entries of equal count exist for which the original comparator answers 1 in both directions |
| Report.Insert | src/WordCount.java:126 | adding to the sorted set keeps it strictly sorted, adds exactly the new entry, and grows it by one unless the entry was there |
| Report.InsertFresh | src/WordCount.java:126 | inserting an absent entry adds exactly that entry and grows the set by one |
| Report.SortedUnique | src/WordCount.java:115-127 | two strictly sorted sequences with the same elements are equal, so the ranking is determined by the table |
| Report.Ranking | src/WordCount.java:115-127 | the ranking of a table is strictly sorted |
| Report.RankingEntries | src/WordCount.java:115-127 | the ranking holds exactly the entries of the table, one per word |
| Report.CollectOne | src/WordCount.java:126 | adding the entry of one more word keeps the set sorted and exactly the entries of the words added so far |
| Report.CollectedAll | src/WordCount.java:126-127 | once every word is added, the set is the ranking of the table |
| Report.EntriesSortedByValues | src/WordCount.java:115-128 | the result is sorted, holds exactly the table's entries, one per word, and is the ranking |
| Report.ReportLinesSnoc | src/WordCount.java:133-135 | printing one more entry appends its line |
| Report.WordMapToFile | src/WordCount.java:130-140 | the lines written are the ranking's entries, one `word count` line per word |
| Report.FormatLine | src/WordCount.java:134 | defines one report line, `word + " " + count`; ParseFormatLine reads it back |
| Report.IndexOfSpace | src/WordCount.java:134 | finds the first space, or the end of the line |
| Report.ParseFormatLine | src/WordCount.java:134 | a printed line `word count` reads back as its entry when the word has no space |
| Report.ReportReadsBack | src/WordCount.java:130-140 | every line of a report reads back as the ranking entry it was printed from |
| Report.ReportLinesAreEntries | src/WordCount.java:130-140 | a report has one line per word, and each line is a word of the table with its count |
| Report.ReportCoversTable | src/WordCount.java:130-140 | every word of the table has its line in the report |
| Report.ReportOrdered | src/WordCount.java:130-140 | down a report the counts never increase and no word comes twice |
| Chunks.TokensOfLinesAppend | src/WordCount.java:24-30 | the words of consecutive runs of lines are the words of each run, in order |
| Chunks.TokensOfLinesAreWords | src/WordCount.java:24-30 | every word counted for a run of lines is a non-empty run of `a`..`z` |
| Chunks.LowerLines | src/WordCount.java:85 | lowering a file keeps its number of lines |
| Chunks.LowerLinesAt | src/WordCount.java:85 | line k of the lowered file is line k of the file, lowered |
| Chunks.ChunkName | src/WordCount.java:82 | defines the name `outputDir + "\\" + fileName + "_" + chunkNumber + ".chunk"`; ChunkNamesDistinct shows names differ |
| Chunks.Chunking | src/WordCount.java:80-96 | defines how a file is cut: runs of `size` lowered lines, the last one shorter, numbered from k; its laws are the rows below, and DispatchFile is proved to produce it |
| Chunks.ChunkNamesDistinct | src/WordCount.java:82 | different chunk numbers of a file give different `.chunk` names |
| Chunks.AllLinesAppend | src/WordCount.java:80-96 | the lines of consecutive runs of chunks are those of each run, in order |
| Chunks.ChunkCount | src/WordCount.java:80-96 | a file of N lines gives ceil(N / size) chunks, and an empty file none |
| Chunks.ChunkSizes | src/WordCount.java:86-96 | every chunk but the last holds exactly `size` lines, and the last one 1 to `size` |
| Chunks.ChunkNumbers | src/WordCount.java:82-91 | chunk i of a file is named with number i |
| Chunks.ChunkingFlatten | src/WordCount.java:80-96 | the chunks of a file, put back together, are its lowered lines in order |
| Chunks.ChunkingAppend | src/WordCount.java:86-92 | cutting after m full chunks, the chunks of the rest follow, numbered from m |
| Chunks.ChunkingSingle | src/WordCount.java:94-96 | a run of at most `size` lines is one chunk |
| Chunks.LocalTables | src/WordCount.java:18 | one table per chunk |
| Chunks.LocalTablesAt | src/WordCount.java:18-28 | table k is the table of chunk k's words |
| Chunks.LocalReports | src/WordCount.java:32 | one report per chunk |
| Chunks.LocalReportsAt | src/WordCount.java:32 | report k is the report of chunk k |
| Chunks.LocalReportsAppend | src/WordCount.java:32 | the reports of consecutive runs of chunks are those of each run, in order |
| Chunks.GlobalIsSumOfLocals | src/WordCount.java:37-38 | the table of all the chunks' lines is the pointwise sum of the chunk tables |
| Chunks.ChunkSizeIrrelevant | src/WordCount.java:69-101 | whatever the chunk size, the chunk tables add up to the same table, whose counts add up to the number of words |
| Chunks.ChunkAfter | src/WordCount.java:87-96 | sealing the chunk that holds lines start..end adds exactly that chunk to the chunking of the first `end` lines |
| Chunks.FileChunksFlatten | src/WordCount.java:69-101 | the chunks of all files carry all their lowered lines, file after file |
| Chunks.RunConservesCount | src/WordCount.java:69-112 | the counts of the shared table add up to the number of words in all files, and every word in it is a run of `a`..`z` |
| Worker.CountPiece | src/WordCount.java:26-28 | an empty piece changes no table; a word is one increment |
| Worker.CountThread.constructor | src/WordCount.java:15-20 | a new worker has its own empty table, shares the given table, and holds no lines |
| Worker.CountThread.AddWord | src/WordCount.java:35-42 | both tables gain one occurrence of the word and nothing else changes |
| Worker.CountThread.CountWord | src/WordCount.java:26-28 | a non-empty piece is counted into both tables, an empty one is skipped, so both hold the table of the pieces so far |
| Worker.CountThread.CountLine | src/WordCount.java:25-29 | both tables grow by the table of the line's words |
| Worker.CountThread.Run | src/WordCount.java:23-33 | both tables grow by the table of the chunk's words, and the report is the ranking of the worker's own table |
| WordCount.Enlist | src/WordCount.java:81-85 | a new worker is created only when none is pending (the first line of a chunk), a pending worker is kept; the worker gains the lowered line and still shares the table |
| WordCount.SubmitChunk | src/WordCount.java:88-95 | handing over the worker adds its chunk and its report to those handed over so far, and adds its table to the shared table |
| WordCount.SealIfFull | src/WordCount.java:87-92 | a full worker is handed over and the count of lines restarts at 0; otherwise nothing is handed over |
| WordCount.TakeLine | src/WordCount.java:80-93 | one turn of the line loop keeps the loop's invariant: what was handed over is the chunking of the lines read so far, less the pending lines, which sit in the current worker |
| WordCount.DispatchFile | src/WordCount.java:69-101 | the chunks handed over for a file are the chunking of its lowered lines, each report is that of its chunk, and the shared table grows by the table of the file's words |
| WordCount.ValidArguments | src/WordCount.java:152 | defines the range check of line 152 (chunk size 10 to 5000, thread count 1 to 100); `Start` states what it decides |
| WordCount.Start | src/WordCount.java:53-55 | the run goes ahead exactly when the chunk size is 10 to 5000 and the thread count 1 to 100 (line 152); otherwise nothing is produced; when it runs, the chunks are those of every file and `results.txt` is the ranking of the table of all words |
| WordCount.CountFiles | src/WordCount.java:53-113 | `results.txt` is the ranking of the table of all words of all files, and also the ranking of the sum of all chunk tables; the chunks are those of every file in turn |

## Left out

- Reading files, building paths from the arguments (`pathFile`, `getParent`, `getAbsolutePath`), deleting and creating the output directory, and the console messages are left out. They are I/O. `CountFiles` takes each file as its name and its lines. Each worker and the run return their report lines instead of writing them.
- `main`'s skip of a directory entry named `output` is left out. It concerns the layout of the directory, not the counting.
- `Initialize` is not modelled beyond its range check: the argument count, and `Integer.parseInt` throwing on a non-number, concern parsing the command line.
- The thread pool and its `maxThreadNumber` are left out. Each worker runs to completion when it is handed over. In the original, two workers' read-then-`put` on the shared `HashMap` (line 38) can overlap, and then an increment is lost. The model has no such step: its shared table is the one any schedule gives when no increment is lost (TallyPermutation, PlusAllPermutation). Nothing is proved about runs that lose updates. The same race is the only way the exception handler of `addWord` (lines 39-41) can be reached: when another thread changes the shared map between `containsKey` and `get`, the `get` can return null, its unboxing throws, and that token's shared increment is skipped. The model has no such run.
- The exception handler of `main` (for I/O errors) is left out. No I/O fails in the model.
- `ToLower` lowers only ASCII letters. Java's full Unicode lowering is not modelled. For example, it can turn one character into two, one of them an ASCII letter.
- `toLowerCase()` uses the default locale. Under a Turkish or Azeri locale even ASCII `I` becomes dotless `ı` (U+0131), which is a separator. The model lowers as every other locale does.
- Counts are unbounded naturals. Java's `Integer` would wrap after 2^31 - 1 occurrences of one word.
- Report.EntriesSortedByValues: the order among words of equal count uses the word as the secondary key. The original's tree-set order for ties depends on the map's iteration order and its invalid comparator (see "Findings").
- DispatchFile: requires only a chunk size above 0, which is weaker than the range 10 to 5000 that the arguments are checked against.

## Findings

| source | as written | input that shows it | evidently intended | confidence | as-written member | corrected member |
|---|---|---|---|---|---|---|
| src/WordCount.java:117-124 | for two different words of equal count the comparator returns 1 whichever way round it is asked | entries `cat 2` and `sat 2`: `compare(cat, sat) == 1` and `compare(sat, cat) == 1` | a lawful total order on entries: count descending, with a fixed tie-break between words | not executed | Report.SourceComparatorNotAntisymmetric | Report.BeforeTotal |

The corrected order is `Report.Before`: count descending, then the word
in lexicographic order, which is `String.compareTo` on words of `a`..`z`. `Report.BeforeIrreflexive`, `Report.BeforeTransitive`
and `Report.BeforeTotal` prove that it is a strict total order.
`Report.SourceComparatorKeepsEntries` shows that where counts differ it
agrees with the original comparator, and that the original never calls two
different entries equal, so the tree set keeps every entry.
