/**
 Turning a frequency table into report lines: `entriesSortedByValues`
 ranks the entries by count, highest first, and `WordMapToFile` prints one
 line `word + " " + count` per entry.

 The comparator of the original orders entries by count and, for two
 different words with the same count, answers 1 whichever way round it is
 asked. That keeps every entry in the tree set but is not a lawful order;
 this model keeps its primary key and breaks ties by `String.compareTo`
 on the words, so that equal counts come out in alphabetical order.
 */
module Report {
  import opened Text
  import opened Frequency

  datatype Entry = Entry(word: string, count: nat)

  datatype Option<T> = None | Some(value: T)

  /** Lexicographic order, a proper prefix first. It agrees with
      `String.compareTo(a, b) < 0` on characters below U+10000, where a
      character is one UTF-16 unit, and so on every word of `a`..`z`. */
  predicate LexLess(a: string, b: string)
  {
    if a == [] then b != []
    else if b == [] then false
    else a[0] < b[0] || (a[0] == b[0] && LexLess(a[1..], b[1..]))
  }

  lemma {:induction false} LexIrreflexive(a: string)
    ensures !LexLess(a, a)
  {
    if a != [] {
      LexIrreflexive(a[1..]);
    }
  }

  lemma {:induction false} LexTransitive(a: string, b: string, c: string)
    requires LexLess(a, b) && LexLess(b, c)
    ensures LexLess(a, c)
  {
    if a != [] && a[0] == b[0] && b[0] == c[0] {
      LexTransitive(a[1..], b[1..], c[1..]);
    }
  }

  lemma {:induction false} LexTotal(a: string, b: string)
    requires a != b
    ensures LexLess(a, b) || LexLess(b, a)
  {
    if a != [] && b != [] && a[0] == b[0] {
      assert a == [a[0]] + a[1..] && b == [b[0]] + b[1..];
      LexTotal(a[1..], b[1..]);
    }
  }

  /** The ranking order: higher count first, equal counts by word. */
  predicate Before(a: Entry, b: Entry)
  {
    a.count > b.count || (a.count == b.count && LexLess(a.word, b.word))
  }

  lemma BeforeIrreflexive(a: Entry)
    ensures !Before(a, a)
  {
    LexIrreflexive(a.word);
  }

  lemma BeforeTransitive(a: Entry, b: Entry, c: Entry)
    requires Before(a, b) && Before(b, c)
    ensures Before(a, c)
  {
    if a.count == b.count == c.count {
      LexTransitive(a.word, b.word, c.word);
    }
  }

  lemma BeforeTotal(a: Entry, b: Entry)
    requires a != b
    ensures Before(a, b) || Before(b, a)
  {
    if a.count == b.count {
      LexTotal(a.word, b.word);
    }
  }

  /** `Integer.compare`, as `Integer.compareTo` answers it. */
  function Compare(x: int, y: int): int
  {
    if x < y then -1 else if x == y then 0 else 1
  }

  /** The comparator the original hands to its TreeSet, as written. */
  function SourceComparator(e1: Entry, e2: Entry): int
  {
    var res := Compare(e2.count, e1.count);
    if e1.word == e2.word then res else if res != 0 then res else 1
  }

  /** The original comparator never calls two entries of different words
      equal, so the tree set drops no entry; and where counts differ it
      agrees with Before. */
  lemma SourceComparatorKeepsEntries(e1: Entry, e2: Entry)
    ensures SourceComparator(e1, e2) == 0 <==> e1 == e2
    ensures e1.count != e2.count ==> (SourceComparator(e1, e2) < 0 <==> Before(e1, e2))
  {
  }

  /** ... but it is not a lawful comparator: asked about two words of equal
      count in either order it answers 1 both times, so sgn(cmp(a, b)) ==
      -sgn(cmp(b, a)) fails. */
  lemma SourceComparatorNotAntisymmetric()
    ensures exists a: Entry, b: Entry ::
      SourceComparator(a, b) == 1 && SourceComparator(b, a) == 1
  {
    var a, b := Entry("cat", 2), Entry("sat", 2);
    assert SourceComparator(a, b) == 1 && SourceComparator(b, a) == 1;
  }

  predicate StrictlySorted(s: seq<Entry>)
  {
    forall i, j :: 0 <= i < j < |s| ==> Before(s[i], s[j])
  }

  /** s holds exactly the entries of m. */
  ghost predicate EntriesOf(s: seq<Entry>, m: Table)
  {
    forall e :: e in s <==> e.word in m && m[e.word] == e.count
  }

  /** s is the ranking of m: its entries, each once, in the ranking order. */
  ghost predicate IsRanking(s: seq<Entry>, m: Table)
  {
    StrictlySorted(s) && EntriesOf(s, m)
  }

  /** TreeSet.add: insert e at its place in the order, unless it is there. */
  function Insert(s: seq<Entry>, e: Entry): (r: seq<Entry>)
    requires StrictlySorted(s)
    ensures StrictlySorted(r)
    ensures forall x :: x in r <==> x in s || x == e
    ensures e !in s ==> |r| == |s| + 1
    ensures e in s ==> |r| == |s|
  {
    if s == [] then [e]
    else if Before(e, s[0]) then
      forall j | 0 <= j < |s| ensures Before(e, s[j]) {
        if j > 0 { BeforeTransitive(e, s[0], s[j]); }
      }
      BeforeIrreflexive(e);
      assert e !in s;
      [e] + s
    else if e == s[0] then
      assert e in s;
      s
    else
      BeforeTotal(e, s[0]);
      var rest := Insert(s[1..], e);
      assert forall x :: x in rest ==> Before(s[0], x);
      assert e in s ==> e in s[1..];
      [s[0]] + rest
  }

  /** Two sequences sorted by the ranking order with the same elements are
      the same sequence: the ranking does not depend on the order in which
      the entries were inserted. */
  lemma {:induction false} SortedUnique(s: seq<Entry>, t: seq<Entry>)
    requires StrictlySorted(s) && StrictlySorted(t)
    requires forall x :: x in s <==> x in t
    ensures s == t
    decreases |s|
  {
    if s == [] {
      assert forall i :: 0 <= i < |t| ==> t[i] !in s;
    } else {
      assert s[0] in t;
      assert t != [];
      assert t[0] in s;
      assert s[0] == t[0] by {
        var i :| 0 <= i < |s| && s[i] == t[0];
        var j :| 0 <= j < |t| && t[j] == s[0];
        BeforeIrreflexive(s[0]);
        if i > 0 && j > 0 {
          BeforeTransitive(s[0], t[0], s[0]);
        }
      }
      forall x
        ensures x in s[1..] <==> x in t[1..]
      {
        if x in s[1..] {
          var i :| 1 <= i < |s| && s[i] == x;
          assert Before(s[0], x);
          BeforeIrreflexive(x);
          assert x in t;
          var j :| 0 <= j < |t| && t[j] == x;
          assert j != 0;
          assert t[1..][j - 1] == x;
        }
        if x in t[1..] {
          var j :| 1 <= j < |t| && t[j] == x;
          assert Before(t[0], x);
          BeforeIrreflexive(x);
          assert x in s;
          var i :| 0 <= i < |s| && s[i] == x;
          assert i != 0;
          assert s[1..][i - 1] == x;
        }
      }
      SortedUnique(s[1..], t[1..]);
      assert s == [s[0]] + s[1..] && t == [t[0]] + t[1..];
    }
  }

  /** The ranking of a table, as a mathematical object. */
  ghost function Ranking(m: Table): (r: seq<Entry>)
    ensures StrictlySorted(r)
    decreases |m|
  {
    if m == map[] then []
    else
      assert m.Keys != {};
      var k :| k in m;
      var smaller := m - {k};
      assert smaller.Keys == m.Keys - {k};
      Insert(Ranking(smaller), Entry(k, m[k]))
  }

  /** The ranking of m holds exactly the entries of m, one per word. */
  lemma {:induction false} RankingEntries(m: Table)
    ensures IsRanking(Ranking(m), m) && |Ranking(m)| == |m|
    decreases |m|
  {
    if m != map[] {
      var k :| k in m && Ranking(m) == Insert(Ranking(m - {k}), Entry(k, m[k]));
      var smaller := m - {k};
      assert smaller.Keys == m.Keys - {k};
      RankingEntries(smaller);
      var rs, e := Ranking(smaller), Entry(k, m[k]);
      assert e !in rs;
      InsertFresh(rs, e);
      assert |Insert(rs, e)| == |m|;
    }
  }

  /** Inserting an entry not yet present adds exactly that entry. */
  lemma InsertFresh(s: seq<Entry>, e: Entry)
    requires StrictlySorted(s) && e !in s
    ensures |Insert(s, e)| == |s| + 1
    ensures forall x :: x in Insert(s, e) <==> x in s || x == e
  {
  }

  /** `entriesSortedByValues`: the entries of m, visited in whatever order
      the map hands them out, are added one by one to a sorted set. */
  method EntriesSortedByValues(m: Table) returns (entries: seq<Entry>)
    ensures IsRanking(entries, m)
    ensures |entries| == |m|
    ensures entries == Ranking(m)
  {
    entries := [];
    var rest := m.Keys;
    while rest != {}
      invariant rest <= m.Keys
      invariant Collected(entries, m, m.Keys - rest)
      decreases |rest|
    {
      var k :| k in rest;
      CollectOne(entries, m, rest, k);
      entries := Insert(entries, Entry(k, m[k]));
      rest := rest - {k};
    }
    assert m.Keys - rest == m.Keys;
    CollectedAll(entries, m);
  }

  /** s is sorted and holds exactly the entries of m for the words in done. */
  ghost predicate Collected(s: seq<Entry>, m: Table, done: set<string>)
  {
    && StrictlySorted(s)
    && (forall e :: e in s <==> e.word in done && e.word in m && m[e.word] == e.count)
    && |s| == |done|
  }

  /** Once every word is done, the collection is the ranking. */
  lemma CollectedAll(s: seq<Entry>, m: Table)
    requires Collected(s, m, m.Keys)
    ensures IsRanking(s, m) && |s| == |m| && s == Ranking(m)
  {
    RankingEntries(m);
    SortedUnique(s, Ranking(m));
  }

  /** Adding the entry of one more word keeps the collection exact. */
  lemma CollectOne(s: seq<Entry>, m: Table, rest: set<string>, k: string)
    requires rest <= m.Keys && k in rest && Collected(s, m, m.Keys - rest)
    ensures Collected(Insert(s, Entry(k, m[k])), m, m.Keys - (rest - {k}))
  {
    assert m.Keys - (rest - {k}) == (m.Keys - rest) + {k};
    assert Entry(k, m[k]) !in s;
  }

  /** One report line: `entry.getKey() + " " + entry.getValue()`. */
  function FormatLine(e: Entry): string
  {
    e.word + " " + NatToString(e.count)
  }

  function ReportLines(entries: seq<Entry>): seq<string>
  {
    seq(|entries|, i requires 0 <= i < |entries| => FormatLine(entries[i]))
  }

  /** `WordMapToFile`: the lines written for a table, in order. */
  method WordMapToFile(m: Table) returns (lines: seq<string>)
    ensures lines == ReportLines(Ranking(m))
    ensures |lines| == |m|
  {
    var entries := EntriesSortedByValues(m);
    lines := [];
    for i := 0 to |entries|
      invariant lines == ReportLines(entries[..i])
    {
      ReportLinesSnoc(entries, i);
      lines := lines + [FormatLine(entries[i])];
    }
    assert entries[..|entries|] == entries;
  }

  lemma ReportLinesSnoc(entries: seq<Entry>, i: nat)
    requires i < |entries|
    ensures ReportLines(entries[..i + 1]) == ReportLines(entries[..i]) + [FormatLine(entries[i])]
  {
  }

  predicate HasNoSpace(s: string)
  {
    forall i :: 0 <= i < |s| ==> s[i] != ' '
  }

  /** Index of the first space of s, or |s| when there is none. */
  function IndexOfSpace(s: string): (i: nat)
    ensures i <= |s|
    ensures i < |s| ==> s[i] == ' '
    ensures forall j :: 0 <= j < i ==> s[j] != ' '
  {
    if s == [] then 0 else if s[0] == ' ' then 0 else 1 + IndexOfSpace(s[1..])
  }

  /** Reading a report line back: a word, one space, a decimal count. */
  function ParseLine(line: string): Option<Entry>
  {
    var i := IndexOfSpace(line);
    if i < |line| && i + 1 < |line| && IsDigits(line[i + 1..]) then
      Some(Entry(line[..i], ParseNat(line[i + 1..])))
    else
      None
  }

  /** A printed line reads back as the entry it was printed from. */
  lemma ParseFormatLine(e: Entry)
    requires HasNoSpace(e.word)
    ensures ParseLine(FormatLine(e)) == Some(e)
  {
    var line := FormatLine(e);
    var n := |e.word|;
    assert line[n] == ' ';
    assert forall j :: 0 <= j < n ==> line[j] == e.word[j];
    assert IndexOfSpace(line) == n;
    assert line[..n] == e.word;
    assert line[n + 1..] == NatToString(e.count);
    ParseNatToString(e.count);
  }

  /** Every line of the report of m reads back as the entry of the ranking
      it was printed from. */
  lemma ReportReadsBack(m: Table)
    requires forall w :: w in m ==> HasNoSpace(w)
    ensures |Ranking(m)| == |m|
    ensures forall i :: 0 <= i < |Ranking(m)| ==> ParseLine(ReportLines(Ranking(m))[i]) == Some(Ranking(m)[i])
  {
    var r := Ranking(m);
    RankingEntries(m);
    forall i | 0 <= i < |r|
      ensures ParseLine(ReportLines(r)[i]) == Some(r[i])
    {
      assert r[i] in r;
      ParseFormatLine(r[i]);
    }
  }

  /** Each line of the report of m is a word of m and its count. */
  lemma ReportLinesAreEntries(m: Table, lines: seq<string>)
    requires forall w :: w in m ==> HasNoSpace(w)
    requires lines == ReportLines(Ranking(m))
    ensures |lines| == |m|
    ensures forall i :: 0 <= i < |lines| ==>
              ParseLine(lines[i]).Some? && ParseLine(lines[i]).value.word in m
              && m[ParseLine(lines[i]).value.word] == ParseLine(lines[i]).value.count
  {
    var r := Ranking(m);
    RankingEntries(m);
    ReportReadsBack(m);
    forall i | 0 <= i < |lines|
      ensures r[i].word in m && m[r[i].word] == r[i].count
    {
      assert r[i] in r;
    }
  }

  /** Every word of m has its line in the report of m. */
  lemma ReportCoversTable(m: Table, lines: seq<string>)
    requires lines == ReportLines(Ranking(m))
    ensures forall w :: w in m ==> FormatLine(Entry(w, m[w])) in lines
  {
    var r := Ranking(m);
    RankingEntries(m);
    forall w | w in m
      ensures FormatLine(Entry(w, m[w])) in lines
    {
      assert Entry(w, m[w]) in r;
      var i :| 0 <= i < |r| && r[i] == Entry(w, m[w]);
      assert lines[i] == FormatLine(Entry(w, m[w]));
    }
  }

  /** Down the report of m the counts never increase and no word comes
      twice. */
  lemma ReportOrdered(m: Table, lines: seq<string>)
    requires forall w :: w in m ==> HasNoSpace(w)
    requires lines == ReportLines(Ranking(m))
    ensures forall i, j :: 0 <= i < j < |lines| ==>
              ParseLine(lines[i]).Some? && ParseLine(lines[j]).Some?
              && ParseLine(lines[i]).value.count >= ParseLine(lines[j]).value.count
              && ParseLine(lines[i]).value.word != ParseLine(lines[j]).value.word
  {
    var r := Ranking(m);
    RankingEntries(m);
    ReportReadsBack(m);
    forall i, j | 0 <= i < j < |lines|
      ensures r[i].count >= r[j].count && r[i].word != r[j].word
    {
      assert Before(r[i], r[j]);
      if r[i].word == r[j].word {
        assert r[i] in r && r[j] in r;
        BeforeIrreflexive(r[i]);
      }
    }
  }
}
