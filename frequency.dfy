/**
 Word-frequency tables: the `HashMap<String, Integer>` a chunk worker fills
 for its own chunk and the one shared by all workers. A table maps each word
 seen to the number of times it was seen.
 */
module Frequency {

  type Table = map<string, nat>

  /** The count of w, 0 when w was never seen (`containsKey ? get : 0`). */
  function Get(t: Table, w: string): nat
  {
    if w in t then t[w] else 0
  }

  /** `put(w, (containsKey(w) ? get(w) : 0) + 1)`: one more occurrence of
      w; a word not yet in the table enters with count 1, and no other
      entry changes. */
  function Inc(t: Table, w: string): Table
  {
    t[w := Get(t, w) + 1]
  }

  /** What one Inc does to a table. */
  lemma IncEffect(t: Table, w: string)
    ensures Inc(t, w).Keys == t.Keys + {w}
    ensures w in t ==> Inc(t, w)[w] == t[w] + 1
    ensures w !in t ==> Inc(t, w)[w] == 1
    ensures forall k :: k in t && k != w ==> Inc(t, w)[k] == t[k]
  {
  }

  /** Pointwise sum of two tables. */
  function Plus(a: Table, b: Table): (r: Table)
    ensures r.Keys == a.Keys + b.Keys
    ensures forall k :: k in r ==> r[k] == Get(a, k) + Get(b, k)
  {
    map k | k in a.Keys + b.Keys :: Get(a, k) + Get(b, k)
  }

  /** The pointwise sum of a sequence of tables, in order. */
  function PlusAll(ts: seq<Table>): Table
  {
    if ts == [] then map[] else Plus(PlusAll(ts[..|ts| - 1]), ts[|ts| - 1])
  }

  lemma PlusAllSnoc(ts: seq<Table>, t: Table)
    ensures PlusAll(ts + [t]) == Plus(PlusAll(ts), t)
  {
    assert (ts + [t])[..|ts|] == ts;
  }

  /** The table built by counting the tokens ws one after the other into
      an empty table, one Inc per token. */
  function Tally(ws: seq<string>): Table
  {
    if ws == [] then map[] else Inc(Tally(ws[..|ws| - 1]), ws[|ws| - 1])
  }

  /** The table of a token sequence counts each token as often as it
      occurs: the reference meaning of a frequency table. */
  lemma {:induction false} TallyCounts(ws: seq<string>)
    ensures forall w :: Get(Tally(ws), w) == multiset(ws)[w]
    decreases |ws|
  {
    if ws != [] {
      var init, last := ws[..|ws| - 1], ws[|ws| - 1];
      TallyCounts(init);
      assert ws == init + [last];
      assert multiset(ws) == multiset(init) + multiset{last};
    }
  }

  /** The words of the table are the tokens seen, each with a count >= 1. */
  lemma {:induction false} TallyKeys(ws: seq<string>)
    ensures forall w :: w in Tally(ws) <==> w in ws
    ensures forall w :: w in Tally(ws) ==> Tally(ws)[w] >= 1
    decreases |ws|
  {
    if ws != [] {
      var init, last := ws[..|ws| - 1], ws[|ws| - 1];
      TallyKeys(init);
      assert ws == init + [last];
      forall w
        ensures w in ws <==> w in init || w == last
      {
        if w in ws {
          var i :| 0 <= i < |ws| && ws[i] == w;
          if i < |init| {
            assert init[i] == w;
          }
        }
      }
    }
  }

  /** The sum of all counts in a table. */
  ghost function Total(t: Table): nat
    decreases |t|
  {
    if t == map[] then 0
    else
      assert t.Keys != {};
      var k :| k in t;
      t[k] + Total(t - {k})
  }

  lemma {:induction false} TotalRemove(t: Table, k: string)
    requires k in t
    ensures Total(t) == t[k] + Total(t - {k})
    decreases |t|
  {
    var k' :| k' in t && Total(t) == t[k'] + Total(t - {k'});
    if k' != k {
      var both := t - {k} - {k'};
      assert |t - {k'}| < |t| by {
        assert (t - {k'}).Keys == t.Keys - {k'};
      }
      assert |t - {k}| < |t| by {
        assert (t - {k}).Keys == t.Keys - {k};
      }
      TotalRemove(t - {k'}, k);
      TotalRemove(t - {k}, k');
      assert t - {k'} - {k} == both;
    }
  }

  /** One increment adds exactly one to the total. */
  lemma {:induction false} TotalInc(t: Table, w: string)
    ensures Total(Inc(t, w)) == Total(t) + 1
  {
    var r := Inc(t, w);
    TotalRemove(r, w);
    if w in t {
      TotalRemove(t, w);
      assert r - {w} == t - {w};
    } else {
      assert r - {w} == t;
    }
  }

  /** Counting one more token is one call of Inc. */
  lemma TallySnoc(ws: seq<string>, w: string)
    ensures Tally(ws + [w]) == Inc(Tally(ws), w)
  {
    assert (ws + [w])[..|ws|] == ws;
  }

  /** Count conservation: the counts of the table of a token sequence add
      up to its length. */
  lemma {:induction false} TotalTally(ws: seq<string>)
    ensures Total(Tally(ws)) == |ws|
    decreases |ws|
  {
    if ws == [] {
      assert Tally(ws) == map[];
    } else {
      var init := ws[..|ws| - 1];
      assert ws == init + [ws[|ws| - 1]];
      TotalTally(init);
      TallySnoc(init, ws[|ws| - 1]);
      TotalInc(Tally(init), ws[|ws| - 1]);
    }
  }

  /** Tables of consecutive token sequences add up pointwise. */
  lemma {:induction false} TallyAppend(a: seq<string>, b: seq<string>)
    ensures Tally(a + b) == Plus(Tally(a), Tally(b))
    decreases |b|
  {
    if b == [] {
      assert a + b == a;
      PlusEmptyRight(Tally(a));
    } else {
      var init, last := b[..|b| - 1], b[|b| - 1];
      TallyAppend(a, init);
      assert a + b == (a + init) + [last];
      TallySnoc(a + init, last);
      PlusInc(Tally(a), Tally(init), last);
    }
  }

  lemma PlusEmptyRight(t: Table)
    ensures Plus(t, map[]) == t
  {
  }

  lemma PlusEmpty(t: Table)
    ensures Plus(map[], t) == t
  {
  }

  /** The order in which tables are summed does not matter. */
  lemma PlusCommutes(a: Table, b: Table)
    ensures Plus(a, b) == Plus(b, a)
  {
  }

  lemma PlusAssociates(a: Table, b: Table, c: Table)
    ensures Plus(Plus(a, b), c) == Plus(a, Plus(b, c))
  {
    var l := Plus(Plus(a, b), c);
    var r := Plus(a, Plus(b, c));
    assert l.Keys == r.Keys;
    forall k | k in l
      ensures l[k] == r[k]
    {
    }
  }

  /** Incrementing a sum increments the summand. */
  lemma {:induction false} PlusInc(m: Table, t: Table, w: string)
    ensures Plus(m, Inc(t, w)) == Inc(Plus(m, t), w)
  {
    var l := Plus(m, Inc(t, w));
    var r := Inc(Plus(m, t), w);
    assert l.Keys == r.Keys;
    forall k | k in l
      ensures l[k] == r[k]
    {
    }
  }

  /** A table that starts at m and then sees the tokens ws, one Inc each,
      is m plus the table of ws. */
  lemma {:induction false} AddToken(m: Table, ws: seq<string>, w: string)
    ensures Inc(Plus(m, Tally(ws)), w) == Plus(m, Tally(ws + [w]))
  {
    TallySnoc(ws, w);
    PlusInc(m, Tally(ws), w);
  }

  /** A table that is m plus the table of ws, and then absorbs the table of
      vs, is m plus the table of `ws + vs`. */
  lemma {:induction false} AddTokens(m: Table, ws: seq<string>, vs: seq<string>)
    ensures Plus(Plus(m, Tally(ws)), Tally(vs)) == Plus(m, Tally(ws + vs))
  {
    PlusAssociates(m, Tally(ws), Tally(vs));
    TallyAppend(ws, vs);
  }

  /** Two increments of the shared table, in either order, leave the same
      table: workers' single `put`s may interleave in any order. */
  lemma IncCommutes(t: Table, a: string, b: string)
    ensures Inc(Inc(t, a), b) == Inc(Inc(t, b), a)
  {
    if a != b {
      var l, r := Inc(Inc(t, a), b), Inc(Inc(t, b), a);
      assert l.Keys == r.Keys;
      forall k | k in l
        ensures l[k] == r[k]
      {
      }
    }
  }

  /** The table of a token sequence depends only on which tokens occur how
      often: any interleaving of the workers' increments in which none is
      lost, being a rearrangement of all tokens, yields the same table. */
  lemma TallyPermutation(ws: seq<string>, vs: seq<string>)
    requires multiset(ws) == multiset(vs)
    ensures Tally(ws) == Tally(vs)
  {
    TallyCounts(ws);
    TallyCounts(vs);
    TallyKeys(ws);
    TallyKeys(vs);
    forall w
      ensures w in ws <==> w in vs
    {
      assert w in ws <==> w in multiset(ws);
      assert w in vs <==> w in multiset(vs);
    }
    var l, r := Tally(ws), Tally(vs);
    assert l.Keys == r.Keys;
    forall k | k in l
      ensures l[k] == r[k]
    {
      assert Get(l, k) == Get(r, k);
    }
  }

  /** Taking table j out of the sum and adding it last changes nothing. */
  lemma {:induction false} PlusAllRemove(ts: seq<Table>, j: nat)
    requires j < |ts|
    ensures PlusAll(ts) == Plus(PlusAll(ts[..j] + ts[j + 1..]), ts[j])
    decreases |ts|
  {
    var init, last := ts[..|ts| - 1], ts[|ts| - 1];
    if j == |ts| - 1 {
      assert ts[..j] + ts[j + 1..] == init;
    } else {
      PlusAllRemove(init, j);
      var rest := init[..j] + init[j + 1..];
      assert ts[..j] + ts[j + 1..] == rest + [last];
      PlusAllSnoc(rest, last);
      var p := PlusAll(rest);
      PlusAssociates(p, ts[j], last);
      PlusCommutes(ts[j], last);
      PlusAssociates(p, last, ts[j]);
    }
  }

  lemma MultisetCancel(a: multiset<Table>, b: multiset<Table>, x: Table)
    requires a + multiset{x} == b + multiset{x}
    ensures a == b
  {
    assert a == (a + multiset{x}) - multiset{x};
    assert b == (b + multiset{x}) - multiset{x};
  }

  /** However the chunk tables are ordered, they sum to the same table: the
      order in which workers complete does not matter. */
  lemma {:induction false} PlusAllPermutation(ts: seq<Table>, us: seq<Table>)
    requires multiset(ts) == multiset(us)
    ensures PlusAll(ts) == PlusAll(us)
    decreases |ts|
  {
    if ts == [] {
      assert |us| == |multiset(us)| == 0;
    } else {
      var init, last := ts[..|ts| - 1], ts[|ts| - 1];
      assert ts == init + [last];
      assert last in multiset(us);
      var j :| 0 <= j < |us| && us[j] == last;
      var rest := us[..j] + us[j + 1..];
      assert multiset(us) == multiset(rest) + multiset{last} by {
        assert us == us[..j] + [us[j]] + us[j + 1..];
      }
      assert multiset(ts) == multiset(init) + multiset{last};
      MultisetCancel(multiset(rest), multiset(init), last);
      PlusAllPermutation(init, rest);
      PlusAllRemove(us, j);
    }
  }

  /** A `HashMap<String, Integer>` used as a frequency table. */
  class WordTable {
    var counts: Table

    constructor ()
      ensures counts == map[]
    {
      counts := map[];
    }

    /** Record one occurrence of word. */
    method Add(word: string)
      modifies this
      ensures counts == Inc(old(counts), word)
    {
      var n := if word in counts then counts[word] else 0;
      counts := counts[word := n + 1];
    }
  }
}
