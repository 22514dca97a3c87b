/**
 The tokenizer of a chunk worker: a line that has already been lowered is
 split on every maximal run of characters outside `a`..`z`
 (`String.split("[^a-z]+")`), and the empty pieces that split leaves are
 dropped. What remains are the words that get counted.
 */
module Tokenizer {

  predicate IsLetter(c: char) { 'a' <= c <= 'z' }

  predicate AllLetters(s: string) { forall i :: 0 <= i < |s| ==> IsLetter(s[i]) }

  /** A word as the counter sees it: a non-empty run of `a`..`z`. */
  predicate IsWord(s: string) { |s| > 0 && AllLetters(s) }

  predicate EndsWithSeparator(s: string) { |s| > 0 && !IsLetter(s[|s| - 1]) }

  /** The line with every character outside `a`..`z` removed. */
  function Letters(s: string): string
  {
    if s == [] then [] else (if IsLetter(s[0]) then [s[0]] else []) + Letters(s[1..])
  }

  function Concat(ws: seq<string>): string
  {
    if ws == [] then [] else ws[0] + Concat(ws[1..])
  }

  /** The length of the separator run at the front of s. */
  function SeparatorRun(s: string): (n: nat)
    ensures n <= |s|
    ensures forall i :: 0 <= i < n ==> !IsLetter(s[i])
    ensures n < |s| ==> IsLetter(s[n])
  {
    if s == [] || IsLetter(s[0]) then 0 else 1 + SeparatorRun(s[1..])
  }

  /** What is left of s once the separator run at its front is consumed. */
  function SkipSeparators(s: string): string
  {
    s[SeparatorRun(s)..]
  }

  /** Skipping separators loses no letter. */
  lemma {:induction false} SkipKeepsLetters(s: string)
    ensures Letters(SkipSeparators(s)) == Letters(s)
  {
    if s != [] && !IsLetter(s[0]) {
      SkipKeepsLetters(s[1..]);
      assert SkipSeparators(s) == SkipSeparators(s[1..]);
    }
  }

  /** The pieces between the maximal separator runs of s, empty ones
      included (what `split` returns before trailing empty pieces are
      discarded). */
  function Pieces(s: string): (ps: seq<string>)
    ensures |ps| >= 1
    decreases |s|
  {
    if s == [] then [""]
    else if IsLetter(s[0]) then
      var rest := Pieces(s[1..]);
      [[s[0]] + rest[0]] + rest[1..]
    else
      [""] + Pieces(SkipSeparators(s))
  }

  /** No piece holds a separator. */
  lemma {:induction false} PiecesAreLetters(s: string)
    ensures forall i :: 0 <= i < |Pieces(s)| ==> AllLetters(Pieces(s)[i])
    decreases |s|
  {
    if s != [] {
      if IsLetter(s[0]) {
        PiecesAreLetters(s[1..]);
      } else {
        PiecesAreLetters(SkipSeparators(s));
      }
    }
  }

  /** Joined back together, the pieces are the letters of s. */
  lemma {:induction false} PiecesConcat(s: string)
    ensures Concat(Pieces(s)) == Letters(s)
    decreases |s|
  {
    if s != [] {
      if IsLetter(s[0]) {
        var rest := Pieces(s[1..]);
        PiecesConcat(s[1..]);
        assert Concat(rest) == rest[0] + Concat(rest[1..]);
      } else {
        PiecesConcat(SkipSeparators(s));
        SkipKeepsLetters(s);
      }
    }
  }

  function DropTrailingEmpty(ps: seq<string>): (r: seq<string>)
    ensures |r| <= |ps| && r == ps[..|r|]
    ensures r == [] || r[|r| - 1] != ""
    ensures forall i :: |r| <= i < |ps| ==> ps[i] == ""
  {
    if ps != [] && ps[|ps| - 1] == "" then DropTrailingEmpty(ps[..|ps| - 1]) else ps
  }

  /** `line.split("[^a-z]+")`: an input with no separator comes back whole
      (so "" gives [""]), and trailing empty pieces are discarded. A leading
      separator run yields a leading empty piece. */
  function Split(s: string): (ps: seq<string>)
  {
    if s == [] then [""] else DropTrailingEmpty(Pieces(s))
  }

  /** The `word.length() != 0` filter of the worker loop. */
  function NonEmpty(ps: seq<string>): (ws: seq<string>)
  {
    if ps == [] then [] else (if ps[0] == "" then [] else [ps[0]]) + NonEmpty(ps[1..])
  }

  /** The words a worker counts for one line. */
  function Tokens(s: string): seq<string>
  {
    NonEmpty(Split(s))
  }

  /** The filter keeps some of the pieces and never an empty one. */
  lemma {:induction false} NonEmptyKeeps(ps: seq<string>)
    ensures forall w :: w in NonEmpty(ps) ==> w in ps && w != ""
  {
    if ps != [] {
      NonEmptyKeeps(ps[1..]);
    }
  }

  lemma {:induction false} NonEmptyAppend(a: seq<string>, b: seq<string>)
    ensures NonEmpty(a + b) == NonEmpty(a) + NonEmpty(b)
  {
    if a != [] {
      assert (a + b)[0] == a[0];
      assert (a + b)[1..] == a[1..] + b;
      NonEmptyAppend(a[1..], b);
    } else {
      assert a + b == b;
    }
  }

  lemma {:induction false} NonEmptyDropTrailing(ps: seq<string>)
    ensures NonEmpty(DropTrailingEmpty(ps)) == NonEmpty(ps)
  {
    if ps != [] && ps[|ps| - 1] == "" {
      var init := ps[..|ps| - 1];
      NonEmptyDropTrailing(init);
      assert ps == init + [""];
      NonEmptyAppend(init, [""]);
    }
  }

  lemma {:induction false} ConcatAppend(a: seq<string>, b: seq<string>)
    ensures Concat(a + b) == Concat(a) + Concat(b)
  {
    if a != [] {
      assert (a + b)[0] == a[0];
      assert (a + b)[1..] == a[1..] + b;
      ConcatAppend(a[1..], b);
    } else {
      assert a + b == b;
    }
  }

  lemma {:induction false} ConcatNonEmpty(ps: seq<string>)
    ensures Concat(NonEmpty(ps)) == Concat(ps)
  {
    if ps != [] {
      ConcatNonEmpty(ps[1..]);
      ConcatAppend(if ps[0] == "" then [] else [ps[0]], NonEmpty(ps[1..]));
    }
  }

  /** Filtering the empty pieces of `split` is the same as filtering the
      empty pieces between all separator runs. */
  lemma {:induction false} TokensByPieces(s: string)
    ensures Tokens(s) == NonEmpty(Pieces(s))
  {
    if s != [] {
      NonEmptyDropTrailing(Pieces(s));
    }
  }

  /** Every counted token is a non-empty run of `a`..`z`. */
  lemma {:induction false} TokensAreWords(s: string)
    ensures forall w :: w in Tokens(s) ==> IsWord(w)
  {
    TokensByPieces(s);
    PiecesAreLetters(s);
    NonEmptyKeeps(Pieces(s));
    forall w | w in Tokens(s)
      ensures IsWord(w)
    {
      var i :| 0 <= i < |Pieces(s)| && Pieces(s)[i] == w;
    }
  }

  /** Joining the tokens of a line gives back exactly its letters. */
  lemma {:induction false} TokensConcat(s: string)
    ensures Concat(Tokens(s)) == Letters(s)
  {
    TokensByPieces(s);
    ConcatNonEmpty(Pieces(s));
    PiecesConcat(s);
  }

  lemma {:induction false} PiecesOfLetters(w: string)
    requires AllLetters(w) && w != []
    ensures Pieces(w) == [w]
    decreases |w|
  {
    assert w == [w[0]] + w[1..];
    if |w| > 1 {
      PiecesOfLetters(w[1..]);
    }
  }

  /** A word on its own is a single token: tokens are never cut short. */
  lemma {:induction false} TokensOfWord(w: string)
    requires IsWord(w)
    ensures Tokens(w) == [w]
  {
    PiecesOfLetters(w);
    assert Split(w) == [w];
    assert NonEmpty([w]) == [w] + NonEmpty([]);
  }

  /** A trailing separator always leaves an empty last piece. */
  lemma {:induction false} PiecesTrailing(s: string)
    requires EndsWithSeparator(s)
    ensures |Pieces(s)| >= 2 && Pieces(s)[|Pieces(s)| - 1] == ""
    decreases |s|
  {
    if IsLetter(s[0]) {
      PiecesTrailing(s[1..]);
    } else {
      var r := SkipSeparators(s);
      if r != [] {
        assert r[|r| - 1] == s[|s| - 1];
        PiecesTrailing(r);
      } else {
        assert Pieces(s) == [""] + Pieces([]);
      }
    }
  }

  lemma {:induction false} SeparatorRunAppend(u: string, v: string)
    ensures SeparatorRun(u + v) ==
              if SeparatorRun(u) == |u| then |u| + SeparatorRun(v) else SeparatorRun(u)
  {
    if u == [] {
      assert u + v == v;
    } else if IsLetter(u[0]) {
      assert (u + v)[0] == u[0];
    } else {
      assert (u + v)[0] == u[0];
      assert (u + v)[1..] == u[1..] + v;
      SeparatorRunAppend(u[1..], v);
    }
  }

  /** Concatenation regrouped, stated once so that proofs about pieces and
      chunks can name the step instead of unfolding both sides. */
  lemma AppendAssociates<T>(a: seq<T>, b: seq<T>, c: seq<T>)
    ensures (a + b) + c == a + (b + c)
  {
  }

  function DropLast(ps: seq<string>): seq<string>
    requires ps != []
  {
    ps[..|ps| - 1]
  }

  lemma {:induction false} PiecesLetterFirst(x: char, rest: string)
    requires IsLetter(x)
    ensures Pieces([x] + rest) == [[x] + Pieces(rest)[0]] + Pieces(rest)[1..]
  {
    assert ([x] + rest)[0] == x;
    assert ([x] + rest)[1..] == rest;
  }

  lemma {:induction false} PiecesSeparatorFirst(s: string)
    requires s != [] && !IsLetter(s[0])
    ensures Pieces(s) == [""] + Pieces(SkipSeparators(s))
  {
  }

  /** The part of the pieces of s that survives when a separator follows s. */
  function PiecesBefore(s: string): seq<string>
  {
    if EndsWithSeparator(s) then DropLast(Pieces(s)) else Pieces(s)
  }

  /** How the pieces of a line relate to the pieces on either side of one of
      its separators. */
  lemma {:induction false} PiecesAtSeparator(s: string, c: char, t: string)
    requires !IsLetter(c)
    ensures Pieces(s + [c] + t) == PiecesBefore(s) + Pieces(SkipSeparators(t))
    decreases |s|, 2
  {
    if s == [] {
      assert s + [c] + t == [c] + t;
      assert ([c] + t)[1..] == t;
      assert SeparatorRun([c] + t) == 1 + SeparatorRun(t);
      assert SkipSeparators([c] + t) == SkipSeparators(t);
      PiecesSeparatorFirst([c] + t);
    } else if IsLetter(s[0]) {
      PiecesAtSeparatorLetter(s, c, t);
    } else {
      PiecesAtSeparatorRun(s, c, t);
    }
  }

  lemma {:induction false} PiecesAtSeparatorLetter(s: string, c: char, t: string)
    requires !IsLetter(c) && s != [] && IsLetter(s[0])
    ensures Pieces(s + [c] + t) == PiecesBefore(s) + Pieces(SkipSeparators(t))
    decreases |s|, 1
  {
    var x, s' := s[0], s[1..];
    var tail := Pieces(SkipSeparators(t));
    assert s + [c] + t == [x] + (s' + [c] + t);
    assert s == [x] + s';
    PiecesLetterFirst(x, s' + [c] + t);
    PiecesLetterFirst(x, s');
    PiecesAtSeparator(s', c, t);
    var q := Pieces(s');
    var r := Pieces(s' + [c] + t);
    if s' == [] {
      assert !EndsWithSeparator(s);
      GlueAppend(x, q, tail);
    } else {
      assert EndsWithSeparator(s) == EndsWithSeparator(s');
      if EndsWithSeparator(s') {
        PiecesTrailing(s');
        GlueAppend(x, DropLast(q), tail);
        GlueDropLast(x, q);
      } else {
        GlueAppend(x, q, tail);
      }
    }
  }

  /** Gluing a letter onto the first piece commutes with appending pieces. */
  lemma GlueAppend(x: char, ps: seq<string>, tail: seq<string>)
    requires ps != []
    ensures [[x] + (ps + tail)[0]] + (ps + tail)[1..] == ([[x] + ps[0]] + ps[1..]) + tail
  {
    assert (ps + tail)[1..] == ps[1..] + tail;
  }

  lemma GlueDropLast(x: char, ps: seq<string>)
    requires |ps| >= 2
    ensures DropLast([[x] + ps[0]] + ps[1..]) == [[x] + DropLast(ps)[0]] + DropLast(ps)[1..]
  {
  }


  lemma {:induction false} PiecesAtSeparatorRun(s: string, c: char, t: string)
    requires !IsLetter(c) && s != [] && !IsLetter(s[0])
    ensures Pieces(s + [c] + t) == PiecesBefore(s) + Pieces(SkipSeparators(t))
    decreases |s|, 1
  {
    SeparatorRunSetup(s, c, t);
    if SeparatorRun(s) == |s| {
      PiecesAtSeparatorRunAll(s, c, t);
    } else {
      PiecesAtSeparatorRunSome(s, c, t);
    }
  }

  /** Both s and `s c t` start with a separator, and the separator run of
      `s c t` reaches past c exactly when s is all separators. */
  lemma SeparatorRunSetup(s: string, c: char, t: string)
    requires !IsLetter(c) && s != [] && !IsLetter(s[0])
    ensures Pieces(s + [c] + t) == [""] + Pieces(SkipSeparators(s + [c] + t))
    ensures Pieces(s) == [""] + Pieces(SkipSeparators(s))
    ensures SeparatorRun(s + [c] + t)
         == if SeparatorRun(s) == |s| then |s| + 1 + SeparatorRun(t) else SeparatorRun(s)
  {
    var u := s + [c] + t;
    assert u[0] == s[0];
    PiecesSeparatorFirst(u);
    PiecesSeparatorFirst(s);
    SeparatorRunAppend(s, [c] + t);
    assert u == s + ([c] + t);
    assert ([c] + t)[1..] == t;
    assert SeparatorRun([c] + t) == 1 + SeparatorRun(t);
  }

  /** s is one separator run. */
  lemma PiecesAtSeparatorRunAll(s: string, c: char, t: string)
    requires !IsLetter(c) && s != [] && !IsLetter(s[0]) && SeparatorRun(s) == |s|
    requires SeparatorRun(s + [c] + t) == |s| + 1 + SeparatorRun(t)
    requires Pieces(s + [c] + t) == [""] + Pieces(SkipSeparators(s + [c] + t))
    requires Pieces(s) == [""] + Pieces(SkipSeparators(s))
    ensures Pieces(s + [c] + t) == PiecesBefore(s) + Pieces(SkipSeparators(t))
  {
    var u := s + [c] + t;
    assert u[|s| + 1..] == t;
    assert SkipSeparators(u) == SkipSeparators(t);
    assert EndsWithSeparator(s);
    assert SkipSeparators(s) == [];
    assert Pieces(s) == [""] + [""];
  }

  /** s starts with a separator run and continues with a letter. */
  lemma {:induction false} PiecesAtSeparatorRunSome(s: string, c: char, t: string)
    requires !IsLetter(c) && s != [] && !IsLetter(s[0]) && SeparatorRun(s) < |s|
    requires SeparatorRun(s + [c] + t) == SeparatorRun(s)
    requires Pieces(s + [c] + t) == [""] + Pieces(SkipSeparators(s + [c] + t))
    requires Pieces(s) == [""] + Pieces(SkipSeparators(s))
    ensures Pieces(s + [c] + t) == PiecesBefore(s) + Pieces(SkipSeparators(t))
    decreases |s|, 0
  {
    var u := s + [c] + t;
    var tail := Pieces(SkipSeparators(t));
    var n := SeparatorRun(s);
    var r := s[n..];
    assert u[n..] == r + [c] + t;
    PiecesAtSeparator(r, c, t);
    var before := PiecesBefore(r);
    assert Pieces(u) == [""] + (before + tail);
    PiecesBeforeSkip(s);
    AppendAssociates([""], before, tail);
  }

  /** Dropping the separator run at the front of s drops the leading empty
      piece, whether or not s ends with a separator. */
  lemma PiecesBeforeSkip(s: string)
    requires s != [] && !IsLetter(s[0]) && SeparatorRun(s) < |s|
    requires Pieces(s) == [""] + Pieces(SkipSeparators(s))
    ensures PiecesBefore(s) == [""] + PiecesBefore(SkipSeparators(s))
  {
    var r := SkipSeparators(s);
    assert r[|r| - 1] == s[|s| - 1];
    assert EndsWithSeparator(s) == EndsWithSeparator(r);
    if EndsWithSeparator(r) {
      PiecesTrailing(r);
      assert DropLast([""] + Pieces(r)) == [""] + DropLast(Pieces(r));
    }
  }



  lemma {:induction false} NonEmptySkip(t: string)
    ensures NonEmpty(Pieces(SkipSeparators(t))) == NonEmpty(Pieces(t))
  {
    if t != [] && !IsLetter(t[0]) {
      PiecesSeparatorFirst(t);
    }
  }

  /** A separator splits: the tokens of `s c t` are those of s followed by
      those of t. With TokensOfWord and `Tokens("") == []` this pins the
      tokens down as the maximal runs of letters. */
  lemma {:induction false} TokensAtSeparator(s: string, c: char, t: string)
    requires !IsLetter(c)
    ensures Tokens(s + [c] + t) == Tokens(s) + Tokens(t)
  {
    var front := PiecesBefore(s);
    var tail := Pieces(SkipSeparators(t));
    assert NonEmpty(Pieces(s + [c] + t)) == NonEmpty(front) + NonEmpty(tail) by {
      PiecesAtSeparator(s, c, t);
      NonEmptyAppend(front, tail);
    }
    assert NonEmpty(tail) == NonEmpty(Pieces(t)) by {
      NonEmptySkip(t);
    }
    assert NonEmpty(front) == NonEmpty(Pieces(s)) by {
      if EndsWithSeparator(s) {
        PiecesTrailing(s);
        assert Pieces(s) == front + [""];
        NonEmptyAppend(front, [""]);
        assert NonEmpty([""]) == [];
      }
    }
    TokensByPieces(s + [c] + t);
    TokensByPieces(s);
    TokensByPieces(t);
  }
}
