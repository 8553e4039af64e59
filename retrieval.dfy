/** Product search and ranking (buscarProductos): the query is cut into
    lower-case tokens, every catalog product is scored by how many tokens
    occur in its description or family, and the best five matches are
    returned, highest score first. */
module Retrieval {
  import opened Strings

  /** A catalog record: CODIGO, DETALLE, FAMILIA, the sale price (assumed
      to be under the flat key "P.VENTA") and STOCK. */
  datatype Product = Product(
    code: string,
    detail: string,
    family: string,
    salePrice: string,
    stock: string)

  /** A product with the score the search gave it ({...p, score}). */
  datatype Scored = Scored(product: Product, score: nat)

  /** At most this many products come back from a search. */
  const MaxResults := 5

  // -------------------------------------------------------------- tokens

  /** The words longer than two UTF-16 code units, in order and with
      repetitions (filter(p => p.length > 2)). */
  function LongWords(words: seq<string>): (r: seq<string>)
    ensures |r| <= |words|
    ensures forall i :: 0 <= i < |r| ==> Utf16Length(r[i]) > 2 && r[i] in words
    ensures forall i :: 0 <= i < |words| && Utf16Length(words[i]) > 2 ==> words[i] in r
  {
    if words == [] then []
    else (if Utf16Length(words[0]) > 2 then [words[0]] else []) + LongWords(words[1..])
  }

  /** The search tokens of a query: lower-cased, split on single spaces,
      short words dropped. */
  function Tokens(query: string): (r: seq<string>)
    ensures forall i :: 0 <= i < |r| ==> Utf16Length(r[i]) > 2 && ' ' !in r[i] && IsLowerCase(r[i])
  {
    var words := Split(Lower(query), ' ');
    LowerIsLowerCase(query);
    WordsOfLowerAreLower(Lower(query));
    LongWords(words)
  }

  /** The filter keeps the order of the words: on two lists in turn it
      keeps the long words of the first, then those of the second. */
  lemma {:induction false} LongWordsAppend(a: seq<string>, b: seq<string>)
    ensures LongWords(a + b) == LongWords(a) + LongWords(b)
  {
    if a == [] {
      assert a + b == b;
    } else {
      assert (a + b)[0] == a[0];
      assert (a + b)[1..] == a[1..] + b;
      LongWordsAppend(a[1..], b);
    }
  }

  /** Nothing is de-duplicated: a long word occurs among the kept words as
      often as among the input words, and a short word not at all. */
  lemma {:induction false} LongWordsCount(words: seq<string>, w: string)
    ensures multiset(LongWords(words))[w] == if Utf16Length(w) > 2 then multiset(words)[w] else 0
  {
    if words != [] {
      var head := if Utf16Length(words[0]) > 2 then [words[0]] else [];
      LongWordsCount(words[1..], w);
      assert words == [words[0]] + words[1..];
      assert multiset(words)[w] == multiset([words[0]])[w] + multiset(words[1..])[w];
      assert multiset(LongWords(words))[w] == multiset(head)[w] + multiset(LongWords(words[1..]))[w];
    }
  }

  /** The tokens of a query written as words separated by single spaces
      are the long words among the lower-cased words, in order and with
      their repetitions. */
  lemma {:induction false} TokensOfWords(ws: seq<string>)
    requires |ws| >= 1 && forall i :: 0 <= i < |ws| ==> ' ' !in ws[i]
    ensures Tokens(Join(ws, ' ')) == LongWords(seq(|ws|, i requires 0 <= i < |ws| => Lower(ws[i])))
  {
    var q := Join(ws, ' ');
    SplitJoin(ws, ' ');
    SplitLower(q);
    var lws := seq(|ws|, i requires 0 <= i < |ws| => Lower(ws[i]));
    assert Split(Lower(q), ' ') == lws;
    assert Tokens(q) == LongWords(Split(Lower(q), ' '));
  }

  /** A word typed twice is two tokens: the query "mouse mouse" scores a
      product once for each. */
  lemma {:induction false} TokensOfRepeatedWord(w: string)
    requires ' ' !in w && Utf16Length(w) > 2
    ensures Tokens(w + " " + w) == [Lower(w), Lower(w)]
  {
    var ws := [w, w];
    assert Join(ws, ' ') == w + " " + w by {
      assert Join(ws[1..], ' ') == w;
    }
    TokensOfWords(ws);
    Utf16LengthLower(w);
    var lws := seq(|ws|, i requires 0 <= i < |ws| => Lower(ws[i]));
    assert lws == [Lower(w)] + [Lower(w)];
    LongWordsAppend([Lower(w)], [Lower(w)]);
  }

  /** A single word is one token, lower-cased, when it is longer than two
      code units, and no token otherwise. */
  lemma {:induction false} TokensOfWord(w: string)
    requires ' ' !in w
    ensures Tokens(w) == if Utf16Length(w) > 2 then [Lower(w)] else []
  {
    assert forall i :: 0 <= i < |w| ==> Lower(w)[i] != ' ';
    SplitWord(Lower(w), ' ');
    Utf16LengthLower(w);
  }

  // ------------------------------------------------------------- scoring

  /** A token matches a product when it occurs in the lower-cased DETALLE
      or the lower-cased FAMILIA. */
  predicate Matches(p: Product, token: string) {
    Contains(Lower(p.detail), token) || Contains(Lower(p.family), token)
  }

  /** A token matches exactly when it occurs at some position of the
      lower-cased DETALLE or of the lower-cased FAMILIA. */
  lemma MatchesAt(p: Product, token: string)
    ensures Matches(p, token) <==>
      (exists i :: OccursAt(Lower(p.detail), token, i)) || (exists i :: OccursAt(Lower(p.family), token, i))
  {
    ContainsIff(Lower(p.detail), token);
    ContainsIff(Lower(p.family), token);
  }

  /** A token holding an upper-case letter never matches: the texts it is
      looked up in are lower-cased first. */
  lemma UpperTokenNeverMatches(p: Product, token: string, j: nat)
    requires j < |token| && IsUpper(token[j])
    ensures !Matches(p, token)
  {
    MatchesAt(p, token);
    forall i ensures !OccursAt(Lower(p.detail), token, i) && !OccursAt(Lower(p.family), token, i) {
      UpperNotInLower(p.detail, token, j, i);
      UpperNotInLower(p.family, token, j, i);
    }
  }

  lemma UpperNotInLower(s: string, token: string, j: nat, i: int)
    requires j < |token| && IsUpper(token[j])
    ensures !OccursAt(Lower(s), token, i)
  {
    if 0 <= i && i + |token| <= |s| {
      assert Lower(s)[i..i + |token|][j] == Lower(s)[i + j];
      assert !IsUpper(Lower(s)[i + j]);
    }
  }

  /** The number of tokens, counted with repetition, that match p. */
  function Score(p: Product, tokens: seq<string>): (n: nat)
    ensures n <= |tokens|
  {
    if tokens == [] then 0
    else (if Matches(p, tokens[0]) then 1 else 0) + Score(p, tokens[1..])
  }

  /** The score adds up over the tokens: each occurrence of a matching
      token counts once more, so nothing is de-duplicated. */
  lemma {:induction false} ScoreAppend(p: Product, a: seq<string>, b: seq<string>)
    ensures Score(p, a + b) == Score(p, a) + Score(p, b)
  {
    if a != [] {
      assert (a + b)[0] == a[0];
      assert (a + b)[1..] == a[1..] + b;
      ScoreAppend(p, a[1..], b);
    } else {
      assert a + b == b;
    }
  }

  lemma ScoreSingle(p: Product, t: string)
    ensures Score(p, [t]) == if Matches(p, t) then 1 else 0
  {
    assert [t][1..] == [];
  }

  /** A product scores zero exactly when no token matches it, and the
      full token count exactly when every token does. */
  lemma {:induction false} ScoreExtremes(p: Product, tokens: seq<string>)
    ensures Score(p, tokens) == 0 <==> forall i :: 0 <= i < |tokens| ==> !Matches(p, tokens[i])
    ensures Score(p, tokens) == |tokens| <==> forall i :: 0 <= i < |tokens| ==> Matches(p, tokens[i])
  {
    if tokens != [] {
      ScoreExtremes(p, tokens[1..]);
      assert forall i :: 1 <= i < |tokens| ==> tokens[i] == tokens[1..][i - 1];
    }
  }

  /** Every listed product that some token matches, with its score, in
      listing order (the map and the filter of score > 0). */
  function Candidates(tokens: seq<string>, listing: seq<Product>): (r: seq<Scored>)
    ensures forall i :: 0 <= i < |r| ==> r[i].score > 0 && r[i].score == Score(r[i].product, tokens)
  {
    if listing == [] then []
    else
      var p := listing[0];
      var s := Score(p, tokens);
      if s > 0 then [Scored(p, s)] + Candidates(tokens, listing[1..]) else Candidates(tokens, listing[1..])
  }

  /** Every candidate is a listed product. */
  lemma {:induction false} CandidatesFromListing(tokens: seq<string>, listing: seq<Product>)
    ensures forall i :: 0 <= i < |Candidates(tokens, listing)| ==> Candidates(tokens, listing)[i].product in listing
  {
    if listing != [] {
      CandidatesFromListing(tokens, listing[1..]);
    }
  }

  /** No matching product is missed: every listed product with a positive
      score is among the candidates, with that score. */
  lemma {:induction false} CandidatesComplete(tokens: seq<string>, listing: seq<Product>, p: Product)
    requires p in listing && Score(p, tokens) > 0
    ensures Scored(p, Score(p, tokens)) in Candidates(tokens, listing)
  {
    if listing[0] != p {
      CandidatesComplete(tokens, listing[1..], p);
    }
  }

  /** Candidates keep the listing's order: the candidates of a listing made
      of two parts are those of the first part, then those of the second. */
  lemma {:induction false} CandidatesAppend(tokens: seq<string>, a: seq<Product>, b: seq<Product>)
    ensures Candidates(tokens, a + b) == Candidates(tokens, a) + Candidates(tokens, b)
  {
    if a != [] {
      var p, rest := a[0], a[1..];
      AppendTail(a, b);
      var s := Score(p, tokens);
      var head := if s > 0 then [Scored(p, s)] else [];
      assert Candidates(tokens, a) == head + Candidates(tokens, rest);
      assert Candidates(tokens, a + b) == head + Candidates(tokens, rest + b);
      CandidatesAppend(tokens, rest, b);
      SeqAssociative(head, Candidates(tokens, rest), Candidates(tokens, b));
    } else {
      assert a + b == b;
    }
  }

  lemma AppendTail<T>(a: seq<T>, b: seq<T>)
    requires a != []
    ensures (a + b)[0] == a[0] && (a + b)[1..] == a[1..] + b
  {
  }

  lemma SeqAssociative<T>(x: seq<T>, y: seq<T>, z: seq<T>)
    ensures x + (y + z) == (x + y) + z
  {
  }

  // ------------------------------------------------------------- sorting

  /** Non-increasing by score. */
  predicate SortedByScore(xs: seq<Scored>) {
    forall i, j :: 0 <= i < j < |xs| ==> xs[i].score >= xs[j].score
  }

  /** The entries with score k, in their order in xs. Two sequences whose
      WithScore agree for every k hold the same entries and order every
      tie the same way: this is how stability is stated. */
  function WithScore(xs: seq<Scored>, k: nat): (r: seq<Scored>)
    ensures |r| <= |xs|
    ensures forall i :: 0 <= i < |r| ==> r[i].score == k
  {
    if xs == [] then []
    else (if xs[0].score == k then [xs[0]] else []) + WithScore(xs[1..], k)
  }

  lemma WithScoreCons(x: Scored, s: seq<Scored>, k: nat)
    ensures WithScore([x] + s, k) == (if x.score == k then [x] else []) + WithScore(s, k)
  {
    assert ([x] + s)[1..] == s;
  }

  /** In a sorted sequence the first entry scores at least as high as any
      score present. */
  lemma HeadIsMax(a: seq<Scored>, k: nat)
    requires SortedByScore(a)
    requires WithScore(a, k) != []
    ensures a != [] && a[0].score >= k
  {
    WithScoreFromList(a, k);
    var x := WithScore(a, k)[0];
    assert x in WithScore(a, k);
    var j :| 0 <= j < |a| && a[j] == x;
    assert a[0].score >= a[j].score;
  }

  lemma {:induction false} WithScoreFromList(xs: seq<Scored>, k: nat)
    ensures forall x :: x in WithScore(xs, k) ==> x in xs
  {
    if xs != [] {
      WithScoreFromList(xs[1..], k);
    }
  }

  lemma NonEmptyHasOwnScore(a: seq<Scored>)
    ensures a != [] ==> WithScore(a, a[0].score) != []
  {
  }

  /** Places x in front of the first entry it is not lower than: before
      every equal score, so an entry inserted from further up the listing
      stays ahead of its ties. */
  function Insert(x: Scored, s: seq<Scored>): (r: seq<Scored>)
    requires SortedByScore(s)
    ensures SortedByScore(r)
    ensures multiset(r) == multiset(s) + multiset{x}
    ensures |r| == |s| + 1
    ensures r[0] == x || (s != [] && r[0] == s[0])
  {
    if s == [] || x.score >= s[0].score then [x] + s
    else
      var t := Insert(x, s[1..]);
      assert s == [s[0]] + s[1..];
      [s[0]] + t
  }

  /** Insertion keeps the order among equal scores: x lands before the
      entries of its own score and leaves every other score's entries as
      they were. */
  lemma {:induction false} InsertWithScore(x: Scored, s: seq<Scored>, k: nat)
    requires SortedByScore(s)
    ensures WithScore(Insert(x, s), k) == if x.score == k then [x] + WithScore(s, k) else WithScore(s, k)
  {
    if s == [] || x.score >= s[0].score {
      WithScoreCons(x, s, k);
    } else {
      assert s == [s[0]] + s[1..];
      InsertWithScore(x, s[1..], k);
      WithScoreCons(s[0], Insert(x, s[1..]), k);
      WithScoreCons(s[0], s[1..], k);
    }
  }

  /** Stable sort by descending score (Array.prototype.sort with
      (a, b) => b.score - a.score, which ECMA-262 requires to be stable). */
  function SortByScore(xs: seq<Scored>): (r: seq<Scored>)
    ensures SortedByScore(r)
    ensures multiset(r) == multiset(xs)
  {
    if xs == [] then []
    else
      assert xs == [xs[0]] + xs[1..];
      Insert(xs[0], SortByScore(xs[1..]))
  }

  /** The sort is stable: for every score, the entries with that score come
      out in the order they went in. */
  lemma {:induction false} SortByScoreStable(xs: seq<Scored>, k: nat)
    ensures WithScore(SortByScore(xs), k) == WithScore(xs, k)
  {
    if xs != [] {
      SortByScoreStable(xs[1..], k);
      InsertWithScore(xs[0], SortByScore(xs[1..]), k);
      assert SortByScore(xs) == Insert(xs[0], SortByScore(xs[1..]));
    }
  }

  /** A stable sort has only one possible outcome: any two sequences that
      are sorted by score and agree on every WithScore are equal. So the
      insertion sort above gives exactly what any conforming engine's
      sort gives. */
  lemma {:induction false} StableSortUnique(a: seq<Scored>, b: seq<Scored>)
    requires SortedByScore(a) && SortedByScore(b)
    requires forall k :: WithScore(a, k) == WithScore(b, k)
    ensures a == b
    decreases |a|
  {
    if a == [] || b == [] {
      NonEmptyHasOwnScore(a);
      NonEmptyHasOwnScore(b);
      if a != [] || b != [] {
        assert false;
      }
    } else {
      assert a == [a[0]] + a[1..];
      assert b == [b[0]] + b[1..];
      var m := a[0].score;
      var n := b[0].score;
      WithScoreCons(a[0], a[1..], m);
      WithScoreCons(b[0], b[1..], n);
      HeadIsMax(a, n);
      HeadIsMax(b, m);
      assert m == n;
      assert a[0] == WithScore(a, m)[0] == WithScore(b, m)[0] == b[0];
      forall k ensures WithScore(a[1..], k) == WithScore(b[1..], k) {
        WithScoreCons(a[0], a[1..], k);
        WithScoreCons(b[0], b[1..], k);
        var h := if a[0].score == k then [a[0]] else [];
        assert WithScore(a[1..], k) == (h + WithScore(a[1..], k))[|h|..];
        assert WithScore(b[1..], k) == (h + WithScore(b[1..], k))[|h|..];
      }
      StableSortUnique(a[1..], b[1..]);
    }
  }

  // -------------------------------------------------------------- search

  function Min(a: int, b: int): int { if a <= b then a else b }

  /** The best candidates for a non-empty token list: sorted, then cut to
      MaxResults (the sort and the slice). */
  function Ranked(tokens: seq<string>, listing: seq<Product>): (r: seq<Scored>)
    ensures |r| <= MaxResults
    ensures SortedByScore(r)
    ensures forall i :: 0 <= i < |r| ==>
      && r[i].score >= 1
      && r[i].product in listing
      && r[i].score == Score(r[i].product, tokens)
  {
    CandidatesFromListing(tokens, listing);
    var sorted := SortByScore(Candidates(tokens, listing));
    var r := sorted[..Min(MaxResults, |sorted|)];
    assert forall i :: 0 <= i < |r| ==> r[i] in multiset(sorted);
    r
  }

  /** buscarProductos(consulta, listado) */
  function Search(query: string, listing: seq<Product>): (r: seq<Scored>)
    ensures Tokens(query) == [] ==> r == []
    ensures |r| <= MaxResults
    ensures SortedByScore(r)
    ensures forall i :: 0 <= i < |r| ==>
      && r[i].score >= 1
      && r[i].product in listing
      && r[i].score == Score(r[i].product, Tokens(query))
  {
    var tokens := Tokens(query);
    if tokens == [] then [] else Ranked(tokens, listing)
  }

  /** Cutting a sorted sequence after its first MaxResults entries keeps
      everything when it is shorter, and otherwise drops nothing that
      scores higher than the last entry kept. */
  lemma TakeKeepsBest(s: seq<Scored>)
    requires SortedByScore(s)
    ensures var n := Min(MaxResults, |s|);
            && multiset(s[..n]) <= multiset(s)
            && (n < MaxResults ==> multiset(s[..n]) == multiset(s))
            && forall x: Scored :: x in multiset(s) - multiset(s[..n]) ==> n == MaxResults && x.score <= s[n - 1].score
  {
    var n := Min(MaxResults, |s|);
    var rest := s[n..];
    assert s == s[..n] + rest;
    assert multiset(s) == multiset(s[..n]) + multiset(rest);
    forall x: Scored | x in multiset(s) - multiset(s[..n])
      ensures n == MaxResults && x.score <= s[n - 1].score
    {
      assert x in multiset(rest);
      var j :| 0 <= j < |rest| && rest[j] == x;
      assert s[n + j] == x;
    }
  }

  /** What the ranking keeps: a sub-multiset of the candidates, all of them
      when fewer than five are returned, and otherwise none that scores
      higher than the lowest result. */
  lemma RankedKeepsBest(tokens: seq<string>, listing: seq<Product>)
    ensures multiset(Ranked(tokens, listing)) <= multiset(Candidates(tokens, listing))
    ensures |Ranked(tokens, listing)| < MaxResults ==>
      multiset(Ranked(tokens, listing)) == multiset(Candidates(tokens, listing))
    ensures forall x: Scored :: x in multiset(Candidates(tokens, listing)) - multiset(Ranked(tokens, listing)) ==>
      |Ranked(tokens, listing)| == MaxResults && x.score <= Ranked(tokens, listing)[MaxResults - 1].score
  {
    var sorted := SortByScore(Candidates(tokens, listing));
    assert Ranked(tokens, listing) == sorted[..Min(MaxResults, |sorted|)];
    TakeKeepsBest(sorted);
  }

  lemma {:induction false} WithScorePrefix(xs: seq<Scored>, n: nat, k: nat)
    requires n <= |xs|
    ensures var w := WithScore(xs[..n], k);
            |w| <= |WithScore(xs, k)| && w == WithScore(xs, k)[..|w|]
  {
    if n > 0 {
      assert xs[..n][1..] == xs[1..][..n - 1];
      WithScorePrefix(xs[1..], n - 1, k);
    }
  }

  /** Ties keep listing order: among the results with any one score, the
      products are the first ones of that score among the candidates, in
      the order the candidates have them. */
  lemma RankedIsStable(tokens: seq<string>, listing: seq<Product>, k: nat)
    ensures var w := WithScore(Ranked(tokens, listing), k);
            var c := WithScore(Candidates(tokens, listing), k);
            |w| <= |c| && w == c[..|w|]
  {
    var sorted := SortByScore(Candidates(tokens, listing));
    WithScorePrefix(sorted, Min(MaxResults, |sorted|), k);
    SortByScoreStable(Candidates(tokens, listing), k);
  }
}
