/** The category summary of the system prompt (generarResumenCatalogo):
    products are grouped by the trimmed first '>'-segment of FAMILIA and
    counted in a plain object, and one "- family (n productos)" line is
    written per key, in the order Object.entries lists the keys. */
module Summary {
  import opened Strings
  import opened Retrieval

  /** p.FAMILIA.split('>')[0].trim(): the text before the first '>',
      without surrounding white space. */
  function TopFamily(p: Product): (r: string)
    ensures '>' !in r
    ensures r == [] || (!IsJsSpace(r[0]) && !IsJsSpace(r[|r| - 1]))
  {
    var first := Split(p.family, '>')[0];
    TrimKeepsOut(first, '>');
    Trim(first)
  }

  /** The top-level family of each product, in listing order. */
  function Families(listing: seq<Product>): (r: seq<string>)
    ensures |r| == |listing|
    ensures forall i :: 0 <= i < |listing| ==> r[i] == TopFamily(listing[i])
  {
    if listing == [] then []
    else
      var init := listing[..|listing| - 1];
      assert forall i :: 0 <= i < |init| ==> init[i] == listing[i];
      Families(init) + [TopFamily(listing[|listing| - 1])]
  }

  predicate Distinct(keys: seq<string>) {
    forall i, j :: 0 <= i < j < |keys| ==> keys[i] != keys[j]
  }

  /** How many times x occurs in xs. */
  function Occurrences(xs: seq<string>, x: string): (n: nat)
    ensures n <= |xs|
  {
    if xs == [] then 0
    else
      assert xs == xs[..|xs| - 1] + [xs[|xs| - 1]];
      Occurrences(xs[..|xs| - 1], x) + (if xs[|xs| - 1] == x then 1 else 0)
  }

  lemma {:induction false} OccurrencesOfAbsent(xs: seq<string>, x: string)
    requires x !in xs
    ensures Occurrences(xs, x) == 0
  {
    if xs != [] {
      OccurrencesOfAbsent(xs[..|xs| - 1], x);
    }
  }

  // ------------------------------------------------ object property order

  /** The largest array index of ECMA-262 (2^32 - 2). */
  const MaxArrayIndex := 4294967294

  /** A key that is an array index: the canonical decimal form of an
      integer from 0 to 2^32 - 2. */
  predicate IsArrayIndex(k: string) {
    |k| >= 1 && AllDigits(k) && (k[0] != '0' || |k| == 1) && DigitsValue(k) <= MaxArrayIndex
  }

  /** Where a new array-index key goes among an object's keys: among the
      leading array-index keys, in ascending numeric order. */
  function InsertIndexKey(keys: seq<string>, k: string): (r: seq<string>)
    requires IsArrayIndex(k)
    ensures |r| == |keys| + 1
    ensures forall y :: y in r <==> y in keys || y == k
  {
    if keys == [] || !IsArrayIndex(keys[0]) || DigitsValue(k) < DigitsValue(keys[0]) then [k] + keys
    else [keys[0]] + InsertIndexKey(keys[1..], k)
  }

  /** The keys of an object after a property k is created on it. */
  function AddKey(keys: seq<string>, k: string): (r: seq<string>)
    ensures forall y :: y in r <==> y in keys || y == k
  {
    if IsArrayIndex(k) then InsertIndexKey(keys, k) else keys + [k]
  }

  /** The key order of an object created empty that is given the keys of
      xs in turn (Object.entries order). */
  function KeyOrder(xs: seq<string>): (r: seq<string>)
    ensures Distinct(r)
  {
    if xs == [] then []
    else
      var keys := KeyOrder(xs[..|xs| - 1]);
      var x := xs[|xs| - 1];
      assert xs == xs[..|xs| - 1] + [x];
      if x in keys then keys
      else
        InsertKeepsDistinct(keys, x);
        AddKey(keys, x)
  }

  /** Each key given is listed, and nothing else. */
  lemma {:induction false} KeyOrderMembers(xs: seq<string>)
    ensures forall y :: y in KeyOrder(xs) <==> y in xs
  {
    if xs != [] {
      KeyOrderMembers(xs[..|xs| - 1]);
      assert xs == xs[..|xs| - 1] + [xs[|xs| - 1]];
    }
  }

  lemma {:induction false} InsertKeepsDistinct(keys: seq<string>, k: string)
    requires Distinct(keys) && k !in keys
    ensures Distinct(AddKey(keys, k))
  {
    if IsArrayIndex(k) {
      InsertIndexDistinct(keys, k);
    }
  }

  lemma {:induction false} InsertIndexDistinct(keys: seq<string>, k: string)
    requires IsArrayIndex(k) && Distinct(keys) && k !in keys
    ensures Distinct(InsertIndexKey(keys, k))
  {
    if !(keys == [] || !IsArrayIndex(keys[0]) || DigitsValue(k) < DigitsValue(keys[0])) {
      InsertIndexDistinct(keys[1..], k);
      var r := InsertIndexKey(keys, k);
      assert r == [keys[0]] + InsertIndexKey(keys[1..], k);
      assert keys[0] !in keys[1..];
    }
  }

  // ------------------------------------------------- first appearance

  /** Each distinct element once, in the order of its first appearance. */
  function FirstAppearances(xs: seq<string>): seq<string> {
    if xs == [] then []
    else
      var d := FirstAppearances(xs[..|xs| - 1]);
      var x := xs[|xs| - 1];
      if x in d then d else d + [x]
  }

  lemma {:induction false} FirstAppearancesMembers(xs: seq<string>)
    ensures forall y :: y in FirstAppearances(xs) <==> y in xs
  {
    if xs != [] {
      FirstAppearancesMembers(xs[..|xs| - 1]);
      assert xs == xs[..|xs| - 1] + [xs[|xs| - 1]];
    }
  }

  /** The keys that are not array indices, in order. */
  function NamedKeys(keys: seq<string>): seq<string> {
    if keys == [] then []
    else (if IsArrayIndex(keys[0]) then [] else [keys[0]]) + NamedKeys(keys[1..])
  }

  /** The keys that are array indices, in order. */
  function IndexKeys(keys: seq<string>): seq<string> {
    if keys == [] then []
    else (if IsArrayIndex(keys[0]) then [keys[0]] else []) + IndexKeys(keys[1..])
  }

  lemma {:induction false} NamedKeysAppend(a: seq<string>, b: seq<string>)
    ensures NamedKeys(a + b) == NamedKeys(a) + NamedKeys(b)
  {
    if a == [] {
      assert a + b == b;
    } else {
      assert (a + b)[0] == a[0];
      assert (a + b)[1..] == a[1..] + b;
      NamedKeysAppend(a[1..], b);
    }
  }

  lemma {:induction false} NamedKeysInsert(keys: seq<string>, k: string)
    requires IsArrayIndex(k)
    ensures NamedKeys(InsertIndexKey(keys, k)) == NamedKeys(keys)
  {
    if keys == [] || !IsArrayIndex(keys[0]) || DigitsValue(k) < DigitsValue(keys[0]) {
      assert ([k] + keys)[1..] == keys;
    } else {
      NamedKeysInsert(keys[1..], k);
      var r := InsertIndexKey(keys, k);
      assert r[0] == keys[0] && r[1..] == InsertIndexKey(keys[1..], k);
    }
  }

  /** Keys that are not array indices come out in the order the loop first
      met them. */
  lemma {:induction false} NamedKeysInFirstAppearanceOrder(xs: seq<string>)
    ensures NamedKeys(KeyOrder(xs)) == NamedKeys(FirstAppearances(xs))
  {
    if xs != [] {
      var init := xs[..|xs| - 1];
      var x := xs[|xs| - 1];
      NamedKeysInFirstAppearanceOrder(init);
      FirstAppearancesMembers(init);
      KeyOrderMembers(init);
      var keys := KeyOrder(init);
      var d := FirstAppearances(init);
      if x !in keys {
        NamedKeysAppend(d, [x]);
        if IsArrayIndex(x) {
          NamedKeysInsert(keys, x);
        } else {
          NamedKeysAppend(keys, [x]);
        }
      }
    }
  }

  /** Array-index keys all come before the other keys and are in strictly
      ascending numeric order. */
  predicate IndexKeysLeadAscending(keys: seq<string>) {
    && (forall i, j :: 0 <= i < j < |keys| && IsArrayIndex(keys[j]) ==> IsArrayIndex(keys[i]))
    && (forall i, j :: 0 <= i < j < |keys| && IsArrayIndex(keys[j]) ==> DigitsValue(keys[i]) < DigitsValue(keys[j]))
  }

  lemma {:induction false} PositiveLeadingDigit(s: string)
    requires |s| >= 1 && AllDigits(s) && s[0] != '0'
    ensures DigitsValue(s) >= 1
  {
    if |s| > 1 {
      PositiveLeadingDigit(s[..|s| - 1]);
    }
  }

  /** An array-index key is the decimal rendering of its value, so two
      different such keys have different values. */
  lemma {:induction false} IndexKeyCanonical(s: string)
    requires |s| >= 1 && AllDigits(s) && (s[0] != '0' || |s| == 1)
    ensures NatToString(DigitsValue(s)) == s
  {
    if |s| > 1 {
      var init := s[..|s| - 1];
      PositiveLeadingDigit(init);
      IndexKeyCanonical(init);
      var v := DigitsValue(s);
      assert v / 10 == DigitsValue(init);
      assert s == init + [s[|s| - 1]];
    }
  }

  lemma {:induction false} InsertIndexLeadAscending(keys: seq<string>, k: string)
    requires IsArrayIndex(k) && k !in keys
    requires IndexKeysLeadAscending(keys)
    ensures IndexKeysLeadAscending(InsertIndexKey(keys, k))
  {
    var r := InsertIndexKey(keys, k);
    if keys == [] || !IsArrayIndex(keys[0]) || DigitsValue(k) < DigitsValue(keys[0]) {
      assert r == [k] + keys;
      forall i, j | 0 <= i < j < |r| && IsArrayIndex(r[j])
        ensures IsArrayIndex(r[i]) && DigitsValue(r[i]) < DigitsValue(r[j])
      {
        if i > 0 {
          assert r[i] == keys[i - 1] && r[j] == keys[j - 1];
        } else {
          assert r[j] == keys[j - 1];
          assert IsArrayIndex(keys[0]);
        }
      }
    } else {
      var tail := InsertIndexKey(keys[1..], k);
      InsertIndexLeadAscending(keys[1..], k);
      assert r == [keys[0]] + tail;
      assert DigitsValue(keys[0]) != DigitsValue(k) by {
        IndexKeyCanonical(keys[0]);
        IndexKeyCanonical(k);
      }
      forall i, j | 0 <= i < j < |r| && IsArrayIndex(r[j])
        ensures IsArrayIndex(r[i]) && DigitsValue(r[i]) < DigitsValue(r[j])
      {
        if i > 0 {
          assert r[i] == tail[i - 1] && r[j] == tail[j - 1];
        } else if r[j] == k {
        } else {
          assert r[j] in keys[1..];
          var m :| 0 <= m < |keys[1..]| && keys[1..][m] == r[j];
          assert keys[m + 1] == r[j];
        }
      }
    }
  }

  /** Object.entries lists array-index keys first, in ascending numeric
      order, then the other keys. */
  lemma {:induction false} KeyOrderShape(xs: seq<string>)
    ensures IndexKeysLeadAscending(KeyOrder(xs))
  {
    if xs != [] {
      var init := xs[..|xs| - 1];
      var x := xs[|xs| - 1];
      KeyOrderShape(init);
      var keys := KeyOrder(init);
      if x !in keys {
        if IsArrayIndex(x) {
          InsertIndexLeadAscending(keys, x);
        } else {
          var r := keys + [x];
          assert forall i :: 0 <= i < |keys| ==> r[i] == keys[i];
        }
      }
    }
  }

  // ------------------------------------------------------------- counts

  /** The sum of the counts of the given keys. */
  function SumOfCounts(keys: seq<string>, xs: seq<string>): nat {
    if keys == [] then 0 else Occurrences(xs, keys[0]) + SumOfCounts(keys[1..], xs)
  }

  lemma {:induction false} SumOfCountsSnoc(keys: seq<string>, xs: seq<string>, y: string)
    requires Distinct(keys)
    ensures SumOfCounts(keys, xs + [y]) == SumOfCounts(keys, xs) + (if y in keys then 1 else 0)
  {
    assert (xs + [y])[..|xs|] == xs;
    if keys != [] {
      SumOfCountsSnoc(keys[1..], xs, y);
      assert keys == [keys[0]] + keys[1..];
    }
  }

  lemma {:induction false} SumOfCountsEmpty(keys: seq<string>)
    ensures SumOfCounts(keys, []) == 0
  {
    if keys != [] {
      SumOfCountsEmpty(keys[1..]);
    }
  }

  /** Distinct keys that cover every element count each element once. */
  lemma {:induction false} SumOfCountsCovers(keys: seq<string>, xs: seq<string>)
    requires Distinct(keys)
    requires forall x :: x in xs ==> x in keys
    ensures SumOfCounts(keys, xs) == |xs|
  {
    if xs == [] {
      SumOfCountsEmpty(keys);
    } else {
      var init := xs[..|xs| - 1];
      assert xs == init + [xs[|xs| - 1]];
      SumOfCountsCovers(keys, init);
      SumOfCountsSnoc(keys, init, xs[|xs| - 1]);
    }
  }

  lemma {:induction false} DistinctCardinality(keys: seq<string>)
    requires Distinct(keys)
    ensures |set k | k in keys| == |keys|
  {
    if keys != [] {
      var init := keys[..|keys| - 1];
      var last := keys[|keys| - 1];
      DistinctCardinality(init);
      assert (set k | k in keys) == (set k | k in init) + {last};
      assert last !in init;
    }
  }

  // ------------------------------------------------------------ summary

  /** `- ${f} (${cant} productos)` */
  function SummaryLine(family: string, count: nat): string {
    "- " + family + " (" + NatToString(count) + " productos)"
  }

  /** The character before the count of a line is the '('. */
  lemma OpenBeforeRun(f: string, a: string)
    ensures (f + " (" + a)[|f| + 1] == '('
  {
  }

  /** Past " (" come only the count's digits. */
  lemma DigitInRun(g: string, b: string, k: int)
    requires AllDigits(b) && |g| + 2 <= k < |g| + 2 + |b|
    ensures IsDigit((g + " (" + b)[k])
  {
    assert (g + " (" + b)[k] == b[k - |g| - 2];
  }

  /** When f + " (" + a == g + " (" + b with a and b runs of digits, the
      runs have one length: the '(' before the shorter run would face a
      digit of the longer one. */
  lemma DigitTailLength(f: string, a: string, g: string, b: string)
    requires AllDigits(a) && AllDigits(b)
    requires f + " (" + a == g + " (" + b
    ensures |a| == |b|
  {
    if |a| < |b| {
      DigitInRun(g, b, |f| + 1);
      OpenBeforeRun(f, a);
      assert false;
    } else if |b| < |a| {
      DigitInRun(f, a, |g| + 1);
      OpenBeforeRun(g, b);
      assert false;
    }
  }

  /** A line gives back its family and its count: two lines are equal only
      when both agree. The count is the last run of digits after " (", so
      a family that itself holds " (" or digits is still told apart. */
  lemma SummaryLineInjective(f: string, m: nat, g: string, n: nat)
    requires SummaryLine(f, m) == SummaryLine(g, n)
    ensures f == g && m == n
  {
    var a, b := NatToString(m), NatToString(n);
    var u := f + " (" + a;
    var v := g + " (" + b;
    var line := SummaryLine(f, m);
    assert line == "- " + u + " productos)";
    assert line == "- " + v + " productos)";
    assert u == line[2..|line| - 11];
    assert v == line[2..|line| - 11];
    DigitTailLength(f, a, g, b);
    assert a == u[|u| - |a|..] == v[|v| - |b|..] == b;
    assert f == u[..|f|] == v[..|g|] == g;
    NatToStringValue(m);
    NatToStringValue(n);
  }

  /** The lines of the summary for the given families, one per key. */
  function LinesFor(families: seq<string>): seq<string> {
    var keys := KeyOrder(families);
    seq(|keys|, i requires 0 <= i < |keys| => SummaryLine(keys[i], Occurrences(families, keys[i])))
  }

  function SummaryLines(listing: seq<Product>): seq<string> {
    LinesFor(Families(listing))
  }

  /** The category summary: the lines joined by newlines. It is empty
      exactly when the catalog is. */
  function CatalogText(listing: seq<Product>): (r: string)
    ensures r == "" <==> |listing| == 0
  {
    var lines := SummaryLines(listing);
    SummaryLinesEmpty(listing);
    if |lines| > 0 then
      JoinContains(lines, '\n', 0);
      Join(lines, '\n')
    else Join(lines, '\n')
  }

  lemma SummaryLinesEmpty(listing: seq<Product>)
    ensures |SummaryLines(listing)| == 0 <==> |listing| == 0
  {
    var families := Families(listing);
    OneLinePerFamily(families);
    if |listing| > 0 {
      assert families[0] in (set f | f in families);
    }
  }

  /** One line per distinct family: as many lines as distinct families,
      and each family on exactly one line, with its own count. */
  lemma OneLinePerFamily(families: seq<string>)
    ensures |LinesFor(families)| == |set f | f in families|
    ensures forall f :: f in families ==>
      exists i :: (0 <= i < |KeyOrder(families)| && KeyOrder(families)[i] == f
        && LinesFor(families)[i] == SummaryLine(f, Occurrences(families, f)))
  {
    var keys := KeyOrder(families);
    DistinctCardinality(keys);
    KeyOrderMembers(families);
    assert (set k | k in keys) == (set f | f in families);
    forall f | f in families
      ensures exists i :: (0 <= i < |keys| && keys[i] == f
        && LinesFor(families)[i] == SummaryLine(f, Occurrences(families, f)))
    {
      assert f in keys;
      var i :| 0 <= i < |keys| && keys[i] == f;
      assert LinesFor(families)[i] == SummaryLine(f, Occurrences(families, f));
    }
  }

  /** The counts of the lines add up to the number of products. */
  lemma CountsAddUp(listing: seq<Product>)
    ensures SumOfCounts(KeyOrder(Families(listing)), Families(listing)) == |listing|
  {
    KeyOrderMembers(Families(listing));
    SumOfCountsCovers(KeyOrder(Families(listing)), Families(listing));
  }

  lemma FamiliesSnoc(listing: seq<Product>, i: nat)
    requires i < |listing|
    ensures Families(listing[..i + 1]) == Families(listing[..i]) + [TopFamily(listing[i])]
  {
    assert listing[..i + 1][..i] == listing[..i];
  }

  lemma KeyOrderStep(seen: seq<string>, x: string)
    ensures KeyOrder(seen + [x]) == if x in KeyOrder(seen) then KeyOrder(seen) else AddKey(KeyOrder(seen), x)
  {
    assert (seen + [x])[..|seen|] == seen;
  }

  lemma OccurrencesStep(seen: seq<string>, x: string, f: string)
    ensures Occurrences(seen + [x], f) == Occurrences(seen, f) + (if x == f then 1 else 0)
  {
    assert (seen + [x])[..|seen|] == seen;
  }

  /** The state of the counting loop after it has seen the given families:
      the keys in object order, and a count for each key. */
  ghost predicate Tally(seen: seq<string>, keys: seq<string>, counts: map<string, nat>) {
    && keys == KeyOrder(seen)
    && (forall f :: f in counts <==> f in keys)
    && (forall f :: f in counts ==> counts[f] == Occurrences(seen, f))
  }

  /** One round of the loop: a family met for the first time gets a key and
      a count of 0, then its count goes up by one. */
  lemma TallyStep(seen: seq<string>, keys: seq<string>, counts: map<string, nat>, x: string)
    requires Tally(seen, keys, counts)
    ensures Tally(seen + [x],
                  if x in counts then keys else AddKey(keys, x),
                  counts[x := (if x in counts then counts[x] else 0) + 1])
  {
    KeyOrderStep(seen, x);
    KeyOrderMembers(seen);
    if x !in seen {
      OccurrencesOfAbsent(seen, x);
    }
    var counts' := counts[x := (if x in counts then counts[x] else 0) + 1];
    forall f | f in counts'
      ensures counts'[f] == Occurrences(seen + [x], f)
    {
      OccurrencesStep(seen, x, f);
    }
  }

  /** Counting one family: it gets a key and a count of 0 when it is met
      for the first time, then its count goes up by one. */
  method AddOccurrence(family: string, keys: seq<string>, counts: map<string, nat>, ghost seen: seq<string>)
    returns (keys': seq<string>, counts': map<string, nat>)
    requires Tally(seen, keys, counts)
    ensures Tally(seen + [family], keys', counts')
  {
    keys', counts' := keys, counts;
    if family !in counts' {
      keys' := AddKey(keys', family);
      counts' := counts'[family := 0];
    }
    var n := counts'[family];
    counts' := counts'[family := n + 1];
    if family !in counts {
      CountSetTwice(counts, family, 0, n + 1);
    }
    TallyStep(seen, keys, counts, family);
  }

  /** Setting a count twice keeps the second value only. */
  lemma CountSetTwice(m: map<string, nat>, k: string, v: nat, w: nat)
    ensures m[k := v][k := w] == m[k := w]
  {
  }

  /** The forEach callback: the product's top-level family is counted. */
  method CountProduct(p: Product, keys: seq<string>, counts: map<string, nat>, ghost seen: seq<string>)
    returns (keys': seq<string>, counts': map<string, nat>)
    requires Tally(seen, keys, counts)
    ensures Tally(seen + [TopFamily(p)], keys', counts')
  {
    var family := TopFamily(p);
    keys', counts' := AddOccurrence(family, keys, counts, seen);
  }

  /** The counting loop over the listing. */
  method CountFamilies(listing: seq<Product>) returns (keys: seq<string>, counts: map<string, nat>)
    ensures Tally(Families(listing), keys, counts)
  {
    keys, counts := [], map[];
    var i := 0;
    while i < |listing|
      invariant 0 <= i <= |listing|
      invariant Tally(Families(listing[..i]), keys, counts)
    {
      FamiliesSnoc(listing, i);
      keys, counts := CountProduct(listing[i], keys, counts, Families(listing[..i]));
      i := i + 1;
    }
    assert listing[..i] == listing;
  }

  /** The summary lines read off a finished tally. */
  lemma LinesOfTally(families: seq<string>, keys: seq<string>, counts: map<string, nat>)
    requires Tally(families, keys, counts)
    ensures LinesFor(families) == seq(|keys|, i requires 0 <= i < |keys| => SummaryLine(keys[i], counts[keys[i]]))
  {
  }

  /** generarResumenCatalogo(listado) */
  method CatalogSummary(listing: seq<Product>) returns (text: string)
    ensures text == CatalogText(listing)
  {
    var keys, counts := CountFamilies(listing);
    var lines := seq(|keys|, i requires 0 <= i < |keys| => SummaryLine(keys[i], counts[keys[i]]));
    LinesOfTally(Families(listing), keys, counts);
    text := Join(lines, '\n');
  }
}
