/** The string primitives the bot relies on, written as JavaScript's
    String.prototype behaves on them: ASCII case mapping (toLowerCase,
    toUpperCase), split on one separator character, join, includes, trim,
    UTF-16 length, and decimal digit strings. */
module Strings {

  // ---------------------------------------------------------------- case

  predicate IsUpper(c: char) { 'A' <= c <= 'Z' }
  predicate IsLower(c: char) { 'a' <= c <= 'z' }
  predicate IsDigit(c: char) { '0' <= c <= '9' }

  /** toLowerCase restricted to ASCII: only 'A'..'Z' change. */
  function LowerChar(c: char): (r: char)
    ensures !IsUpper(r)
    ensures IsUpper(c) <==> IsLower(r) && r != c
  {
    if IsUpper(c) then (c as int + 32) as char else c
  }

  /** toUpperCase restricted to ASCII: only 'a'..'z' change. */
  function UpperChar(c: char): (r: char)
    ensures !IsLower(r)
    ensures IsLower(c) <==> IsUpper(r) && r != c
  {
    if IsLower(c) then (c as int - 32) as char else c
  }

  /** s.toLowerCase(): one character for each character; that none of
      them is upper-case is LowerIsLowerCase. */
  function Lower(s: string): (r: string)
    ensures |r| == |s|
  {
    seq(|s|, i requires 0 <= i < |s| => LowerChar(s[i]))
  }

  /** s.toUpperCase(): same length, and no lower-case letter left. */
  function Upper(s: string): (r: string)
    ensures |r| == |s|
    ensures forall i :: 0 <= i < |r| ==> !IsLower(r[i])
  {
    seq(|s|, i requires 0 <= i < |s| => UpperChar(s[i]))
  }

  /** A string that toLowerCase leaves as it is. */
  predicate IsLowerCase(s: string) {
    forall i :: 0 <= i < |s| ==> !IsUpper(s[i])
  }

  lemma LowerIsLowerCase(s: string)
    ensures IsLowerCase(Lower(s))
    ensures Lower(Lower(s)) == Lower(s)
  {
  }

  lemma LowerOfLowerCase(s: string)
    requires IsLowerCase(s)
    ensures Lower(s) == s
  {
  }

  lemma LowerOfUpper(s: string)
    requires IsLowerCase(s)
    ensures Lower(Upper(s)) == s
  {
    assert forall i :: 0 <= i < |s| ==> LowerChar(UpperChar(s[i])) == s[i];
  }

  lemma LowerAppend(s: string, t: string)
    ensures Lower(s + t) == Lower(s) + Lower(t)
  {
  }

  // ------------------------------------------------------- split and join

  /** s.split(sep) for a one-character separator: the pieces between
      separators, always at least one ("".split(" ") is [""]). */
  function Split(s: string, sep: char): (r: seq<string>)
    ensures |r| >= 1
    ensures forall i :: 0 <= i < |r| ==> sep !in r[i]
    decreases |s|
  {
    if s == [] then [""]
    else
      var rest := Split(s[1..], sep);
      if s[0] == sep then [""] + rest
      else [[s[0]] + rest[0]] + rest[1..]
  }

  /** The total length of the words. */
  function TotalLength(words: seq<string>): nat {
    if words == [] then 0 else |words[0]| + TotalLength(words[1..])
  }

  /** words.join(sep): the words with one separator between each two
      neighbours, so one character longer per gap. */
  function Join(words: seq<string>, sep: char): (r: string)
    ensures |words| >= 1 ==> |r| == TotalLength(words) + |words| - 1
    ensures |words| >= 1 ==> StartsWith(r, words[0])
    ensures |words| == 0 ==> r == ""
    ensures |words| == 1 ==> r == words[0]
  {
    if |words| == 0 then ""
    else if |words| == 1 then words[0]
    else words[0] + [sep] + Join(words[1..], sep)
  }

  /** Joining two non-empty lists puts exactly one separator where they
      meet; with the one-word case of Join this fixes the join of every
      list, whatever its words contain. */
  lemma {:induction false} JoinAppend(a: seq<string>, b: seq<string>, sep: char)
    requires |a| >= 1 && |b| >= 1
    ensures Join(a + b, sep) == Join(a, sep) + [sep] + Join(b, sep)
  {
    assert (a + b)[0] == a[0];
    if |a| == 1 {
      assert (a + b)[1..] == b;
    } else {
      assert (a + b)[1..] == a[1..] + b;
      JoinAppend(a[1..], b, sep);
    }
  }

  lemma {:induction false} SplitWord(w: string, sep: char)
    requires sep !in w
    ensures Split(w, sep) == [w]
  {
    if w != [] {
      SplitWord(w[1..], sep);
      assert [w[0]] + w[1..] == w;
    }
  }

  lemma {:induction false} SplitAfterWord(w: string, sep: char, rest: string)
    requires sep !in w
    ensures Split(w + [sep] + rest, sep) == [w] + Split(rest, sep)
  {
    var s := w + [sep] + rest;
    if w == [] {
      assert s[1..] == rest;
    } else {
      assert s[1..] == w[1..] + [sep] + rest;
      SplitAfterWord(w[1..], sep, rest);
      assert [w[0]] + w[1..] == w;
    }
  }

  /** Splitting a join of separator-free words gives the words back. */
  lemma {:induction false} SplitJoin(words: seq<string>, sep: char)
    requires |words| >= 1
    requires forall i :: 0 <= i < |words| ==> sep !in words[i]
    ensures Split(Join(words, sep), sep) == words
  {
    if |words| == 1 {
      SplitWord(words[0], sep);
    } else {
      SplitJoin(words[1..], sep);
      SplitAfterWord(words[0], sep, Join(words[1..], sep));
      assert [words[0]] + words[1..] == words;
    }
  }

  /** Joining the pieces of a split gives the string back. */
  lemma {:induction false} JoinSplit(s: string, sep: char)
    ensures Join(Split(s, sep), sep) == s
  {
    if s != [] {
      JoinSplit(s[1..], sep);
      var rest := Split(s[1..], sep);
      if s[0] == sep {
        assert ([""] + rest)[1..] == rest;
      } else {
        var pieces := [[s[0]] + rest[0]] + rest[1..];
        if |rest| > 1 {
          assert pieces[1..] == rest[1..];
          assert Join(rest, sep) == rest[0] + [sep] + Join(rest[1..], sep);
        }
      }
      assert [s[0]] + s[1..] == s;
    }
  }

  /** The lower-cased pieces of a split, one for one. */
  function LowerAll(ws: seq<string>): (r: seq<string>)
    ensures |r| == |ws|
  {
    seq(|ws|, i requires 0 <= i < |ws| => Lower(ws[i]))
  }

  /** Lower-casing never touches the separator ' ', so it commutes with
      splitting on it. */
  lemma {:induction false} SplitLower(s: string)
    ensures Split(Lower(s), ' ') == LowerAll(Split(s, ' '))
  {
    if s != [] {
      SplitLower(s[1..]);
      LowerTail(s);
      if s[0] == ' ' {
        SplitLowerSpace(s);
      } else {
        SplitLowerChar(s);
      }
    }
  }

  lemma LowerTail(s: string)
    requires s != []
    ensures Lower(s)[0] == LowerChar(s[0]) && Lower(s)[1..] == Lower(s[1..])
  {
  }

  lemma SplitLowerSpace(s: string)
    requires s != [] && s[0] == ' '
    requires Lower(s)[0] == ' ' && Lower(s)[1..] == Lower(s[1..])
    requires Split(Lower(s[1..]), ' ') == LowerAll(Split(s[1..], ' '))
    ensures Split(Lower(s), ' ') == LowerAll(Split(s, ' '))
  {
    var rest := Split(s[1..], ' ');
    assert Split(s, ' ') == [""] + rest;
    assert Split(Lower(s), ' ') == [""] + LowerAll(rest);
  }

  lemma SplitLowerChar(s: string)
    requires s != [] && s[0] != ' '
    requires Lower(s)[0] == LowerChar(s[0]) && Lower(s)[1..] == Lower(s[1..])
    requires Split(Lower(s[1..]), ' ') == LowerAll(Split(s[1..], ' '))
    ensures Split(Lower(s), ' ') == LowerAll(Split(s, ' '))
  {
    var rest := Split(s[1..], ' ');
    var lrest := LowerAll(rest);
    assert Split(s, ' ') == [[s[0]] + rest[0]] + rest[1..];
    assert Split(Lower(s), ' ') == [[LowerChar(s[0])] + lrest[0]] + lrest[1..];
    LowerAllHead(s[0], rest[0], rest[1..]);
    LowerAllTail(rest);
  }

  lemma LowerAllHead(c: char, w: string, tail: seq<string>)
    ensures LowerAll([[c] + w] + tail) == [[LowerChar(c)] + Lower(w)] + LowerAll(tail)
  {
    LowerAppend([c], w);
    assert Lower([c]) == [LowerChar(c)];
    var l := LowerAll([[c] + w] + tail);
    assert l[0] == Lower([c] + w);
    assert forall i :: 1 <= i < |l| ==> l[i] == LowerAll(tail)[i - 1];
  }

  lemma LowerAllTail(ws: seq<string>)
    requires ws != []
    ensures LowerAll(ws)[0] == Lower(ws[0]) && LowerAll(ws[1..]) == LowerAll(ws)[1..]
  {
  }

  /** The pieces of a lower-case string are lower-case. */
  lemma {:induction false} WordOfLowerIsLower(s: string, i: nat)
    requires IsLowerCase(s)
    requires i < |Split(s, ' ')|
    ensures IsLowerCase(Split(s, ' ')[i])
    decreases |s|
  {
    if s != [] {
      var rest := Split(s[1..], ' ');
      if s[0] == ' ' {
        if i > 0 { WordOfLowerIsLower(s[1..], i - 1); }
      } else if i == 0 {
        WordOfLowerIsLower(s[1..], 0);
      } else {
        WordOfLowerIsLower(s[1..], i);
      }
    }
  }

  lemma WordsOfLowerAreLower(s: string)
    requires IsLowerCase(s)
    ensures forall i :: 0 <= i < |Split(s, ' ')| ==> IsLowerCase(Split(s, ' ')[i])
  {
    forall i | 0 <= i < |Split(s, ' ')| ensures IsLowerCase(Split(s, ' ')[i]) {
      WordOfLowerIsLower(s, i);
    }
  }

  // ------------------------------------------------------------ includes

  predicate StartsWith(s: string, prefix: string) {
    |prefix| <= |s| && s[..|prefix|] == prefix
  }

  /** t occurs in s starting at position i. */
  predicate OccursAt(s: string, t: string, i: int) {
    0 <= i && i + |t| <= |s| && s[i..i + |t|] == t
  }

  /** s.includes(t) */
  predicate Contains(s: string, t: string)
    decreases |s|
  {
    StartsWith(s, t) || (|s| > 0 && Contains(s[1..], t))
  }

  lemma {:induction false} ContainsIff(s: string, t: string)
    ensures Contains(s, t) <==> exists i :: OccursAt(s, t, i)
    decreases |s|
  {
    if StartsWith(s, t) {
      assert OccursAt(s, t, 0);
    } else if |s| == 0 {
      assert forall i :: !OccursAt(s, t, i);
    } else {
      ContainsIff(s[1..], t);
      if Contains(s[1..], t) {
        var i :| OccursAt(s[1..], t, i);
        OccursShift(s, t, i + 1);
      } else {
        forall i | OccursAt(s, t, i) ensures false {
          assert i != 0;
          OccursShift(s, t, i);
        }
      }
    }
  }

  /** An occurrence past the first character is an occurrence in the tail,
      one place earlier. */
  lemma OccursShift(s: string, t: string, i: int)
    requires |s| > 0 && i > 0
    ensures OccursAt(s, t, i) <==> OccursAt(s[1..], t, i - 1)
  {
    if i + |t| <= |s| {
      assert s[1..][i - 1..i - 1 + |t|] == s[i..i + |t|];
    }
  }

  lemma StartsWithContains(s: string, t: string)
    requires StartsWith(s, t)
    ensures Contains(s, t)
  {
  }

  /** What occurs in t occurs in any string that ends with t. */
  lemma {:induction false} ContainsInSuffix(p: string, t: string, x: string)
    requires Contains(t, x)
    ensures Contains(p + t, x)
  {
    if p != [] {
      assert (p + t)[1..] == p[1..] + t;
      ContainsInSuffix(p[1..], t, x);
    } else {
      assert p + t == t;
    }
  }

  /** Text that occurs in s still occurs once more text follows s. */
  lemma ContainsExtend(s: string, t: string, y: string)
    requires Contains(s, t)
    ensures Contains(s + y, t)
  {
    ContainsIff(s, t);
    var i :| OccursAt(s, t, i);
    assert (s + y)[i..i + |t|] == s[i..i + |t|];
    assert OccursAt(s + y, t, i);
    ContainsIff(s + y, t);
  }

  /** The middle piece of a concatenation occurs in it. */
  lemma ContainsPart(x: string, y: string, z: string)
    ensures Contains(x + y + z, y)
  {
    ContainsItself(y);
    ContainsInSuffix(x, y, y);
    ContainsExtend(x + y, y, z);
  }

  /** Occurrence is transitive: what occurs in a part occurs in the whole. */
  lemma ContainsTransitive(s: string, e: string, x: string)
    requires Contains(s, e) && Contains(e, x)
    ensures Contains(s, x)
  {
    ContainsIff(s, e);
    ContainsIff(e, x);
    var k :| OccursAt(s, e, k);
    var j :| OccursAt(e, x, j);
    forall m | 0 <= m < |x| ensures s[k + j + m] == x[m] {
      assert s[k..k + |e|][j + m] == e[j + m];
      assert e[j..j + |x|][m] == x[m];
    }
    assert s[k + j..k + j + |x|] == x;
    assert OccursAt(s, x, k + j);
    ContainsIff(s, x);
  }

  lemma ContainsItself(s: string)
    ensures Contains(s, s)
  {
    assert StartsWith(s, s);
  }

  /** Every word occurs in the join of the words. */
  lemma {:induction false} JoinContains(words: seq<string>, sep: char, i: nat)
    requires i < |words|
    ensures Contains(Join(words, sep), words[i])
  {
    if |words| == 1 {
      assert StartsWith(Join(words, sep), words[0]);
    } else if i == 0 {
      var j := Join(words, sep);
      assert j == words[0] + ([sep] + Join(words[1..], sep));
      assert StartsWith(j, words[0]);
    } else {
      JoinContains(words[1..], sep, i - 1);
      assert Join(words, sep) == (words[0] + [sep]) + Join(words[1..], sep);
      ContainsInSuffix(words[0] + [sep], Join(words[1..], sep), words[i]);
    }
  }

  // ----------------------------------------------------------------- trim

  /** WhiteSpace and LineTerminator code points of ECMA-262, the set that
      String.prototype.trim removes. */
  predicate IsJsSpace(c: char) {
    || c == '\t' || c == '\n' || c == '\U{000B}' || c == '\U{000C}' || c == '\r'
    || c == ' ' || c == '\U{00A0}' || c == '\U{1680}'
    || ('\U{2000}' <= c <= '\U{200A}')
    || c == '\U{2028}' || c == '\U{2029}' || c == '\U{202F}' || c == '\U{205F}'
    || c == '\U{3000}' || c == '\U{FEFF}'
  }

  function TrimStart(s: string): (r: string)
    ensures r == [] || !IsJsSpace(r[0])
    ensures |r| <= |s| && forall i :: 0 <= i < |r| ==> r[i] == s[|s| - |r| + i]
    ensures forall i :: 0 <= i < |s| - |r| ==> IsJsSpace(s[i])
  {
    if s != [] && IsJsSpace(s[0]) then TrimStart(s[1..]) else s
  }

  /** Text that does not open with white space is its own TrimStart. */
  lemma TrimStartKeeps(s: string)
    requires s == [] || !IsJsSpace(s[0])
    ensures TrimStart(s) == s
  {
    var r := TrimStart(s);
    assert |r| == |s|;
    assert forall i :: 0 <= i < |r| ==> r[i] == s[i];
  }

  function TrimEnd(s: string): (r: string)
    ensures r == [] || !IsJsSpace(r[|r| - 1])
    ensures |r| <= |s| && r == s[..|r|]
    ensures forall i :: |r| <= i < |s| ==> IsJsSpace(s[i])
  {
    if s != [] && IsJsSpace(s[|s| - 1]) then TrimEnd(s[..|s| - 1]) else s
  }

  /** s.trim() */
  function Trim(s: string): (r: string)
    ensures r == [] || (!IsJsSpace(r[0]) && !IsJsSpace(r[|r| - 1]))
  {
    TrimEnd(TrimStart(s))
  }

  /** Trimming adds no character. */
  lemma TrimKeepsOut(s: string, c: char)
    requires c !in s
    ensures c !in Trim(s)
  {
    TrimStartKeepsOut(s, c);
    TrimEndKeepsOut(TrimStart(s), c);
  }

  lemma TrimStartKeepsOut(s: string, c: char)
    requires c !in s
    ensures c !in TrimStart(s)
  {
    var t := TrimStart(s);
    forall i | 0 <= i < |t| ensures t[i] != c {
      assert t[i] == s[|s| - |t| + i];
    }
  }

  lemma TrimEndKeepsOut(s: string, c: char)
    requires c !in s
    ensures c !in TrimEnd(s)
  {
    var r := TrimEnd(s);
    forall i | 0 <= i < |r| ensures r[i] != c {
      assert r[i] == s[i];
    }
  }

  // --------------------------------------------------------------- length

  /** s.length: JavaScript counts UTF-16 code units, so a character beyond
      U+FFFF counts twice. */
  function Utf16Length(s: string): (n: nat)
    ensures |s| <= n <= 2 * |s|
  {
    if s == [] then 0
    else (if s[0] as int > 0xFFFF then 2 else 1) + Utf16Length(s[1..])
  }

  /** ASCII case mapping never changes a character's code-unit count. */
  lemma {:induction false} Utf16LengthLower(s: string)
    ensures Utf16Length(Lower(s)) == Utf16Length(s)
  {
    if s != [] {
      assert Lower(s)[1..] == Lower(s[1..]);
      Utf16LengthLower(s[1..]);
    }
  }

  // --------------------------------------------------------------- digits

  function DigitChar(d: nat): (c: char)
    requires d < 10
    ensures IsDigit(c)
  {
    ('0' as int + d) as char
  }

  predicate AllDigits(s: string) {
    forall i :: 0 <= i < |s| ==> IsDigit(s[i])
  }

  /** The value of a string of decimal digits. */
  function DigitsValue(s: string): nat
    requires AllDigits(s)
  {
    if s == [] then 0
    else DigitsValue(s[..|s| - 1]) * 10 + (s[|s| - 1] as int - '0' as int)
  }

  /** The decimal rendering of a natural number, as template literals and
      String(n) produce it: no sign, no leading zeros. */
  function NatToString(n: nat): (r: string)
    ensures |r| >= 1 && AllDigits(r)
    ensures r[0] == '0' ==> n == 0
  {
    if n < 10 then [DigitChar(n)] else NatToString(n / 10) + [DigitChar(n % 10)]
  }

  lemma {:induction false} NatToStringValue(n: nat)
    ensures DigitsValue(NatToString(n)) == n
  {
    if n >= 10 {
      NatToStringValue(n / 10);
      var s := NatToString(n);
      assert s[..|s| - 1] == NatToString(n / 10);
    }
  }
}
