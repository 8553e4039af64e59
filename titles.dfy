/** Title casing of product descriptions (capitalizarTitulo): every word
    of the lower-cased text gets a capital first letter, except listed
    abbreviations, which are written all in capitals, and listed
    connectors, which stay lower-case. */
module Titles {
  import opened Strings

  /** Short Spanish connectors kept lower-case. */
  const Connectors: seq<string> := ["y", "a", "o", "de", "para", "en", "con"]

  /** Technical abbreviations written in capitals. */
  const Abbreviations: seq<string> :=
    ["hdmi", "vga", "rca", "gb", "rgb", "led", "otg", "ps2", "pc", "sata", "sd", "usb"]

  /** One already lower-cased word. An empty word (two spaces in a row)
      stays empty. */
  function CapitalizeWord(w: string): (r: string)
    ensures |r| == |w|
    ensures Lower(r) == Lower(w)
  {
    if w in Abbreviations then
      assert forall i :: 0 <= i < |w| ==> LowerChar(UpperChar(w[i])) == LowerChar(w[i]);
      Upper(w)
    else if w in Connectors then w
    else if w == [] then w
    else
      LowerAppend([UpperChar(w[0])], w[1..]);
      LowerAppend([w[0]], w[1..]);
      assert [w[0]] + w[1..] == w;
      [UpperChar(w[0])] + w[1..]
  }

  function CapitalizeWords(words: seq<string>): seq<string> {
    seq(|words|, i requires 0 <= i < |words| => CapitalizeWord(words[i]))
  }

  /** capitalizarTitulo(str): only the case of letters changes. */
  function CapitalizeTitle(s: string): (r: string)
    ensures |r| == |s|
    ensures Lower(r) == Lower(s)
  {
    TitleOnlyChangesCase(s);
    Join(CapitalizeWords(Split(Lower(s), ' ')), ' ')
  }

  /** Lower-casing the title-cased words, joined again, gives back the
      lower-cased input. */
  lemma {:induction false} TitleOnlyChangesCase(s: string)
    ensures Lower(Join(CapitalizeWords(Split(Lower(s), ' ')), ' ')) == Lower(s)
  {
    var ws := Split(Lower(s), ' ');
    var t := Join(CapitalizeWords(ws), ' ');
    LowerIsLowerCase(s);
    WordsOfLowerAreLower(Lower(s));
    TitleWordsSplit(s);
    SplitLower(t);
    forall i | 0 <= i < |ws| ensures Lower(CapitalizeWord(ws[i])) == ws[i] {
      LowerOfLowerCase(ws[i]);
    }
    assert Split(Lower(t), ' ') == ws;
    JoinSplit(Lower(t), ' ');
    JoinSplit(Lower(s), ' ');
  }

  /** Splitting the joined title-cased words gives them back. */
  lemma {:induction false} TitleWordsSplit(s: string)
    ensures Split(Join(CapitalizeWords(Split(Lower(s), ' ')), ' '), ' ') == CapitalizeWords(Split(Lower(s), ' '))
  {
    var words := CapitalizeWords(Split(Lower(s), ' '));
    forall i | 0 <= i < |words| ensures ' ' !in words[i] {
      CapitalizeWordNoSpace(Split(Lower(s), ' ')[i]);
    }
    SplitJoin(words, ' ');
  }

  lemma CapitalizeWordNoSpace(w: string)
    requires ' ' !in w
    ensures ' ' !in CapitalizeWord(w)
  {
    if w in Abbreviations {
      assert forall i :: 0 <= i < |w| ==> UpperChar(w[i]) != ' ';
    }
  }

  /** Capitalising a lower-case word and lower-casing the result gives the
      word back. */
  lemma LowerCapitalizeWord(w: string)
    requires IsLowerCase(w)
    ensures Lower(CapitalizeWord(w)) == w
  {
    LowerOfLowerCase(w);
  }

  /** The words of the title are the capitalised words of the lower-cased
      input, one for one. */
  lemma {:induction false} TitleWords(s: string)
    ensures Split(CapitalizeTitle(s), ' ') == CapitalizeWords(Split(Lower(s), ' '))
  {
    TitleWordsSplit(s);
  }

  /** The title has exactly as many space-separated words as the input. */
  lemma {:induction false} TitleWordCount(s: string)
    ensures |Split(CapitalizeTitle(s), ' ')| == |Split(s, ' ')|
  {
    TitleWords(s);
    SplitLower(s);
  }

  /** Word i of the title is word i of the input, lower-cased, then
      capitalised. */
  lemma {:induction false} TitleWordAt(s: string, i: nat)
    requires i < |Split(s, ' ')|
    ensures i < |Split(CapitalizeTitle(s), ' ')|
    ensures Split(CapitalizeTitle(s), ' ')[i] == CapitalizeWord(Lower(Split(s, ' ')[i]))
  {
    TitleWords(s);
    SplitLower(s);
  }

  /** A listed abbreviation, in whatever case it was typed, comes out all
      in capitals. */
  lemma TitleAbbreviation(s: string, i: nat)
    requires i < |Split(s, ' ')|
    requires Lower(Split(s, ' ')[i]) in Abbreviations
    ensures i < |Split(CapitalizeTitle(s), ' ')|
    ensures Split(CapitalizeTitle(s), ' ')[i] == Upper(Lower(Split(s, ' ')[i]))
  {
    TitleWordAt(s, i);
  }

  /** A listed connector, in whatever case it was typed, comes out
      lower-case. */
  lemma TitleConnector(s: string, i: nat)
    requires i < |Split(s, ' ')|
    requires Lower(Split(s, ' ')[i]) in Connectors
    ensures i < |Split(CapitalizeTitle(s), ' ')|
    ensures Split(CapitalizeTitle(s), ' ')[i] == Lower(Split(s, ' ')[i])
  {
    TitleWordAt(s, i);
    ConnectorsNotAbbreviations(Lower(Split(s, ' ')[i]));
  }

  /** No connector is also an abbreviation. */
  lemma ConnectorsNotAbbreviations(w: string)
    requires w in Connectors
    ensures w !in Abbreviations
  {
  }

  /** Any other non-empty word comes out with its first letter in capitals
      and the rest in lower case. */
  lemma TitleOtherWord(s: string, i: nat)
    requires i < |Split(s, ' ')|
    requires var w := Lower(Split(s, ' ')[i]); w !in Abbreviations && w !in Connectors && w != []
    ensures i < |Split(CapitalizeTitle(s), ' ')|
    ensures var w := Lower(Split(s, ' ')[i]);
            Split(CapitalizeTitle(s), ' ')[i] == [UpperChar(w[0])] + w[1..]
  {
    TitleWordAt(s, i);
  }

  /** Title casing a title changes nothing. */
  lemma {:induction false} CapitalizeTitleIdempotent(s: string)
    ensures CapitalizeTitle(CapitalizeTitle(s)) == CapitalizeTitle(s)
  {
    var t := CapitalizeTitle(s);
    assert Lower(t) == Lower(s);
  }
}
