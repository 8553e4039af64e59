/** The grounding block appended to the user's message
    (formatearProductosParaIA and the contextoProductos text of
    consultarIA): one entry per product found, with title-cased name,
    price, stock label and link, or a fixed sentence naming the query when
    nothing matched. */
module Grounding {
  import opened Options
  import opened Strings
  import opened Retrieval
  import opened Titles
  import opened Links

  // ---------------------------------------------------------- parseInt

  /** The value of c as a digit of the given radix (10 or 16). */
  function RadixDigit(c: char, radix: nat): Option<nat> {
    var v :=
      if IsDigit(c) then c as int - '0' as int
      else if 'a' <= c <= 'z' then c as int - 'a' as int + 10
      else if 'A' <= c <= 'Z' then c as int - 'A' as int + 10
      else 36;
    if v < radix then Some(v) else None
  }

  /** How many characters at the start of s are digits of the radix. */
  function DigitRun(s: string, radix: nat): (n: nat)
    ensures n <= |s|
    ensures forall i :: 0 <= i < n ==> RadixDigit(s[i], radix).Some?
    ensures n < |s| ==> RadixDigit(s[n], radix).None?
  {
    if s == [] || RadixDigit(s[0], radix).None? then 0 else 1 + DigitRun(s[1..], radix)
  }

  lemma ProductNonNegative(a: nat, b: nat)
    ensures a * b >= 0
  {
  }

  function RadixValue(ds: string, radix: nat): nat
    requires forall i :: 0 <= i < |ds| ==> RadixDigit(ds[i], radix).Some?
  {
    if ds == [] then 0
    else
      var init := ds[..|ds| - 1];
      assert forall i :: 0 <= i < |init| ==> init[i] == ds[i];
      var high := RadixValue(init, radix);
      ProductNonNegative(high, radix);
      high * radix + RadixDigit(ds[|ds| - 1], radix).value
  }

  /** The value of the longest run of digits of the radix at the start of
      s; None when there is none. */
  function LeadingValue(s: string, radix: nat): Option<nat> {
    var n := DigitRun(s, radix);
    if n == 0 then None
    else
      var run := s[..n];
      assert forall i :: 0 <= i < |run| ==> run[i] == s[i];
      Some(RadixValue(run, radix))
  }

  /** The unsigned part of parseInt: a "0x"/"0X" prefix selects
      hexadecimal, otherwise the digits are decimal. */
  function UnsignedValue(u: string): Option<nat> {
    if |u| >= 2 && u[0] == '0' && (u[1] == 'x' || u[1] == 'X') then LeadingValue(u[2..], 16)
    else LeadingValue(u, 10)
  }

  /** parseInt(s) with no radix: leading white space skipped, an optional
      sign, a "0x"/"0X" prefix selecting hexadecimal, then the longest run
      of digits; None is NaN (no digits at all). A plain decimal numeral,
      with or without a minus sign, reads as its value, and text that
      opens with a letter is NaN. */
  function ParseInt(s: string): (r: Option<int>)
    ensures |s| > 0 && AllDigits(s) ==> r == Some(DigitsValue(s))
    ensures |s| > 1 && s[0] == '-' && AllDigits(s[1..]) ==> r == Some(-(DigitsValue(s[1..]) as int))
    ensures s == [] || IsUpper(s[0]) || IsLower(s[0]) ==> r == None
  {
    DecimalCase(s);
    NegativeCase(s);
    LetterCase(s);
    SignedValue(TrimStart(s))
  }

  /** parseInt after the leading white space: an optional sign, then the
      unsigned part. */
  function SignedValue(t: string): Option<int> {
    var negative := |t| > 0 && t[0] == '-';
    var u := if |t| > 0 && (t[0] == '-' || t[0] == '+') then t[1..] else t;
    var v := UnsignedValue(u);
    if v.None? then None
    else
      var magnitude: int := v.value;
      Some(if negative then -magnitude else magnitude)
  }

  /** A decimal numeral is its own TrimStart and reads as its value. */
  lemma DecimalCase(s: string)
    ensures |s| > 0 && AllDigits(s) ==> TrimStart(s) == s && SignedValue(s) == Some(DigitsValue(s))
  {
    if |s| > 0 && AllDigits(s) {
      assert IsDigit(s[0]);
      TrimStartKeeps(s);
      DecimalValue(s);
    }
  }

  lemma DecimalValue(s: string)
    requires |s| > 0 && AllDigits(s)
    ensures SignedValue(s) == Some(DigitsValue(s))
  {
    assert IsDigit(s[0]);
    DecimalLeadingValue(s);
  }

  /** A minus sign before a decimal numeral negates its value. */
  lemma NegativeCase(s: string)
    ensures |s| > 1 && s[0] == '-' && AllDigits(s[1..]) ==>
      TrimStart(s) == s && SignedValue(s) == Some(-(DigitsValue(s[1..]) as int))
  {
    if |s| > 1 && s[0] == '-' && AllDigits(s[1..]) {
      TrimStartKeeps(s);
      NegativeValue(s);
    }
  }

  lemma NegativeValue(s: string)
    requires |s| > 1 && s[0] == '-' && AllDigits(s[1..])
    ensures SignedValue(s) == Some(-(DigitsValue(s[1..]) as int))
  {
    DecimalLeadingValue(s[1..]);
    assert UnsignedValue(s[1..]) == Some(DigitsValue(s[1..]));
  }

  /** Text that opens with a letter has no digits to read. */
  lemma LetterCase(s: string)
    ensures |s| > 0 && (IsUpper(s[0]) || IsLower(s[0])) ==> TrimStart(s) == s && SignedValue(s).None?
  {
    if |s| > 0 && (IsUpper(s[0]) || IsLower(s[0])) {
      TrimStartKeeps(s);
      LetterValue(s);
    }
  }

  lemma LetterValue(s: string)
    requires |s| > 0 && (IsUpper(s[0]) || IsLower(s[0]))
    ensures SignedValue(s).None?
  {
    assert RadixDigit(s[0], 10).None?;
    assert DigitRun(s, 10) == 0;
  }

  lemma {:induction false} RadixValueDecimal(s: string)
    requires AllDigits(s)
    ensures forall i :: 0 <= i < |s| ==> RadixDigit(s[i], 10).Some?
    ensures RadixValue(s, 10) == DigitsValue(s)
  {
    if s != [] {
      RadixValueDecimal(s[..|s| - 1]);
    }
  }

  lemma {:induction false} DigitRunAll(s: string)
    requires AllDigits(s)
    ensures DigitRun(s, 10) == |s|
  {
    if s != [] {
      DigitRunAll(s[1..]);
    }
  }

  /** parseInt reads back what String(n) writes. */
  lemma ParseIntNatToString(n: nat)
    ensures ParseInt(NatToString(n)) == Some(n)
  {
    NatToStringValue(n);
  }

  lemma DecimalLeadingValue(s: string)
    requires |s| > 0 && AllDigits(s)
    ensures UnsignedValue(s) == Some(DigitsValue(s))
  {
    DigitRunAll(s);
    assert s[..|s|] == s;
    RadixValueDecimal(s);
  }

  // -------------------------------------------------------------- stock

  /** parseInt(p.STOCK) > 0 (NaN compares false): a count is in stock
      exactly when it is positive, and a negative count or a text that
      opens with a letter never is. */
  predicate InStock(stock: string)
    ensures |stock| > 0 && AllDigits(stock) ==> (InStock(stock) <==> DigitsValue(stock) > 0)
    ensures |stock| > 1 && stock[0] == '-' && AllDigits(stock[1..]) ==> !InStock(stock)
    ensures stock == [] || IsUpper(stock[0]) || IsLower(stock[0]) ==> !InStock(stock)
  {
    var v := ParseInt(stock); v.Some? && v.value > 0
  }

  const OutOfStock := "❌ Sin stock"

  /** The availability label; the quantity shown is the STOCK text as
      it came. The label says "no stock" exactly when the product is not
      in stock, and otherwise shows the STOCK text. */
  function StockLabel(stock: string): (r: string)
    ensures r == OutOfStock <==> !InStock(stock)
    ensures InStock(stock) ==> Contains(r, stock)
  {
    if InStock(stock) then
      ContainsPart("✅ ", stock, " en stock");
      assert ("✅ " + stock + " en stock")[0] != OutOfStock[0];
      "✅ " + stock + " en stock"
    else OutOfStock
  }

  /** A stock written as a plain count shows that count when positive and
      "no stock" when it is zero. */
  lemma StockLabelOfCount(n: nat)
    ensures StockLabel(NatToString(n)) ==
      if n > 0 then "✅ " + NatToString(n) + " en stock" else OutOfStock
  {
    ParseIntNatToString(n);
  }

  // ---------------------------------------------------------- entries

  const NoProductsFound := "No se encontraron productos relacionados."

  /** How both forms of the block open. */
  const BlockLead := "\n\n📦 "

  const FoundHeader := BlockLead + "PRODUCTOS ENCONTRADOS" + " (usá estos datos y links en tu respuesta):\n"

  /** One entry of the list. The price text comes from formatPrice, which
      stands for parseFloat(...).toLocaleString('es-AR'). */
  function ProductEntry(p: Product, formatPrice: string -> string): (r: string)
    ensures Contains(r, CapitalizeTitle(p.detail))
    ensures Contains(r, formatPrice(p.salePrice))
    ensures Contains(r, StockLabel(p.stock))
    ensures Contains(r, ProductLink(p.code))
  {
    var name := CapitalizeTitle(p.detail);
    var price := formatPrice(p.salePrice);
    var stockText := StockLabel(p.stock);
    var link := ProductLink(p.code);
    var r := "• " + name + " | $" + price + " | " + stockText + "\n  🔗 " + link;
    EntryPieces("• ", name, " | $", price, " | ", stockText, "\n  🔗 ", link);
    r
  }

  /** The name, price, stock label and link each occur in an entry built
      around them. */
  lemma EntryPieces(a: string, name: string, b: string, price: string, c: string, stockText: string, d: string, link: string)
    ensures Contains(a + name + b + price + c + stockText + d + link, name)
    ensures Contains(a + name + b + price + c + stockText + d + link, price)
    ensures Contains(a + name + b + price + c + stockText + d + link, stockText)
    ensures Contains(a + name + b + price + c + stockText + d + link, link)
  {
    ContainsPart(a, name, b);
    ContainsExtend(a + name + b, name, price);
    ContainsExtend(a + name + b + price, name, c);
    ContainsExtend(a + name + b + price + c, name, stockText);
    ContainsExtend(a + name + b + price + c + stockText, name, d);
    ContainsExtend(a + name + b + price + c + stockText + d, name, link);
    ContainsPart(a + name + b, price, c);
    ContainsExtend(a + name + b + price + c, price, stockText);
    ContainsExtend(a + name + b + price + c + stockText, price, d);
    ContainsExtend(a + name + b + price + c + stockText + d, price, link);
    ContainsPart(a + name + b + price + c, stockText, d);
    ContainsExtend(a + name + b + price + c + stockText + d, stockText, link);
    ContainsPart(a + name + b + price + c + stockText + d, link, "");
    assert a + name + b + price + c + stockText + d + link + "" == a + name + b + price + c + stockText + d + link;
  }

  /** formatearProductosParaIA(lista), reading the sale price from the
      record's "P.VENTA" key. */
  function FormatProducts(found: seq<Scored>, formatPrice: string -> string): (r: string)
    ensures r == NoProductsFound <==> |found| == 0
  {
    if |found| == 0 then NoProductsFound
    else
      var entries := seq(|found|, i requires 0 <= i < |found| => ProductEntry(found[i].product, formatPrice));
      JoinContains(entries, '\n', 0);
      EntryNotNoProducts(found[0].product, formatPrice, Join(entries, '\n'));
      Join(entries, '\n')
  }

  /** contextoProductos: what consultarIA appends to the user's message.
      It opens with the "products found" header exactly when the search
      found something. */
  function ProductContext(message: string, found: seq<Scored>, formatPrice: string -> string): (r: string)
    ensures |found| > 0 <==> StartsWith(r, FoundHeader)
  {
    if |found| > 0 then FoundHeader + FormatProducts(found, formatPrice)
    else
      var r := BlockLead + "No encontré productos" + " que coincidan con \"" + message + "\" en el catálogo.";
      assert r[|BlockLead|] == 'N' != FoundHeader[|BlockLead|];
      r
  }

  /** Every product found shows up in the block with its own entry, and
      so with its link. */
  lemma ContextListsProduct(message: string, found: seq<Scored>, formatPrice: string -> string, i: nat)
    requires i < |found|
    ensures Contains(ProductContext(message, found, formatPrice), ProductEntry(found[i].product, formatPrice))
    ensures Contains(ProductContext(message, found, formatPrice), ProductLink(found[i].product.code))
  {
    var entries := seq(|found|, i requires 0 <= i < |found| => ProductEntry(found[i].product, formatPrice));
    var e := entries[i];
    JoinContains(entries, '\n', i);
    ContainsInSuffix(FoundHeader, FormatProducts(found, formatPrice), e);
    ContainsTransitive(ProductContext(message, found, formatPrice), e, ProductLink(found[i].product.code));
  }

  /** With nothing found the block names the user's own words. */
  lemma ContextNamesQuery(message: string, formatPrice: string -> string)
    ensures Contains(ProductContext(message, [], formatPrice), message)
  {
    ContainsPart(BlockLead + "No encontré productos" + " que coincidan con \"", message, "\" en el catálogo.");
  }

  // ------------------------------------------------ the price, as written

  /** What a statement of the source throws. */
  datatype Thrown = TypeError

  datatype Outcome<T> = Returned(value: T) | Threw(error: Thrown)

  /** p.P.VENTA as index.js writes it: the property "P", then its property
      "VENTA". Assuming the record has no key "P" (its shape is not in
      index.js), p.P is undefined and reading VENTA from it throws. */
  function SalePriceAsWritten(p: Product): Outcome<string> {
    Threw(TypeError)
  }

  /** formatearProductosParaIA as written: map stops at the first entry
      whose price lookup throws. */
  function FormatProductsAsWritten(found: seq<Scored>, formatPrice: string -> string): Outcome<string> {
    if |found| == 0 then Returned(NoProductsFound)
    else
      var price := SalePriceAsWritten(found[0].product);
      if price.Threw? then Threw(price.error)
      else Returned(FormatProducts(found, formatPrice))
  }

  /** For records without a key "P", the source's lookup throws for every
      match: whenever the search finds anything, formatting it throws,
      while the intended lookup of "P.VENTA" lists the product. */
  lemma PriceLookupThrows(found: seq<Scored>, formatPrice: string -> string)
    requires |found| > 0
    ensures FormatProductsAsWritten(found, formatPrice) == Threw(TypeError)
    ensures FormatProducts(found, formatPrice) != NoProductsFound
  {
  }

  lemma EntryNotNoProducts(p: Product, formatPrice: string -> string, s: string)
    requires Contains(s, ProductEntry(p, formatPrice))
    ensures s != NoProductsFound
  {
    ContainsIff(s, ProductEntry(p, formatPrice));
  }
}
