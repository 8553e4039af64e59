# Nova Center WhatsApp sales assistant: the retrieval and conversation core

The Nova Center bot answers WhatsApp customers with a chat-completion model.
This project models what `index.js` does between a customer's message and
the request sent to the model, and what it does with the answer:

- the catalog cache (`cargarProductos`, `productosActualizados`) keeps the
  product listing and the time of the last successful load, and refetches
  when there is no load yet, when thirty minutes have passed, or when the
  listing is empty;
- product search (`buscarProductos`) lower-cases the query, splits it on
  single spaces, keeps the words longer than two UTF-16 code units, scores
  every product by how many of those words occur in its description or
  family, drops the zero scores, sorts stably by descending score and keeps
  five;
- the grounding block (`formatearProductosParaIA` and the
  `contextoProductos` text) lists each product found with its title-cased
  name (`capitalizarTitulo`), price, stock label and link (`linkProducto`,
  with `encodeURIComponent` over UTF-8), or names the query when nothing
  matched;
- the category summary of the system prompt (`generarResumenCatalogo`)
  counts products per trimmed top-level family in a plain object and writes
  one line per key, in the order `Object.entries` lists the keys;
- the per-user memory of `consultarIA` creates a user's history lazily,
  pushes the user's turn (message plus grounding block), trims the history
  to its last ten entries, sends the system prompt followed by that history,
  and stores the assistant's answer only when one came back; on a service
  error or an exception it returns one of two fixed apologies.

Modules, one per file: `Options` (option.dfy), `Strings` (strings.dfy: the
JavaScript string operations the code uses: ASCII case mapping, `split`,
`join`, `includes`, `trim`, `length` in UTF-16 code units, decimal
rendering), `Retrieval`, `Titles`, `Links`, `Grounding`, `Summary`, `Cache`,
`History` and `Bot`. The pure chains of `map`, `filter`, `sort` and `slice`
are functions. The counting loop of `generarResumenCatalogo` is a method
with a `while` loop over a map and a key sequence. The module-level state
(`productos`, `ultimaActualizacion`, `conversaciones`) is the class
`Bot.Bot`, whose methods update it in place.

Behaviour of the code that is easy to misread:

- The query is split on the single space character, not on all white
  space, and a token that occurs twice in the query counts twice in the
  score (index.js:68, 74).
- An empty listing is refetched on every call, however recent the last load
  (index.js:43).
- The history is trimmed only after the user's turn is pushed. After an
  answer it can hold up to eleven entries, though at most ten are ever
  sent (index.js:136-138, 166).
- The summary's keys come out in `Object.entries` order, not in
  first-appearance order. Families that are array indices (such as "2024")
  come first, in ascending numeric order; the other families follow in
  first-appearance order (index.js:100).
- The sale price is read as `p.P.VENTA`. If the records hold the price under the flat key "P.VENTA" (the record shape is not in index.js), this throws (see Findings).

## Model

| member | source | states |
|---|---|---|
| Strings.Lower | index.js:68-73 | `toLowerCase` maps each character to one character, so the length is kept |
| Strings.LowerIsLowerCase | index.js:68-73 | the result of `toLowerCase` has no upper-case letter, and lower-casing it again changes nothing |
| Strings.LowerOfLowerCase | index.js:56 | `toLowerCase` leaves lower-case text as it is |
| Strings.LowerAppend | index.js:54 | `toLowerCase` works character by character: the lower-cased concatenation is the concatenation of the lower-cased parts |
| Strings.Upper | index.js:55-57 | `toUpperCase` keeps the length and leaves no lower-case letter |
| Strings.LowerOfUpper | index.js:55 | upper-casing lower-case text and lower-casing it again gives it back |
| Strings.Join | index.js:58 | `join` of no words is empty and of one word is that word; for one or more words the result starts with the first word and is one character longer than the words per gap |
| Strings.JoinAppend | index.js:58 | joining two non-empty lists puts exactly one separator where they meet, so with the one-word case join is fixed for every list, including words that contain the separator |
| Strings.Split | index.js:54 | `split` yields at least one piece and no piece contains the separator |
| Strings.SplitJoin | index.js:54-58 | splitting the join of separator-free words gives the words back |
| Strings.JoinSplit | index.js:54-58 | joining the pieces of a split gives the string back |
| Strings.ContainsIff | index.js:74 | `includes` holds exactly when the needle occurs at some position |
| Strings.Trim | index.js:96 | the trimmed text neither starts nor ends with ECMAScript white space |
| Strings.TrimStart | index.js:96 | trimming the front leaves a suffix of the input that does not start with white space |
| Strings.TrimEnd | index.js:96 | trimming the end leaves a prefix of the input that does not end with white space |
| Strings.Utf16Length | index.js:68 | a string's `length` lies between its character count and twice that |
| Strings.NatToStringValue | index.js:101 | the decimal rendering of a count reads back as that count |
| Retrieval.LongWords | index.js:68 | keeps exactly the words longer than two code units, in order, repetitions included |
| Retrieval.Tokens | index.js:68 | every search token is lower-case, has no space and is longer than two code units |
| Retrieval.LongWordsAppend | index.js:68 | the length filter works word by word: the long words of a concatenation are those of each part, in turn |
| Retrieval.LongWordsCount | index.js:68 | a long word is kept exactly as many times as it occurs, a short one never |
| Retrieval.TokensOfWords | index.js:68 | the tokens of space-joined words are their lower-cased forms, filtered by length, in order and with repeats |
| Retrieval.TokensOfRepeatedWord | index.js:68 | a long word typed twice gives two equal tokens |
| Retrieval.TokensOfWord | index.js:68 | a single word is one lower-cased token when longer than two code units, and none otherwise |
| Retrieval.MatchesAt | index.js:72-74 | a token matches exactly when it occurs at some position of the lower-cased DETALLE or of the lower-cased FAMILIA |
| Retrieval.UpperTokenNeverMatches | index.js:72-74 | a token holding an upper-case letter never matches, since both texts are lower-cased first |
| Retrieval.Score | index.js:72-74 | a score never exceeds the number of tokens |
| Retrieval.ScoreAppend | index.js:74 | the score adds up over the token list, so a repeated token counts again |
| Retrieval.ScoreExtremes | index.js:74-77 | the score is zero exactly when no token matches, and equals the token count exactly when every token matches |
| Retrieval.Candidates | index.js:71-77 | every candidate has a positive score, equal to its product's score |
| Retrieval.CandidatesFromListing | index.js:70-77 | every candidate is a listed product |
| Retrieval.CandidatesComplete | index.js:71-77 | every listed product with a positive score is a candidate with that score |
| Retrieval.CandidatesAppend | index.js:70-77 | candidates keep listing order: those of a concatenation are those of each part, in turn |
| Retrieval.SortByScore | index.js:78 | the sort is non-increasing by score and a permutation of its input |
| Retrieval.SortByScoreStable | index.js:78 | for every score, the entries with that score come out in input order |
| Retrieval.StableSortUnique | index.js:78 | two score-sorted sequences that agree on the order within every score are equal, so every stable sort gives the same result |
| Retrieval.Ranked | index.js:70-79 | at most five results, sorted by score, each from the listing with its own score of at least one |
| Retrieval.Search | index.js:67-80 | no tokens give no results; otherwise at most five listed products with their scores of at least one, highest first |
| Retrieval.TakeKeepsBest | index.js:79 | the cut to five keeps everything when fewer remain, and otherwise drops nothing that outscores the last entry kept |
| Retrieval.RankedKeepsBest | index.js:77-79 | the results are candidates, all of them when fewer than five, and no dropped candidate outscores the fifth result |
| Retrieval.RankedIsStable | index.js:78-79 | within one score the results are the first candidates of that score, in listing order |
| Titles.CapitalizeWord | index.js:54-57 | a word keeps its length and changes only in case |
| Titles.CapitalizeTitle | index.js:51-59 | the title has the input's length and differs from it only in case |
| Titles.TitleOnlyChangesCase | index.js:54-58 | lower-casing the joined capitalised words gives the lower-cased input |
| Titles.LowerCapitalizeWord | index.js:55-57 | lower-casing a capitalised lower-case word gives it back |
| Titles.TitleWords | index.js:54-58 | the title's words are the capitalised words of the lower-cased input, one for one |
| Titles.TitleWordCount | index.js:54-58 | the title has as many space-separated words as the input |
| Titles.TitleWordAt | index.js:54-58 | word i of the title is word i of the input, lower-cased and then capitalised |
| Titles.TitleAbbreviation | index.js:53-55 | a listed abbreviation, typed in any case, comes out all in capitals |
| Titles.TitleConnector | index.js:52-56 | a listed connector, typed in any case, comes out lower-case |
| Titles.TitleOtherWord | index.js:57 | any other non-empty word gets a capital first letter and lower-case rest |
| Titles.CapitalizeTitleIdempotent | index.js:51-59 | title-casing a title changes nothing |
| Links.Utf8 | index.js:62 | a character is encoded as one to four UTF-8 bytes |
| Links.EncodeUriComponent | index.js:62 | the encoded code has between one and twelve characters per character of the input |
| Links.PercentEncode | index.js:62 | every byte becomes three characters |
| Links.ProductLink | index.js:61-63 | a link starts with the store's base URL |
| Links.DecodeEncodedChar | index.js:62 | the escapes written for one character decode back to it |
| Links.DecodeEncode | index.js:62 | `decodeURIComponent` undoes `encodeURIComponent` for every string |
| Links.EncodedAlphabet | index.js:62 | an encoded code holds only unreserved characters, '%' and upper-case hexadecimal digits |
| Links.EncodeUnreserved | index.js:62 | a code made of unreserved characters appears in the link unchanged |
| Links.ProductLinkDecodes | index.js:61-63 | the product code can be read back from its link |
| Grounding.DigitRun | index.js:87 | the digit run is the longest prefix of digits of the radix |
| Grounding.ParseInt | index.js:87 | a digit string reads as its decimal value, a minus sign and digits as the negated value, and the empty string or a leading letter as NaN |
| Grounding.ParseIntNatToString | index.js:87 | `parseInt` reads back the decimal rendering of any count |
| Grounding.InStock | index.js:87 | a digit string is in stock exactly when its value is positive; a negative numeral, the empty string and a word are not |
| Grounding.StockLabel | index.js:87 | the label is "❌ Sin stock" exactly when the stock is not positive, and otherwise shows the stock text |
| Grounding.StockLabelOfCount | index.js:87 | a positive count shows as "✅ n en stock", zero as "❌ Sin stock" |
| Grounding.FormatProducts | index.js:82-90 | the list is the "no products" sentence exactly when nothing was found (with the price read from "P.VENTA") |
| Grounding.ProductEntry | index.js:84-89 | an entry carries the product's title-cased name, its formatted price, its stock label and its link |
| Grounding.ProductContext | index.js:112-114 | the block opens with the "PRODUCTOS ENCONTRADOS" header exactly when some product was found |
| Grounding.ContextListsProduct | index.js:112-114 | every product found has its entry, and so its link, in the grounding block |
| Grounding.ContextNamesQuery | index.js:114 | with nothing found, the block names the user's own words |
| Grounding.EntryNotNoProducts | index.js:83-90 | text that holds an entry is not the "no products" sentence |
| Grounding.PriceLookupThrows | index.js:86 | for records without a key "P", formatting any non-empty result as written throws a TypeError, while the intended "P.VENTA" lookup lists the products |
| Summary.TopFamily | index.js:96 | the family key holds no '>' and neither starts nor ends with white space |
| Summary.Families | index.js:95-96 | one top-level family per product, in listing order |
| Summary.Occurrences | index.js:97-98 | a family's count never exceeds the number of products |
| Summary.KeyOrder | index.js:97-100 | the object's keys are distinct |
| Summary.KeyOrderMembers | index.js:97-100 | the keys are exactly the families met |
| Summary.NamedKeysInFirstAppearanceOrder | index.js:97-100 | families that are not array indices come out in the order the loop first met them |
| Summary.KeyOrderShape | index.js:97-100 | array-index families come first, in ascending numeric order |
| Summary.OneLinePerFamily | index.js:100-102 | one line per distinct family, each family on its own line with its own count |
| Summary.CountsAddUp | index.js:95-99 | the counts add up to the number of products |
| Summary.TallyStep | index.js:96-98 | one round of the loop extends the tally by one family |
| Summary.AddOccurrence | index.js:97-98 | a family met for the first time gets a key and count 0, then its count goes up by one |
| Summary.CountProduct | index.js:95-99 | the callback counts the product's trimmed top-level family |
| Summary.CountFamilies | index.js:94-99 | after the loop the keys are in object order and each count is the number of products of that family |
| Summary.LinesOfTally | index.js:100-102 | the lines read off the finished tally are the summary lines |
| Summary.SummaryLineInjective | index.js:101 | a line `- f (n productos)` determines its family and its count: equal lines have equal families and counts |
| Summary.CatalogText | index.js:100-102 | the summary is empty exactly when the listing is |
| Summary.CatalogSummary | index.js:93-103 | the method's text is the summary of the listing |
| Cache.MinutesTestInMillis | index.js:40-43 | the minutes test is the millisecond test `now - last >= 1800000` |
| Cache.RefreshDue | index.js:40-43 | a refresh is due exactly when there is no timestamp, 1800000 ms or more have passed, or the listing is empty |
| Cache.AfterLoad | index.js:25-36 | a failed load changes nothing; a fetched listing replaces the listing and is fresh at its load time unless it is empty |
| Cache.AfterCurrent | index.js:38-47 | with no refresh due nothing changes; a due refresh that fetches a non-empty listing leaves no refresh due |
| Cache.FailedLoadKeepsState | index.js:25-44 | a failed fetch, by status or by exception, changes neither the listing nor the timestamp |
| Cache.ServedListing | index.js:38-47 | the listing served is the fetched one exactly when a refresh was due and the fetch succeeded |
| Cache.FreshListingServed | index.js:38-47 | a non-empty listing is served from the cache for thirty minutes after its load |
| Cache.StaleListingRefetched | index.js:40-44 | after thirty minutes the next call refetches |
| Cache.EmptyListingRefetched | index.js:43-44 | an empty listing is refetched on every call |
| History.KeepLast | index.js:136-138 | `slice(-10)` keeps the last ten entries, or all of them when there are fewer |
| History.PushUserTurn | index.js:132-139 | after the push and trim: one more entry, capped at ten, a suffix of the old history plus the turn, ending with the turn |
| History.Record | index.js:159-167 | an answer is appended as an assistant turn; otherwise the history is unchanged |
| History.ReplyText | index.js:160-171 | the reply is the answer, or one of the two fixed apologies |
| History.Request | index.js:150-153 | the request is the system prompt followed by the stored history; when the history holds no system turn, none follows the prompt |
| History.KeepLastSlides | index.js:136-138 | trimming a history to its last n entries before appending more and trimming again keeps the same window as trimming once |
| History.ExchangeKeepsWellFormed | index.js:132-166 | an exchange keeps a history well formed (at most eleven entries, no system turn, no two adjacent answers), and only an answer makes it longer than ten |
| History.RequestShape | index.js:148-151 | the request is the system prompt plus at most ten stored turns, the newest the user's |
| History.ReplyRecorded | index.js:159-171 | an answer is the reply and the newest stored turn; on either error the reply is the fixed apology and the newest turn stays the user's |
| Bot.UserTurn | index.js:111-135 | the stored turn is a user turn that starts with the user's words, followed by the found-products header exactly when something was found |
| Bot.UserTurnGrounded | index.js:132-135 | the stored user turn carries the link of every product found |
| Bot.Ground | index.js:110-128 | the turn is the message plus the grounding block of the search results, and the summary is that of the listing |
| Bot.Bot.constructor | index.js:19-21 | the state starts with an empty listing, no timestamp and no histories |
| Bot.Bot.LoadProducts | index.js:25-36 | only a fetched listing replaces the listing and the timestamp |
| Bot.Bot.CurrentProducts | index.js:38-47 | the state after the call is the cache transition, and the listing returned is the one held |
| Bot.Bot.OpenHistory | index.js:108 | a user with no history gets an empty one; other histories are unchanged |
| Bot.Bot.PushTurn | index.js:132-139 | the user's history becomes the pushed and trimmed one |
| Bot.Bot.RecordReply | index.js:159-171 | only an answer is stored; the reply is the answer or the fixed apology |
| Bot.Bot.Exchange | index.js:132-171 | the request is the system prompt plus the trimmed history, the stored history and reply follow the completion, and every history stays well formed |
| Bot.Bot.Consult | index.js:107-173 | one call of `consultarIA`: the cache transition, the request built from the summary and the grounded user turn, the stored history and the reply |

## Left out

- The WhatsApp socket, QR printing, credential saving, reconnection and message filtering (index.js:177-239): event-driven transport plumbing.
- The fetch of the catalog and the chat-completion request, with their JSON encoding and decoding (index.js:28-30, 142-158): network I/O. Their outcomes are inputs (`Cache.FetchOutcome`, `History.Completion`).
- The clock: `new Date()` is a parameter in milliseconds: `now` for the staleness test, and `completedAt` (in `Bot.Bot.Consult`, `fetchedAt`) for the time a load finished.
- The instruction text of the system prompt (index.js:116-128): the parameter `promptHead`, to which the summary is appended.
- Cache.MinutesSince: floating-point division is modelled by exact real division. For integer milliseconds the comparison with 30 is then the integer test, proved in Cache.MinutesTestInMillis.
- Grounding.ProductEntry: `parseFloat(...).toLocaleString('es-AR')` is locale-dependent floating point, so it is the parameter `formatPrice`.
- Grounding.ParseInt: no floating-point rounding of very long digit runs, and no radix detection beyond "0x"/"0X".
- Strings.Lower and Strings.Upper: case mapping covers ASCII only; other characters are unchanged.
- The shape of a catalog record is not in index.js. The model assumes the record has the keys CODIGO, DETALLE, FAMILIA, "P.VENTA" and STOCK, and no key "P". Numeric JSON values (a numeric STOCK or CODIGO) are taken as already converted to their decimal text, so every field of a product is text.
- Summary.KeyOrder: family names that collide with properties of `Object.prototype` (such as "constructor") are not modelled; for them the object lookup would find the inherited property.
- Concurrent calls of `consultarIA` for the same user interleave at its awaits; the model runs each call to completion.
- Logging (`console.log`, `console.error`).
- Bot.Bot.Consult models the code with the price read from the record's "P.VENTA" key. If the records hold the price under the flat key "P.VENTA" (the record shape is not in index.js), the code as written throws while the grounding block is built (index.js:113), before the user turn is pushed (index.js:132); see Findings.

## Findings

| source | as written | input that shows it | evidently intended | confidence | as-written member | corrected member |
|---|---|---|---|---|---|---|
| index.js:86 | `p.P.VENTA` reads property "P" of the record, then property "VENTA" of that; if the record has no key "P", `p.P` is undefined and the second read throws a TypeError | any query with a match, e.g. "busco un mouse" against a listing with a product whose DETALLE contains "mouse" | read the record's flat key "P.VENTA" (`p['P.VENTA']`), assuming the catalog records store the sale price under that key | not executed | Grounding.PriceLookupThrows | Grounding.FormatProducts |

If the records have that flat key (the record shape is not in index.js), the exception is raised while the grounding block is built (index.js:113), before the user turn is pushed (index.js:132) and outside the `try` block (index.js:141), so it escapes `consultarIA`. By then the history has been created (index.js:108). The message handler catches it and logs it (index.js:233), so under that record shape the customer gets no reply whenever the search finds something. The rest of the model uses the corrected lookup.
