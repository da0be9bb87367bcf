# Stock-ticker extraction of the stocks plugin, in Dafny

The stocks plugin answers questions such as "How's the AAPL stock?". Its
handler `kwGetStockDetails` asks `extractStockTickers` for the words of the
message that look like ticker symbols. It takes the first one from the
ranked list, requests a quote for it, and turns the outcome into a reply
string. This project models that handler and proves what the extraction
and the reply selection promise.

Modules, one per component of `stocks.go`:

- `Ascii` (ascii.dfy): Go strings as byte sequences (`len` counts bytes).
  It also holds the byte classes behind `\W` and `[a-z]`. Deleting every match
  of either expression is a byte filter, `Keep`. Upper-casing is `ToUpper`.
- `Tickers` (tickers.dfy): the message (`Msg`, `StructuredInput`) and the
  stemmer and `language.Contains` as parameters (`Lang`). `Candidate` is the
  per-token test with its `continue`s, and the lemmas state the acceptance rule.
- `ByLength` (by_length.dfy): the `byLength` sort interface (`Len`, `Less`,
  `Swap`) and `sort.Sort(sort.Reverse(...))`. The sort is an insertion sort
  on an array that uses only `Len`, the reversed `Less` and `Swap`.
- `Extract` (extract.dfy): `ExtractStockTickers`, the token loop and then the
  sort, proved against `Accepted`. `Accepted` is the specification function
  that lists the accepted tokens in discovery order.
- `Reply` (reply.dfy): the fetch outcome as a value (`Fetch`), the reply
  selection `QuoteReply` and the handler `GetStockDetails`.
- `Wrappers` (wrappers.dfy): `Option` and `Result`.

Points where the code does something other than its comments or names suggest:

- The comment at stocks.go:110 says "Remove all non-letters", but the
  expression deleted is `\W` (stocks.go:21), which keeps digits and `_`.
  A candidate is therefore made of `[0-9A-Z_]`, not of letters only.
- The comment at stocks.go:116 speaks of an all-caps word. The test at
  stocks.go:117-118 only checks for the absence of `[a-z]`, so a token of
  digits or `_` alone passes as well.
- `sort.Sort` (stocks.go:135) is not a stable sort. Candidates of equal
  length come out in no promised order. The handler's contract therefore
  says only that the quoted ticker is one of the longest candidates.
- How `language.Contains` compares the stem with the command and object
  words (exact or ignoring case) is decided inside that library, which is
  not part of this model. It is a parameter here, and the model assumes
  nothing about it.
- The second length test after normalisation (`len(token) > 5` at
  stocks.go:112) can never fire: deleting bytes never lengthens a token
  that already passed the test at stocks.go:106. The model keeps the test
  as written.

## Model

| member | source | states |
|---|---|---|
| Ascii.Keep | stocks.go:111-118 | Deleting every match of a one-class expression leaves only bytes outside the class, and every such byte of the input is still there. The result is never longer. It is the same length exactly when no byte was in the class, and then it is the input itself. |
| Ascii.KeepCounts | stocks.go:111-118 | Each byte outside the class occurs in the result exactly as often as in the input, and a byte of the class not at all. |
| Ascii.KeepAppend | stocks.go:111-118 | Deletion works left to right: the result for two strings in a row is the result for the first followed by the result for the second, so kept bytes keep their order. |
| Ascii.ToUpper | stocks.go:132 | Upper-casing keeps the length and leaves no lower-case letter. Each lower-case letter becomes its own upper-case letter, and every other byte is unchanged. |
| Tickers.Candidate | stocks.go:105-132 | A token yields a candidate only if it is at most 5 bytes. The candidate is 1 to 5 word bytes with no lower-case letter, and it is always the upper-cased normalised token. |
| Tickers.NoLowercaseAccepted | stocks.go:116-121 | A short token whose normalised form is non-empty and has no lower-case letter is accepted as that normalised form (the `caps` length test). |
| Tickers.TickerAcceptedVerbatim | stocks.go:106-121 | A token of 1 to 5 upper-case word bytes is accepted unchanged. |
| Tickers.NoLowercaseIgnoresVocabulary | stocks.go:116-131 | Without a lower-case letter, the outcome is the same whatever the commands, objects, stemmer and `Contains` are: they are not consulted. |
| Tickers.LowercaseRejectedIffListed | stocks.go:123-132 | A short token with a lower-case letter is rejected exactly when the stem of its normalised form is in the commands or the objects. Otherwise it is accepted upper-cased. |
| ByLength.LessIsStrictWeakOrder | stocks.go:150-152 | `Less` compares lengths only and is a strict weak ordering: irreflexive, transitive, with transitive incomparability. |
| ByLength.Swap | stocks.go:147-149 | Exchanges positions i and j and leaves every other position unchanged. The contents stay the same multiset. |
| ByLength.SortReverse | stocks.go:135 | Sorting by the reversed `byLength` leaves lengths non-increasing and the contents a permutation of the input. Equal lengths have no promised order. |
| Extract.Accepted | stocks.go:104-133 | The tickers the loop appends number at most the tokens, and every one is 1 to 5 word bytes with no lower-case letter. |
| Extract.AcceptedAppend | stocks.go:104-133 | Discovery order: the candidates of two token lists in a row are the first list's candidates followed by the second's, duplicates kept. |
| Extract.AcceptedSound | stocks.go:105-132 | Every accepted ticker is what the per-token test gave for some token of the message. |
| Extract.AcceptedComplete | stocks.go:105-132 | Every token the per-token test accepts contributes its candidate. |
| Extract.AcceptedEmptyIff | stocks.go:134-138 | No ticker is accepted exactly when every token is rejected. |
| Extract.TickerTokenExtracted | stocks.go:116-121 | A token that is already 1 to 5 upper-case word bytes is always among the extracted tickers, verbatim. |
| Extract.ExtractStockTickers | stocks.go:103-139 | Fails with "missing ticker symbol" exactly when nothing was accepted. Otherwise it returns a non-empty list that is a permutation of the accepted tickers in non-increasing length, and every entry is a valid ticker. |
| Reply.SentenceIsQuote | stocks.go:94-100 | The filled template is never empty and never the not-found message. |
| Reply.QuoteReply | stocks.go:55-100 | The reply is empty on a request, status or decoding failure. It is the not-found message for an empty resource list and the template filled verbatim from `resources[0]` otherwise. From the reply alone the kind of outcome can be read back. |
| Reply.GetStockDetails | stocks.go:46-52 | With no candidate the reply is empty. Otherwise it is the quote reply for a candidate of the greatest length. |

`ByLength.Len` (stocks.go:144-146) is the slice length. The sort reads the
number of elements through it.

## Left out

- Plugin registration, the keyword trigger and `log.Fatal` in `init` (stocks.go:20, 24-44): framework set-up with no logic of the handler.
- `p.SetMemory` (stocks.go:53): conversation-state persistence.
- The HTTP client, the 10-second timeout, the URL, the request, closing the body and JSON decoding (stocks.go:55-93): network I/O and a library decoder. `Fetch` gives their outcome as a parameter `fetch`, in the order the code checks them: request failure, then status, then decoding.
- The log messages written on each failure: operator logging with no effect on the reply.
- The internals of `porter2.Stemmer.Stem` and `language.Contains`: foreign libraries. They are the function values of `Lang`.
- Go's own `sort.Sort` algorithm: only its contract (permutation, non-increasing length) is modelled, by a verified insertion sort.
- Ascii.ToUpper: maps ASCII letters only, unlike `strings.ToUpper` on non-ASCII text. The function is only applied after normalisation, and a normalised token is ASCII.
- stocks_test.go: end-to-end tests against a live server, a database and the real quote service. They contain no self-contained logic.
