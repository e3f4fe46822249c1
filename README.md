# Quote manager: the in-memory quote list

A model of the logic in `dom-manipulation/script.js`, a browser page that
keeps a list of `{text, category}` quotes. The page shows a random quote,
adds quotes from a form and saves the list in local storage. At start-up it
merges the stored list back in, and it imports quotes from a JSON file.
Loading and importing share one dedup rule: a candidate is appended only if
no record present *before* the merge has the same text and category.

Two modules:

- `Quotes` (`quotes.dfy`) holds the values and pure rules. It defines the
  `Quote` record, the seed list, `Trim` and the "add" validation
  (`Validate`), and the dedup filter `Unmatched`. It also holds the lemmas
  about these rules. `IsSpace` is the whole set of code points that
  ECMAScript's `String.prototype.trim` strips: WhiteSpace (TAB, VT, FF,
  ZWNBSP and the Unicode category Zs: U+0020, U+00A0, U+1680,
  U+2000-U+200A, U+202F, U+205F, U+3000) and LineTerminator (LF, CR, LS,
  PS).
- `QuoteApp` (`quote_store.dfy`) holds the class `QuoteStore`. Its field
  `quotes` is the page's module-level array, updated in place. Two ghost
  fields record what the page last wrote to browser storage: `saved` for the
  `quotes` key and `lastViewed` for the `lastQuoteIndex` key. The object
  invariant `Valid()` is a fact about one state: the last viewed index is
  below the length of the list, and the last saved list is a prefix of the
  current one. That the list never shrinks is stated by each method
  separately: its `ensures` gives the new list as the old one followed by
  what it appended (`quotes == old(quotes) + ...`), or as the old one.

Inputs the page gets from outside are parameters:

- what `JSON.parse` made of a text (`ParseResult`: it threw, a non-array, or
  an array of records);
- what local storage held under `quotes` (`StoredEntry`);
- the index read from session storage (`Option<int>`).

The random pick is a nondeterministic choice of an index below the length.
Alerts and display text are returned as strings.

Consequences of the code that the model states outright:

- The dedup filter runs to completion before anything is pushed. So
  candidates are compared only with the records present before the merge,
  never with each other. Two equal new candidates in one batch are both
  appended, and the list then holds a duplicate (`BatchDuplicatesKept`).
  The list stays duplicate-free when neither the list nor the batch has
  duplicates (`MergeNoDuplicates`).
- `loadQuotes` does not catch a `JSON.parse` failure. The exception leaves
  the start-up handler, and the last viewed quote is then not restored
  (`Startup`).
- The merge returns nothing. Whether it changed the list is stated as a
  lemma: the list grows exactly when some candidate matches no existing
  record (`UnmatchedEmptyIff`).
- The file contains no remote sync and no category filter, so neither is
  modelled.

## Model

| member | source | states |
|---|---|---|
| `Quotes.Seed` | dom-manipulation/script.js:2-5 | The list starts with two distinct records, and neither has a blank category. |
| `Quotes.IsSpace` | dom-manipulation/script.js:85-86 | Space, tab, line feed and carriage return count as whitespace; ASCII digits and letters do not. |
| `Quotes.TextStart` | dom-manipulation/script.js:85-86 | The index returned is the first one at or after the start that holds a non-space, or the length; everything skipped is whitespace. |
| `Quotes.TextEnd` | dom-manipulation/script.js:85-86 | The index returned is the last one, down from the end and not below the lower bound, that follows a non-space; everything skipped is whitespace. |
| `Quotes.Trim` | dom-manipulation/script.js:85-86 | `trim()` gives a slice of its input with only whitespace before it and after it, so only whitespace is removed, and only at the ends. The result has whitespace on neither end. It is empty exactly when the input is all whitespace. |
| `Quotes.TrimIdempotent` | dom-manipulation/script.js:85-86 | Trimming an already trimmed input changes nothing. |
| `Quotes.Validate` | dom-manipulation/script.js:85-87 | A record is produced exactly when both inputs contain a non-whitespace character. Its fields are the trimmed inputs, both non-empty. |
| `Quotes.SameQuote` | dom-manipulation/script.js:117 | The `some` callback (same text and same category) holds exactly when the two records are equal. |
| `Quotes.Present` | dom-manipulation/script.js:50 | `quotes.some(...)` holds exactly when the record is in the list. |
| `Quotes.Unmatched` | dom-manipulation/script.js:117 | The filter keeps at most as many records as there are candidates. Every kept record is a candidate that matches no pre-merge record. |
| `Quotes.UnmatchedComplete` | dom-manipulation/script.js:117 | Every candidate that matches no pre-merge record is kept. |
| `Quotes.UnmatchedAppend` | dom-manipulation/script.js:117 | The filter distributes over concatenation of batches, so kept candidates stay in their original order. |
| `Quotes.UnmatchedCount` | dom-manipulation/script.js:50 | A candidate equal to a pre-merge record is appended zero times. Any other record is appended exactly as often as it occurs in the batch. |
| `Quotes.UnmatchedEmptyIff` | dom-manipulation/script.js:117 | The merge appends nothing exactly when every candidate matches a pre-merge record. |
| `Quotes.MergeIdempotent` | dom-manipulation/script.js:117 | Merging the same batch a second time appends nothing. |
| `Quotes.UnmatchedNoDuplicates` | dom-manipulation/script.js:117 | A batch without duplicates yields appended records without duplicates. |
| `Quotes.MergeNoDuplicates` | dom-manipulation/script.js:50 | If neither the list nor the batch has duplicates, the merged list has none. |
| `Quotes.BatchDuplicatesKept` | dom-manipulation/script.js:117 | A new record given twice in one batch is appended twice, and the merged list then has a duplicate. |
| `QuoteApp.Render` | dom-manipulation/script.js:75 | The display text is the quote's text in double quotes, then a space and the category in parentheses: its length, and each piece at its position. |
| `QuoteApp.QuoteStore.constructor` | dom-manipulation/script.js:2-5 | The list starts as the two seed records, and nothing has been written to storage yet. |
| `QuoteApp.QuoteStore.ShowRandomQuote` | dom-manipulation/script.js:67-78 | On an empty list it shows "No quotes available." and records nothing. Otherwise it shows the quote at an index below the length, records that same index as last viewed, and saves the list. The list itself is unchanged. |
| `QuoteApp.QuoteStore.AddQuote` | dom-manipulation/script.js:82-94 | When both inputs contain a non-whitespace character, it appends exactly one record of the trimmed inputs, saves the list and shows a quote. Otherwise the list, the saved list and the last index are unchanged. |
| `QuoteApp.QuoteStore.MergeCandidates` | dom-manipulation/script.js:117 | The new list is the old list followed by the candidates that match no pre-merge record. Storage is untouched. |
| `QuoteApp.QuoteStore.LoadQuotes` | dom-manipulation/script.js:45-53 | A stored array is merged. A missing, empty or non-array payload changes nothing. A payload that does not parse throws and changes nothing. Nothing is saved. |
| `QuoteApp.QuoteStore.ImportFromJsonFile` | dom-manipulation/script.js:113-127 | An array is merged, saved, reported as "Quotes imported successfully!", and a quote is shown. A non-array reports "Invalid JSON format." and a parse failure reports "Error parsing JSON file."; both leave the list and storage unchanged. |
| `QuoteApp.QuoteStore.Restore` | dom-manipulation/script.js:135-139 | A quote is shown exactly when the stored index names an existing entry, and it is the entry at that index. |
| `QuoteApp.QuoteStore.Startup` | dom-manipulation/script.js:132-139 | The start-up handler loads the stored list and then restores the last viewed quote. A stored payload that does not parse aborts the handler before the restore. |

## Left out

- The DOM is not modelled. This covers element lookups, `innerHTML`/`textContent` writes, `createAddQuoteForm`, clearing the form inputs and the event-listener wiring (lines 8-11, 21-22, 26-37, 90-91, 140-145). It is presentation only; the text a call would display is returned instead.
- `Render` does not model HTML interpretation: `innerHTML` would parse markup inside a quote's text, and the model returns the plain string.
- The replacement of `showRandomQuote` and `addQuote` through `window` (lines 66-67, 81-82) is not modelled; only the replacement versions are. Calls inside the script resolve to the replacement `showRandomQuote`, and both versions of `addQuote` end in the same list and storage state.
- The original `showRandomQuote` (lines 7-12), which the button listener and the first load still call, is not modelled separately. On an empty list it throws instead of showing the message.
- Browser storage is only recorded as what was last written (the ghost fields `saved` and `lastViewed`). Serialisation to JSON and to a decimal string, and storage exceptions such as a full quota, are not modelled.
- `JSON.parse` is replaced by the `ParseResult` parameter. Array elements are taken to be `{text, category}` records of strings. Elements of any other shape are not modelled: a `null` element makes the filter throw, and extra fields are carried along.
- `Restore` takes the session value as an integer. The only writer stores the decimal form of a non-negative index; other strings are not modelled.
- `Math.random`/`Math.floor` are replaced by an arbitrary index below the length.
- `exportToJsonFile` (lines 97-108) is not modelled; it only builds a file download.
- The asynchronous `FileReader` read (lines 112, 128) is not modelled; only its `onload` body is.
- The initial `showRandomQuote()` at script load (line 40) is not modelled; it belongs to the page wiring.
