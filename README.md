# Dynamic Quote Generator: a Dafny model of the quote store

The page keeps an in-memory list of quotes, each a `{text, category}` record.
The user adds quotes, deletes them, imports them from a JSON file and filters
them by category. A sync engine fetches posts from a placeholder REST API,
merges them into the list and queues same-text/different-category collisions
as conflicts. A manual "resolve" step later applies the server side of those
conflicts. This project models the rules of that store, which live in
`script.js`, and proves what they guarantee.

Layout:

- `wrappers.dfy`: `Option` and `Result`.
- `seqs.dfy` (module `Seqs`): the generic list scans the page relies on.
  - `IndexOf` is `findIndex` for an equal element.
  - `Filter` is `Array.prototype.filter`.
  - `AppendNew` appends each element unless an equal one is already present. The import loop does this, and so does `[...new Set(xs)]`.
  - Each comes with lemmas on prefixes, multiplicities, duplicate-freedom and order.
- `text.dfy` (module `Text`): `String.prototype.trim`. It strips the WhiteSpace and LineTerminator code points of ECMAScript 2024, sections 12.2 and 12.3.
- `quotes.dfy` (module `Quotes`): the `Quote` record and the pure derivations:
  - the import validity filter and merge, and export;
  - the category list and how the selection is restored;
  - category filtering and the `originalIndex` a filtered row's delete button uses;
  - the mapping of fetched post titles to quotes;
  - the random pick and the position `splice(index, 1)` removes.
- `sync.dfy` (module `Sync`):
  - `Classify` sorts one server quote into skip, conflict or append;
  - `SyncMerge` specifies the merge loop;
  - `ResolveAll` specifies the conflict-resolution loop.
- `store.dfy` (module `Store`): class `QuoteStore` holds the state the page mutates in place: `quotes`, `conflicts` and the `syncing` busy flag.
  - It has one method per mutating operation.
  - The loops of import, sync and resolve are written as `while` loops. Their invariants tie the state to `AppendNew`, `SyncMerge` and `ResolveAll`.

Modelling choices:

- Quote identity is structural, as in the source. Comparing `text` and `category` with `===` is Dafny equality on `Quote`.
- Inputs from the browser become parameters:
  - the result of `confirm` (`confirmed: bool`);
  - the draw of `Math.random` (`u: real` in `[0, 1)`);
  - the already-parsed JSON of an import file (`Payload`);
  - the parsed `localStorage` values (`Option<...>`, where `None` means missing, unparsable or the wrong shape);
  - the fetched post titles (`Option<seq<string>>`, where `None` means the request failed).
- A falsy element of an imported array behaves like an object without string fields. Both are `Entry(None, None)`.
- The `await` points of `syncQuotes` are modelled by splitting the busy flag into `BeginSync` and `EndSync`. `SyncQuotes` composes them with the merge. A second `BeginSync` while a sync is in flight is refused and changes nothing.
- Conflict policy, as the code has it: a conflict is queued, and the server version wins only when `resolveConflicts` runs.

Behaviour worth knowing, proved on concrete inputs:

- Every sync records a conflict again as long as the local quote is unchanged (`Sync.RepeatedSyncRecordsTwice`).
- Resolving then fixes the first copy. The later copies no longer find their local quote and stay pending (`Sync.RepeatedConflictStaysPending`).

## Model

| member | source | states |
|---|---|---|
| `Text.Trim` | script.js:52-53 | The trimmed string is empty exactly when every character is JavaScript whitespace; otherwise it starts and ends with a non-whitespace character |
| `Text.TrimIdempotent` | script.js:52-53 | Trimming an already trimmed string changes nothing, so an added quote passes the import validity test |
| `Seqs.IndexOf` | script.js:364 | The result is -1 exactly when the element is absent; otherwise it is a position holding the element with no earlier occurrence |
| `Seqs.AppendNew` | script.js:241-252 | The append-unless-present scan, also the `Set` of script.js line 314: it adds at most one element per input element. Prefix, membership, multiplicities, order and duplicate-freedom are stated by `AppendNewKeepsPrefix`, `AppendNewMembers`, `AppendNewCounts`, `AppendNewOrder` and `AppendNewNoDup` |
| `Seqs.AppendNewKeepsPrefix` | script.js:241-252 | The append-unless-present scan keeps the old list as a prefix |
| `Seqs.AppendNewCounts` | script.js:241-252 | An element already present keeps its multiplicity; an element new to the list occurs exactly once if the input has it, never otherwise |
| `Seqs.AppendNewMembers` | script.js:241-252 | An element is in the result exactly when it was in the old list or in the input |
| `Seqs.AppendNewNoDup` | script.js:241-252 | A duplicate-free list stays duplicate-free |
| `Seqs.AppendNewOrder` | script.js:241-252 | The appended elements come from the input, were absent before, and stand in the order of their first appearance in the input |
| `Seqs.AppendNewAllPresent` | script.js:243-251 | When every input element is already present, nothing is appended |
| `Seqs.AppendNewDistinct` | script.js:243-251 | When old list and input together have no duplicates, every input element is appended in order |
| `Seqs.Filter` | script.js:231-234 | `Array.prototype.filter`, also the category filter of script.js line 351: the result is never longer than the input. That it keeps exactly the satisfying elements in order, at full multiplicity, is stated by `FilterSpec` |
| `Seqs.FilterSpec` | script.js:351 | The filter returns only elements satisfying the predicate, as a subsequence, with every satisfying element at its full multiplicity |
| `Seqs.FilterAll` | script.js:231-234 | Filtering with a predicate all elements satisfy returns the input |
| `Quotes.ValidEntries` | script.js:231-234 | The surviving import entries all have non-empty trimmed string text and category; they are a subsequence of the file; every valid entry survives at its multiplicity; none survive exactly when no entry is valid |
| `Quotes.ValidQuotes` | script.js:231-234 | The quotes offered by a file correspond one to one, in order, to its valid entries, and each is a valid quote |
| `Quotes.Import` | script.js:225-238 | Import fails with a parse error exactly for unparsable text, with "not an array" exactly for a non-array value, and with "no valid quotes" exactly when no entry is valid |
| `Quotes.ImportMerges` | script.js:241-252 | A successful import keeps the old list as a prefix and the multiplicity of every old quote; each new valid quote is added exactly once, nothing else is added, and a duplicate-free list stays duplicate-free |
| `Quotes.Export` | script.js:190 | The export has one entry per quote, both fields strings; each entry reads back as its quote and is valid for import exactly when the quote is valid (round trips in `ImportOwnExport` and `ExportImportRoundTrip`) |
| `Quotes.ImportOwnExport` | script.js:241-252 | Importing the store's own export leaves the list unchanged, and fails only when no quote of the list is valid |
| `Quotes.ExportOffersAll` | script.js:231-234 | The export of a list of valid quotes offers exactly that list for import |
| `Quotes.ExportImportRoundTrip` | script.js:241-252 | Exporting a duplicate-free list of valid quotes and importing it into an empty store reproduces the list |
| `Quotes.OneValidEntry` | script.js:231-234 | A file with one valid entry offers exactly that quote |
| `Quotes.ImportOneNew` | script.js:241-252 | Importing one valid quote the store lacks appends exactly that quote |
| `Quotes.Categories` | script.js:314 | The category list holds exactly the categories that occur in the quotes, without duplicates, in order of first appearance |
| `Quotes.CategoriesScenario` | script.js:314 | The categories of [A/X, B/Y] are [X, Y] |
| `Quotes.RestoreSelection` | script.js:320-332 | The rebuilt select keeps the old value exactly when it is offered or is "all"; any other value falls back to "all", the first option; the result is always "all" or an offered category |
| `Quotes.SelectionAfterRefresh` | script.js:320-332 | After the list is rebuilt the selection is kept exactly when it is "all" or some quote still has that category; when it is not kept it becomes "all" |
| `Quotes.FilterQuotes` | script.js:347-353 | "all" yields the whole list; any other value yields exactly the quotes of that category, in list order, each at its full multiplicity |
| `Quotes.OriginalIndexValid` | script.js:364 | For every shown quote, the index its delete button is bound to is in bounds and holds an equal quote |
| `Quotes.ShortTitle` | script.js:410 | A title of at most 50 characters is kept as is; a longer one becomes its first 50 characters followed by three more, 53 in all |
| `Quotes.ServerQuotes` | script.js:402-420 | A failed fetch yields no quotes; otherwise at most 10, each in category "Server", with text at most 53 characters, equal to the title when it has at most 50 characters and starting with its first 50 characters otherwise |
| `Quotes.PickIndex` | script.js:30-39 | The random pick is absent for an empty list and otherwise an index in bounds |
| `Quotes.SpliceTarget` | script.js:118 | `splice(index, 1)` removes nothing exactly when the list is empty or the index is at or past the end; an index in range removes that position; a negative index counts from the end, clamped to 0 |
| `Sync.FindClash` | script.js:493-496 | The result is -1 exactly when no entry has the server quote's text under another category; otherwise it is the first such entry |
| `Sync.Classify` | script.js:486-509 | A server quote is skipped exactly when an equal quote is present; it is appended exactly when it is absent and no entry has its text; otherwise the first entry with its text is recorded as the conflicting local quote |
| `Sync.SyncMerge` | script.js:485-510 | The merge loop as a fold of `Classify` over the server quotes in order; every server quote is counted once as added, conflicting or skipped (see `SyncMergeAccounts`, `SyncMergeSources`, `SyncMergeNoDup`) |
| `Sync.SyncMergeAccounts` | script.js:481-510 | Skipped + conflicts + added equals the number of server quotes; the old list is a prefix of the new one, which grows by the number added |
| `Sync.SyncMergeSources` | script.js:485-510 | Appended quotes come from the server; every conflict pairs a server quote with a list entry of equal text and different category; every server quote ends up on the list or in a conflict |
| `Sync.SyncMergeNoDup` | script.js:491-507 | A sync never makes a duplicate-free list contain duplicates |
| `Sync.SyncScenario` | script.js:485-510 | Syncing A/Z into [A/X] records the conflict (A/X, A/Z) and leaves the list unchanged |
| `Sync.ResolveAll` | script.js:594-608 | The resolution loop: each conflict whose local quote is still on the list overwrites its first occurrence with the server quote, otherwise stays pending; the list keeps its length and every conflict is resolved or pending (see `ResolveAllAccounts`) |
| `Sync.ResolveAllAccounts` | script.js:594-608 | Resolution keeps the list's length; resolved + unresolved equals the number of conflicts; unresolved conflicts keep their order; every position holds its old quote or a conflict's server quote |
| `Sync.ResolveNoneMatched` | script.js:594-608 | When no conflict is resolved, the list is untouched and all conflicts stay pending |
| `Sync.ResolveScenario` | script.js:594-608 | Resolving (A/X, A/Z) on [A/X] yields [A/Z] with nothing pending |
| `Sync.RepeatedConflictStaysPending` | script.js:594-608 | A conflict recorded twice is resolved once; the second copy stays pending |
| `Sync.RepeatedSyncRecordsTwice` | script.js:485-516 | Two syncs of A/Z into [A/X] record the same conflict twice |
| `Store.QuoteStore.constructor` | script.js:6-19 | The page starts with the six built-in quotes, no conflicts and no sync running |
| `Store.QuoteStore.AddQuote` | script.js:51-65 | Adds exactly one quote, the trimmed text and category, at the end when both are non-empty once trimmed; otherwise the list is unchanged; the added quote is valid |
| `Store.QuoteStore.DeleteQuote` | script.js:116-118 | After confirmation, removes exactly the element `splice` targets and returns it, leaving `quotes[..k] + quotes[k+1..]`; otherwise unchanged |
| `Store.QuoteStore.LoadFromStorage` | script.js:145-163 | Replaces the list exactly when the saved value is a non-empty array; otherwise keeps it |
| `Store.QuoteStore.LoadConflicts` | script.js:726-735 | At page load, a saved conflict list replaces the pending one; with nothing saved the pending list is kept |
| `Store.QuoteStore.ClearAll` | script.js:275-277 | After confirmation the list is empty; otherwise unchanged |
| `Store.QuoteStore.ResetToDefault` | script.js:287-296 | After confirmation the list is the built-in one; otherwise unchanged |
| `Store.QuoteStore.ImportFromJson` | script.js:223-259 | On an import error the list is unchanged and the error is returned; otherwise the list becomes the merged list and the count added is its growth |
| `Store.QuoteStore.AppendQuotes` | script.js:241-252 | The import loop leaves the list equal to the append-unless-present merge and returns how much it grew |
| `Store.QuoteStore.BeginSync` | script.js:464-469 | Starts exactly when no sync is running; the flag is raised afterwards either way |
| `Store.QuoteStore.EndSync` | script.js:540-541 | The busy flag is lowered |
| `Store.QuoteStore.MergeServerQuotes` | script.js:481-516 | The list becomes the merged list, the new conflicts are appended to the pending ones, and the counts returned are the merge's |
| `Store.QuoteStore.MergeBatch` | script.js:485-510 | The merge `forEach` as a `while` loop over the list in place: the list, the conflicts found and the counts end up exactly as `SyncMerge` gives them |
| `Store.QuoteStore.SyncQuotes` | script.js:463-543 | A sync started while another runs changes nothing; otherwise the fetched titles are mapped, merged and the flag is lowered |
| `Store.QuoteStore.ResolveConflicts` | script.js:578-608 | Takes the saved conflicts when none are pending in memory, then the list and pending conflicts become those of the resolution, whose count is returned |
| `Store.QuoteStore.ApplyResolutions` | script.js:594-608 | The resolution loop over the list in place: the list, the conflicts kept and the count resolved end up exactly as `ResolveAll` gives them |

## Left out

- DOM rendering and notifications (`displayRandomQuote`'s HTML, `showAllQuotes`, `showNotification`, `showSyncNotification`, `showConflictNotification`, `showConflictDetails`, `updateQuoteCount`, `updateSyncStatus`): user interface only. Of `displayRandomQuote`, only the index choice is modelled (`PickIndex`).
- `fetch`, `Promise.all` and `postQuotesToServer`: network I/O. Sending local quotes to the server does not affect the store. Of `fetchQuotesFromServer`, only the mapping of titles to quotes is modelled. A failed request is the `None` input, and a post whose `title` is not a string is not modelled.
- `saveQuotesToLocalStorage`, the writes of the `quoteConflicts` key, `saveSessionPreference`, `loadSessionPreference`, the `lastFilter`, `categories`, `lastUpdated` and `lastSync` keys, `JSON.parse`/`JSON.stringify`, `Blob`/`URL`/`FileReader` and `Date`: storage, serialization and clocks are foreign calls. Parsed values come in as parameters. Export is modelled as the list of entries it writes (`Export`).
- `LoadFromStorage`: the source accepts any non-empty array without checking its elements; the model takes the saved value as a list of quotes.
- `ResolveConflicts` and `LoadConflicts`: a saved conflict value that parses but is not an array, and saved text that does not parse (which makes the source throw), are not modelled; the saved value is taken as a list of conflicts. The conflict notification shown after loading is user interface.
- `ImportFromJson`: extra fields of imported objects are dropped, because only `text` and `category` take part in any rule. A change event with no file selected does nothing and is not modelled.
- `setInterval`/`clearInterval` auto-sync (`startAutoSync`, `stopAutoSync`, `toggleAutoSync`) and the interleaving of asynchronous calls: timers and concurrency. Only the busy flag is kept.
- `clearFilter`: it only resets the DOM select and a storage key.
- Conflict timestamps: taken from the clock, and no rule reads them.
- `PickIndex`: `Math.random() * n` is a floating-point product; the model computes it over the reals. The floor stays below `n` in IEEE doubles as well, because the largest draw times `n` never rounds up to `n`.
- String length: `Text` and `ServerQuotes` count Unicode scalar values, where JavaScript counts UTF-16 code units. The two differ only for characters outside the Basic Multilingual Plane.
- `server-simulation.js`: an HTTP stub whose only logic is a push and `id = length + 1`; it is not part of this model.
