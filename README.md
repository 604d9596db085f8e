# Pokédex pages, modelled in Dafny

A model of three browser pages that list Pokémon from the public PokéAPI.

- **The paged Korean list** (`script2.js`).
  - At load time it builds an index keyed by each species' Korean name.
  - It fetches the list twenty numbers at a time, up to number 799.
  - A sentinel watches the last card. It is re-armed after every batch while the cursor is at most 1010.
  - An `isLoading` flag stops loads from overlapping.
  - A search box looks up the index by exact Korean name.
  - The detail modal lists moves fetched in parallel, filtered and stably sorted by level.
- **The cached English list** (`script.js`).
  - It builds an index keyed by listing name and keeps it in local storage, so later visits do not fetch again.
  - It renders every entry in the index's order.
  - It filters the list, case-sensitively, by English name.
  - Its move list uses a `Map`: a later move of the same name replaces the level but keeps the name's place.
- **The detail page** (`details.js`).
  - It fetches moves one after the other.
  - It lists every move that has a sword-shield level-up detail, with no cap, no deduplication and no sort.

## How the model is organised

- `Wrappers` holds `Option`.
- `Text` holds JavaScript's `trim`, ASCII `toLowerCase`/`toUpperCase` and `includes`.
- `OrderedMaps` holds the insertion-ordered string-keyed map.
  - It stands for both a JavaScript object with non-index keys and a `Map`.
  - A run of `set` steps is a sequence of optional writes.
  - A key keeps the position of its first write and the value of its last.
- `Api` holds the JSON records and the two `find` searches.
- `NameIndex` holds the two index builds.
- `Moves` holds the three move lists.
- `Details` holds the detail view.
- `PagedViewer` holds `script2.js`: a class `Viewer` for its mutable page state, and the search.
- `CachedViewer` holds `script.js`: a class `Catalogue` with the index, the rendered list and the local-storage item.

How the environment is represented:

- Network responses are parameters.
- A failed fetch is `None`, or a number missing from a catalogue map.
- The concurrent per-species callbacks are represented by their completion order `c`, a permutation of the listing positions. Writes happen in that order, so the index's key order is the completion order.

Where the cached page's load handler finds nothing stored, it builds the index and stores it. It stores whatever the first build produced, even an empty index after a failed listing fetch. Every later visit serves that stored index (`CachedViewer.Catalogue.Startup`).

## Model

| member | source | states |
|---|---|---|
| Text.TrimStart | script2.js:112 | the result is the suffix of the input left after its leading ECMAScript whitespace, and starts with a non-whitespace character or is empty |
| Text.TrimEnd | script.js:89 | the result is the prefix left after the trailing whitespace, and ends with a non-whitespace character or is empty |
| Text.TrimEmptyIffBlank | script.js:92 | the trimmed input is empty exactly when every character is whitespace |
| Text.TrimIgnoresPadding | script.js:89 | whitespace around the input never changes the trimmed text |
| Text.TrimLowerCommute | script2.js:110-113 | trimming then lower-casing gives the same as lower-casing then trimming |
| Text.UpperThenLower | script2.js:161 | lower-casing an upper-cased lower-case name gives the name back |
| Api.FindLanguageSpec | script2.js:28-30 | `None` exactly when no entry is in the language; otherwise the earliest entry in it |
| Api.LearnLevelSpec | script2.js:197-201 | `None` exactly when no detail is sword-shield level-up; otherwise the level of the earliest such detail |
| OrderedMaps.Set | script.js:173 | the table gets the new value; the key is appended to the order only when it is new |
| OrderedMaps.SetAllValid | script2.js:34 | a run of writes keeps every key listed once and the order in step with the table |
| OrderedMaps.SetAllAt | script.js:173 | after a run of writes, a key is present iff it was present or written, and holds the value of its last write, or its old value when never written |
| OrderedMaps.SetAllHas | script.js:173 | after a run of writes a key is present iff it was present before or some step wrote it |
| OrderedMaps.SetAllLastWrite | script.js:173 | a key holds the value of its last write |
| OrderedMaps.SetAllUnwritten | script.js:173 | a key no step wrote keeps its old value |
| OrderedMaps.SetAllKeepsPositions | script.js:173 | a run of writes never moves an existing key |
| OrderedMaps.SetAllFirstInsertionOrder | script.js:177 | keys added by a run of writes are ordered by their first write |
| OrderedMaps.FirstWrite | script.js:173 | the index of the first write to a key, or the run's length when there is none |
| OrderedMaps.AssignIntoEmpty | script.js:16 | copying every entry of a valid map, in order, into an empty one reproduces the map, order included |
| OrderedMaps.AssignKeys | script.js:16 | copying the first `n` entries into an empty map lists exactly the first `n` keys, in order |
| OrderedMaps.AssignValue | script.js:16 | every copied key holds its original value |
| NameIndex.BuildIndex | script2.js:25-42 | the sequential loop over the callbacks equals the run of their writes in completion order, and keeps the map valid (also script.js:46-58 with listing keys) |
| NameIndex.WritesStep | script2.js:25-40 | one more completed callback applies exactly its own write to the index built so far |
| NameIndex.BuiltIndex | script2.js:25-40 | every entry was written by some listing position's callback, and every callback that writes leaves its key present |
| NameIndex.KoreanIndex | script2.js:25-39 | every key is the first Korean name of a species whose entry carries its record name and listing position + 1; every species with a Korean name is indexed; no entry carries the number of a species without one |
| NameIndex.KoreanIndexExact | script2.js:32-38 | with distinct Korean names, each species' entry is exactly its own |
| NameIndex.ListingIndex | script.js:46-56 | every key is a listing name whose entry carries the record name as both names and listing position + 1; every fetched species is indexed |
| NameIndex.ListingIndexExact | script.js:50-55 | with distinct listing names, each fetched species' entry has its own number |
| Moves.MoveDisplayNameSpec | script2.js:222-225 | the first Korean name, or "알 수 없는 기술" when there is no Korean name |
| Moves.SortByLevel | script2.js:214 | ascending by level, a permutation of the input, and stable: the moves of each level keep their order |
| Moves.InsertSpec | script2.js:214 | inserting a move into a stable sorted form of a list gives a stable sorted form of the longer list |
| Moves.InsertSorted | script2.js:214 | inserting into a list sorted by level keeps it sorted |
| Moves.InsertPerm | script2.js:214 | inserting adds exactly the one move |
| Moves.InsertStable | script2.js:214 | inserting keeps the moves of every level in their order, the new one first among its level |
| Moves.Learnable | script2.js:210-213 | no more moves than details, and a move is kept exactly when some detail has a defined level of at most 99 |
| Moves.LearnableAppend | script2.js:210-213 | the filter distributes over concatenation, so it keeps input order |
| Moves.ModalMoveListSpec | script2.js:185-220 | a list exists iff every move record was fetched; it is sorted, stable and a permutation of the filtered moves; a move is listed iff some fetched move gives it; duplicates are kept |
| Moves.AggregateMoves | script.js:154-184 | the sequential loop returns the sorted entries of the map built by the writes, or `None` when a fetch fails |
| Moves.MoveWritesStep | script.js:166-174 | one more fetched move applies exactly its own `set` to the map built so far |
| Moves.UniqueMoveListOnePerName | script.js:158-175 | no name is listed twice |
| Moves.UniqueMoveListCovers | script.js:172-174 | every name written by a fetched move at a level of at most 99 is listed |
| Moves.UniqueMoveListLastLevel | script.js:172-174 | every listed move shows the level written by the last move of its name |
| Moves.UniqueMoveListTies | script.js:177-178 | moves of equal level appear in the order their names were first written |
| Moves.DistinctNamesPermuted | script.js:177-178 | sorting the distinct-named entries keeps names distinct |
| Moves.FetchedPrefix | details.js:74-77 | how many leading move records were fetched before the first failure |
| Moves.ListMoves | details.js:67-92 | the items appended before a fetch throws are the items of the fetched prefix, and the loop aborts exactly when some record was not fetched |
| Moves.FetchedPrefixIs | details.js:74-77 | the fetched prefix is characterised by its first failing record |
| Moves.ListItemsAppend | details.js:74-91 | the list of a concatenation is the concatenation of the lists (input order, no reordering) |
| Moves.ListItemsStep | details.js:80-90 | one more fetched move appends exactly its own item, if any |
| Moves.ListItemsSound | details.js:80-90 | every item comes from a fetched move with a matching detail, with its Korean name and uncapped level |
| Moves.ListItemsComplete | details.js:80-90 | every fetched move with a matching detail is listed, duplicates kept |
| Details.DisplayName | script2.js:161 | one of the three listed names is shown as its table value; any other name keeps its length, with each letter upper-cased |
| Details.TypeLabels | script2.js:164-166 | one label per tag, in order, each the table value or the tag itself |
| Details.View | details.js:47-54 | the view carries the record's id, sprite, height and weight; on the Korean pages the title is the display name and the tags are the translated labels, in order; without translation the title and tags are raw |
| Details.DisplayNameRecoversName | details.js:47 | lower-casing an untranslated title gives back the API's lower-case name |
| Details.TablesInverse | script2.js:139-159 | no two of the eighteen type tags share a Korean label |
| Details.TypeLabelRoundTrip | details.js:51 | a translated tag can be read back to the tag |
| Details.LocalisedTypesRecoverRaw | script.js:133-135 | the Korean pages show the same type tags as the English page, in the same order, only translated |
| PagedViewer.Interval | script2.js:54 | the consecutive integers of a half-open range |
| PagedViewer.IntervalAppend | script2.js:81 | adjacent ranges concatenate |
| PagedViewer.BatchOrdinals | script2.js:54 | a number is fetched by a batch iff it is in `[offset, offset + 20)` and at most 799; the numbers ascend by one |
| PagedViewer.FindFrom | script2.js:58-60 | the first matching key position at or after a start |
| PagedViewer.ReverseLookup | script2.js:58-60 | `None` iff no key's entry has the English name; otherwise the first such key in insertion order |
| PagedViewer.FetchBatch | script2.js:54-79 | the loop appends, in order, the card of each number whose fetch succeeded and whose name has an entry |
| PagedViewer.CardsForStep | script2.js:54-79 | one more number of a batch appends exactly its own card, if any |
| PagedViewer.VisitedGrows | script2.js:54-81 | a batch extends the numbers fetched so far by exactly its own numbers |
| PagedViewer.Viewer.constructor | script2.js:1-4 | empty index, cursor 1, not loading, no cards, no sentinel |
| PagedViewer.Viewer.FetchPokemonNames | script2.js:18-46 | the index becomes the run of the Korean-keyed writes over the old one, or stays as it was when the listing fetch fails; nothing else changes |
| PagedViewer.Viewer.BeginLoad | script2.js:49-50 | a load starts only when none is running, and then sets the flag; otherwise nothing changes |
| PagedViewer.Viewer.RunBatch | script2.js:52-87 | the cards gain the batch's cards; the cursor advances by 20 even when every fetch failed; the flag clears; the sentinel is armed iff the cursor is at most 1010 and a card exists; the fetched numbers stay exactly 1 .. min(cursor, 800) − 1 |
| PagedViewer.Viewer.LoadPokemon | script2.js:48-88 | a call during a running load changes nothing; otherwise one batch runs |
| PagedViewer.Viewer.LastCardVisible | script2.js:96-101 | an armed sentinel disarms and loads the next batch, after which the flag is clear and the sentinel is re-armed iff the cursor is at most 1010 and a card exists; while a load runs it only disarms; without a sentinel nothing changes |
| PagedViewer.Viewer.Start | script2.js:6-8 | the load handler builds the index and then shows the cards of numbers 1 to 20, with the cursor at 21, no load running, and the sentinel armed iff a card exists |
| PagedViewer.LoadThenScroll | script2.js:85-101 | on a fresh page, reaching the last card after the first batch appends the second batch's cards and re-arms the sentinel; with no card there is no sentinel and nothing more loads |
| PagedViewer.CardsForSpec | script2.js:54-79 | a batch yields at most one card per number; every card comes from a number, and every number that yields a card contributes it |
| PagedViewer.CardShowsIndexEntry | script2.js:58-68 | a card shows the number its key holds in the index, and the entry's English name is the fetched name (unless no key matched and the index holds the key `undefined`) |
| PagedViewer.CardFromSpecies | script2.js:58-61 | on the built index, a card's caption is a species' Korean name and its number is that species' listing position + 1 |
| PagedViewer.ReverseLookupExact | script2.js:58-60 | with distinct English names, the lookup finds a key iff that key's entry has the name |
| PagedViewer.SessionIsInterval | script2.js:54-87 | a session scrolled to the end fetches 1 .. 799 exactly once each, ascending |
| PagedViewer.EmptyBatchesPast799 | script2.js:85-87 | eleven batches, at cursors 801 to 1001, are still armed and fetch nothing |
| PagedViewer.VisitedIsSessionPrefix | script2.js:54-87 | what a viewer has fetched is always a prefix of the full session |
| PagedViewer.SearchAsWritten | script2.js:109-121 | the English name of the entry under the trimmed, lower-cased input, or `None` for the "not found" alert |
| PagedViewer.NormalizeIgnoresPaddingAndCase | script2.js:110-113 | surrounding whitespace and ASCII letter case of the input do not change the key looked up |
| PagedViewer.CapitalisedKeyUnreachable | script2.js:110-114 | no input is ever normalised to a key that contains an ASCII capital |
| PagedViewer.PorygonZNotFound | script2.js:110-120 | an index holding "폴리곤Z", searched with "폴리곤Z", answers "not found" |
| PagedViewer.FindFolded | script2.js:114 | the first key position at or after a start whose lower-cased form is the query |
| PagedViewer.SearchPokemon | script2.js:109-121 | the corrected search: `None` iff no key lower-cases to the normalised input |
| PagedViewer.SearchFindsEveryKey | script2.js:109-121 | typing any key finds an entry, and its own entry when no other key differs only in case |
| PagedViewer.SearchAgreesOnLowerKeys | script2.js:114 | on an index without ASCII capitals in its keys, the corrected search answers exactly as written |
| CachedViewer.Catalogue.constructor | script.js:4 | empty index, empty list, local storage as left by earlier visits |
| CachedViewer.Catalogue.FetchPokemonNames | script.js:38-62 | the index becomes the run of the listing-keyed writes, or stays as it was when the listing fetch fails |
| CachedViewer.Catalogue.LoadPokemonFromStorage | script.js:65-83 | the list becomes every entry of the index, in order |
| CachedViewer.Catalogue.Startup | script.js:13-22 | with a stored index: the index becomes that copy, and nothing is fetched; without one: the index is built once and stored; either way the whole index is rendered |
| CachedViewer.Catalogue.FilterPokemonList | script.js:88-116 | the list becomes every entry for a blank input, otherwise the entries whose English name contains the trimmed input, in order |
| CachedViewer.Revisit | script.js:13-22 | a second visit shows the same list as the first |
| CachedViewer.MatchingAppend | script.js:99-101 | the filter distributes over concatenation, so it keeps order |
| CachedViewer.MatchingCount | script.js:99-101 | each matching entry is kept as often as it occurs; every other entry is dropped |
| CachedViewer.MatchingEmptyQuery | script.js:92-95 | filtering by the empty text keeps everything, so the early return for blank input shows the same list |
| CachedViewer.ShownIsFilter | script.js:88-101 | the list for any input is the filter by its trimmed value |
| CachedViewer.ShownIgnoresPadding | script.js:89 | whitespace around the input never changes the list |

## Left out

- Network, JSON parsing, the DOM, `IntersectionObserver`, `alert`, `console` and the modal's open/close are not modelled. Fetched records are parameters, and a failed fetch is a missing value.
- NameIndex.BuildIndex: a species fetch that fails makes `Promise.all` reject, but the other callbacks still run. In the model every callback's write lands before the build returns. In the page a write can land later: while the first batch loads (script2.js), or after script.js has already stored the index, so the stored copy lacks it.
- Moves.ModalMoveListSpec: when one move fetch fails, the model gives no list. In the page, the heading is already drawn and no items follow; the rejection also propagates out of the detail handler, so the modal is never opened (script2.js:179-182).
- Details.View: height and weight stay in integer decimetres and hectograms. The page's division by 10 into floating-point numbers is not modelled.
- Text.UpperThenLower: `toLowerCase` and `toUpperCase` are modelled on ASCII letters only. Full Unicode case mapping is not modelled.
- Captions, `join(", ")`, sprite URL templates and the `레벨`/`Level` item texts are not modelled. Items and cards carry the values those texts are built from.
- PagedViewer.SearchAsWritten: inherited object properties such as `constructor` are not keys of the model's index. In the page, such an input finds a function and opens the details of `undefined`. The same holds for the display-name table in Details.DisplayName.
- CachedViewer.Catalogue.Startup: local storage holds the index itself, not its JSON text. The JSON round trip keeps the order of non-index keys, and species listing names are never array indices.
- The details page's query-string handling and the details fetch of `openPokemonDetails` are not modelled. The view is a function of the fetched record.
- The number 493 in script.js only appears in the listing URL. The listing's length is the `listing` parameter.

## Findings

| source | as written | input that shows it | evidently intended | confidence | as-written member | corrected member |
|---|---|---|---|---|---|---|
| script2.js:110-114 | the input is trimmed and lower-cased and then looked up as an exact key, but the keys are Korean names as the API spells them, and some contain Latin capitals | an index holding the key "폴리곤Z" (Porygon-Z), searched with "폴리곤Z": the lookup uses "폴리곤z" and answers "not found" | typing a Korean name exactly as listed finds it, whatever the ASCII case | not executed; depends on the API's Korean name containing the capital | PagedViewer.PorygonZNotFound | PagedViewer.SearchPokemon |
