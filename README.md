# Record collection: a verified model of the client-side store and edit gate

This project models the core of a browser catalog of record albums. The
catalog loads pages of records from a remote source, lets the user load more
pages, filters the loaded records by a search term, and edits a record or its
artist in place. Two parts hold the logic, and each is modelled here:

- **The collection store** (`Records.js`). It holds the ordered list of
  records, the list of artists, the pagination cursor and the normalised
  search term. Loading a page gives each new record the next consecutive id
  and replaces its embedded artist by the artist's id. Artists not seen before
  are appended, without repeated ids. A search recomputes every record's
  `show`; while a term is active, a record edit recomputes the edited
  record's and an artist edit every record's. While no term is active,
  every record is shown. The store is the class `Records.Store`. The pure steps
  it is built from are functions beside it (`ConvertRecords`, `FirstNew`,
  `UpdatedRecords`, `ReplaceArtist`, `Filter.Refilter`). The loop of
  `getNewArtists` is the method `Records.GetNewArtists`, proved equal to the
  reference definition `FirstNew`.
- **The edit-commit gate** (`Record.js`). One record row keeps working copies
  of its record and artist while the form is open. A commit with nothing
  changed just closes the form. A commit with any empty value is refused with
  "Values can't be empty!". Otherwise the row calls `saveRecord` and/or
  `saveArtist`, each only for the side that changed. Cancel puts the
  originals back. This is the class `RecordEditor.Editor`. Its commit
  decision is the function `RecordEditor.SaveDecision`, and `SaveData`
  returns the calls it makes as a sequence of `Commit` values.

Modelling choices:

- A field value is `JsValue`: a string, a non-negative number or a boolean.
  `toString()` writes numbers in decimal digits and booleans as "true"/"false".
  `toLowerCase()` is ASCII lower-casing. `trim()` removes the ECMAScript
  white-space and line-terminator characters.
- `Object.values` of a stored record is `Catalog.RecordValues`: title, year,
  condition, artist id, id and `show`. For an artist it is name and id. The
  `{}` passed in place of an artist is `None`, which has no values.
- A fetch is a parameter: `Loaded(page)` or `Failed`. The page carries its
  results and the next cursor, where `None` stands for `null`.
- Reference identity is modelled by flags. `Filter.Filtered.copied` says
  whether `filterRecord` made a new object. `Editor.recordChanged` and
  `Editor.artistChanged` stand for `currRecord !== record` and
  `currArtist !== artist`. The field handlers set them; cancel and new props
  from the parent clear them. A save does not clear them, so saving twice
  without new props commits the changed side again. The row's own test file expects
  this (src/pages/records/__tests__/Record.test.js:100-111).

Some behaviours of the code a reader may not expect; the model follows the
code:

- `updateRecord` filters the edited record against `{}`, not against its
  artist. With an active term, an edited record that matched only through its
  artist's name becomes hidden (`UpdatedRecords`). So after a record edit
  the stored `show` flags can differ from what a fresh search would give.
- `updateArtist` recomputes `show` for every record, not only for the records
  of the edited artist.
- With no matching id, `updateRecord` leaves the list unchanged. It is not an
  error.
- The next id is the last record's id + 1 (or 1). Under the store invariant
  (ids 1, 2, ... in load order) this is the maximum id + 1.
- Artists are de-duplicated by id only. A later page whose artist reuses a
  known id with another name is dropped, and the first artist stays
  (`LoadKeepsKnownArtists`).

## Model

| member | source | states |
|---|---|---|
| `Text.Trim` | src/pages/records/Records.js:162 | the result is a slice of the input, with only spaces cut off either side, that neither starts nor ends with a space |
| `Text.Normalize` | src/pages/records/Records.js:162 | the stored search term has no upper-case ASCII letter and no leading or trailing space |
| `Text.NormalizeIdempotent` | src/pages/records/Records.js:162 | normalising an already normalised term changes nothing |
| `Text.NormalizeBlank` | src/pages/records/Records.js:162 | a query normalises to the empty term iff every character of it is a space (the empty query included) |
| `Text.Lower` | src/pages/records/Records.js:30 | lower-casing keeps the length and lower-cases each ASCII letter, leaving every other character |
| `Text.Contains` | src/pages/records/Records.js:30 | `includes` is true iff the term occurs at some position of the text (always true for the empty term) |
| `Text.Decimal` | src/pages/records/Records.js:30 | a number's text is a non-empty string of digits that starts with 0 only for the number 0 |
| `Text.DecimalRoundTrip` | src/pages/records/Records.js:30 | reading a number's decimal text back gives the number |
| `Catalog.ToText` | src/pages/records/Records.js:30 | `toString()`: a string is itself; a number's text is non-empty, all digits, and reads back as the number; a boolean's text is "true" iff it is true and "false" iff it is false |
| `Catalog.RecordValues` | src/pages/records/Records.js:24 | `Object.values` of a stored record is its data fields plus its own `show` flag |
| `Catalog.ArtistValues` | src/pages/records/Records.js:25 | `Object.values` of an artist is its name and id; of `{}` it is nothing |
| `Catalog.IndexOfId` | src/pages/records/Records.js:67-70 | `findIndex` gives -1 iff no artist has the id, otherwise the first index with that id |
| `Catalog.GetArtist` | src/pages/records/Records.js:178-183 | `find` gives an artist iff one has the id, and then the first one |
| `Filter.SomeValueContains` | src/pages/records/Records.js:29-31 | `some` is true iff some value's lower-cased text contains the term |
| `Filter.FilterRecordAsWritten` | src/pages/records/Records.js:22-40 | as written: `show` becomes "the term occurs in some value of the record, its own `show` included, or of its artist"; nothing else changes; a copy is made iff `show` changes |
| `Filter.FilterRecord` | src/pages/records/Records.js:22-40 | `show` becomes "the term occurs in some data field of the record or of its artist"; nothing else changes; the very same record comes back iff `show` does not change |
| `Filter.EmptyTermShowsAll` | src/pages/records/Records.js:29-31 | the empty term shows every record |
| `Filter.FilterRecordStable` | src/pages/records/Records.js:34-39 | filtering an already filtered record gives it back without a copy |
| `Filter.Refilter` | src/pages/records/Records.js:163-170 | re-filtering keeps the list's length and every field but `show`; each `show` is "the term occurs in the record's data or its artist's" |
| `Filter.RefilterIdempotent` | src/pages/records/Records.js:160-174 | applying the same search twice gives what applying it once gave, and the second pass copies no record |
| `Filter.RefilterEmptyShowsAll` | src/pages/records/Records.js:160-170 | a search for a query that is empty or all spaces shows every record |
| `Filter.RefilterAsWritten` | src/pages/records/Records.js:163-170 | as written: each `show` is tested against the record's values including its own `show` |
| `Filter.RefilterAsWrittenNotIdempotent` | src/pages/records/Records.js:24-31 | as written, searching for "fals" twice does not give what searching once gave |
| `Records.ConvertRecordsAsWritten` | src/pages/records/Records.js:43-57 | as written: a page of n records gives n records in page order with ids startId..startId+n-1, each keeping its fields with its artist replaced by the artist's id, shown when the term is empty and otherwise iff the term matches one of its values, the `show: true` just set included, or the artist the page embeds |
| `Records.ConvertRecords` | src/pages/records/Records.js:43-57 | corrected: the same ids and fields, shown when the term is empty and otherwise iff the term matches its data fields (not `show`) or the store's artist for its artist id |
| `Records.LoadAgreesWithSearch` | src/pages/records/Records.js:43-57 | records converted against the store's artists are left unchanged by a search with the same term against those artists |
| `Records.LoadAsWrittenDisagreesWithSearch` | src/pages/records/Records.js:54-55 | as written, a record whose page embeds artist "old" under a store artist renamed "new" is loaded hidden under the term "new", while a search for "new", as written or corrected, shows it |
| `Records.StartId` | src/pages/records/Records.js:87-89 | the next id is at least 1 and above the last record's id; with ids 1..n it is n+1, above every id |
| `Records.AppendKeepsIdsFromOne` | src/pages/records/Records.js:86-91 | with ids 1..n, the next start id is n+1, and appending a page keeps the ids 1, 2, ... strictly increasing and the old records as a prefix |
| `Records.FirstNewCoversBatch` | src/pages/records/Records.js:63-77 | the old artists and the new ones together hold exactly the ids of the old artists and of the batch |
| `Records.FirstNewFresh` | src/pages/records/Records.js:63-77 | each new artist comes from the batch with an id not already known, and no two new artists share an id |
| `Records.AppendKeepsArtistsUnique` | src/pages/records/Records.js:93-101 | appending the new artists to a list without repeated ids keeps it without repeated ids and holding every batch artist's id |
| `Records.GetNewArtists` | src/pages/records/Records.js:63-77 | the loop returns exactly the batch artists, in first-occurrence order, whose id is neither known nor earlier in the batch |
| `Records.LoadKeepsKnownArtists` | src/pages/records/Records.js:93-101 | loading a page never changes the artist found for a known id, so artist edits survive later pages |
| `Records.UpdatedRecords` | src/pages/records/Records.js:119-130 | the list keeps its length and every record with another id; the record with the edited id becomes the edited record, whose `show` with an active term is tested on its own data only; with no matching id the list is unchanged |
| `Records.ReplaceArtist` | src/pages/records/Records.js:138-140 | the artist list keeps its length and the id at every position |
| `Records.ReplaceArtistLookup` | src/pages/records/Records.js:138-142 | after the replacement the edited id finds the edited artist, every other id finds what it found before, and ids stay unique |
| `Records.LoadKeepsInvariant` | src/pages/records/Records.js:84-103 | a successful load keeps ids 1, 2, ..., unique artist ids and every record's artist present |
| `Records.UpdateRecordKeepsInvariant` | src/pages/records/Records.js:119-130 | a record edit keeps the store invariant when the record's artist is known |
| `Records.UpdateArtistKeepsInvariant` | src/pages/records/Records.js:136-157 | an artist edit keeps the store invariant, with or without re-filtering |
| `Records.SearchKeepsInvariant` | src/pages/records/Records.js:160-174 | a search keeps the store invariant |
| `Records.LoadKeepsShown` | src/pages/records/Records.js:45-57 | while no term is active a load keeps every record shown: new records are created shown and not filtered |
| `Records.UpdateRecordKeepsShown` | src/pages/records/Records.js:123-128 | while no term is active an edit of a shown record keeps every record shown, since the edited record is stored as it is |
| `Records.SearchKeepsShown` | src/pages/records/Records.js:160-170 | a search whose query normalises to the empty term leaves every record shown |
| `Records.Store.constructor` | src/pages/records/Records.js:11-19 | the store starts empty, at the first page's URL, with the empty term and no error |
| `Records.Store.ShowMoreVisible` | src/pages/records/Records.js:208 | "Show More" is offered iff the cursor is a non-empty string and some record is loaded |
| `Records.Store.LoadNextRecords` | src/pages/records/Records.js:80-111 | on success the page's unseen artists are appended, its records are appended from the next id, converted against the merged artist list (so a search with the current term leaves them unchanged), the cursor set to the page's next cursor and the error cleared; on failure records, artists and cursor are unchanged and only the error is set; the invariant is kept |
| `Records.Store.AppendPage` | src/pages/records/Records.js:85-104 | the page's unseen artists are appended, its records are appended from the next id converted against the merged artists so that a search with the current term leaves them unchanged, the cursor becomes the page's next cursor, and the invariant is kept |
| `Records.Store.UpdateRecord` | src/pages/records/Records.js:119-133 | the records become `UpdatedRecords` of the old ones; artists, cursor and term are unchanged |
| `Records.Store.UpdateArtist` | src/pages/records/Records.js:136-157 | the artists become `ReplaceArtist` of the old ones; with an active term every record is re-filtered against them, otherwise the records are unchanged |
| `Records.Store.HandleSearched` | src/pages/records/Records.js:160-174 | the term becomes the trimmed, lower-cased query and every record is re-filtered against its artist; artists and cursor are unchanged |
| `RecordEditor.IsValid` | src/pages/records/Record.js:47-55 | the loop returns false iff some value is the empty string |
| `RecordEditor.RecordValidity` | src/pages/records/Record.js:47-55 | a record is valid iff its title, year and condition are not empty |
| `RecordEditor.ArtistValidity` | src/pages/records/Record.js:47-55 | an artist is valid iff its name is not empty |
| `RecordEditor.SetField` | src/pages/records/Record.js:23-33 | only the named field changes; an edited year becomes the input's text, since the `parseInt` branch has no effect |
| `RecordEditor.SaveDecision` | src/pages/records/Record.js:58-77 | nothing changed: close with no call; something changed and a value empty: refuse; otherwise close with `saveRecord` iff the record changed and `saveArtist` iff the artist changed, each at most once, record first |
| `RecordEditor.Editor.constructor` | src/pages/records/Record.js:6-10 | the row starts out of edit mode, with the props as working copies, nothing changed and no error |
| `RecordEditor.Editor.Render` | src/pages/records/Record.js:221 | a record with `show` false renders nothing whatever the editing state; a shown one renders the form iff editing |
| `RecordEditor.Editor.StartEditing` | src/pages/records/Record.js:127 | a click on the edit button enters edit mode |
| `RecordEditor.Editor.HandleEditBtnKeyUp` | src/pages/records/Record.js:94-96 | Enter on the edit button enters edit mode; other keys change nothing |
| `RecordEditor.Editor.ReceiveRecord` | src/pages/records/Record.js:13-15 | a new record prop becomes the working record and clears the record's change flag |
| `RecordEditor.Editor.ReceiveArtist` | src/pages/records/Record.js:18-20 | a new artist prop becomes the working artist and clears the artist's change flag |
| `RecordEditor.Editor.FieldChange` | src/pages/records/Record.js:23-33 | the working record changes in the named field only and is marked changed |
| `RecordEditor.Editor.ArtistChange` | src/pages/records/Record.js:36-44 | the working artist changes in its name only and is marked changed |
| `RecordEditor.Editor.SaveData` | src/pages/records/Record.js:58-77 | the calls and the new edit mode and error are exactly what `SaveDecision` says; the working copies and change flags are untouched |
| `RecordEditor.Editor.CancelEditRecord` | src/pages/records/Record.js:80-85 | leaves edit mode, clears the error, restores both working copies to the props and clears both change flags, with no call |
| `RecordEditor.Editor.HandleFormKeyDown` | src/pages/records/Record.js:88-91 | Escape (27) cancels, Enter (13) saves as `SaveData` does, any other key changes nothing |

## Findings

| source | as written | input that shows it | evidently intended | confidence | as-written member | corrected member |
|---|---|---|---|---|---|---|
| src/pages/records/Records.js:24-31 | the values searched are `Object.values(record)`, which include the record's own `show` flag as the text "true" or "false" | a hidden record none of whose fields contains "fals", searched for "fals": the first search shows it, because its "false" matches; the same search again hides it, because its "true" does not | search only the record's data fields and its artist's fields, so that a repeated search changes nothing | not executed | `Filter.RefilterAsWrittenNotIdempotent` | `Filter.RefilterIdempotent` |
| src/pages/records/Records.js:54-55 | with an active term, a loaded record is filtered against the artist its page embeds, not the store's artist for that id, which is the one its row displays (Records.js:200) | the store holds artist 0 renamed "new", the term is "new", and a page embeds artist 0 as "old": the loaded record is hidden although it is displayed with "new" and a search for "new" shows it. The scenario of src/pages/records/__tests__/Records.test.js:233-267 (search, rename, load more) is of this kind | filter a loaded record against the store's artist for its id, after the page's new artists are merged in | not executed | `Records.LoadAsWrittenDisagreesWithSearch` | `Records.LoadAgreesWithSearch` |

The as-written filter is `Filter.FilterRecordAsWritten` (with
`Filter.RefilterAsWritten` over a list). The corrected filter is
`Filter.FilterRecord`, which leaves out `show`. The store uses the corrected
one: `Records.ConvertRecord`, `Records.UpdatedRecords` and `Filter.Refilter`
all call `FilterRecord`. A side effect of the same code is that any term
contained in "true" (such as "tru") keeps every shown record shown. The
corrected filter removes that too.

For the second row, the as-written conversion is
`Records.ConvertRecordsAsWritten`, which filters with
`Filter.FilterRecordAsWritten` as the code does. The corrected one is
`Records.ConvertRecords`, which takes the merged artist list of the load and
filters with the corrected `Filter.FilterRecord`, so it removes both faults.
`Records.Store.LoadNextRecords` uses it, and its contract states that the
loaded records are already what a search with the current term gives them.

## Left out

- Fetching (`getRecords`, the axios instance and its interceptors, HTTP) is not modelled. `LoadNextRecords` takes the fetch outcome as a parameter. The first load on mount is the constructor followed by `LoadNextRecords`.
- The `loading` and `searchLoading` flags and `startSearchLoading` are not modelled. They only drive display.
- The search box's debounce (`SearchInput.js`, a 500 ms `lodash.debounce`) is not modelled: timing and coalescing are outside the model. Escape in the search box clears the term through the same debounced path, not immediately (src/components/SearchInput.js:39). `HandleSearched` models the committed search.
- JSX rendering, CSS modules and `React.memo` are left out. `Editor.Render` says only which of nothing, details or form is shown. `Filtered.copied` marks where a new object would make React re-render.
- Asynchrony and stale closures are not modelled. `updateArtist` and `handleSearched` read `artists` from the render they were created in; the model applies every operation to the current state, one at a time.
- `Records.Store.UpdateRecord` requires the edited record to be shown. The only caller is the row's form, which renders only while `record.show` is true (src/pages/records/Record.js:221), and the working copy keeps the prop's `show` (`RecordEditor.Editor.Valid`). It is needed to keep "every record is shown while no term is active" in `Store.Valid`.
- `Records.Store.UpdateRecord` requires the edited record's artist id to be in the artist list. The source does not check this, but the row never edits a record's artist, and a record with an unknown artist would make the next search throw. It is needed to keep the invariant.
- The store's `artists.find` returning `undefined` is excluded by the store invariant. In the source that case would throw inside `filterRecord`.
- The `artist = {}` default prop of a row is not modelled. `Editor` always receives an artist; under the store invariant every record's artist is found.
- Applying the row's `Commit` calls to the store (`saveRecord={updateRecord}`, `saveArtist={updateArtist}`) is not modelled as one step. `SaveData` returns the calls, and `Store.UpdateRecord` and `Store.UpdateArtist` model their effect.
- JavaScript numbers are modelled as non-negative integers. Negative, fractional and non-finite years or ids are not modelled. Nor are large numbers: `toString()` switches to exponent form ("1e+21") from 10^21 on, and integers above 2^53 lose precision, while `Text.Decimal` writes every integer in plain digits.
- Text.Lower: does not model Unicode lower-casing; non-ASCII letters are kept as they are.
- Fields of a fetched record other than title, year, condition and artist are not modelled. The source would spread them into the stored record and search them too.
