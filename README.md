# Archive dashboard: list, selection, export and submission logic

This project is a Dafny model of the state logic inside the single React component
of a document-archive dashboard (`src/App.tsx`). It covers the parts that are real
logic once rendering is set aside:

- the **derived archive list**: records whose type matches the type filter
  (case-insensitively, or all records for `'all'`), sorted by date, type or author
  with a +1/-1 direction multiplier on the comparator;
- the **selection tracker**: the per-row toggle by identifier, the header checkbox
  (select all / select none) and its "all selected" indicator, which compares lengths;
- the **export simulator**: the empty-selection guard, the progress writes
  0, 10, ..., 100, the single `archives.zip` download, then hiding the modal and
  clearing the selection;
- the **submission flow**: the record synthesized from the draft (type, size string,
  author), the QR token `archive:{title}-{millis}`, and the reset when the QR modal
  is closed;
- the **small toggles**: the sort order and the fr/en language.

Modules, leaves first:

- `Seqs` (`seqs.dfy`): order-preserving filtering, as `Array.prototype.filter` does it.
- `Text` (`text.dfy`): ASCII lower-casing, a three-way lexicographic string comparison
  standing in for `localeCompare`, and decimal numerals for non-negative integers.
- `Archives` (`archives.dfy`): the record datatype, the type filter, the comparator,
  a stable sort, the derived list, and the two seed records.
- `Selection` (`selection.dfy`): toggle, header checkbox, all-selected indicator.
- `Submission` (`submission.dfy`): draft, synthesized record, size string, QR token and its parser.
- `Dashboard` (`dashboard.dfy`): class `App`. Its fields mirror the component's `useState`
  slots, and its methods are the event handlers. The derived list and the header
  checkbox state are functions of the fields.

The sort is an insertion sort. `Archives.SortUnique` proves that any sorted and stable
rearrangement equals it. The language requires `Array.prototype.sort` to be stable, so the
model's order is the order any conforming engine produces.

The size string `(size / 1024 / 1024).toFixed(2)` is modelled exactly. Dividing an integer
byte count by 2^20 is exact in binary floating point. `toFixed(2)` then prints the integer n
nearest to 100 * size / 2^20, taking the larger one on a tie (`Submission.Hundredths`).

Behaviour of the code worth knowing:

- The progress slot is written 0 before the loop and 0 again in its first iteration.
  The written values therefore never decrease, but they do not strictly increase.
- Sorting by date multiplies `b - a` by the direction. So "ascending" shows the newest
  record first, and the initial "descending" view shows the oldest first.
- The row toggle keeps the selection in order: a new record goes at the end, and a removal
  keeps the others in order. The selection is a sequence, not a set.
- The sort-key selector offers only date, type and author. The model has exactly those
  three keys, so it has no "unknown key" case.
- Submitting does not reset the draft. Only closing the QR modal does.

## Model

| member | source | states |
|---|---|---|
| `Seqs.Filter` | src/App.tsx:124 | the result holds exactly the elements that pass the test, each as often as in the input; it is strictly shorter when some element fails |
| `Seqs.FilterIsSubsequence` | src/App.tsx:124 | filtering keeps the surviving elements in their input order |
| `Text.Lower` | src/App.tsx:240 | lower-casing maps every character and keeps the length |
| `Text.Compare` | src/App.tsx:246 | the comparison is -1, 0 or 1, and 0 exactly for equal strings |
| `Text.CompareAntisymmetric` | src/App.tsx:246 | swapping the operands negates the comparison |
| `Text.CompareTransitive` | src/App.tsx:246 | "not after" is transitive, so the comparator is a consistent order |
| `Text.NatToString` | src/App.tsx:136 | the numeral is non-empty, all digits, with no leading zero unless it is "0" |
| `Text.ParseNatToString` | src/App.tsx:136 | reading the numeral back gives the number |
| `Text.NatToStringParse` | src/App.tsx:136 | every canonical numeral is the numeral of the number it denotes |
| `Archives.FilterByType` | src/App.tsx:239-240 | the filtered list holds exactly the records whose lower-cased type equals the lower-cased filter, or every record for "all", each as often as in the input |
| `Archives.Matches` | src/App.tsx:240 | "all" keeps every record; any other filter keeps a record exactly when the lower-cased type equals the lower-cased filter, which needs equal lengths |
| `Archives.MatchesIgnoresCase` | src/App.tsx:240 | two records whose types differ only in letter case are kept or dropped together |
| `Archives.FilterByTypeKeepsOrder` | src/App.tsx:240 | the filtered records keep their input order |
| `Archives.Comparator` | src/App.tsx:241-246 | zero exactly on equal keys; for dates, "ascending" puts the later record first and "descending" the earlier; for text keys, the direction multiplies the string comparison |
| `Archives.ComparatorFlip` | src/App.tsx:242 | flipping the direction negates the comparator |
| `Archives.PrecedesTotal` | src/App.tsx:241-246 | of two records, one may always precede the other |
| `Archives.PrecedesTransitive` | src/App.tsx:241-246 | precedence is transitive for every key and direction |
| `Archives.Insert` | src/App.tsx:241 | insertion adds exactly the one record |
| `Archives.Sort` | src/App.tsx:241-247 | the sorted list is a permutation of its input |
| `Archives.SortSorted` | src/App.tsx:241-247 | every record may precede every later record |
| `Archives.SortStable` | src/App.tsx:241-247 | records that tie on the key keep their input order |
| `Archives.SortUnique` | src/App.tsx:241-247 | any sorted, stable rearrangement equals the model's sort |
| `Archives.Derive` | src/App.tsx:239-247 | the derived list holds exactly the matching records, each as often as in the input; with "all" it is a permutation of the input |
| `Archives.DeriveOrdered` | src/App.tsx:239-247 | the derived list is sorted and stable |
| `Archives.DateOrderInverted` | src/App.tsx:242-244 | sorting by date "ascending" never puts an earlier record before a later one; "descending" never puts a later before an earlier |
| `Archives.TextOrder` | src/App.tsx:242-246 | sorting by type or author is lexicographically non-decreasing ascending and non-increasing descending |
| `Archives.FlipReversesOrder` | src/App.tsx:242 | two records that differ on the key swap places when the direction flips |
| `Archives.SortedOppositeOrders` | src/App.tsx:242 | in any list sorted one way and any list sorted the other way, two records with different keys appear in opposite order |
| `Archives.ToggleOrder` | src/App.tsx:435 | the sort-order button always changes the order |
| `Archives.PdfFilterKeepsReport` | src/App.tsx:8-27 | the type filter "pdf" keeps only "Financial Report 2024" of the seed set, matching "PDF" case-insensitively and dropping "DOC" |
| `Archives.PdfFilterScenario` | src/App.tsx:8-27 | filtering the seed set by "pdf" leaves only "Financial Report 2024", for every key and direction |
| `Archives.InitialViewScenario` | src/App.tsx:53-55 | the initial view (all, by date, descending) lists the 2024-03-14 record before the 2024-03-15 one |
| `Selection.WithoutId` | src/App.tsx:124 | removal keeps every entry with another identifier, with its number of occurrences and in order, drops every entry with the identifier, and shortens a list that held it |
| `Selection.Toggle` | src/App.tsx:120-128 | the toggled identifier's selected state flips and no other identifier's changes; a selected identifier loses every entry and the rest keep their order and their number of occurrences; an unselected record is appended at the end |
| `Selection.ToggleTwice` | src/App.tsx:120-128 | toggling an unselected record twice restores the selection |
| `Selection.ToggleKeepsUniqueIds` | src/App.tsx:120-128 | the toggle never puts one identifier into the selection twice |
| `Selection.HeaderChange` | src/App.tsx:466-472 | checking makes the selection exactly the visible list, in its order, so the indicator shows checked; unchecking selects nothing |
| `Selection.AllSelected` | src/App.tsx:473 | the header's checked state is a length comparison, not a set comparison; selecting exactly the shown list makes it true |
| `Selection.HasId` | src/App.tsx:122 | a record with the identifier is selected exactly when the identifier is among the selection's identifiers |
| `Selection.DeselectOneClearsHeader` | src/App.tsx:466-497 | after select-all, unticking any visible row clears the header checkbox |
| `Selection.IdsCardinality` | src/App.tsx:473 | a list without repeated identifiers has as many identifiers as entries |
| `Selection.AllSelectedWhenConsistent` | src/App.tsx:473 | when the selection holds only visible identifiers and nothing repeats, the length test holds exactly when every visible record is selected |
| `Selection.StaleSelectionShowsAllSelected` | src/App.tsx:473 | with a selection left over from another filter, the header shows checked although no visible record is selected |
| `Selection.StaleSelectionHeaderClickClears` | src/App.tsx:466-473 | in that state a click on the controlled header delivers "unchecked" and empties the selection instead of selecting the visible record |
| `Selection.MockArchivesUniqueIds` | src/App.tsx:8-27 | the two seed records have distinct identifiers, so the dashboard's requirement holds for the page's data |
| `Selection.UniqueIdsCount` | src/App.tsx:8-27 | a list without repeated identifiers holds each record at most once |
| `Selection.SubMultisetKeepsUniqueIds` | src/App.tsx:239-247 | a rearranged part of a list without repeated identifiers repeats none |
| `Selection.DeriveKeepsUniqueIds` | src/App.tsx:468 | selecting the derived list never repeats an identifier when the records do not |
| `Submission.Hundredths` | src/App.tsx:149 | the printed hundredths are the nearest to size / 2^20, rounding a tie up |
| `Submission.HundredthsUnique` | src/App.tsx:149 | no other integer meets that rounding rule |
| `Submission.TwoDigits` | src/App.tsx:149 | the two fraction digits denote the hundredths remainder |
| `Submission.MegabyteString` | src/App.tsx:149 | the size string is a canonical numeral, a point, two digits and " MB", and the number it denotes in hundredths is `Hundredths(size)`, the nearest to size / 2^20 |
| `Submission.TwoMebibytes` | src/App.tsx:149 | 2,097,152 bytes give "2.00 MB" |
| `Submission.EighthMebibyte` | src/App.tsx:149 | 131,072 bytes, an exact tie at 0.125, are shown rounded up as "0.13 MB" |
| `Submission.TypeOf` | src/App.tsx:148 | the type is the file's media type, or "Unknown" without a file or with an empty type |
| `Submission.SizeOf` | src/App.tsx:149 | the size is "Unknown" without a file or with size 0, else the MB string |
| `Submission.Synthesize` | src/App.tsx:144-151 | the record keeps every draft field, takes the two clock readings as id and date, derives type and size, and has author "Current User" |
| `Submission.QrPayload` | src/App.tsx:136 | the token starts with "archive:" and is longer than prefix and title |
| `Submission.LastIndexOf` | src/App.tsx:136 | the index is the last occurrence of the character, or -1 |
| `Submission.ParseQrPayload` | src/App.tsx:136 | an accepted string starts with "archive:" |
| `Submission.QrRoundTrip` | src/App.tsx:136 | the title and the time are read back from every token |
| `Submission.QrParseSound` | src/App.tsx:136 | every accepted string is the token of the title and time read from it |
| `Submission.NoFileScenario` | src/App.tsx:136-151 | a "Q1 Report" draft without a file gets type and size "Unknown" and a token beginning "archive:Q1 Report-" |
| `Dashboard.ToggledLanguage` | src/App.tsx:71 | the language button always changes the language |
| `Dashboard.LoopWrites` | src/App.tsx:103-105 | the loop's k-th write is 10 * k |
| `Dashboard.ExportTrace` | src/App.tsx:100-105 | an export writes twelve values: the initial 0, then the loop's eleven |
| `Dashboard.ExportTraceShape` | src/App.tsx:99-106 | the progress writes start at 0, never decrease, stay multiples of 10 within 0..100, end at 100 and visit every tenth |
| `Dashboard.App.constructor` | src/App.tsx:47-68 | the initial state: fr, filter "all", by date, descending, empty selection, progress hidden at 0, empty draft, no QR |
| `Dashboard.App.HeaderChecked` | src/App.tsx:473 | the header shows checked exactly when the selection is as long as the shown list |
| `Dashboard.App.FilteredArchives` | src/App.tsx:239-247 | the shown list is `Derive` of the records and the filter, key and order fields: exactly the matching records, sorted, with ties in input order |
| `Dashboard.App.ToggleLanguage` | src/App.tsx:71 | the language flips and nothing else changes |
| `Dashboard.App.ToggleSortOrder` | src/App.tsx:435 | the order flips, and the shown list becomes the list derived with the flipped order |
| `Dashboard.App.SetFilterType` | src/App.tsx:409 | the type filter takes the chosen value |
| `Dashboard.App.SetSortBy` | src/App.tsx:423 | the sort key takes the chosen value |
| `Dashboard.App.ToggleSelection` | src/App.tsx:120-128 | the selection becomes the toggled selection and keeps its identifiers unique |
| `Dashboard.App.HeaderCheckbox` | src/App.tsx:466-472 | the selection becomes the shown list or empty; after checking, the header shows checked |
| `Dashboard.App.Export` | src/App.tsx:93-118 | with an empty selection it alerts and changes nothing; otherwise progress is written 0, 0, 10, ..., 100, one "archives.zip" download fires, the modal is hidden and the selection is empty |
| `Dashboard.App.SetFile` | src/App.tsx:130-133 | the draft's file becomes the picked file, the other draft fields stay |
| `Dashboard.App.SubmitArchive` | src/App.tsx:141-155 | returns the synthesized record, stores the token for the draft's title, shows the QR modal, and leaves the draft as it is |
| `Dashboard.App.CloseQrModal` | src/App.tsx:215-224 | both modals are hidden and all five draft fields are empty |

## Left out

- Rendering, styling, the theme toggle, the view selector, the notification panel and
  the hard-coded dashboard counters: presentation only.
- The string tables and the QR image rendering: static data and a foreign component.
- `handleView`, `handleDownload` and `handleDelete`: a modal selection, a DOM link click,
  and a confirm dialog followed by a log line. None of them changes the list.
- DOM side effects: creating and clicking the download link, `alert`, and `console.log`.
  A download is modelled as its name appended to `downloads`. The alert is the `alerted`
  result of `Export`.
- The 500 ms delays and the `await`s in the export loop. The model runs the loop
  sequentially, so it does not cover a second export started while one is running, or a
  render in between.
- The clock: `Date.now()` and `new Date()` are parameters (`idNow`, `dateNow`, `qrNow`).
  The ISO date string of a new record is modelled as its timestamp.
- Date parsing: a record's date is its millisecond timestamp. An unparseable date (NaN)
  is not modelled.
- `Text.Compare`: does not model locale collation. `localeCompare` is replaced by
  lexicographic comparison on character codes.
- `Text.Lower`: does not model Unicode case mapping. Only ASCII A-Z are lower-cased.
- The per-field input handlers for title, description, category and recipients, and the
  add-archive modal's open and cancel buttons: one-line slot assignments. Only the file
  picker (`SetFile`) is modelled.
- `src/store/languageStore.ts` is not part of this model beyond its initial value `'fr'`.
  It wraps zustand's `create`, and `App.language` stands for it.
- `src/types/supabase.ts` is not part of this model: it holds type declarations only and is
  never used.
