# Song lesson admin form: a Dafny model of its core

`admin.js` is the script behind the admin page of a music-lesson app. An
editor fills in a form describing a song lesson. The form holds:

- the YouTube link;
- the titles in Russian and Spanish, and the artist;
- the level, themes, grammar, vocabulary and cultural notes;
- the content restrictions;
- the lyrics, as `time | text` lines;
- a list of tasks.

The script turns the form into a song record (`buildSong`) and checks it
(`validateSong`). It keeps a working set of records in the browser's
storage (`loadSet`, `upsertSongInSet`, `removeSongFromSet`, `clearSet`). It
hands out the next free id (`maxIdFromArray`, `getNextId`). It merges the
set into the bundled song list (`mergeSongs`). It exports songs, tasks and
lyrics as three CSV tables (`csvEscape`, `toCsv`, `exportCsv`,
`exportSetCsv`).

This project models that logic. It keeps the DOM, the storage API, the
URL parser and the file download outside, as parameters or as left out.

| file | module | what it holds |
|---|---|---|
| `strings.dfy` | `Strings` | `trim`, `split`, `join`, `includes` and `String(n)` for integers, with their laws |
| `options.dfy` | `Options` | the `Option` type |
| `form_text.dfy` | `FormText` | `linesToArray`, `csvToArray` and `parseLyrics` |
| `youtube.dfy` | `YouTube` | `extractYouTubeId` and `youtubeCoverUrl` |
| `slug.dfy` | `Slug` | `safeSlug` |
| `songs.dfy` | `Songs` | the record types, ids as the code compares and sorts them, `buildSong` and `validateSong` |
| `store.dfy` | `SongStore` | the stored set as a class whose field the operations rewrite, and the id generator |
| `merge.dfy` | `Merge` | `mergeSongs`: two loops fill a map, then a sort by numeric id |
| `csv.dfy` | `Csv` | `csvEscape` and `toCsv`, with a reader for the same dialect as their partner |
| `export.dfy` | `Export` | the rows and tables of `exportSetCsv` (nested loops) and `exportCsv` |

## How the model works

- **Song ids.** The code compares ids as `String(id)` and sorts them by
  `Number(id) || 0`. An id is modelled as `Num(n)` or `NotNumber(text)`.
  `Key` is its text and `SortKey` its sort value. Two numeric ids share a
  key exactly when they are equal.
- **The stored set** is the field `songs` of the class
  `SongStore.SongStore`. `Upsert` finds the first song with the same key in
  a loop, then replaces it or appends the new song. `Remove` filters the
  set. `Clear` empties it. Each of them returns the new set, as the script
  does.
- **`mergeSongs`** is a method. Its two loops write both lists into a
  `map`, keeping the insertion order of the keys, as a JavaScript `Map`
  does. It then sorts the values by `SortKey`. The winner for a key is
  specified on its own: the last addition under the key, or else the last
  existing song under it. The method is proved against that specification.
- **The CSV writer** is paired with a reader for the same dialect. That
  dialect is section 2 of RFC 4180, with records ending in a line feed.
  Reading back what `toCsv` wrote gives the header and every row, field
  for field. This holds for any field contents: commas, quotes, line feeds
  or semicolons.
- **`exportSetCsv`** is a method. Its nested loops collect the task rows and
  the lyric rows. It is proved equal to a table built song by song. In that
  table, task `j` of song `i` sits after the rows of the songs before it,
  and carries the song's id and the index `j + 1`.

## Model

| member | source | states |
|---|---|---|
| `Strings.Trim` | admin.js:9 | the result is the input with a blank prefix and a blank suffix cut off, and has no white space at its ends; it is empty exactly when the input is blank; a trimmed string is returned unchanged |
| `Strings.TrimIsTheOnlyCut` | admin.js:9 | any string with no white space at its ends that is the input with blank ends cut off is the trimmed input, so `trim` is pinned down by its contract |
| `Strings.CutsAgree` | admin.js:9 | two such cuts of the same text are the same string |
| `Strings.Utf16Length` | admin.js:327 | JavaScript's `.length` counts UTF-16 units: at least one per character, at most two, and exactly one per character when none lies above U+FFFF |
| `Strings.Utf16LengthOfEmoji` | admin.js:327 | three emoji have `.length` 6, though they are three characters |
| `Strings.Split` | admin.js:9 | like JavaScript's `split`, it gives at least one part, and no part holds the separator |
| `Strings.JoinSplit` | admin.js:19 | joining the parts of a split with the same separator gives back the original text |
| `Strings.SplitJoin` | admin.js:19 | splitting joined parts that hold no separator gives back the parts |
| `Strings.SplitAppend` | admin.js:17 | a separator splits the text into the parts before it followed by the parts after it |
| `Strings.SplitSinglePart` | admin.js:18 | a row has exactly one part when it holds no separator, which is the `parts.length < 2` test |
| `Strings.NatToString` | admin.js:397 | `String(n)` of a natural number is non-empty, all digits, and has no leading zero |
| `Strings.NatToStringRoundTrip` | admin.js:397 | reading the digits of `String(n)` gives `n` back |
| `Strings.IntToString` | admin.js:101 | `String(n)` is non-empty; it is a minus sign then digits for a negative number, and all digits otherwise |
| `Strings.IntToStringSign` | admin.js:101 | the text starts with a minus sign exactly when the number is negative |
| `Strings.IntToStringInjective` | admin.js:101 | different integers have different texts, so comparing ids by text agrees with comparing the numbers |
| `FormText.TrimNonBlank` | admin.js:9 | every entry kept by trim-then-filter is non-empty and trimmed, and no entry is added |
| `FormText.LinesToArray` | admin.js:8-10 | every entry is non-empty, trimmed and holds no line feed |
| `FormText.CsvToArray` | admin.js:11-13 | every entry is non-empty, trimmed and holds no comma |
| `FormText.TokensAppend` | admin.js:8-13 | the entries of two pieces joined by the separator are the first piece's entries followed by the second's |
| `FormText.TokensOfPiece` | admin.js:8-13 | a piece without the separator gives one trimmed entry, or none when it is blank |
| `FormText.TokensOfJoin` | admin.js:8-13 | clean entries (non-empty, trimmed, no separator) survive being joined and parsed again unchanged |
| `FormText.ParseLyricRows` | admin.js:16-20 | there is one lyric per row, in row order, each parsed from its own row |
| `FormText.LyricRowWithoutBar` | admin.js:18 | a row without a bar has an empty time, and its trimmed row is the text |
| `FormText.LyricRowAtFirstBar` | admin.js:17-19 | a row is cut at its first bar: the trimmed text before it is the time, and the trimmed text after it is the lyric, later bars included |
| `FormText.ParseLyricsAppend` | admin.js:14-21 | lyrics come in line order: two pieces joined by a line feed give the first piece's lyrics followed by the second's |
| `FormText.ParseLyricsOfLine` | admin.js:14-21 | a single line gives one lyric, or none when it is blank |
| `YouTube.IdRun` | admin.js:43 | the greedy `{6,20}` run: it takes at most the cap, only id characters, and stops at the first other character |
| `YouTube.FirstVMatch` | admin.js:43 | it gives the leftmost position where `v=` is followed by six or more id characters, or -1 when there is none |
| `YouTube.VParam` | admin.js:43-44 | the regex finds no match exactly when no position matches; a match is the capture at the leftmost matching position and has the shape of a bare id |
| `YouTube.ExtractYouTubeId` | admin.js:26-45 | blank input gives ""; a bare 6-20 character id without "http" comes back as it is; otherwise the URL rule's answer is used, then the `v=` capture, then the trimmed input |
| `YouTube.UnresolvedInputPassesThrough` | admin.js:44 | with no URL rule and no `v=` match, the trimmed input is returned rather than "" |
| `YouTube.FallbackIdIsBare` | admin.js:43-44 | an id found by the `v=` fallback has the bare-id shape and is long enough for the validator |
| `YouTube.BareIdIsTrimmed` | admin.js:29 | a string of bare-id shape has no white space at its ends |
| `YouTube.CoverUrl` | admin.js:51 | the address is "" exactly when the id is "", and the id can be read back out of any other address |
| `Slug.LowerAscii` | admin.js:54 | lower-casing keeps the length and maps each character on its own |
| `Slug.DropRun` | admin.js:55 | skipping a run of non-slug characters keeps every letter and digit and stops at a slug character |
| `Slug.CollapseRuns` | admin.js:55 | replacing runs never makes the text longer |
| `Slug.CollapseRunsShape` | admin.js:55 | the result has only `[a-z0-9-]` with no two dashes in a row, starts with a dash only when the text starts with another character, and keeps every letter and digit in order |
| `Slug.CollapseWord` | admin.js:55 | a run of letters and digits is copied unchanged |
| `Slug.CollapseGap` | admin.js:55 | a whole run of other characters, followed by a letter, a digit or the end, becomes exactly one dash |
| `Slug.CollapseSpaced` | admin.js:55 | words separated by runs of other characters become the words joined by single dashes, with one more dash when a run ends the text |
| `Slug.SpacedCollapse` | admin.js:55 | that collapse starts with a letter or digit, and the joined words start and end with one |
| `Slug.StripCollapsed` | admin.js:55-56 | after a leading run, the words and a trailing run are collapsed, stripping the edge dashes leaves exactly the joined words |
| `Slug.SpacedSlug` | admin.js:55-56 | a leading run, words separated by runs, and a trailing run collapse and strip to the words joined by single dashes |
| `Slug.StripEdgeFacts` | admin.js:56 | removing one edge dash at each end leaves a slug that neither starts nor ends with a dash and keeps its letters and digits |
| `Slug.SafeSlug` | admin.js:53-57 | the slug has only lower-case letters, digits and single inner dashes, and keeps every letter and digit of the lower-cased title (or of "song" when the title is empty) |
| `Slug.SafeSlugOfLowered` | admin.js:53-56 | a non-empty title's slug is its lower-cased text with runs collapsed and edge dashes stripped |
| `Slug.SafeSlugJoinsWords` | admin.js:53-56 | a title that lower-cases to words separated by runs of other characters, with optional runs at both ends, has exactly those words joined by single dashes as its slug |
| `Slug.SafeSlugOfGap` | admin.js:53-56 | a non-empty title with no letter or digit has the empty slug |
| `Songs.NumericKeysDistinguish` | admin.js:101 | two numeric ids have the same `String(id)` exactly when they are equal |
| `Songs.CollapseContent` | admin.js:281 | several lines stay a list of two or more; collapsing non-empty lines loses none of them |
| `Songs.BuildTask` | admin.js:273-288 | the titles and instructions are the trimmed Russian and Spanish fields; the type is the trimmed type, or "warm-up" when it is blank; there is an answer exactly when the answer field is not blank, and it is the trimmed field; there is a word bank exactly when the trimmed field has entries, and it is those entries; the content stands for exactly the non-blank trimmed content lines |
| `Songs.BuildEach` | admin.js:273-288 | there is one task per editor, in editor order |
| `Songs.WithText` | admin.js:289 | every kept task has a title, an instruction or content, and no task is added |
| `Songs.BuildTasks` | admin.js:272-289 | every task of a song says something, and there are no more tasks than editors |
| `Songs.BuildTasksAppend` | admin.js:272-289 | tasks keep the order of their editors |
| `Songs.TaskKeptExactlyWhen` | admin.js:273-289 | an editor yields a task exactly when a title or instruction is not blank or the content has a non-blank line; an answer or word bank alone does not count |
| `Songs.BuildSong` | admin.js:243-311 | the id is the typed one, or the next free id when the field is blank; the YouTube id is the extracted one and the cover is its thumbnail address, empty exactly when the id is; the level is the trimmed level, or no entry when it is blank; the titles and artist are the trimmed fields; themes and grammar are the comma lists, vocabulary the line list; the restrictions carry the form's age, languages, profanity and note; the lyrics are `parseLyrics` of the lyrics field, one per non-blank line; the tasks are exactly those built from the editors, each saying something; the PDF link is trimmed |
| `Songs.Failed` | admin.js:331-333 | one problem per failed rule, in the fixed rule order |
| `Songs.ValidateSong` | admin.js:324-342 | there is no problem exactly when the three rules hold (the trimmed YouTube id has a `.length` of six or more UTF-16 units, the artist is not blank, one title is not blank); each rule's problem appears exactly when that rule fails; problems come in the order YouTube, artist, title |
| `Songs.Messages` | admin.js:331-333 | there is one message per problem, in the same order |
| `Songs.BuiltSongValidExactlyWhen` | admin.js:243-342 | a song built from the form is valid exactly when the trimmed resolved YouTube id has six or more UTF-16 units, the artist is not blank and one title is not blank; nothing else is required |
| `SongStore.IndexOfKey` | admin.js:101 | `findIndex` gives the first position holding the key, or -1 when no position does |
| `SongStore.Upserted` | admin.js:99-106 | the song ends up in the set, which either keeps its length or gains the song at the end |
| `SongStore.WithoutKey` | admin.js:108 | the set keeps exactly the songs under other keys and never grows |
| `SongStore.UpsertNewKeyAppends` | admin.js:103 | a song with a new key is appended |
| `SongStore.UpsertKnownKeyReplaces` | admin.js:101-102 | a song with a known key replaces the first song under that key, in place |
| `SongStore.UpsertKeepsKeysDistinct` | admin.js:99-106 | upserting keeps a set free of duplicate keys |
| `SongStore.UpsertIdempotent` | admin.js:99-106 | upserting the same song twice gives the same set as once |
| `SongStore.RemoveMissingKeyKeepsSet` | admin.js:107-111 | removing a key that no song has leaves the set unchanged |
| `SongStore.RemoveKeepsOrder` | admin.js:108 | removal works piece by piece, so the remaining songs keep their order |
| `SongStore.RemoveKeepsKeysDistinct` | admin.js:107-111 | removal keeps a set free of duplicate keys |
| `SongStore.RemoveUndoesUpsert` | admin.js:99-111 | removing a key right after upserting a song under it gives the same set as removing the key alone |
| `SongStore.RemoveReplacedSame` | admin.js:102-108 | after a song is replaced by one with the same key, removing that key gives the same set as before the replacement |
| `SongStore.MaxIdFrom` | admin.js:147-150 | the fold is at least its start value and every numeric id, and equals the start value or one of the ids |
| `SongStore.MaxIdFromArray` | admin.js:146-151 | the maximum is at least 0 and every numeric id, and it is 0 or one of the ids; missing entries and non-numeric ids are skipped |
| `SongStore.Entries` | admin.js:154 | the stored songs are listed as present entries, in order |
| `SongStore.SongStore.Load` | admin.js:87-95 | the set is what was stored, or empty when nothing readable was stored |
| `SongStore.SongStore.Upsert` | admin.js:99-106 | the loop finds the first song with the key, and the new set is `Upserted` of the old one; the returned set is the stored one |
| `SongStore.SongStore.Remove` | admin.js:107-111 | the new set is the old one without the key, and it is returned |
| `SongStore.SongStore.Clear` | admin.js:112-115 | the set is emptied and an empty list is returned |
| `SongStore.SongStore.NextId` | admin.js:152-161 | the next id is at least 1 and above every numeric id in the set and in the bundled list; it is 1 or one more than one of those ids |
| `Merge.LastWithKey` | admin.js:135 | what a map keeps under a key when a list is written into it is a song of that list under that key |
| `Merge.Winner` | admin.js:133-141 | the kept song for a key carries that key |
| `Merge.LastWithKeyStep` | admin.js:135 | writing one more entry either makes it the kept song for its key or leaves the key alone |
| `Merge.PresentHasLast` | admin.js:134-135 | every present song's key has a kept song |
| `Merge.EveryKeyKept` | admin.js:131-143 | a key has a kept song exactly when a present song in either list carries it |
| `Merge.LastAdditionWins` | admin.js:137-141 | the last addition under a key is the song kept for it, whatever the existing list holds |
| `Merge.InsertById` | admin.js:142 | inserting adds exactly that song to the multiset |
| `Merge.InsertKeepsSorted` | admin.js:142 | inserting into a list sorted by numeric id (a non-number counting as 0) keeps it sorted |
| `Merge.SortById` | admin.js:142 | the sort gives a permutation of its input, ordered by numeric id (a non-number counting as 0) |
| `Merge.ConsKeepsKeysDistinct` | admin.js:142 | a song whose key is new can go in front of a list with distinct keys |
| `Merge.InsertKeepsKeysDistinct` | admin.js:142 | inserting a song with a new key keeps the keys distinct |
| `Merge.InsertedFrom` | admin.js:142 | an element of the insert's result that is not in the sorted list is the inserted song |
| `Merge.SortKeepsKeysDistinct` | admin.js:142 | sorting keeps the keys distinct |
| `Merge.WinnerIsLastOfBoth` | admin.js:133-141 | writing both lists in turn keeps, for each key, the last song of their concatenation, which is the winner |
| `Merge.WriteStep` | admin.js:135 | one `map.set` keeps the map equal to the last song per key of what has been written |
| `Merge.InOrder` | admin.js:142 | `Array.from(map.values())` gives one value per key, in insertion order |
| `Merge.InOrderKeys` | admin.js:142 | the values carry their keys in insertion order, so their keys are distinct |
| `Merge.SortedValuesWin` | admin.js:142 | each sorted value is the winner for its key |
| `Merge.SortedValuesComplete` | admin.js:142 | every winner is among the sorted values |
| `Merge.MergeSongs` | admin.js:131-143 | the result has one song per key and is sorted by numeric id (a non-number counting as 0); each of its songs is the winner for its key, and every key with a winner is present |
| `Csv.DoubleQuotes` | admin.js:75 | doubling quotes never shortens a string and leaves a quote-free string unchanged |
| `Csv.Escape` | admin.js:72-77 | a field is left alone exactly when it holds no quote, comma, line feed, carriage return or semicolon; otherwise it is wrapped in quotes |
| `Csv.EscapeAll` | admin.js:79-80 | each field is escaped in place |
| `Csv.Lines` | admin.js:80 | there is one written record per row, in order |
| `Csv.ReadFieldEscape` | admin.js:72-77 | reading an escaped field gives the field back, whatever it holds, and stops exactly at its end |
| `Csv.ReadRecordLine` | admin.js:79-80 | reading a written record followed by a line feed gives its fields back |
| `Csv.ReadCsvLines` | admin.js:80-81 | records written one per line read back as the same records |
| `Csv.ReadToCsv` | admin.js:78-82 | reading back what `toCsv` wrote gives the header and every row, field for field, for any field contents |
| `Csv.EmptyTableEndsWithBlankRecord` | admin.js:80-81 | with no rows the table is the header and two line feeds, read back as the header and one blank record |
| `Export.SongRow` | admin.js:434-451 | a song row has one cell per header; it starts with `String(id)`; the age and profanity cells are never empty; the languages cell is "true" or "false" |
| `Export.TaskRow` | admin.js:465-476 | a task row has one cell per header and starts with the song's id and the 1-based task index |
| `Export.LyricRow` | admin.js:485 | a lyric row has one cell per header and starts with the song's id and the 1-based line index |
| `Export.SongRows` | admin.js:434-451 | there is one row per song, in set order |
| `Export.TaskRowsOf` | admin.js:462-477 | a song has one task row per task, in task order |
| `Export.LyricRowsOf` | admin.js:484-486 | a song has one lyric row per lyric line, in line order |
| `Export.AllRowsLength` | admin.js:461-479 | the table has as many rows as the songs have between them |
| `Export.AllRowsAt` | admin.js:461-479 | row `j` of song `i` comes right after the rows of the songs before it |
| `Export.AllRowsStep` | admin.js:461-479 | one more song adds its rows at the end |
| `Export.AllRowsWidth` | admin.js:461-479 | every row has the common width when every song's rows do |
| `Export.TaskRowPlace` | admin.js:461-479 | task `j` of song `i` sits after the task rows of earlier songs and carries that song's id and index `j + 1` |
| `Export.LyricRowPlace` | admin.js:483-488 | line `j` of song `i` sits after the lyric rows of earlier songs and carries that song's id and index `j + 1` |
| `Export.TaskRowsWidth` | admin.js:461-479 | every task row has at least one cell |
| `Export.LyricRowsWidth` | admin.js:483-488 | every lyric row has at least one cell |
| `Export.SongTableReadBack` | admin.js:452 | the songs table reads back as its header and every song row |
| `Export.TaskTableReadBack` | admin.js:479 | a non-empty tasks table reads back as its header and every task row |
| `Export.LyricTableReadBack` | admin.js:488 | a non-empty lyrics table reads back as its header and every lyric row |
| `Export.ExportedTablesReadBack` | admin.js:425-493 | the three tables of a non-empty set read back as their headers and rows, field for field |
| `Export.IndexCellUnquoted` | admin.js:467 | an index cell is written bare, because digits never need quoting |
| `Export.GatherTaskRows` | admin.js:460-479 | the nested loops collect exactly the song-by-song task table |
| `Export.GatherLyricRows` | admin.js:482-488 | the nested loops collect exactly the song-by-song lyric table |
| `Export.ExportSetCsv` | admin.js:425-493 | an empty set exports nothing; any other set exports exactly the three song-by-song tables |
| `Export.FileBase` | admin.js:419 | the base name is "song_", then `String(id)`, then "_", then a slug with only `[a-z0-9-]`, single dashes and no dash at either end |
| `Export.ExportCsv` | admin.js:357-423 | one song's three tables are exactly those the set export writes for the set holding only that song; the file names share the base above |

## Left out

- **Page work.** These are presentation, outside this model:
  - reading and writing form fields, rendering the set list, previews and notices;
  - `showErrors`, `setInvalid` and `clearInvalidAll`;
  - `createTaskEditor` and `renumberTasks`, which manage the task editors on the page.
- **Browser storage.** `localStorage` and JSON parsing are not modelled. `SongStore.SongStore.Load` takes what parsing returned: `None` when nothing readable was stored. Saving is the new value of the `songs` field, which matches what is stored for every id except `NaN` and the infinities (see the next line).
- SongStore.SongStore.Upsert: assumes an id keeps its key once stored, which the source does not guarantee. A typed id that is not a number becomes `NaN` through `Number(idVal)` (admin.js:292). `JSON.stringify` saves `NaN` and the infinities as `null` (admin.js:97). After a reload, `String(s.id)` is "null" while the new song's is "NaN", so the next upsert of that song appends a duplicate (admin.js:101). `SongStore.UpsertIdempotent` and `SongStore.UpsertKeepsKeysDistinct` therefore hold in the source only for finite ids. `csvEscape` also writes such a stored id as an empty cell, not "NaN" (admin.js:73).
- **Calls into code not modelled** become parameters:
  - `new URL(raw)` and its rules for the `v` parameter, `youtu.be`, `shorts` and `embed` are `urlLookup`;
  - the bundled list (`getExternalSongs`, `songsDataFromExternal`) is the `external` or `existing` parameter;
  - `checkedValues` is the `cultureTags` field;
  - `Number(idVal)` of a typed id is the `typedId` parameter of `Songs.BuildSong`;
  - `getNextId()` is its `nextId` parameter.
- **Numbers.** In the source, ids are JavaScript doubles. The model takes them as unbounded integers, which agrees with the source only for safe integers (magnitude below 2^53). Fractional, exponent and hexadecimal ids are not modelled. The text of a number is modelled only for integers written as plain digits. `Number("")` being 0 and a missing `id` (written `undefined`) are not distinguished from other non-numeric ids.
- SongStore.SongStore.NextId: "above every numeric id" holds in the source only while the largest id is below 2^53. At 9007199254740992, `Math.max(...) + 1` (admin.js:160) rounds back to the same double, so the next id repeats an existing one. `String(n)` for n of 1e21 or more is exponent notation ("1e+21"), which `Strings.IntToString` does not produce.
- Merge.MergeSongs: stability of the sort is not modelled. For songs with equal `Number(id) || 0`, the model fixes an order but does not claim it is the insertion order.
- **Lower-casing.** `toLowerCase` in `safeSlug` is modelled for ASCII letters only. The locale-aware `localeCompare` ordering of the set list is presentation.
- Export.FileBase: the three file names and `downloadText`, `copyText` and clipboard use are left out. Only the shared base name is modelled.
- **Other exports.** The JavaScript and JSON exports (`exportSongsDataJs`, `exportSongsJson`) are plain `JSON.stringify` and are not modelled.
- **Fields with no logic.** The constant `analysis: []` field of a built song is not modelled.
- Songs.ValidateSong: returns problem codes. `Songs.Message` gives each code's exact text. Marking the fields invalid is presentation.
- **The CSV reader** accepts only line-feed record ends. It treats a stray character after a closing quote as the end of the record. It exists as the writer's partner, not as a model of a reader in the source.
