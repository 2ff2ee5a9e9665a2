# Concert reconciliation of groupie-tracker, in Dafny

This project models the data core of groupie-tracker, a Go web site about
touring artists. The core does three things:

- **formatLocations** (util.go) turns a raw location key such as
  `new_york-usa` into the display form `New York, USA`. It replaces `-` by
  `, `, then `_` by a space. It then title-cases the text and finally
  upper-cases the artifacts `, Usa` and `, Uk`.
- **fetchData** (web.go) is one retrieval cycle over the remote API. The
  root index and the artists are required. The relations resource is best
  effort, and an empty relations index counts as missing. Locations and
  then dates are retrieved, and required, only when the relations are not
  usable. Every failure is reported through **make500Error**.
- **createArtistSummary** (web.go) copies the artist's own fields and
  builds its concert list. When the stored relations index is non-empty,
  the list comes from the relation record of the artist; the last record
  with its id wins. Otherwise the first location record and the first date
  record are used. The dates are joined by spaces and cut at `*`, and the
  first piece is dropped. Location *i* is then paired with date group *i*
  while both last.

Layout:

- `types.dfy` (module `Types`) holds the decoded records.
- `strings.dfy` (module `GoStrings`) models the parts of Go's `strings` and
  `unicode` packages that the core calls: `Replace` with every occurrence,
  `Title`, `Join`, `Split` and `Fields`. It also holds their properties.
- `util.dfy` (module `Util`) holds `FormatLocations` and its properties.
- `web.dfy` (module `Web`) holds `Make500Error` and the pure specification
  `Aggregate` of the retrieval chain. Its class `Store` holds the five
  package-level variables that fetchData writes and createArtistSummary
  reads. `Store.FetchData` and `Store.CreateArtistSummary` follow the Go
  bodies step by step, and each is proved against the specification
  functions.

The two fetch-and-decode calls of each resource (`getData`, then
`json.Unmarshal`) are modelled as one input of type `Step`. It is one of:

- the transport failed, and the variable is left alone;
- decoding failed, and the variable holds whatever the decoder left there;
- decoding succeeded, with a value.

Go's map iteration order is unspecified. The loop over a relation record's
map is therefore a nondeterministic choice of the next key. Its result is
specified as the concert list of *some* order that lists every key once.

### Where the model follows the code rather than the design description

- Title-casing uses Go's `strings.Title` word boundaries, not only white
  space. Any ASCII character other than a letter, digit or `_` starts a
  new word, so `,` does too.
- Several relation records with the same id are allowed. The loop at
  web.go:76-87 overwrites the concerts on each match, so the last record
  wins (`Web.LastRelation`).
- The branch is chosen from the stored `relations` variable (web.go:75),
  not from the outcome of the last cycle. A cycle whose relations fetch
  failed leaves the relations of an earlier cycle in place. A relations
  decode that fails part-way can leave a non-empty residue. In both cases
  the cycle takes the fallback, yet createArtistSummary then reads the
  relations (`Web.FallbackKeepsStaleRelations`, and on a store
  `Web.StaleRelationsScenario`).

## Model

| member | source | states |
|---|---|---|
| GoStrings.ToTitle | util.go:8 | title-casing upper-cases an ASCII lower-case letter (code minus 32) and leaves every other character unchanged; the result is never lower-case |
| GoStrings.IsSeparator | util.go:8 | the word boundary of strings.Title: an ASCII character other than a letter, digit or `_`, or white space beyond ASCII; its consequences are stated by Title and SeparatorOfToTitle |
| GoStrings.TitleFrom | util.go:8 | the left-to-right scan of strings.Title: it keeps the length, and a character is title-cased exactly when the one before it (or the start) is a separator |
| GoStrings.Replace | util.go:6-10 | strings.Replace with every occurrence, scanning left to right without overlaps; its length, removal, in-place and no-leftover properties are the Replace lemmas below |
| GoStrings.ReplaceCharLength | util.go:6-7 | replacing every occurrence of one character by `rep` changes the length by (\|rep\| - 1) per occurrence |
| GoStrings.ReplaceRemovesChar | util.go:6-7 | after replacing every occurrence of a character by text without it, the character is gone |
| GoStrings.ReplaceChars | util.go:6-10 | every character of a replacement's result comes from the input or from the replacement text |
| GoStrings.ReplaceKeepsAbsent | util.go:6-10 | a character in neither the input nor the replacement text is not in the result |
| GoStrings.ReplaceAbsent | util.go:9-10 | a string without any occurrence of the pattern is left unchanged |
| GoStrings.ReplaceSkipPrefix | util.go:6-10 | a prefix without the pattern's first character passes through replacement unchanged |
| GoStrings.ReplaceNone | util.go:6-10 | a string without the pattern's first character is unchanged |
| GoStrings.ReplaceJoin | util.go:6-10 | the one occurrence between two pattern-free parts is replaced and the parts kept |
| GoStrings.ReplaceMiss | util.go:9-10 | a near miss (first character followed by a different continuation) is not replaced |
| GoStrings.ReplaceRaises | util.go:9-10 | replacing a pattern by an equally long upper-cased form only upper-cases letters in place |
| GoStrings.RaisesKeepsNoOccurrence | util.go:9-10 | upper-casing in place cannot create an occurrence of a pattern that holds no upper-cased letter |
| GoStrings.RaisesReflectsOccurrence | util.go:9-10 | after upper-casing in place, every occurrence of a pattern that holds no upper-cased letter was already there, so the first patch hands the second no new `, Uk` |
| GoStrings.ReplaceKeepsMismatch | util.go:9-10 | a replacement that keeps the pattern's first character cannot make a prefix appear that was not there |
| GoStrings.ReplaceLeavesNone | util.go:9-10 | replacing every occurrence by a different text of the same length that starts with the same character (which recurs in neither) leaves no occurrence, as for `, Usa` and `, Uk` |
| GoStrings.ReplaceKeepsOccurrence | util.go:9-10 | when the pattern cannot overlap itself, every occurrence is replaced in place: the replacement text stands at the same index |
| GoStrings.ReplaceKeepsOther | util.go:9-10 | text that starts with the pattern's first character, holds it nowhere else and is not an occurrence stays where it is, so `, USA` survives the `, Uk` patch |
| GoStrings.ReplaceKeepsUncovered | util.go:9-10 | with a replacement as long as the pattern, the length is kept and every character that no occurrence of the pattern covers is copied to its own index |
| GoStrings.Title | util.go:8 | title-casing keeps the length; each character at a word start is title-cased and every other character is unchanged |
| GoStrings.TitleAppend | util.go:8 | after a separator the rest is title-cased as a fresh string |
| GoStrings.TitleWordThen | util.go:8 | a lower-case word followed by non-letter separators gets only its first letter upper-cased |
| GoStrings.TitleTwoWords | util.go:8 | `w, v` with lower-case words becomes the two words capitalized |
| GoStrings.TitleThreeWords | util.go:8 | `w x, v` with lower-case words becomes the three words capitalized |
| GoStrings.SeparatorOfToTitle | util.go:8 | title-casing a character does not change whether it is a word separator |
| GoStrings.TitleIsTitleCased | util.go:8 | no word of title-cased text starts with a lower-case letter |
| GoStrings.TitleOfTitleCased | util.go:8 | title-casing text already title-cased changes nothing |
| GoStrings.RaisesKeepsTitleCased | util.go:8-10 | upper-casing letters in place keeps text title-cased |
| Util.Spread | util.go:6-7 | steps one and two; SpreadLength, SpreadPair and SpreadTriple state what they produce |
| Util.Patch | util.go:9-10 | step four; PatchSpec states it completely: which occurrences become `, USA` or `, UK` and where, that every other character is kept, and that no pattern is left |
| Util.FormatLocations | util.go:5-12 | the four steps in order; its length, alphabet, title-casing, patching and idempotence are the FormatLocations lemmas below |
| GoStrings.JoinCount | web.go:107 | joining with a separator that lacks `*` keeps the total number of `*` |
| GoStrings.Join | web.go:107 | strings.Join; its partners are JoinCount, and SplitJoin and FieldsOfJoin, which undo it |
| GoStrings.JoinFive | web.go:107 | five elements are joined with the separator between each pair |
| GoStrings.Split | web.go:108 | splitting yields at least one piece and no piece holds the separator |
| GoStrings.SplitCount | web.go:108 | splitting yields one piece more than the separator occurs |
| GoStrings.SplitJoin | web.go:108 | joining the pieces back with the separator gives the original text |
| GoStrings.SplitFirst | web.go:108 | text up to the first separator is the first piece and the rest is split on |
| GoStrings.SplitTwoPieces | web.go:108 | two separator-free parts around one separator split into exactly those two |
| GoStrings.Fields | web.go:117 | every token of white-space splitting is non-empty and holds no white space |
| GoStrings.FieldsConcat | web.go:117 | the tokens together hold every non-space character of the text, in order |
| GoStrings.FieldsOfJoin | web.go:117 | white-space splitting undoes joining non-empty space-free tokens with single spaces |
| GoStrings.FieldsTrailingSpace | web.go:117 | a trailing space adds no token |
| Util.SpreadLength | util.go:6-7 | the two replacements grow the length by one per `-` |
| Util.FormatLocationsLength | util.go:6-10 | the output is as long as the input plus the number of `-` in it |
| Util.FormatLocationsEmpty | util.go:5-11 | the empty key formats to the empty string |
| Util.FormatLocationsNoDashNoUnderscore | util.go:6-10 | the output holds no `-` and no `_` |
| Util.TitleKeepsAbsent | util.go:8 | title-casing introduces no character other than upper-case letters |
| Util.FormatLocationsTitleCased | util.go:8-10 | no word of the output starts with a lower-case letter |
| Util.RaisesCompose | util.go:9-10 | two in-place upper-casing steps compose into one |
| Util.PatchSpec | util.go:9-10 | the two patches only upper-case `s`, `a`, `k` in place; every `, Usa` becomes `, USA` and every `, Uk` becomes `, UK` at its own index, even where `, Uk` begins a longer word; every character that no `, Usa` or `, Uk` covers is kept; and no `, Usa` or `, Uk` is left |
| Util.PatchKeepsUsa | util.go:9-10 | a `, Usa` at index i is `, USA` at index i after both patches |
| Util.PatchKeepsUk | util.go:9-10 | a `, Uk` at index i is `, UK` at index i after both patches |
| Util.PatchKeepsRest | util.go:9-10 | a character that no `, Usa` and no `, Uk` covers stands unchanged at its index after both patches |
| Util.FormatLocationsPatched | util.go:9-10 | the output holds no `, Usa` and no `, Uk` |
| Util.FormatLocationsIdempotent | util.go:5-11 | formatting an already formatted key changes nothing |
| Util.SpreadPair | util.go:6-7 | `place-country` becomes `place, country` |
| Util.SpreadTriple | util.go:6-7 | `first_second-country` becomes `first second, country` |
| Util.PatchUk | util.go:9-10 | `, Uk` is upper-cased to `, UK` even where it begins a longer word |
| Util.PatchUsa | util.go:9-10 | `, Usa` is upper-cased to `, USA` |
| Util.PatchOther | util.go:9-10 | a country that does not begin with `U` is left as it is |
| Util.SpreadLondon | util.go:6-7 | `london-uk` spreads to `london, uk` |
| Util.TitleLondon | util.go:8 | `london, uk` title-cases to `London, Uk` |
| Util.PatchLondon | util.go:9-10 | `London, Uk` is patched to `London, UK` |
| Util.FormatLondon | util.go:5-11 | `london-uk` formats to `London, UK` |
| Util.SpreadNewYork | util.go:6-7 | `new_york-usa` spreads to `new york, usa` |
| Util.TitleNewYork | util.go:8 | `new york, usa` title-cases to `New York, Usa` |
| Util.PatchNewYork | util.go:9-10 | `New York, Usa` is patched to `New York, USA` |
| Util.FormatNewYork | util.go:5-11 | `new_york-usa` formats to `New York, USA` |
| Util.TitleKyiv | util.go:8 | `kyiv, ukraine` title-cases to `Kyiv, Ukraine` |
| Util.PatchKyiv | util.go:9-10 | `Kyiv, Ukraine` is patched to `Kyiv, UKraine` |
| Util.FormatKyiv | util.go:5-11 | `kyiv-ukraine` formats to `Kyiv, UKraine` |
| Util.TitleParis | util.go:8 | `paris, france` title-cases to `Paris, France` |
| Util.PatchParis | util.go:9-10 | `Paris, France` is left unpatched |
| Util.FormatParis | util.go:5-11 | `paris-france` formats to `Paris, France` |
| Web.Make500Error | web.go:209-211 | the error has code 500 and its message is the fixed prefix followed by the cause, which can be read back |
| Web.ErrorCause | web.go:209-211 | the inverse of make500Error: a cause is read only from a code-500 error whose message is the prefix followed by that cause |
| Web.Make500ErrorOfCause | web.go:209-211 | every code-500 error that carries the prefix is the one built from its cause |
| Web.Make500ErrorInjective | web.go:209-211 | different causes give different errors |
| Web.Aggregate | web.go:139-207 | the decision chain of fetchData over the five outcomes; AggregateSucceedsIff, AggregateOrder, AggregateFailureCause and RelationsBestEffort state it |
| Web.AggregateSucceedsIff | web.go:139-207 | a cycle reports 200 with an empty message exactly when root index and artists decode and either the relations are usable or both locations and dates decode; every other outcome is a 500 with a cause |
| Web.AggregateOrder | web.go:139-207 | the resources retrieved form a non-empty prefix of root, artists, relations, locations, dates; relations are tried exactly when root and artists decode, locations and dates only when the relations are not usable, and dates only after locations decode |
| Web.AggregateFailureCause | web.go:140-206 | a failed cycle never ends at the relations, and its error carries the cause of the last resource it retrieved: root index, artists, locations or dates |
| Web.RelationsBestEffort | web.go:164-181 | when the relations are not usable, the outcome is the same as if their fetch had failed |
| Web.FallbackKeepsStaleRelations | web.go:164-178 | a cycle whose relations failed to fetch or decode but left a non-empty index succeeds through locations and dates, reaches the relations, and the relations field it stores is non-empty |
| Web.Store.FetchData | web.go:139-207 | the status and retrieved resources are those of the decision chain; each variable is written exactly when its resource was retrieved, with the decoded value, the decoder's residue, or left alone on a transport failure |
| Web.LastRelation | web.go:76-87 | no record is found exactly when no record has the id; otherwise the found one has the id and no later record has it |
| Web.RelationConcertsCount | web.go:76-86 | the relations branch yields one concert per location key of the record |
| Web.RelationConcertsComplete | web.go:79-84 | every key of the record has its concert, with the key formatted and its dates unchanged |
| Web.RelationConcertsSound | web.go:79-84 | every concert of the relations branch comes from a key of the record |
| Web.RelationConcertsSingle | web.go:79-84 | a record with one location key yields exactly that key's concert |
| Web.RelationConcertList | web.go:78-84 | the loop over the map lists, in some order, each key once, formatted, with its dates |
| Web.Store.ConcertsFromRelations | web.go:76-87 | the concerts are those of the artist's last relation record, and none when it has no record |
| Web.FirstLocations | web.go:94-99 | the locations of the first record with the id, and empty when no record has it |
| Web.FirstDates | web.go:100-105 | the dates of the first record with the id, and empty when no record has it |
| Web.Store.FindLocations | web.go:91-99 | the lookup loop with its early exit returns the first matching record's locations |
| Web.Store.FindDates | web.go:92-105 | the lookup loop with its early exit returns the first matching record's dates |
| Web.DateGroups | web.go:107-108 | the dates joined by spaces, split at `*`, first piece dropped; no group holds a `*`, and DateGroupsCount and DateGroupsReassemble state the rest |
| Web.PairConcerts | web.go:110-121 | location i with the tokens of group i while both last; FallbackConcertCount and FallbackConcertShape state it |
| Web.FallbackConcerts | web.go:91-121 | the fallback branch: the first records of the artist, paired; FallbackScenario and the Fallback lemmas state it |
| Web.DateGroupsCount | web.go:107-108 | there are as many date groups as `*` characters across the artist's dates |
| Web.DateGroupsReassemble | web.go:107-108 | only the text before the first `*` is dropped: with the groups it joins back by `*` into the joined dates |
| Web.FallbackConcertCount | web.go:107-121 | the fallback yields min(locations, `*` count) concerts, and none when the dates hold no `*` |
| Web.FallbackConcertShape | web.go:110-121 | concert *i* has the formatted location *i* (without `-` or `_`) and the tokens of group *i*, each non-empty without white space and together holding all the group's other characters |
| Web.PairLocations | web.go:110-121 | the pairing loop gives location *i* with the tokens of group *i*, for every *i* below both lengths |
| Web.FieldsOfGroup | web.go:117 | a date group made of a space and space-joined dates tokenizes back into those dates |
| Web.FieldsOfOneDate | web.go:117 | the group of one date tokenizes into that date |
| Web.FieldsOfTwoDates | web.go:117 | the group of two dates tokenizes into those two |
| Web.SentinelDropsLeadingText | web.go:107-121 | dates `a, b, *, d, e` give the single group ` d e`, so only the first of two locations gets a concert, with dates d and e |
| Web.TwoGroupDates | web.go:107-108 | dates `x, *, d1, *, "d2 d3"` give the two groups ` d1 ` and ` d2 d3` |
| Web.TwoGroupFallback | web.go:107-121 | those dates paired with two locations give d1 for the first and d2, d3 for the second |
| Web.FallbackScenario | web.go:91-121 | locations `london-uk`, `paris-france` with dates `x, *, 01-01-2020, *, "02-01-2020 03-01-2020"` give London, UK on 01-01-2020 and Paris, France on 02-01-2020 and 03-01-2020 |
| Web.Store.CreateArtistSummary | web.go:66-124 | the summary carries the artist's id, name, image, dates and members; with stored relations its concerts are those of the artist's last relation record (none without one) and depend on nothing else; without relations they are the fallback pairing |
| Web.Store.constructor | web.go:75-105 | the five package variables start as Go's zero values (an empty root index and empty collections), so before any cycle the test at web.go:75 finds no relations and the fallback lookups find nothing |
| Web.EndToEndScenario | web.go:66-207 | on a fresh store, a cycle whose relations fetch fails but whose locations and dates decode succeeds, and the summary gives London, UK on 01-01-2020 and Paris, France on 02-01-2020 and 03-01-2020 |
| Web.StaleRelationsScenario | web.go:66-207 | a cycle that stores a relation record, then a cycle whose relations fetch fails and that succeeds through locations and dates: the summary still comes from the stored record |

## Left out

- The HTTP handlers, the templates, `errorHandler`, the parsing of ids from URL paths and the search redirect (web.go:14-64, web.go:126-137) are presentation and I/O. They are not part of this model.
- `getData` and `json.Unmarshal` are network and library calls. Each pair is one `Step` input. The addresses that fetchData reads from `groupies` are not linked to the outcomes: the caller supplies the outcome of each resource.
- The goroutine and the channel of fetchData are not modelled. `Store.FetchData` returns the one status that fetchData sends, so exactly one outcome per call holds by construction.
- Go's map iteration order is not modelled. The next key is a nondeterministic choice, and the concert list is specified up to the order of the keys.
- The record types and the package-level variables live in files that are not part of this model. Their fields are declared here with chosen types: ids and creation dates are `int`, and the first album is a string. `Store`'s constructor gives the zero values.
- createArtistSummary's loops are split into the methods `ConcertsFromRelations`, `RelationConcertList`, `FindLocations`, `FindDates` and `PairLocations`. Each keeps the Go loop's steps. Go's nil and empty slices are the same empty sequence here.
- Go strings are byte sequences that `strings.Title` decodes as UTF-8. The model works on characters, so lengths are counted in characters. Invalid UTF-8 is not modelled.
- ToTitle: upper-cases only the ASCII letters; Go's `unicode.ToTitle` also maps letters beyond ASCII. Separators and white space follow Go exactly.
- Replace: requires a non-empty pattern. Go's behaviour for an empty pattern is not modelled, because formatLocations never passes one.
- FormatLocationsLength: counts characters. For keys with non-ASCII letters, Go's title-casing can change the byte length.
- SentinelDropsLeadingText: stated for any dates `a, b, *, d, e` rather than for one list of date strings.
