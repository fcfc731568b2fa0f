# Contact CSV normaliser, modelled in Dafny

This project models the `Csv` class of the contact normaliser
(`src/helpers/csv/csv.ts`). The class turns the rows of a contact-export CSV file into contact
records. Each record holds a name, a deduplicated list of e-mail addresses and a deduplicated
list of phone numbers in international `+33…` form. The class then flattens the records for
writing back as CSV.

The model is split into four modules:

- `Seqs` (`seqs.dfy`): lodash `uniq` (`Uniq`), plus the predicates used to state what it does
  (`NoDup`, `IsSubsequence`, `FirstIndex`).
- `Text` (`text.dfy`): the JavaScript string operations the class uses, written out on
  `seq<char>`:
  - the `\s` and `\d` classes;
  - `replace(/…/g, "")` (`RemoveWhere`);
  - `startsWith`, `indexOf` and `includes`;
  - `split` with a non-empty separator;
  - `join`.
- `Phone` (`phone.dfy`): the cleaning step of `handlePhone` (`CleanPhone`) and `addPlus`
  (`AddPlus`). It also holds an independent definition of `addPlus` as an ordered table of
  prefix rules (`FrenchRules`, `ApplyFirstRule`), proved equal to the chain of tests.
- `ContactCsv` (`contact_csv.dfy`):
  - the row, contact and flat-record datatypes;
  - column detection (`FieldsMatching`);
  - the value collection (`CellValues`, `Extract`);
  - `handleEmail` / `handlePhone` (`HandleEmail`, `HandlePhone`);
  - `mapData` (`MapData`) and the flattening done by `export` (`FlattenAll`);
  - the `Csv` class itself. Its fields are `csvDatas`, `contacts`, `phoneFields` and
    `emailFields`. Its methods `Read`, `FindFields`, `FindEmailField`, `FindPhoneField`,
    `Handle` and `Export` update those fields, or read them, as the source does.

The CSV parser's output is the model's input. A row is a `Record`: the keys of the JavaScript
object in `Object.keys` order and a map from key to cell. That order is column order, except
that integer-like column names (such as `2024`) come first, in ascending numeric order. The
e-mail and phone columns always contain letters, so the order of the detected columns among
themselves is their column order. `Handle` keeps
the source's nested loops. It is proved against the function `Extract`, and the pure members
and the lemmas are stated in terms of `Extract`. The private helpers `handleEmail`,
`handlePhone` and `addPlus`, and the public method `mapData`, become module-level functions.
The rows and columns they read from `this.csvDatas`, `this.emailFields` and `this.phoneFields`
are passed in as parameters, and `Csv.Read` passes in exactly those fields. Calling `mapData`
on the object directly, outside `read`, corresponds to
`MapData(csvDatas, emailFields, phoneFields)`; `Csv` has no method of its own for it.

Three behaviours of the code are worth stating plainly:

- A national number loses only its trunk `0`: `"0123456789"` becomes `"+33123456789"` (see
  `Phone.AddPlusTrunkExample`).
- Each piece of a `:::` cell loses all its whitespace, not only its leading and trailing
  whitespace (`replace(/\s+/g, "")`).
- The guard `csvDatas.length < 0` never holds, so with no data row the lookup of the first
  row's keys throws. `Csv.Read` returns `Failure(NoFirstRow)` in that case.

## Model

| member | source | states |
|---|---|---|
| `Seqs.Uniq` | src/helpers/csv/csv.ts:88 | the deduplicated list has no repeated value and holds exactly the values of its input |
| `Seqs.UniqSubsequence` | src/helpers/csv/csv.ts:88 | deduplication only deletes: the result is a subsequence of the input |
| `Seqs.UniqFirstOccurrenceOrder` | src/helpers/csv/csv.ts:131 | the kept values appear in the order of their first occurrence in the input |
| `Seqs.UniqIdempotent` | src/helpers/csv/csv.ts:88 | deduplicating a deduplicated list changes nothing |
| `Text.RemoveWhere` | src/helpers/csv/csv.ts:103 | a global `replace` of a character class with "" leaves no character of the class, keeps every other character, and keeps them in order (subsequence) |
| `Text.RemoveWhereCounts` | src/helpers/csv/csv.ts:103 | after a global `replace`, a character of the class occurs no more and every other character occurs exactly as often as in the input; with `RemoveWhere` this pins the result |
| `Text.RemoveWhereConcat` | src/helpers/csv/csv.ts:103 | removing characters from a concatenation is concatenating the two removals |
| `Text.RemoveWhereTwice` | src/helpers/csv/csv.ts:121-124 | two removal passes in a row remove exactly the characters of either class |
| `Text.IncludesOccurs` | src/helpers/csv/csv.ts:100 | `includes` holds exactly when the pattern occurs at some position |
| `Text.Split` | src/helpers/csv/csv.ts:101 | `split` on a non-empty separator yields at least one piece; `SplitSeveralIff`, `SplitPiecesExcludeSeparator` and `JoinSplit` characterise the pieces, and `SplitLeftmost` fixes where each cut falls |
| `Text.Join` | src/helpers/csv/csv.ts:159-160 | `join` of no element is `""`; otherwise its length is the elements' total length plus one separator between each two elements; `JoinSplit` and `SplitJoin` relate it to `split` |
| `Text.SplitSeveralIff` | src/helpers/csv/csv.ts:100-101 | `split` yields two or more pieces exactly when the separator occurs |
| `Text.SplitLeftmost` | src/helpers/csv/csv.ts:101 | each cut falls at the leftmost occurrence: no piece but the last, followed by all but the last character of the separator, already contains the separator (`"::::"` gives `["", ":"]`) |
| `Text.SplitPiecesExcludeSeparator` | src/helpers/csv/csv.ts:101 | no piece of a `split` contains the separator |
| `Text.JoinSplit` | src/helpers/csv/csv.ts:101 | joining the pieces of a `split` with the same separator gives back the string |
| `Text.SplitJoin` | src/helpers/csv/csv.ts:159-160 | splitting a `join` gives back the list, when it is non-empty and no element holds the separator's first character |
| `Text.RemoveWhereJoin` | src/helpers/csv/csv.ts:101-104 | stripping each piece and then joining equals joining and then stripping, for a separator with no stripped character |
| `Phone.CleanPhone` | src/helpers/csv/csv.ts:120-124 | the three-pass cleaning is the input with exactly the whitespace, `-` and `.` characters deleted, and leaves none of them |
| `Phone.CleanPhoneOfClean` | src/helpers/csv/csv.ts:121-124 | cleaning a number that has no separator leaves it unchanged |
| `Phone.AddPlus` | src/helpers/csv/csv.ts:138-153 | the result is the input unchanged or starts with `+`; an input starting with `+` is unchanged; the result adds no character other than `+` and `3` |
| `Phone.AddPlusMatchesTable` | src/helpers/csv/csv.ts:138-153 | the chain of tests is the first-match application of the ordered table 33→+, 00→+ (two characters dropped), 01-07 and 09→+33 (one dropped), 6→+33 |
| `Phone.ApplyFirstRuleShape` | src/helpers/csv/csv.ts:138-153 | a table whose rewrites all start with `+` either leaves a number alone or yields one starting with `+` |
| `Phone.ApplyFirstRuleKeepsPlus` | src/helpers/csv/csv.ts:138-153 | no rule of such a table matches a number starting with `+` |
| `Phone.ApplyFirstRuleIdempotent` | src/helpers/csv/csv.ts:138-153 | applying such a table twice is applying it once |
| `Phone.AddPlusIdempotent` | src/helpers/csv/csv.ts:138-153 | `addPlus(addPlus(p)) == addPlus(p)` for every `p` |
| `Phone.NormalizePhone` | src/helpers/csv/csv.ts:120-129 | a cleaned and rewritten number contains no whitespace, `-` or `.` |
| `Phone.NormalizePhoneIdempotent` | src/helpers/csv/csv.ts:120-129 | normalising a normalised number changes nothing |
| `Phone.AddPlusInternationalExample` | src/helpers/csv/csv.ts:140 | `"0033612345678"` becomes `"+33612345678"` |
| `Phone.AddPlusTrunkExample` | src/helpers/csv/csv.ts:142 | `"0123456789"` becomes `"+33123456789"`: only the trunk `0` is dropped |
| `Phone.AddPlusMobileExample` | src/helpers/csv/csv.ts:151 | `"612345678"` becomes `"+33612345678"` |
| `Phone.AddPlusUnchangedExample` | src/helpers/csv/csv.ts:152 | `"0812345678"` matches no rule and is returned unchanged |
| `ContactCsv.FieldsMatching` | src/helpers/csv/csv.ts:46-69 | the detected columns are a subsequence of the keys (key order kept), every one matches `<stem>\s\d - Value` somewhere in its name, and every matching key is kept |
| `ContactCsv.FieldsMatchingCounts` | src/helpers/csv/csv.ts:52-54 | the filter keeps each matching key exactly as often as it occurs among the keys and no other key; with `FieldsMatching` this pins the result |
| `ContactCsv.FieldsMatchingConcat` | src/helpers/csv/csv.ts:52-54 | filtering a concatenation of key lists is concatenating the filtered lists |
| `ContactCsv.EmailColumnDetected` | src/helpers/csv/csv.ts:52-54 | a column named `E-mail <digit> - Value` matches the e-mail pattern and not the phone pattern |
| `ContactCsv.FieldsMatchingExample` | src/helpers/csv/csv.ts:46-69 | the header `Name`, `E-mail <d1> - Value`, `E-mail <d2> - Value` gives both e-mail columns in header order and no phone column |
| `ContactCsv.CellValues` | src/helpers/csv/csv.ts:96-108 | a column contributes some value exactly when its cell is present and non-empty; `CellValuesSkipsEmpty`, `CellValuesSingle` and `CellValuesMulti` state what it contributes |
| `ContactCsv.CellValuesSkipsEmpty` | src/helpers/csv/csv.ts:97 | a missing or empty cell contributes nothing |
| `ContactCsv.CellValuesSingle` | src/helpers/csv/csv.ts:105-107 | a non-empty cell without `:::` contributes exactly itself, untrimmed |
| `ContactCsv.CellValuesMulti` | src/helpers/csv/csv.ts:100-104 | a cell with `:::` contributes one value per `split` piece, in order, each being that piece with all its whitespace removed; there are at least two, none holds whitespace, and joined with `:::` they give the cell with its whitespace removed |
| `ContactCsv.Extract` | src/helpers/csv/csv.ts:91-112 | one column yields exactly that column's contribution; with `ExtractConcat` this determines the collected list for every list of columns |
| `ContactCsv.ExtractConcat` | src/helpers/csv/csv.ts:94-109 | values are collected in column order: the columns of a prefix contribute before the later ones |
| `ContactCsv.ExtractOfEmptyColumns` | src/helpers/csv/csv.ts:94-109 | a row yields no value exactly when every one of the columns is missing or empty in it |
| `ContactCsv.TwoValueCell` | src/helpers/csv/csv.ts:100-104 | a cell `a ::: b` (as in `a@x.com ::: b@x.com`) yields exactly `[a, b]` when `a` and `b` hold no whitespace and no `:` |
| `ContactCsv.HandleEmail` | src/helpers/csv/csv.ts:87-89 | the e-mail list has no duplicate, holds exactly the collected values, is a subsequence of them and keeps first-occurrence order |
| `ContactCsv.HandlePhone` | src/helpers/csv/csv.ts:117-132 | the phone list has no duplicate, holds exactly the normalised collected values, is a subsequence of them, contains no separator character, is already normalised and keeps first-occurrence order |
| `ContactCsv.NormalizedValuesAreFixed` | src/helpers/csv/csv.ts:120-131 | every number of a deduplicated normalised list is a fixed point of the normalisation |
| `ContactCsv.ToContact` | src/helpers/csv/csv.ts:76-80 | a row's contact has no repeated e-mail and no repeated phone; its e-mails are exactly the row's collected e-mail values and its phones exactly the row's normalised phone values |
| `ContactCsv.MapData` | src/helpers/csv/csv.ts:74-82 | one contact per row in row order; each has its row's `Name` cell verbatim and is built from that row alone |
| `ContactCsv.MapDataConcat` | src/helpers/csv/csv.ts:74-82 | no merging across rows: mapping a concatenation of rows is concatenating the mappings |
| `ContactCsv.Flatten` | src/helpers/csv/csv.ts:157-161 | the name is kept and both lists are `join`ed with `" , "`; so an empty list exports as `""`, a single phone as itself, and a phone list of n numbers has the numbers' total length plus n-1 separators |
| `ContactCsv.FlattenAll` | src/helpers/csv/csv.ts:155-162 | flattening keeps the number and order of contacts and their names, and joins each list with `" , "` |
| `ContactCsv.ExportedListRoundTrip` | src/helpers/csv/csv.ts:159-160 | a non-empty list without spaces is recovered by splitting its exported string on `" , "` |
| `ContactCsv.ExportedPhonesRoundTrip` | src/helpers/csv/csv.ts:155-162 | every mapped contact's exported phone string splits back into its phone list; an empty list exports as `""` |
| `ContactCsv.Csv.constructor` | src/helpers/csv/csv.ts:14-18 | a new normaliser holds no rows, no contacts and no columns |
| `ContactCsv.Csv.Read` | src/helpers/csv/csv.ts:25-36 | stores the rows; with no row it fails and leaves columns and contacts as they were; otherwise the columns come from the first row's keys and the contacts are `MapData` of the rows, which are also returned |
| `ContactCsv.Csv.FindFields` | src/helpers/csv/csv.ts:38-41 | sets the e-mail columns, then the phone columns; throws exactly when there is no row |
| `ContactCsv.Csv.FindEmailField` | src/helpers/csv/csv.ts:46-55 | the e-mail columns become the first row's keys matching `E-mail\s\d - Value`; throws, changing nothing, exactly when there is no row |
| `ContactCsv.Csv.FindPhoneField` | src/helpers/csv/csv.ts:60-69 | the phone columns become the first row's keys matching `Phone\s\d - Value`; throws, changing nothing, exactly when there is no row |
| `ContactCsv.Csv.Handle` | src/helpers/csv/csv.ts:91-112 | the nested collection loops produce exactly `Extract` of the row and columns |
| `ContactCsv.Csv.Export` | src/helpers/csv/csv.ts:155-162 | returns one flat record per loaded contact: `FlattenAll` of the contacts |

## Left out

- File reading and writing (`readFileSync`, `writeFileSync`, the fixed `./test.csv` path): I/O. `Csv.Read` takes the parsed rows instead of a file path.
- The CSV parser and writer (`csv-parse`, `csv-stringify`): foreign libraries. The model starts from the parsed rows and stops at the list of flat records that would be written.
- The general regular-expression engine: the two column patterns are hand-written predicates (`FieldPatternAt`, `MatchesFieldPattern`), and the `\s` class is listed code point by code point (`IsJsWhitespace`).
- The module-level singleton `csv`: the normaliser is an explicit `Csv` object.
- A row without a `Name` cell (JavaScript would store `undefined` as the name): excluded by the precondition `NamesPresent` of `Read` and `MapData`.
- Calling `export` before a successful `read` (JavaScript would throw on the undefined contact list): excluded by the precondition `contacts.Some?` of `Csv.Export`.
- The fields `phoneFields` and `emailFields` start `undefined` in the source. The model starts them as empty lists, because the source reads them only after they are set.
- Cell lookups that reach `Object.prototype` properties: a row is a plain map from key to cell.
- ExportedPhonesRoundTrip: covers phone strings only. E-mail cells without `:::` are kept verbatim and may themselves contain `" , "`, so their exported string need not split back.
