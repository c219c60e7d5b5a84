# compoDex core in Dafny

compoDex is a command-line tool. It walks a directory of React sources and
prints one of two maps:

- **export mode**: for every file, the names of the components the file exports;
- **import mode**: for every file, the names of the components the file imports
  from local modules.

This project models the logic between the file system and the console. It has
four parts.

- **Candidate filter.** A walked path is kept when it is not a directory and
  Go's `filepath.Ext` of it is `.tsx` or `.js` (module `Locator`). The walk
  itself is given as a sequence of walk events.
- **Export extractor.** The fixed export pattern is modelled as a hand-written,
  deterministic recogniser (module `ExportPattern`).
  - `FindAllStringSubmatch` becomes a leftmost, non-overlapping scan over any
    recogniser (module `Scanner`).
  - The name-selection loop counts the non-empty submatches and reads the
    entry at `count - 1` (module `Extract`).
- **Import extractor.** The fixed import pattern has its own recogniser
  (module `ImportPattern`). It uses the same scan and keeps capture group 1.
- **Aggregators.** `mapExportedComponents` and `mapImportedComponents` are one
  policy over per-file results (module `Aggregate`):
  - a file that cannot be read is skipped;
  - a file with no names is left out;
  - any other file is stored under its path.

Each recogniser is proved against an independent statement of its regular
expression, written over positions of the text (`ExportAt`, `ImportAt`).

- It is **sound**: every match it reports is a match of the pattern.
- It is **complete**: whenever the pattern matches at a position, the
  recogniser reports that match. For the export pattern it reports the longest
  match. That this is the match Go's leftmost-first engine picks is argued, not
  proved. Every group end and every optional part is forced: `default\s+` is
  taken whenever present, the two alternatives of group 1 start with different
  characters, and every group ends where a run of its class ends. Backtracking
  can move only the split inside `[A-Z]+\w+`. For example, on `FOO;` the
  `[A-Z]+` gives one letter back to `\w+`. No group reports that split, and it
  never changes where the group ends.

The scan is proved to be the unique sequence of leftmost, non-overlapping
matches. The modules `ExportExamples`, `ImportExamples` and `Scenario` work the
contracts out on concrete statements and on a two-file directory.

Text is a sequence of characters. All character classes are ASCII, as in
Go's RE2 syntax:

- `\s` is `[\t\n\f\r ]`;
- `\w` is `[0-9A-Za-z_]`.

## Model

| member | source | states |
|---|---|---|
| Lexical.RunEnd | main.go:36 | A greedy run of one character class ends at the first character outside the class, and every character before that point is in the class. |
| Lexical.RunEndUnique | main.go:36 | A span of one class that cannot be extended is exactly the greedy run. This is why a greedy `\w+` or `\s+` never has to backtrack. |
| Lexical.NameSpan | main.go:36 | A span that starts with an upper-case letter, continues with word characters and has at least two characters is a component name. |
| ExportPattern.HeadEnd | main.go:36 | The end of `export\s+(?:default\s+)?` is always at least seven characters after the start and never past the text. |
| ExportPattern.MatchExport | main.go:36 | A reported export match starts where it was asked, is non-empty, and has a four-entry submatch vector whose entry 0 is the matched text. |
| ExportPattern.KeywordStart | main.go:36 | `function` and `const` start with `f` and `c`, which cannot start an upper-case name. So at most one alternative of group 1 applies. |
| ExportPattern.HeadSound | main.go:36 | The head the recogniser reports matches `export\s+(?:default\s+)?`. |
| ExportPattern.BodySound | main.go:36 | The group 1 the recogniser reports matches `[A-Z]\w+` or `(function\|const)\s+([A-Z]+\w+)`, with the matching texts of groups 2 and 3. |
| ExportPattern.ExportSound | main.go:36 | Every reported export match, with its submatch vector, is a match of the export pattern. |
| ExportPattern.BodyStart | main.go:36 | Group 1 never starts with white space or `d`. Taking `default` whenever it is present therefore loses no match. |
| ExportPattern.HeadComplete | main.go:36 | Every way the head can match before a valid group 1 ends where the recogniser's head ends. |
| ExportPattern.BodyComplete | main.go:36 | Every parse of group 1 ends no later than the recogniser's. A parse that ends at the same place has the same groups 2 and 3. |
| ExportPattern.ExportComplete | main.go:36 | If the pattern matches at a position, the recogniser reports a match there. The reported match is the longest one, and its submatch vector is that of every parse of that span. |
| ExportPattern.ParseComplete | main.go:36 | Completeness for one given parse, with its split points. |
| ExportPattern.ExportGroupsShape | main.go:36 | In every export match, entries 0 and 1 are non-empty. Groups 2 and 3 are empty together or non-empty together. The last non-empty group is a component name. |
| ImportPattern.MatchImport | main.go:78 | A reported import match starts where it was asked, is non-empty, and has a three-entry submatch vector whose entry 0 is the matched text. |
| ImportPattern.HeadSound | main.go:78 | The head the recogniser reports matches `import\s+(?:\{\s+)?`. |
| ImportPattern.TailSound | main.go:78 | The tail the recogniser reports matches `(?:\s+\})?\s+from\s+`. |
| ImportPattern.SpecifierSound | main.go:78 | The specifier the recogniser reports matches `\"(\@/\|\.+)[a-zA-Z/_]+\"`, with group 2 ending where it says. |
| ImportPattern.ImportSound | main.go:78 | Every reported import match, with its submatch vector, is a match of the import pattern. |
| ImportPattern.HeadComplete | main.go:78 | Every head that can precede an upper-case name ends where the recogniser's head ends. |
| ImportPattern.TailComplete | main.go:78 | Every tail followed by a double quote ends where the recogniser's tail ends. This holds whether or not the tail has the optional `\s+\}`. |
| ImportPattern.SpecifierComplete | main.go:78 | Every match of the specifier is the one the recogniser reports. |
| ImportPattern.TailStart | main.go:78 | The tail begins with white space. So the name before it ends where its word run ends. |
| ImportPattern.NameComplete | main.go:78 | A name followed by white space is exactly the span the recogniser takes for group 1. |
| ImportPattern.ParseComplete | main.go:78 | For any parse of the pattern, each recogniser step ends at that parse's split point. |
| ImportPattern.ImportComplete | main.go:78 | If the pattern matches a span with some submatch vector, the recogniser reports exactly that match. An import match at a position is unique. |
| ImportPattern.ImportNameShape | main.go:78 | Group 1 of every import match is a component name. |
| ImportPattern.SpecifierText | main.go:78 | The accepted specifier is a double-quoted text of at least two characters: `@/` or a run of dots, then at least one character of `[a-zA-Z/_]`. |
| ImportPattern.ImportSpecifierShape | main.go:78 | Every import match ends with a double-quoted local specifier. |
| ImportPattern.LocalSpecifierChars | main.go:78 | A local specifier starts with `@` or `.` and contains no digit, `-`, `"` or `'`. So package imports, single-quoted specifiers and specifiers with digits or dashes never match. |
| Scanner.FirstMatchFrom | main.go:37 | The search from a position returns a match that no other match starts before. If it returns none, no match starts anywhere from that position on. |
| Scanner.FindAllFrom | main.go:37 | The scan yields leftmost, non-overlapping matches, each one reported at its start. No match starts before the first, between two consecutive ones, or after the last. |
| Scanner.FindAll | main.go:37 | `FindAllStringSubmatch(text, -1)` is the leftmost non-overlapping scan from the start of the text. |
| Scanner.LeftmostScanCons | main.go:37 | The leftmost match followed by the scan after its end is the scan from the earlier position. |
| Scanner.ScanOrdered | main.go:37 | Matches found later in the scan lie entirely after earlier ones. |
| Scanner.ScanHead | main.go:37 | The first entry of a leftmost scan is the leftmost match. |
| Scanner.ScanTail | main.go:37 | After the first entry, a leftmost scan is the leftmost scan from that entry's end. |
| Scanner.LeftmostScanUnique | main.go:37 | Any sequence of matches with the leftmost, non-overlapping properties is the one the scan returns. |
| Scanner.FindAllEmptyIff | main.go:37 | The scan is empty exactly when no match starts anywhere in the text. |
| Scanner.SingleMatch | main.go:37 | A text whose only match is `m` scans to exactly `[m]`. |
| Extract.CountPopulated | main.go:41-46 | The count of non-empty entries never exceeds the vector's length. It is at least one when entry 0 is non-empty. |
| Extract.CountNonEmpty | main.go:41-46 | The counting loop computes the number of non-empty entries. |
| Extract.AllPopulatedCount | main.go:41-46 | A vector without empty entries counts its full length. |
| Extract.PrefixSelectsLast | main.go:41-47 | When the non-empty entries form a prefix, entry `count - 1` is the last non-empty entry, and it is non-empty. |
| Extract.SelectName | main.go:47 | `match[len-1]` is an entry of the vector. When the non-empty entries form a prefix, it is the last non-empty entry. |
| Extract.SelectionInBounds | main.go:40-47 | If entry 0 is non-empty, `count - 1` is a valid index. |
| Extract.SelectionNeedsPrefix | main.go:41-47 | Without the prefix shape, the rule can select an empty entry instead of the last non-empty one. |
| Extract.SelectionExamples | main.go:39-48 | The vectors of `export default Foo` and `export function Foo` both select `Foo`. |
| Extract.CollectExports | main.go:39-49 | The export loop appends one selected entry per vector that has more than one entry, in order. |
| Extract.CollectImports | main.go:81-85 | The import loop appends group 1 of each vector that has more than one entry, in order. |
| Extract.ExportNamesOfPrefixVectors | main.go:39-49 | Over vectors with the prefix shape, the export loop yields exactly one name per vector: that vector's last non-empty entry. |
| Extract.ImportNamesOfVectors | main.go:81-85 | Over vectors with at least two entries, the import loop yields exactly group 1 of each vector, in order. |
| Extract.ExportMatches | main.go:36-37 | The export matches of a text form its leftmost, non-overlapping scan. |
| Extract.ImportMatches | main.go:78-79 | The import matches of a text form its leftmost, non-overlapping scan. |
| Extract.ExportVectorShape | main.go:36-47 | Every export submatch vector has the prefix shape, a non-empty entry 0, and a component name as its last non-empty entry. So the selection is safe on every real match. |
| Extract.ExtractExports | main.go:27-51 | Export extraction yields exactly one name per match, in text order, duplicates included. Each name is the last non-empty group of its match and is a component name. |
| Extract.ExtractImports | main.go:70-88 | Import extraction yields exactly one name per match, in text order, duplicates included. Each name is group 1 of its match and is a component name. |
| Extract.ExportsEmptyIff | main.go:37-51 | Export extraction is empty exactly when the export pattern matches nowhere. It is never an error. |
| Extract.ImportsEmptyIff | main.go:79-87 | Import extraction is empty exactly when the import pattern matches nowhere. It is never an error. |
| Locator.ExtFrom | main.go:18 | The backward scan for the extension yields an extension of the path. |
| Locator.Ext | main.go:18 | `filepath.Ext` yields either the empty string, when no dot follows the last `/`, or the suffix from the last dot of the final element. |
| Locator.IsCandidate | main.go:18 | A path is a candidate exactly when it ends in `.tsx` or `.js`. |
| Locator.FindFiles | main.go:12-24 | The walk fails exactly when it reports an error, and then fails with the first error reported. Otherwise it yields exactly the non-directory candidates it visited. |
| Locator.FindFilesConcat | main.go:12-24 | Over two error-free segments of a walk, the files are found segment by segment, in walk order. |
| Aggregate.ComponentMap | main.go:54-68 | A path is a key exactly when some entry for it is a success with at least one name. Every stored value is non-empty. |
| Aggregate.MapComponents | main.go:90-103 | The aggregation loop builds the same map as `ComponentMap`: it skips failures, leaves out empty results, and stores the rest. |
| Aggregate.LastRecordedWins | main.go:54-68 | The value under a path is the result of the last entry recorded for that path. No later entry for that path is recorded. |
| Aggregate.RecordedStoredUnchanged | main.go:56-65 | When paths are distinct, every recorded result is stored unchanged under its own path. |
| Aggregate.SkippedEntryInvisible | main.go:57-64 | A failed or empty entry, wherever it stands, leaves the map exactly as it would be without it. |
| Aggregate.ExtractFile | main.go:27-31 | Extraction on a path fails exactly when reading the path fails. |
| Aggregate.MapFiles | main.go:54-68 | A path is a key exactly when it is one of the files, can be read, and yields at least one name. Its value is those names. |
| Aggregate.Run | main.go:105-121 | The run fails exactly when the walk reports an error. Otherwise a path is a key exactly when the walk visited it as a non-directory candidate, it can be read, and it yields at least one name; its value is those names. |
| ExportExamples.DefaultFunction | main.go:36-47 | `export default function Foo() {}` yields `["Foo"]`. |
| ExportExamples.PlainFunction | main.go:36-47 | `export function Foo() {}` yields `["Foo"]`. |
| ExportExamples.LowerCaseFunction | main.go:36 | `export function foo() {}` yields nothing. |
| ExportExamples.ConstArrow | main.go:36-47 | `export const Foo = () => {}` yields `["Foo"]`. |
| ExportExamples.DefaultName | main.go:36-47 | `export default Foo;` yields `["Foo"]`. |
| ExportExamples.ClassDeclaration | main.go:36 | `export class Foo {}` yields nothing. |
| ExportExamples.LetDeclaration | main.go:36 | `export let Foo = 1` yields nothing. |
| ImportExamples.RelativeSpecifier | main.go:78-83 | `import Widget from "./components/Widget"` yields `["Widget"]`. |
| ImportExamples.AliasSpecifier | main.go:78-83 | `import Widget from "@/components/Widget"` yields `["Widget"]`. |
| ImportExamples.BracedName | main.go:78-83 | `import { Widget } from "./W"` yields `["Widget"]`. |
| ImportExamples.BracedList | main.go:78 | `import { Alpha, Beta } from "./x"` yields nothing, because a comma follows the first name. |
| ImportExamples.PackageSpecifier | main.go:78 | `import React from "react"` yields nothing. |
| ImportExamples.SiblingModule | main.go:78-83 | `import Foo from "./Foo"` yields `["Foo"]`. |
| Scenario.DoubleExtension | main.go:18 | `a.test.js` has extension `.js` and is a candidate. |
| Scenario.LookalikeExtensions | main.go:18 | `App.jsx`, `x.ts` and `m.mjs` are not candidates. |
| Scenario.EmptyResultOmitted | main.go:62-64 | A file with no names gets no key. |
| Scenario.ReadFailureSkipped | main.go:58-61 | A file that cannot be read is skipped, and the next file is still mapped. |
| Scenario.WalkFindsBoth | main.go:12-24 | Walking a directory that holds `Foo.tsx` and `Bar.js`, with the entries in lexical order, finds `root/Bar.js` then `root/Foo.tsx`, without the directory. |
| Scenario.FileResults | main.go:27-88 | The component file exports `Foo` and imports nothing. The importing file imports `Foo` and exports nothing. |
| Scenario.NamesThenNone | main.go:54-68 | A file with names followed by a file without names maps only the first file, to its names. |
| Scenario.NoneThenNames | main.go:90-103 | A file without names followed by a file with names maps only the second file, to its names. |
| Scenario.ExportRun | main.go:111-121 | Export mode over the directory maps `root/Foo.tsx` to `["Foo"]`. |
| Scenario.ImportRun | main.go:111-121 | Import mode over the directory maps `root/Bar.js` to `["Foo"]`. |

The step functions of the recognisers and the name loops have no rows of their
own.

- `ExportPattern.KeywordEnd` and `ExportPattern.BodyEnd` are described by the
  `HeadSound`, `BodySound`, `BodyComplete` and `ExportComplete` rows.
- `ImportPattern.NameEnd`, `ImportPattern.TailEnd` and
  `ImportPattern.SpecifierEnd` are described by the `TailSound`,
  `SpecifierSound`, `NameComplete`, `TailComplete`, `SpecifierComplete` and
  `ParseComplete` rows.
- `Extract.ExportNames` and `Extract.ImportNames`, which `ExtractExports` and
  `ExtractImports` evaluate, are described by the `ExportNamesOfPrefixVectors`
  and `ImportNamesOfVectors` rows.

## Left out

- The directory walk (`filepath.Walk`, main.go:14-22) is file-system I/O. It
  is given as a sequence of walk events: a visited path with its
  directory flag, or a reported error.
- `Locator.FindFiles` takes the walk events in the order given. It does not
  model that `filepath.Walk` visits the entries of a directory in lexical
  order; only the worked directory in `Scenario` lists its entries that way.
- When the walk fails, `findFiles` also returns the files found before the
  error. `main` discards them (main.go:112-115), so the model returns only
  the error.
- Reading a file (`os.ReadFile`, main.go:28, main.go:71) is I/O. It is a
  function parameter from path to text or error, so the same path always
  reads the same way during one run.
- Console output is left out: the `fmt.Println` diagnostics (main.go:59,
  main.go:95, main.go:113) and the printing of the map (main.go:122-130).
  Go's map iteration order has no contract.
- Argument validation and `log.Fatal` (main.go:106-108) are process plumbing.
  The selected mode is the `Mode` parameter of `Run`.
- Paths use `/` as the only separator. Windows volume names and `\` separators
  of `filepath.Ext` are not modelled.
- The commented-out pattern at main.go:35 is dead code.
- A separate export pattern that requires `default` does not exist in main.go,
  so only the pattern at main.go:36 is modelled.
- Go's regexp engine is not modelled in general. Only the two fixed patterns
  are modelled, by hand.
  - Matches of both patterns are never empty, so Go's handling of empty
    matches in `FindAllStringSubmatch` never applies.
  - Text is a sequence of code points, where Go works on UTF-8 bytes. Every
    class in the patterns is ASCII, so this changes no match.
- A text with two export statements is covered only by the general contract
  of `Extract.ExtractExports` (one name per match, duplicates kept). There is
  no worked example for it.
