# Prompt-file parser of gpt-runner, in Dafny

A model of `gptMdFileParser` and `findContentByTitleName` in
`packages/gpt-runner-core/src/core/parser/md.ts`. The parser turns the text of a
markdown prompt file into a single-file configuration, in three steps:

1. **Front matter.** A fenced block tagged `json` (any case) may open the
   document after optional whitespace. Its text, up to the first closing
   fence and trimmed, goes to the JSON parser. With no block, or a blank one,
   the normaliser gets `{}`.
2. **Sections.** `findContentByTitleName` scans the document line by line. Its
   one piece of state is the marker of the active section, or none.
   - A heading line has a requested marker and a title that fuzzily matches the
     camelCase name. Such a line activates its marker and gives the marker an
     empty entry if it has none. The line itself is never copied into a body.
   - A line that starts with the active marker followed by whitespace ends the
     section.
   - Any other line goes, with `"\n"` added, into the active marker's entry.
3. **Assembly.** The scan runs once for `userPrompt` and once for `systemPrompt`,
   both at levels `#` and `##`.
   - For each title, only the first entry inserted counts, or `''` if there is
     none.
   - Both prompts are laid over the normalised configuration, and the resolver
     is called once.

Modules:

- `Text` (`text.dfy`): the JavaScript string operations the parser uses.
  - `\s`, letter classes, and ASCII case folding as the `i` flag does it for
    ASCII patterns.
  - Taking the longest prefix in a character class.
  - `trim`.
  - `split('\n')` and its inverse.
- `Title` (`title.dfy`):
  - the camelCase split `split(/(?=[A-Z])/)`;
  - the fuzzy title as a declarative predicate, `FuzzyTitle`. It reads: the
    words, each in any case, with runs of whitespace, `_` or `-` between them;
  - the executable matcher `MatchTitle`, proved equal to `FuzzyTitle`.
- `Heading` (`heading.dfy`):
  - the full-line heading shape `^\s*(m)\s+(title)\s*$` as a predicate,
    `TitleHeading`;
  - the section-closing shape `^\s*(m)\s+` as a predicate, `ClosesSection`;
  - their executable tests, `MatchHeading` and `EndsSection`. A line is taken
    apart at its first `#` run to compute them.
- `Sections` (`sections.dfy`):
  - the result record as an ordered association list, so that insertion order
    is visible;
  - the loop as the imperative methods `ScanLine` (the loop body) and `ScanAll`
    (the loop), with `FindContentByTitleName` around them. These three are
    proved equal to the functional reference scan `ScanLines`.
- `SectionsSpec` (`sections_spec.dfy`):
  - what the scan computes, stated without reference to the loop. Each line is
    classified as a heading at a marker, or as closing sections of some
    markers. A marker has an entry exactly when some line is a heading at it.
    The entry holds the lines that are body text of the sections at that
    marker, each followed by `"\n"`;
  - which entry comes first.
- `Fence` (`fence.dfy`): the front-matter capture, proved equal to a declarative
  reading of the pattern.
- `MdParser` (`md_parser.dfy`): the reduce over the two title items, the merge,
  and what the resolver gets.
- `Scenarios` (`scenarios.dfy`): concrete inputs. They cover:
  - the four spellings of `userPrompt`;
  - deeper and shallower headings;
  - the fence cases;
  - the document `# User Prompt` / `Hello` / `# Other` / `World`.

The parser's collaborators are opaque here and become function parameters:
`tryParseJson` is `parse`, `getSingleFileConfig` is `normalize`, and
`resolveSingleFileConfig` is `resolve`.

One intent stated for the parser is that, when a title matches at two levels,
the first *requested* level that has a match wins. The code differs: it takes
`Object.values(...)[0]`, which is the entry inserted first. That entry belongs
to the level of the first matching heading in document order. The model
follows the code (`SectionsSpec.FirstEntry`, `MdParser.TitlePromptFirst`).

## Model

| member | source | states |
|---|---|---|
| Text.IsSpace | packages/gpt-runner-core/src/core/parser/md.ts:17 | the `\s` class of the fence pattern, the heading pattern (md.ts:75) and the boundary pattern (md.ts:83): the JavaScript WhiteSpace and LineTerminator code points. It is a definition, used by `Text.Trim`, `Heading.MatchHeading` and `Fence.JsonFenceMatches` |
| Text.Fold | packages/gpt-runner-core/src/core/parser/md.ts:63 | the `i` flag's canonical form: an ASCII letter folds to upper case, and every other character, non-ASCII letters included, is left as it is |
| Text.CiEq | packages/gpt-runner-core/src/core/parser/md.ts:63 | case-insensitive equality under `Fold`: equal lengths, and equal folded forms at every position. It is a definition, used by `Title.MatchTitle` and `Fence.JsonFenceMatches` |
| Text.SplitLines | packages/gpt-runner-core/src/core/parser/md.ts:66 | `content.split('\n')` returns at least one part, no part contains `'\n'`, and joining the parts with `'\n'` gives the content back |
| Text.SplitLinesOfJoin | packages/gpt-runner-core/src/core/parser/md.ts:66 | the other round trip: lines without a newline, joined and split again, come back unchanged |
| Text.Trim | packages/gpt-runner-core/src/core/parser/md.ts:17 | `.trim()` returns the part of the input between a whitespace prefix and a whitespace suffix, with no whitespace at either end. It is empty exactly when the input is all whitespace |
| Title.SplitCamel | packages/gpt-runner-core/src/core/parser/md.ts:63 | `split(/(?=[A-Z])/)` on a letter name returns nonempty letter words that concatenate to the name. Every word after the first starts with a capital, and no word has a capital after its first letter |
| Title.SplitCamelUnique | packages/gpt-runner-core/src/core/parser/md.ts:63 | those properties determine the split: any word list with them is the one `SplitCamel` returns |
| Title.SplitUserPrompt | packages/gpt-runner-core/src/core/parser/md.ts:27 | `userPrompt` splits into `user` and `Prompt` |
| Title.SplitSystemPrompt | packages/gpt-runner-core/src/core/parser/md.ts:31 | `systemPrompt` splits into `system` and `Prompt` |
| Title.MatchTitle | packages/gpt-runner-core/src/core/parser/md.ts:63 | the executable test of the pattern `word1[\s_-]*word2…` (case-insensitive) holds exactly when the declarative `FuzzyTitle` holds |
| Title.SeparatedWordsMatch | packages/gpt-runner-core/src/core/parser/md.ts:63 | the words, in any case, joined by any runs of whitespace, `_` or `-`, match the title |
| Title.MatchIsSeparatedWords | packages/gpt-runner-core/src/core/parser/md.ts:63 | conversely, every matching text is the words in some case with such separator runs between them |
| Title.NameMatchesItself | packages/gpt-runner-core/src/core/parser/md.ts:63 | the camelCase name itself matches its own pattern |
| Title.FuzzyTitleLength | packages/gpt-runner-core/src/core/parser/md.ts:63 | a matching text is at least as long as the words together, so separators only add characters |
| Heading.Dissect | packages/gpt-runner-core/src/core/parser/md.ts:75 | a line comes apart into its indentation, the `#` run right after it (possibly empty), the whitespace after that run, the text up to the trailing whitespace, and that trailing whitespace. The pieces concatenate to the line, and each has its character class |
| Heading.MatchHeading | packages/gpt-runner-core/src/core/parser/md.ts:75 | the heading test returns a requested marker only if the whole line is whitespace, that marker, whitespace, a matching title and whitespace. It returns that marker whenever the line has this shape at some requested marker |
| Heading.EndsSection | packages/gpt-runner-core/src/core/parser/md.ts:83-85 | the boundary test holds exactly when the line is optional whitespace, the active marker, then a whitespace character |
| Heading.OnlySameLevelCloses | packages/gpt-runner-core/src/core/parser/md.ts:83-88 | a line closes sections of at most one marker, the one written on it, so a deeper or shallower heading does not end the section |
| Heading.ClosingMarker | packages/gpt-runner-core/src/core/parser/md.ts:83 | the marker a line closes is the whole `#` run after the line's indentation |
| Sections.Lookup | packages/gpt-runner-core/src/core/parser/md.ts:79 | `result[m]` is present exactly when `m` is one of the record's keys. Its value is the text of the first entry, at any position, whose key is `m` |
| Sections.AddEntry | packages/gpt-runner-core/src/core/parser/md.ts:79-80 | after `if (!result[m]) result[m] = ''`, `m` is a key and every other key's lookup is unchanged. A new key goes last in the key order and looks up `''`. An existing key keeps its text and its place, and then the record is unchanged |
| Sections.LookupAppendedAll | packages/gpt-runner-core/src/core/parser/md.ts:80 | after an entry is appended, every key of the record looks up as before, and only the new key is added |
| Sections.LookupAppended | packages/gpt-runner-core/src/core/parser/md.ts:80 | after an entry is appended, lookups of existing keys are unchanged and the new key yields the new entry |
| Sections.AppendBody | packages/gpt-runner-core/src/core/parser/md.ts:92 | `result[m] += text` appends `text` to `m`'s entry and changes no key and no other entry |
| Sections.AddEntryCoherent | packages/gpt-runner-core/src/core/parser/md.ts:77-81 | after a heading, every key is a requested marker, no key repeats, and the active marker has an entry |
| Sections.AppendBodyCoherent | packages/gpt-runner-core/src/core/parser/md.ts:90-93 | appending a body line keeps those invariants |
| Sections.Step | packages/gpt-runner-core/src/core/parser/md.ts:75-94 | one turn of the loop keeps the invariants |
| Sections.ScanLines | packages/gpt-runner-core/src/core/parser/md.ts:72-95 | the reference scan over any prefix of the lines keeps the invariants |
| Sections.ScanLine | packages/gpt-runner-core/src/core/parser/md.ts:75-94 | the loop body, as written with its two `if`s and with `currentLevel` updated in place, computes one `Step` |
| Sections.ScanAll | packages/gpt-runner-core/src/core/parser/md.ts:69-95 | the `for` loop from `currentLevel = ''` and `{}` returns the reference scan of all the lines |
| Sections.FindContentByTitleName | packages/gpt-runner-core/src/core/parser/md.ts:61-98 | the function returns the reference scan of `content.split('\n')` for the split title. Its keys are distinct and are all requested markers |
| SectionsSpec.Classification | packages/gpt-runner-core/src/core/parser/md.ts:75-85 | the classification of each line, as a heading at a marker or as closing a marker's section, agrees with the declarative heading and boundary shapes |
| SectionsSpec.HeadingLineStep | packages/gpt-runner-core/src/core/parser/md.ts:77-81 | a heading line activates its marker. The marker gets an empty entry if it had none, and otherwise keeps its text, so repeated headings accumulate. No other entry changes |
| SectionsSpec.BoundaryLineStep | packages/gpt-runner-core/src/core/parser/md.ts:83-88 | a non-heading line that closes the active section deactivates it, and it is appended nowhere |
| SectionsSpec.BodyLineStep | packages/gpt-runner-core/src/core/parser/md.ts:90-93 | any other line under an active marker is appended, followed by `"\n"`, to that marker's entry only |
| SectionsSpec.IdleLineStep | packages/gpt-runner-core/src/core/parser/md.ts:83-93 | with no active marker, a non-heading line changes nothing. The boundary test has no effect there |
| SectionsSpec.ScanMeaning | packages/gpt-runner-core/src/core/parser/md.ts:73-95 | after any prefix of the lines, the record and the active marker are what the declarative classification says |
| SectionsSpec.ResultMeaning | packages/gpt-runner-core/src/core/parser/md.ts:73-97 | the record has an entry for `m` exactly when some line is a title heading at `m`. The entry is the concatenation, in document order, of every body line of a section at `m`, each followed by `"\n"` |
| SectionsSpec.NoHeadingNoEntry | packages/gpt-runner-core/src/core/parser/md.ts:73-97 | with no matching heading, the record is empty |
| SectionsSpec.StepKeepsFirst | packages/gpt-runner-core/src/core/parser/md.ts:79-80 | once the record has an entry, no later line changes which key comes first |
| SectionsSpec.FirstEntryMarker | packages/gpt-runner-core/src/core/parser/md.ts:73-95 | the first key of the record is the marker of the first matching heading in document order |
| SectionsSpec.FirstEntry | packages/gpt-runner-core/src/core/parser/md.ts:41 | when line `j` is the first title heading, at marker `h`, the first entry is `h`'s, and it holds the body text of all sections at `h` |
| Fence.FirstFence | packages/gpt-runner-core/src/core/parser/md.ts:17 | returns the position of the first fence in the text, or reports that the text has none |
| Fence.JsonFence | packages/gpt-runner-core/src/core/parser/md.ts:17 | the capture of `/^\s*?```json([\s\S]*?)```/i` before `.trim()`. It is defined by skipping whitespace, testing the fence and the tag, and cutting at the first fence after the tag. Its meaning is stated by `Fence.JsonFenceMatches` |
| Fence.JsonFenceMatches | packages/gpt-runner-core/src/core/parser/md.ts:17 | the capture of `/^\s*?```json([\s\S]*?)```/i` is `cap` exactly when the document is whitespace, a fence, `json` in any case, `cap`, a fence and anything else, where no fence starts inside `cap` (the lazy match) |
| Fence.JsonFenceDecides | packages/gpt-runner-core/src/core/parser/md.ts:17 | the same, for every candidate capture at once, so that no match means no capture satisfies the pattern |
| Fence.JsonFenceComplete | packages/gpt-runner-core/src/core/parser/md.ts:17 | a document of that shape always yields that capture |
| MdParser.RawConfig | packages/gpt-runner-core/src/core/parser/md.ts:17-19 | with no match, the normaliser gets `{}`. With a capture, it gets `{}` if the capture is all whitespace, and otherwise the parser's result on the trimmed capture |
| MdParser.ResolveTitleConfigValid | packages/gpt-runner-core/src/core/parser/md.ts:22-34 | both items of `resolveTitleConfig` are letter names with `#` levels |
| MdParser.FirstValue | packages/gpt-runner-core/src/core/parser/md.ts:41 | `Object.values(titleContentsMap)?.[0] ?? ''`: the first entry's text, or `''` for an empty record. It is defined by that case split, and its value is stated by `MdParser.TitlePromptFirst` and `MdParser.TitlePromptMissing` |
| MdParser.TitlePrompt | packages/gpt-runner-core/src/core/parser/md.ts:38-41 | the value the reduce stores for one item: the first value of `findContentByTitleName` for the item's title and levels. What it is, for every document, is stated by `MdParser.TitlePromptFirst` and `MdParser.TitlePromptMissing` |
| MdParser.TitlePromptMissing | packages/gpt-runner-core/src/core/parser/md.ts:41 | `Object.values(map)?.[0] ?? ''` is `''` when no line is a heading with the title at one of its levels |
| MdParser.TitlePromptFirst | packages/gpt-runner-core/src/core/parser/md.ts:41 | otherwise it is the body text of the sections at the marker of the first such heading in the document |
| MdParser.UserPromptMissing | packages/gpt-runner-core/src/core/parser/md.ts:41 | the `userPrompt` item stores `''` when no line is a `userPrompt` heading at `#` or `##` |
| MdParser.Prompts | packages/gpt-runner-core/src/core/parser/md.ts:36-43 | the reduce has exactly one key per item title, and a title's value comes from the last item that has that title |
| MdParser.Spread | packages/gpt-runner-core/src/core/parser/md.ts:36-43 | the reduce on its own, for any way of computing an item's value: after `n` items the map has exactly the titles seen as keys, and each title holds the value of its last item |
| MdParser.SpreadStep | packages/gpt-runner-core/src/core/parser/md.ts:39-42 | spreading one more item over the map keeps that promise for one more item: the new title takes the new value, and every other title keeps its value |
| MdParser.ResolvedPrompts | packages/gpt-runner-core/src/core/parser/md.ts:36-43 | over `resolveTitleConfig`, the map is exactly `{userPrompt, systemPrompt}`, each with its item's value |
| MdParser.Merge | packages/gpt-runner-core/src/core/parser/md.ts:47-50 | `{...config, ...prompts}` has the keys of both. Every prompt key takes the prompt, whatever the configuration held under it, and every other key keeps its value |
| MdParser.FileConfig | packages/gpt-runner-core/src/core/parser/md.ts:45-50 | the `singleFileConfig` handed to the resolver: the normalised JSON block with the prompts merged over it. Its fields are stated by `MdParser.FileConfigFields` |
| MdParser.GptMdFileParser | packages/gpt-runner-core/src/core/parser/md.ts:11-52 | `gptMdFileParser` on the file content: the resolver applied to the user configuration and `FileConfig`. What it passes is stated by `MdParser.ResolverInput` |
| MdParser.MergePrompts | packages/gpt-runner-core/src/core/parser/md.ts:47-50 | laying the two prompts over a configuration gives its keys plus both prompt keys. The prompts hold their values, and every other key keeps its value |
| MdParser.FileConfigFields | packages/gpt-runner-core/src/core/parser/md.ts:45-51 | the merged configuration has the normalised keys plus `userPrompt` and `systemPrompt`. Those two hold the extracted text, even when it is `''`, and every other key passes through unchanged |
| MdParser.MissingPromptIsEmpty | packages/gpt-runner-core/src/core/parser/md.ts:41-50 | a document with no `userPrompt` heading gives `userPrompt: ''`, overriding any value from the JSON block |
| MdParser.ResolverInput | packages/gpt-runner-core/src/core/parser/md.ts:45-51 | the result is the resolver applied once, to the user configuration and the merged file configuration, which holds both prompts |
| Scenarios.HeadingSpellings | packages/gpt-runner-core/src/core/parser/md.ts:75 | `# User Prompt`, `## user_prompt`, `# USER-PROMPT` and `# UserPrompt` are all `userPrompt` headings, each at its own marker |
| Scenarios.DeepRunNoHeading | packages/gpt-runner-core/src/core/parser/md.ts:75 | a line that opens with a `#` run longer than every requested marker is no heading |
| Scenarios.DeeperLevelIgnored | packages/gpt-runner-core/src/core/parser/md.ts:75 | `### User Prompt` is no heading at `#` or `##` |
| Scenarios.PlainLine | packages/gpt-runner-core/src/core/parser/md.ts:75-85 | a line that starts with neither whitespace nor `#` is no heading and closes no section |
| Scenarios.DeeperHeadingStays | packages/gpt-runner-core/src/core/parser/md.ts:83-85 | a `##` line does not end a `#` section |
| Scenarios.ShallowerHeadingStays | packages/gpt-runner-core/src/core/parser/md.ts:83-85 | a `#` heading does not end a `##` section |
| Scenarios.OtherLine | packages/gpt-runner-core/src/core/parser/md.ts:75-85 | `# Other` is no `userPrompt` heading, but it closes a `#` section |
| Scenarios.HeadingBodyCloseAfter | packages/gpt-runner-core/src/core/parser/md.ts:73-95 | a heading, a body line, a closing line and one more line leave a single entry, at the heading's marker, holding the body line and its newline |
| Scenarios.DocumentScan | packages/gpt-runner-core/src/core/parser/md.ts:73-95 | the lines `# User Prompt`, `Hello`, `# Other`, `World` give the record `{'#': "Hello\n"}` |
| Scenarios.DocumentExample | packages/gpt-runner-core/src/core/parser/md.ts:36-43 | that document's `userPrompt` value is `"Hello\n"` |
| Scenarios.DocumentConfig | packages/gpt-runner-core/src/core/parser/md.ts:45-50 | and the resolver receives `userPrompt: "Hello\n"` |
| Scenarios.FenceAfterSpace | packages/gpt-runner-core/src/core/parser/md.ts:17 | a block after leading blank space, tagged `JSON`, captures up to its closing fence |
| Scenarios.FenceIsLazy | packages/gpt-runner-core/src/core/parser/md.ts:17 | the capture stops at the first closing fence |
| Scenarios.FenceNotAtStart | packages/gpt-runner-core/src/core/parser/md.ts:17-19 | a block after other text is not front matter, and the normaliser gets `{}` |
| Scenarios.BlankFence | packages/gpt-runner-core/src/core/parser/md.ts:17-19 | a blank block gives `{}` without calling the JSON parser |

## Left out

- Reading the file (`fs.readFile`) and the `async` wrapper at md.ts:11-14 are I/O. The model takes the content string directly.
- `tryParseJson`, `getSingleFileConfig` and `resolveSingleFileConfig` are opaque function parameters. This model does not include their behaviour, such as `tryParseJson` returning `{}` on malformed JSON. What the model fixes is what they receive and how often they are called.
- The title pattern and the heading pattern are built by inserting the title name and the levels unescaped into regular expressions. General regular expressions are not modelled. The model covers letter-only title names and levels that are runs of `#`, which is all the parser passes (`MdParser.ResolveTitleConfigValid`).
- `MdParser.TitlePrompt`: for an item outside that restriction, it stores `''` instead of modelling the regular expression the source would build. The two items the parser uses are inside it.
- Heading marker choice: on `##` with levels `#|##`, the regular expression backtracks from `#`, because `\s+` must follow the marker. The model states the result directly: the marker is the whole `#` run after the indentation.
- Character classes: `\s` is the set of JavaScript whitespace code points. Case folding is ASCII only. That is exact for the ASCII title words, because the non-unicode `i` flag never folds a non-ASCII character to an ASCII one.
- Strings are sequences of Unicode scalar values (Dafny's `char`), where JavaScript strings hold UTF-16 code units. So a lone surrogate is outside the model, and a character beyond the Basic Multilingual Plane is one `char` here where JavaScript sees two code units. No result changes: none of these characters is `\s`, a letter, `#`, `_`, `-`, a backtick or a newline, either as one character or as two code units. No operation here depends on their length.
- Object key order: JavaScript orders integer-like keys first. The record's keys are `#` markers, so insertion order, which the model keeps, is the order `Object.values` sees.
- JSON numbers are integers in the `Json` datatype. Nothing in the parser looks inside the values.
- `secrets-settings.tsx` (a settings form) and `gptr-dark.theme.ts` (a colour table) are not part of this model: one is UI code and the other a constant table, and neither has logic of its own.
