# Plugin manifest generator, modelled in Dafny

`generate-plugin-json.js` builds a plugin manifest from a directory tree. It lists
`commands/`, keeps the `*.md` entries, and records one command per file whose content
starts with a `---` metadata block. It walks `skills/` recursively. A directory holding a
`SKILL.md` is a skill leaf: it yields at most one skill and is not descended into. Every
other directory is descended into. Names and descriptions come from `name:` and
`description:` fields inside the block, trimmed, with fallbacks when a field is missing.

This project models that logic and proves its properties:

- `Text`: the one whitespace class used for both `\s` and `trim()`, and the line
  terminators that `.` does not match. It also holds `trim()`, suffix removal, joining
  names with a separator, and the `replace(/\\/g, '/')` normalisation.
- `Frontmatter`: the two regular expressions, written as scanners that backtrack the way
  a JavaScript engine does. Two pairs of definitions describe the reported match:
  - `BlockMatch`/`ReportedBlock` for the block pattern: the greedy `\s*` prefers the
    latest opening newline, then the lazy capture takes the earliest closing `\n---`.
  - `FieldMatch`/`ReportedField` for the field pattern: the leftmost `key:`, then the
    furthest start the greedy `\s*` can give `.+`.

  The lemmas prove that each scanner returns exactly this reported match.
- `FileTree`: the filesystem as a finite tree of `File(name, content)` and
  `Dir(name, children)`. Children appear in listing order.
- `Steps`: what a loop body does to a table. A `Step` is `Skip`, `Put(key, value)` or
  `Fail`: a read that throws aborts the run, because nothing catches it. `Exec` runs a
  sequence of steps with last-write-wins assignment and stops at the first failure. The
  lemmas cover keys, last-write-wins, entries left alone, and the entry count.
- `Commands`: the command loop, as the step list it produces, with lemmas about the
  resulting table.
- `Skills`: `findSkills`, as the depth-first step list over the tree. A soundness lemma
  and a completeness lemma connect this list to the leaves reachable without passing
  through another leaf (`LeafPath`).
- `Generator`: the `plugin` record as a class. Its `commands` and `skills` maps are
  updated in place by `CollectCommands` (the `forEach` loop) and by the recursive
  `FindSkills`, and both methods are proved against `Exec`. `Generate` is the whole run.

Two facts about the script shape the model:

- Only the direct entries of `commands/` are listed; there are no grouped subdirectories.
- A command or skill file without a metadata block gets no entry. Fallbacks apply only to
  fields missing from a block that was found.

The tables are plain JavaScript objects. Assigning the key `__proto__` to one runs the
prototype setter and creates no own key, so that entry is neither written out nor counted.
`Steps.Apply` treats such an assignment as no change, and the two loops skip it.

## Model

| member | source | states |
|---|---|---|
| `Text.Trim` | generate-plugin-json.js:38 | the result has no whitespace at either end, and it is the middle of the input between an all-whitespace prefix and an all-whitespace suffix |
| `Text.TrimOfTrimmed` | generate-plugin-json.js:38 | trimming a string that has no whitespace at either end returns it unchanged |
| `Text.TrimIdempotent` | generate-plugin-json.js:38 | trimming twice is trimming once |
| `Text.TrimKeepsNoLineTerminator` | generate-plugin-json.js:38 | trimming a single-line string leaves a single-line string |
| `Text.DropSuffix` | generate-plugin-json.js:31 | the result followed by the suffix is the input |
| `Text.SlashNormalize` | generate-plugin-json.js:69 | same length; each backslash becomes `/` and every other character stays; the result has no backslash |
| `Text.SlashNormalizeNoBackslash` | generate-plugin-json.js:69 | normalising a string without backslashes changes nothing |
| `Text.NormalizedJoinIsSlashJoin` | generate-plugin-json.js:69 | with `/` or `\` as the platform separator, joining and then normalising gives the `/`-joined path, provided no name holds a backslash |
| `Text.IsWs` | generate-plugin-json.js:33 | the characters `\s` matches and `trim()` removes: the line terminators, tab, vertical tab, form feed, the byte order mark and the Unicode space separators (no contract of its own; a definition) |
| `Text.IsLineTerminator` | generate-plugin-json.js:37 | the characters `.` does not match: `\n`, `\r`, U+2028 and U+2029 (a definition) |
| `Text.JoinWith` | generate-plugin-json.js:69 | the directory names joined with the platform separator, as `path.relative` spells a path below the generator's directory (a definition; `NormalizedJoinIsSlashJoin` and `Skills.SkillPathIsSlashJoin` state its properties) |
| `Frontmatter.FindDelim` | generate-plugin-json.js:33 | returns the first `\n---` at or after the start index, or None when there is none |
| `Frontmatter.WsRunEnd` | generate-plugin-json.js:33 | returns where the maximal whitespace run starting at the index ends |
| `Frontmatter.ScanOpen` | generate-plugin-json.js:33 | backtracking over opening newlines: returns a block match with the latest opening newline at or before t and, for it, the earliest closing delimiter; None when no such match exists |
| `Frontmatter.FindFrontmatter` | generate-plugin-json.js:33 | a block is found only when the content starts with `---` at offset 0, and the captured block never contains `\n---` |
| `Frontmatter.FindFrontmatterFound` | generate-plugin-json.js:33 | a block is found exactly when the block pattern matches in some way |
| `Frontmatter.FindFrontmatterReported` | generate-plugin-json.js:59 | the captured block is exactly the reported match: latest opening newline (greedy `\s*`), then earliest closing delimiter (lazy capture) |
| `Frontmatter.LineEnd` | generate-plugin-json.js:37 | returns the first line terminator at or after k, or the end; nothing in between is a line terminator |
| `Frontmatter.BackOff` | generate-plugin-json.js:37 | `\s*` giving characters back: returns the last position in the range that is not a line terminator, or None |
| `Frontmatter.ValueStart` | generate-plugin-json.js:37 | returns the furthest position after the key where `.+` can start, or None when there is none |
| `Frontmatter.FieldFrom` | generate-plugin-json.js:63-64 | returns the leftmost key occurrence (from i on) that can match, and for it the furthest value start; None when nothing matches |
| `Frontmatter.FindField` | generate-plugin-json.js:37 | an extracted value is non-empty and contains no line terminator |
| `Frontmatter.FindFieldFound` | generate-plugin-json.js:63 | a value is found exactly when the field pattern matches in some way |
| `Frontmatter.FindFieldReported` | generate-plugin-json.js:64 | the extracted value is exactly the capture of the reported match: leftmost key, greedy whitespace, `.+` up to the end of the line |
| `Frontmatter.FieldValue` | generate-plugin-json.js:66-67 | a missing field gives the fallback; a present field gives the trimmed capture |
| `Frontmatter.ExtractedValueIsClean` | generate-plugin-json.js:66-67 | an extracted field value contains no line terminator and equals its own trim |
| `Commands.CommandName` | generate-plugin-json.js:31 | the command key followed by `.md` is the file name |
| `Commands.IsMarkdown` | generate-plugin-json.js:28 | `f.endsWith('.md')` (a definition) |
| `Commands.MarkdownEntries` | generate-plugin-json.js:28 | keeps exactly the listed entries whose name ends in `.md` |
| `Commands.MarkdownEntriesAppend` | generate-plugin-json.js:28 | the filter keeps listing order: filtering a concatenation gives the concatenation of the filtered parts |
| `Commands.MarkdownEntriesDistinct` | generate-plugin-json.js:28 | filtering keeps entry names pairwise distinct |
| `Commands.CommandSteps` | generate-plugin-json.js:30 | one step per markdown entry |
| `Commands.CommandStep` | generate-plugin-json.js:31-44 | reading a directory is exactly the failing case; an entry's key plus `.md` is the file name and its `file` is `./commands/` followed by the file name |
| `Commands.CommandStepShape` | generate-plugin-json.js:31-43 | an entry comes from a file whose content has a block. Its key plus `.md` is the file name, its `file` is `./commands/<key>.md`, and its description is the trimmed `description:` value or `<key> command` |
| `Commands.CommandStepSkipOrFail` | generate-plugin-json.js:32-35 | a file without a block leaves the table unchanged; reading a directory is the only step that aborts the run |
| `Commands.CommandTableOk` | generate-plugin-json.js:28-32 | the commands loop completes exactly when no directory's name ends in `.md` |
| `Commands.CommandTableKeys` | generate-plugin-json.js:30-44 | the keys of the completed table are exactly the names, without `.md`, of the markdown files with a block, except `__proto__` |
| `Commands.CommandTableFiles` | generate-plugin-json.js:40-43 | every table entry's `file` is `./commands/<key>.md` |
| `Commands.RunFilesFollowKeys` | generate-plugin-json.js:40-43 | a run whose every assignment has that `file` shape leaves only entries of that shape |
| `Commands.CommandTableEntry` | generate-plugin-json.js:36-43 | in a directory with distinct names, every markdown file with a block gets exactly its own entry in the completed table (description from `description:` or `<key> command`, `file` `./commands/<name>`); `__proto__.md` gets none |
| `Skills.Descriptor` | generate-plugin-json.js:56-57 | returns a child named `SKILL.md`; None means no child has that name |
| `Skills.SkillPath` | generate-plugin-json.js:69-73 | the recorded path starts with `./` and contains no backslash |
| `Skills.SkillPathIsSlashJoin` | generate-plugin-json.js:69-73 | with `/` or `\` as the platform separator and no backslash in a name, the path is `./` followed by the names joined with `/` |
| `Skills.IsLeaf` | generate-plugin-json.js:55-57 | a directory holding `SKILL.md` (a definition) |
| `Skills.LeafStep` | generate-plugin-json.js:58-75 | every skill entry a leaf writes has a path that starts with `./` and contains no backslash; `LeafStepShape` and `LeafStepCases` state its key, description and cases |
| `Skills.LeafStepShape` | generate-plugin-json.js:66-74 | an entry comes from a `SKILL.md` file with a block; its key is the trimmed `name:` value or the directory name, its description the trimmed `description:` value or `<dir> skill`, and its path that of the leaf directory |
| `Skills.ItemSteps` | generate-plugin-json.js:52-79 | the steps of one listed item: none for a file, the leaf's step for a directory with `SKILL.md`, the walk of its children otherwise (a definition; `SkillStepsSound` and `SkillStepsComplete` state what the walk visits) |
| `Skills.SkillSteps` | generate-plugin-json.js:51-80 | the depth-first steps of `findSkills` over a listing, in listing order (a definition; see `SkillStepsSound` and `SkillStepsComplete`) |
| `Skills.LeafStepCases` | generate-plugin-json.js:57-61 | a leaf whose `SKILL.md` has no block adds nothing; a `SKILL.md` that is a directory aborts the run |
| `Skills.LeafPathShift` | generate-plugin-json.js:51 | leaf paths into the rest of a listing are leaf paths into the whole listing, one index further on |
| `Skills.LeafPathDown` | generate-plugin-json.js:76-78 | a leaf path into the children of a directory without `SKILL.md` extends to a leaf path through that directory |
| `Skills.SkillStepsSound` | generate-plugin-json.js:51-80 | every step of the walk belongs to a leaf directory reached only through directories without `SKILL.md`; files and directories below a leaf contribute nothing |
| `Skills.SkillStepsComplete` | generate-plugin-json.js:76-78 | every such leaf contributes its step, so every directory without `SKILL.md` is descended into |
| `Skills.NothingBelowLeaf` | generate-plugin-json.js:57-78 | no leaf path continues below a leaf directory |
| `Skills.LeafAt` | generate-plugin-json.js:55-57 | the directory a leaf path leads to holds a `SKILL.md` |
| `Skills.TrailTo` | generate-plugin-json.js:77 | the directory names a leaf path passes through above its leaf, as `findSkills` recurses into them (a definition) |
| `Skills.LeafStepAtIsLeafStep` | generate-plugin-json.js:58-74 | the step at a leaf path is the step of the leaf directory `LeafAt` reaches, with the directory names `TrailTo` passes through as its trail |
| `Skills.SkillTableOk` | generate-plugin-json.js:57-58 | the walk completes exactly when no reached leaf's `SKILL.md` is a directory |
| `Skills.SkillTablePaths` | generate-plugin-json.js:69-73 | every recorded skill path starts with `./` and contains no backslash |
| `Skills.SkillTableEntry` | generate-plugin-json.js:66-74 | for a reached leaf whose `SKILL.md` has a block, when every other leaf claiming the same key would write the same entry: a completed table holds under the trimmed `name:` value (or the directory name) the trimmed `description:` value (or `<dir> skill`) and the path of `skills/` followed by the directories down to the leaf; a `__proto__` key gets no entry |
| `Steps.ExecAppend` | generate-plugin-json.js:30 | running a + b is running a and then continuing with b, unless a failed |
| `Steps.Apply` | generate-plugin-json.js:40 | one assignment: a throwing step fails the run; assigning a key other than `__proto__` adds it with its value; assigning `__proto__` creates no own key; every other key keeps its value |
| `Steps.Exec` | generate-plugin-json.js:30 | the steps applied in order from the starting table, stopping at the first failure (a definition; the `Exec*` lemmas state its properties) |
| `Steps.ExecOk` | generate-plugin-json.js:30 | a run completes exactly when none of its steps fails |
| `Steps.ExecKeys` | generate-plugin-json.js:40 | after a completed run, the keys are the starting keys plus the assigned keys other than `__proto__` |
| `Steps.ExecUntouched` | generate-plugin-json.js:71 | a key no step assigns keeps its presence and its value |
| `Steps.ExecLastWins` | generate-plugin-json.js:40-43 | after a completed run, a key other than `__proto__` holds the value of the last step that assigned it |
| `Steps.ExecFromPut` | generate-plugin-json.js:71-74 | after a completed run, every assigned key's value was written by one of the steps |
| `Steps.ExecAgreeingPuts` | generate-plugin-json.js:71-74 | a key that is always assigned the same value ends with that value |
| `Steps.ExecCount` | generate-plugin-json.js:91 | from an empty table, the entry count equals the number of distinct assigned keys |
| `Steps.NoProtoKey` | generate-plugin-json.js:22-23 | a table filled from empty never holds the key `__proto__` |
| `Generator.Plugin.constructor` | generate-plugin-json.js:22-23 | both tables start empty |
| `Generator.Plugin.CollectCommands` | generate-plugin-json.js:28-45 | the loop updates `commands` in place exactly as `Exec` runs the command steps (and reports `false` when a read throws); `skills` is unchanged |
| `Generator.Plugin.FindSkills` | generate-plugin-json.js:48-81 | the recursive walk updates `skills` in place exactly as `Exec` runs the skill steps (and reports `false` when a read throws); `commands` is unchanged |
| `Generator.Generate` | generate-plugin-json.js:27-89 | the run returns the manifest built from both tables, or None when a read throws |
| `Generator.GeneratedManifest` | generate-plugin-json.js:86-89 | the manifest written: both tables when both loops complete, nothing when a read throws (a definition; `GeneratedManifestAborts` states when it is None) |
| `Generator.Summary` | generate-plugin-json.js:91 | the two counts of the console line: the number of keys in each table (a definition; `SummaryCounts` states what they count) |
| `Generator.SummaryCounts` | generate-plugin-json.js:91 | the summary counts are the number of distinct command names, other than `__proto__`, of markdown files with a block, and the number of distinct skill keys other than `__proto__` assigned during the walk |
| `Generator.GeneratedManifestAborts` | generate-plugin-json.js:32 | the run aborts exactly when a `*.md` entry of `commands/` or a reached leaf's `SKILL.md` is a directory |

## Left out

- Filesystem calls (`readdirSync`, `statSync`, `existsSync`, `readFileSync`, `writeFileSync`) are I/O. The tree and the listings are inputs instead. The one read failure modelled is reading a directory as a file, which is a `Fail` step.
- A missing or unreadable `commands/` or `skills/` directory, and permission errors, also abort the real run. They are not modelled, because the listings are given as inputs.
- Directory enumeration order is taken as given; nothing is sorted.
- Symbolic links and cycles cannot occur in a finite tree datatype. `statSync` following links is not modelled.
- Case-insensitive filesystems, where `existsSync` would also accept `skill.md`, are not modelled. The name `SKILL.md` is compared exactly.
- `path.relative` is modelled as joining the directory names under the generator's own directory with the platform separator `sep`. Drive letters, `.`/`..` names and other platform path rules are left out.
- `JSON.stringify` formatting, the file write and the console line are output plumbing. The manifest's two tables and the two counts of the summary line are modelled.
- The fixed metadata fields of the `plugin` record (lines 5-21) are constants with nothing to verify.
- Strings are sequences of Unicode code points, whereas JavaScript strings hold UTF-16 code units. `.+` and `[\s\S]*?` do match surrogate code units. But every character the patterns test for specifically (`-`, `:`, the key letters, `\s`, the line terminators) lies outside the surrogate range, and `readFileSync(..., 'utf8')` never returns a lone surrogate. So every match boundary falls between code points, and the captures are the same strings.
- No general regular-expression engine is modelled: only the two patterns, as direct scanners.
- `Skills.Descriptor`: if a directory listed two children named `SKILL.md` it takes the first. A real directory cannot hold two such children.
- `Skills.SkillTableEntry`: when two leaves claim one key with different entries, the later one in depth-first listing order wins. The model states this only at the level of the step list (`Steps.ExecLastWins`), not as a lemma about the two leaves.
- `JSON.stringify` and `Object.keys` list integer-like keys first, in ascending order; the tables are modelled as maps, so key order is not modelled.
