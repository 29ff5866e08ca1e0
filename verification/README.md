# r-releaser build step, modelled in Dafny

The action builds an R source package in a GitHub workflow. It runs in four steps:

1. It reads a JSON `metadata` input and checks its shape. It then adds two entries from the workflow environment: `GitOrigin`, which is `<server URL>/<repository>`, and `GitSHA`, which is the commit.
2. It rewrites the package's `DESCRIPTION` file with that metadata:
   - the text is split into lines, and the lines are grouped into fields;
   - every `Remotes` field is dropped;
   - a field whose name matches a metadata key (ignoring case) becomes `name: value`;
   - every other field is copied;
   - the metadata entries that matched no field are appended in metadata order.
3. It runs `R CMD build .` with flags chosen from its boolean inputs.
4. It reports the one `.tar.gz` file that the build added to the working directory, and fails when there is not exactly one.

The model consists of these files:

- `text.dfy` holds the JavaScript string primitives the merge relies on: `split('\n')`, `/^\s/`, `toLowerCase` and `endsWith`.
- `description.dfy` holds the merge:
  - first as pure recursive definitions (`Group`, `Fields`, `FieldName`, `FindKey`, `FieldLines`, `Consumed`, `Leftover`, `Merge`);
  - then as the three loops of `updateDescriptionFile`, written as methods. Each method is proved equal to its definition.
- `description_props.dfy` holds what the merge promises: how fields are grouped, when it throws, what happens to each kind of field, and that every metadata entry ends up in the output.
- `description_rerun.dfy` covers what the merge leaves alone, and when merging its own output again changes nothing.
- `description_examples.dfy` gives whole-merge examples on concrete texts.
- `metadata_input.dfy` holds `validateMetadata`, stringification, and the two entries added from the environment.
- `build.dfy` holds the `R CMD build` argument list and the choice of the new tarball.

Reading and writing files, the directory listing, running `R`, and the Actions runtime are not modelled. Their results become parameters: the old `DESCRIPTION` text, the metadata object, the directory listings before and after the build, and the environment values as `Option<string>`.

## Model

| member | source | states |
|---|---|---|
| Text.Split | build-src/index.js:22 | `split('\n')` always yields at least one piece, and no piece contains a line feed |
| Text.JoinSplit | build-src/index.js:22 | joining the pieces of the split with line feeds gives back the original text, so splitting loses nothing |
| Text.SplitJoin | build-src/index.js:22 | splitting a line-feed join of line-feed-free lines gives back exactly those lines |
| Text.SplitTerminated | build-src/index.js:22 | a text in which every line ends with a line feed splits into its lines plus one trailing empty piece |
| Text.AsciiSpaces | build-src/index.js:26 | on ASCII characters, the `\s` test of `/^\s/` accepts exactly tab, line feed, vertical tab, form feed, carriage return and space |
| Description.GroupFrom | build-src/index.js:23-40 | grouping from a running field never yields an empty field, and yields no line feed when neither the running field nor the lines hold one |
| Description.Fields | build-src/index.js:22-40 | no field of a text is empty and no field contains a line feed, so blank lines and the trailing empty piece never become fields |
| Description.GroupLines | build-src/index.js:22-40 | the grouping loop with its running `currentField` yields exactly the recursive grouping `Group` |
| Description.FieldName | build-src/index.js:46 | a field has no name exactly when it is empty or starts with a colon; otherwise the name is the non-empty, colon-free text before the first colon |
| Description.FindKey | build-src/index.js:51 | `find` returns the first metadata key equal to the name ignoring case; it returns nothing exactly when no key matches |
| Description.FieldLines | build-src/index.js:45-58 | the field loop emits at most one line per field, and when it throws, it is at a field with no name |
| Description.Consumed | build-src/index.js:44-54 | a key is in `metadataAdded` exactly when some field was rewritten with it |
| Description.Leftover | build-src/index.js:60-65 | every entry whose key was not consumed produces a `key: value` line, every line it produces comes from such an entry, and there are at most as many lines as entries |
| Description.Rebuild | build-src/index.js:43-65 | the rebuilt lines number at most the fields plus the entries, and a failure is at one of the fields, one with no name |
| Description.UnnamedFieldListed | build-src/index.js:45-46 | the field a failed field loop stops at is one of the fields |
| Description.Merge | build-src/index.js:20-65 | the merged text is empty or ends with a line feed, and a failure is at a field of the text that starts with a colon |
| Description.RebuildFields | build-src/index.js:43-58 | the rebuild loop throws at the first unnamed field, exactly as `FieldLines` fails; otherwise its content is the terminated field lines, and `metadataAdded` holds exactly the consumed keys |
| Description.AppendLeftover | build-src/index.js:60-65 | the final loop appends exactly the terminated `Leftover` lines of the keys not in `metadataAdded` |
| Description.UpdateDescription | build-src/index.js:18-70 | the three loops composed give exactly `Merge` of the old content and the metadata |
| DescriptionProperties.GroupKeepsText | build-src/index.js:22-40 | grouping neither loses nor inserts text: the fields concatenated equal the lines concatenated |
| DescriptionProperties.GlueContinuations | build-src/index.js:26-27 | lines starting with whitespace are glued onto the current field with no separator |
| DescriptionProperties.FlushBeforeField | build-src/index.js:28-39 | a line not starting with whitespace (or the end of the text) closes the current field, and the field is pushed only when non-empty |
| DescriptionProperties.GroupBlock | build-src/index.js:22-40 | a head line and the continuation lines after it form one field, their concatenation |
| DescriptionProperties.GroupLeadingContinuations | build-src/index.js:23-36 | continuation lines at the start of the text form a field of their own |
| DescriptionProperties.GroupSingleLines | build-src/index.js:22-40 | lines that are each a complete one-line field group one-to-one, with or without the trailing empty piece |
| DescriptionProperties.FieldLinesFailure | build-src/index.js:45-46 | the rebuild throws exactly when some field has no name, and it throws at the first such field |
| DescriptionProperties.MergeFailsIff | build-src/index.js:20-46 | the merge of a text throws exactly when some field of that text starts with a colon, and it throws at the first such field |
| DescriptionProperties.FieldLinesAppend | build-src/index.js:45-58 | the rebuild works field by field: the output of two field lists in sequence is the two outputs in sequence, so surviving fields keep their relative order |
| DescriptionProperties.AroundField | build-src/index.js:45-58 | the output of `pre + [f] + post` is the output of `pre`, then that of `f`, then that of `post` |
| DescriptionProperties.MatchedFieldRewritten | build-src/index.js:51-54 | a field matching a key ignoring case becomes the single line `fieldName: value`, with the field's own spelling and the first matching key's value, and it consumes that key |
| DescriptionProperties.UnmatchedFieldKept | build-src/index.js:55-57 | a named field that is not `remotes` and matches no key is copied verbatim, in place |
| DescriptionProperties.RemotesFieldDropped | build-src/index.js:47-50 | a `remotes` field, in any letter case, produces no output at all |
| DescriptionProperties.RemotesInvisibleToFields | build-src/index.js:47-50 | removing the `remotes` fields first changes neither the field output nor the consumed keys |
| DescriptionProperties.RemotesInvisible | build-src/index.js:45-65 | removing the `remotes` fields first does not change the rebuilt lines |
| DescriptionProperties.LeftoverInOrder | build-src/index.js:60-65 | the appended lines follow metadata order: the lines of two consecutive runs of entries are the lines of the first run, then those of the second, and a single entry gives one line exactly when its key was not consumed |
| DescriptionProperties.EntryLineRecords | build-src/index.js:53 | a rewritten line `fieldName: value` records the entry whose key equals `fieldName` ignoring case |
| DescriptionProperties.EmittedLinesInOutput | build-src/index.js:45-58 | every line a named field emits appears in the output of a successful rebuild |
| DescriptionProperties.EveryEntryRecorded | build-src/index.js:51-65 | every metadata entry, including a `Remotes` key, appears in the output as a `name: value` line, either rewritten in place or appended |
| DescriptionRerun.NameOfEntryLine | build-src/index.js:53 | the name of a written `name: value` line is `name` again when `name` has no colon |
| DescriptionRerun.NameOfExtendedField | build-src/index.js:27 | text glued after a field's first colon does not change the field's name |
| DescriptionRerun.UntouchedLinesKept | build-src/index.js:55-57 | one-line fields that are not `remotes` and match no key are copied unchanged and consume nothing |
| DescriptionRerun.UntouchedTextKept | build-src/index.js:20-65 | a text of such fields comes back unchanged, followed by one line per metadata entry, in metadata order |
| DescriptionRerun.LeftoverAll | build-src/index.js:60-65 | with nothing consumed, entry `i` becomes output line `i` |
| DescriptionRerun.NoMetadataNoChange | build-src/index.js:20-65 | with empty metadata, a text of named one-line fields other than `remotes` is reproduced exactly |
| DescriptionRerun.BlockFields | build-src/index.js:22-40 | a head line followed by continuation lines is read as one field |
| DescriptionRerun.ContinuationsJoined | build-src/index.js:24-57 | a kept multi-line field is written back on ONE line: its continuation text survives, but the line feeds between the lines do not |
| DescriptionRerun.FindOwnKey | build-src/index.js:51 | when keys are distinct ignoring case, a key finds its own entry |
| DescriptionRerun.EntryLineFixed | build-src/index.js:53 | a rewritten line is read back by a second merge as a field that consumes the same key |
| DescriptionRerun.LeftoverLineFixed | build-src/index.js:64 | an appended line is read back by a second merge as a field that consumes its key |
| DescriptionRerun.EmittedLineFixed | build-src/index.js:45-57 | every line a one-line field emits is read back as itself |
| DescriptionRerun.FieldLinesFixed | build-src/index.js:45-58 | every line the field loop emits is read back as itself |
| DescriptionRerun.FixedLinesKept | build-src/index.js:45-58 | lines read back as themselves are emitted unchanged by a second merge |
| DescriptionRerun.AllKeysConsumedOnRerun | build-src/index.js:44-65 | on a second merge every metadata key is consumed by some line of the first merge's output |
| DescriptionRerun.LeftoverNone | build-src/index.js:60-65 | when every key is consumed, nothing is appended |
| DescriptionRerun.OutputLinesFixed | build-src/index.js:43-65 | every output line of a merge is read back as itself |
| DescriptionRerun.MergeIdempotent | build-src/index.js:20-65 | merging the output again with the same metadata gives the same text, under the stated conditions |
| DescriptionExamples.MergeIntoEmpty | build-src/index.js:60-65 | merging into an empty text appends every entry |
| DescriptionExamples.OverlayExample | build-src/index.js:43-65 | `A: 1\nB: 2\n` with `{B: 9, C: 3}` gives `A: 1\nB: 9\nC: 3\n` |
| DescriptionExamples.CaseInsensitiveExample | build-src/index.js:51-54 | key `Sha` rewrites field `SHA: old` as `SHA: abc`, keeping the field's spelling |
| DescriptionExamples.RemotesExample | build-src/index.js:47-65 | a `Remotes` field is dropped, and a `Remotes` metadata key is appended at the end |
| DescriptionExamples.ContinuationExample | build-src/index.js:24-36 | `Title: a\n  b\n` is written back as `Title: a  b\n` |
| DescriptionExamples.UnnamedFieldExample | build-src/index.js:46 | a field starting with a colon makes the merge throw at that field |
| DescriptionExamples.RemotesKeyNotIdempotent | build-src/index.js:47-65 | metadata `{Remotes: r, A: 1}` merged into an empty text gives `Remotes: r\nA: 1\n`; merging that again drops the `Remotes` field and appends it after `A: 1` |
| DescriptionExamples.CaseTwinsNotIdempotent | build-src/index.js:51-65 | two keys that differ only in case are both appended to an empty text, but a second merge rewrites both lines with the first key's value |
| MetadataInput.AllScalar | build-src/index.js:120-123 | `every` holds exactly when each value is a string, a number or a boolean |
| MetadataInput.ValidateMetadata | build-src/index.js:115-124 | the input passes exactly when it is an object (not null, not an array) whose every value is a string, a number or a boolean |
| MetadataInput.ValidateMetadataCases | build-src/index.js:115-124 | the empty object and scalar-valued objects pass; null, arrays, bare values, and objects with an object, array or null value fail |
| MetadataInput.Assign | build-src/index.js:136-137 | the assignment keeps every existing key in its place, adds at most one entry, and a new entry is the assigned pair at the end |
| MetadataInput.AssignReads | build-src/index.js:136-137 | after `metadata[key] = value` the key reads the new value and every other key reads what it read before |
| MetadataInput.AssignGrowsIffNew | build-src/index.js:136-137 | the assignment adds an entry exactly when the key was absent |
| MetadataInput.AssignKeepsKeysDistinct | build-src/index.js:136-137 | the assignment keeps an object's keys distinct |
| MetadataInput.PrepareMetadata | build-src/index.js:132-137 | invalid metadata is rejected; valid metadata gets `GitSHA` set to the commit (`undefined` when unset) and `GitOrigin` set to `<server URL>/<repository>` |
| MetadataInput.PrepareMetadataKeepsInput | build-src/index.js:136-137 | every other input key keeps its stringified value |
| MetadataInput.PreparedEntries | build-src/index.js:132-137 | the prepared metadata has distinct keys and holds the `GitSHA` and `GitOrigin` entries |
| MetadataInput.MergedDescriptionRecordsRevision | build-src/index.js:132-151 | every DESCRIPTION the action rewrites successfully records the commit and the origin as `name: value` lines |
| Build.BuildFlags | build-src/index.js:74-85 | at most four flags are pushed, and every pushed flag is one the options ask for |
| Build.BuildFlagsWanted | build-src/index.js:73-85 | a flag is pushed exactly when the options ask for it: `--no-build-vignettes` iff vignettes are off, `--no-resave-data` iff resaving is off, `--md5` iff md5 is on, `--user=<u>` iff a non-empty user `u` is given |
| Build.BuildFlagsOrdered | build-src/index.js:73-85 | the flags come in the fixed push order, each at most once |
| Build.RenderInjective | build-src/index.js:75-84 | different flags have different command-line texts |
| Build.BuildArgs | build-src/index.js:73 | the arguments always start with `R CMD build .` |
| Build.BuildArgsWanted | build-src/index.js:73-85 | after the base command comes the text of every wanted flag and of no other flag |
| Build.BuildArgsOptions | build-src/index.js:73-85 | the same iffs, stated on the argument texts themselves |
| Build.BuildArgsDetermineOptions | build-src/index.js:73-85 | the argument list determines the options (an absent user and an empty user give the same list) |
| Build.ActionNeverPassesUser | build-src/index.js:152 | the action's own call passes no `user`, so no `--user=` argument is ever produced |
| Build.BareArgsExample | build-src/index.js:73 | vignettes on, resaving on, md5 off and no user give exactly `R CMD build .` |
| Build.AllArgsExample | build-src/index.js:73-85 | every option set gives all four flags in order |
| Build.EmptyUserArgsExample | build-src/index.js:83-85 | an empty user name is left out |
| Build.Tarballs | build-src/index.js:8-16 | the candidates are exactly the regular files whose names end in `.tar.gz` |
| Build.NewTarball | build-src/index.js:154-158 | success exactly when one tarball is new, and then the result is that tarball; otherwise the error carries the whole difference |
| Build.ReportedTarballIsNew | build-src/index.js:150-158 | the reported name is a regular `.tar.gz` file after the build and was not a regular file before it |
| Build.NewTarballExamples | build-src/index.js:150-158 | one new tarball is reported; two new ones, or none, are an error; old tarballs and other files are ignored |

## Notes on the code

- A multi-line field is glued together with no separator (lines 26-27) and written back with one line feed (line 56). So a kept field whose value continues over several lines comes out on ONE line, with its indentation kept inside the line (`DescriptionRerun.ContinuationsJoined`). Continuation lines therefore do not survive as separate lines.
- `metadata["GitSHA"] = process.env.GITHUB_SHA` stores `undefined` when the variable is unset. The merge then writes it as `GitSHA: undefined`, which is what `EnvText` gives.
- Merging a merge's output again is not always a no-op. A metadata key `Remotes` whose line is not last can make the second run differ, because the second run drops that line and appends it at the end (`DescriptionExamples.RemotesKeyNotIdempotent`). Two keys that differ only in letter case can too (`DescriptionExamples.CaseTwinsNotIdempotent`). `DescriptionRerun.MergeIdempotent` states the conditions under which it is a no-op.

## Left out

- Reading and writing `DESCRIPTION`, `readdirSync` and `statSync` are file I/O. The model takes the old text and the directory listings as parameters.
- Running `R CMD build` with `execSync` is an external process. Its environment (`R_LIBS_SITE`, `R_LIBS_USER`) and its two error messages are not modelled; only the argument list is.
- `core.getInput`, `setOutput`, `setFailed`, `process.env` and `console.log`/`console.error` belong to the Actions runtime. The inputs become parameters, and the logging has no effect on the result. So the `md5:` log line, which prints the resave setting, is not modelled either.
- `JSON.parse` is replaced by the `Json` datatype it would return; malformed JSON text is not modelled.
- `path.resolve` of the tarball name is not modelled: the model reports the name.
- Error texts are not modelled. For an unnamed field, JavaScript throws a `TypeError` from indexing the `null` match at line 46, and its message does not contain the field. The invalid-metadata error at line 134 reads "Metadata is not a valid object…". The model records only where each error arises: the field the merge stopped at, and a rejection of the metadata.
- The text of the ambiguous-build error is not modelled. The code interpolates a `Set`, which prints as `[object Set]`, and it says "several" even when no tarball was created. The model returns the set of new names instead.
- MetadataInput.Stringify: numbers carry their JavaScript text, because number formatting involves floating point.
- MetadataInput.ToMetadata: keeps the members in the order given. JavaScript lists integer-like keys first in ascending order; that reordering is not modelled.
- Text.Lower: lower-cases ASCII letters only. `toLowerCase` also maps other Unicode letters; that needs Unicode tables this model does not carry.
- DescriptionRerun.MergeIdempotent: proved only under its preconditions, and the code promises nothing more. The keys must be non-empty, distinct ignoring case and not `remotes`, with no colon, line feed or leading whitespace. No value may hold a line feed. No field of the text may start with whitespace.
- `build-src/debug.js` only sets environment variables and loads `index.js`, so it is not part of this model.
