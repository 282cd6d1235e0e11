# sd core, modelled in Dafny

This models the core of `sd`, a find-and-replace tool: the `Source`, `Replacer` and `run` parts of
`src/input.rs`. It covers:

- how the path arguments choose between standard input and files (`Sources`);
- how `Replacer::new` prepares the replacement bytes and folds the flag letters into the options of
  a regex builder (`Flags`, `Replacers`);
- the string-mode substitution (`NoExpand`), with its `has_matches` probe (`Substitution`);
- the in-place rewrite of one file through a sibling temporary file (`FileMutator`);
- the three ways `run` can go: standard input, files rewritten in place, and files shown on standard
  output (`Driver`).

The regex library is outside the model. Escaping a pattern, decoding escape sequences in the
replacement, and compiling a builder are parameters of the model. So are the matcher's
`is_match`/`replace_all` when the driver uses them. When the compiled pattern is a plain literal
(string mode, no `w`, case-sensitive), the model does define the matching: it is byte-string
occurrence, leftmost first and non-overlapping.

The operating system is an abstract map from paths to entries (bytes and permission bits). It has
one slot for the temporary file. Every system step of the rewrite may fail. The set of steps that
fail is a parameter, so every property is proved for every pattern of failures. The one operation
that touches a file in the map is the final rename.

Two properties one might expect of a find-and-replace tool do not hold of this code:

- The flag letters are applied one after another to a mutable builder, so their order matters. A
  `w` rebuilds the builder from scratch, which discards an earlier `i` and switches multi-line off.
  An order-independent reading of the letters is a natural expectation; `Flags.OrderIndependent` is
  that reading, `Flags.WithoutWordWrap` proves that the two agree when there is no `w`, and
  `Flags.OrderMatters` shows where they differ.
- Substituting twice is not substituting once, even when the replacement holds no match and even in
  string mode: `Substitution.NotIdempotent` exhibits it with pattern `ab`, replacement `a` and
  input `abb`.

## Model

| member | source | states |
|---|---|---|
| Sources.Infer | src/input.rs:17-23 | the source is standard input exactly when no path is given; otherwise it is the given paths, in order and unchanged, and never empty |
| Types.Utf8 | src/input.rs:39-48 | the bytes of a text (`into_bytes`) are its UTF-8 encoding, one to four bytes per character |
| Replacers.PrepareReplacement | src/input.rs:39-48 | string mode keeps the replacement's own bytes with no decoding; otherwise the decoded text is used when decoding succeeds, and the raw text is kept when it fails |
| Flags.Compiled | src/input.rs:50-53 | with no flag string, or an empty one, the builder keeps the pattern as given, with multi-line on and case-insensitivity and dot-all off |
| Flags.ApplyFlagsClosedForm | src/input.rs:53-76 | folding the letters left to right equals a closed form. Any `w` wraps the pattern once and resets every option. After the last `w`, the last of `c`/`i` decides the case and `s` turns dot-all on. Multi-line survives only with no `w`, no `e` after the last `w`, and no `s` there unless the whole flag string holds an `m` |
| Flags.WordWrapOnce | src/input.rs:67-72 | with at least one `w`, the pattern is the original one between `\b` anchors, wrapped once however many `w` there are, and case-insensitivity needs an `i` after the last `w` |
| Flags.IgnoredLetter | src/input.rs:56-74 | a letter other than `c`, `i`, `e`, `s`, `w` (`m` included) leaves the builder unchanged |
| Flags.WithoutWordWrap | src/input.rs:53-76 | without `w`, the fold equals the order-independent reading of the letters |
| Flags.OrderMatters | src/input.rs:53-76 | the letters are not a set: `iw` ends case-sensitive and `wi` case-insensitive, and `w` switches multi-line off where the order-independent reading keeps it on |
| Replacers.New | src/input.rs:33-83 | the replacer holds the fold's final builder (over the escaped pattern in string mode), the prepared replacement and the mode; an `InvalidPattern` error comes back exactly when the builder does not compile |
| Replacers.LiteralWordWrap | src/input.rs:39-72 | in string mode, `w` puts the word anchors around the already escaped pattern |
| Replacers.HasMatches | src/input.rs:85-87 | for a plain-literal replacer, the probe is true exactly when the needle occurs somewhere in the content |
| Substitution.HasMatches | src/input.rs:85-87 | true exactly when the pattern occurs at some offset of the content (an empty pattern always occurs) |
| Replacers.Replace | src/input.rs:95-98 | string-mode `replace`: the output is the rendering of the leftmost cut of the content, each leftmost non-overlapping occurrence of the needle replaced by the replacement bytes verbatim and every other byte copied in order; an empty needle puts the replacement before every byte and at the end; with no occurrence the content comes back unchanged |
| Substitution.Tokenize | src/input.rs:95-98 | for a non-empty pattern, every input can be cut into copied bytes and occurrences so that no copied byte starts an occurrence |
| Substitution.ReplaceAllIsRender | src/input.rs:95-98 | for a non-empty pattern and any such leftmost cut, the output replaces each occurrence with the replacement verbatim and copies every other byte in order |
| Substitution.EmptyPatternIsRender | src/input.rs:95-98 | with an empty pattern the output is the replacement before every byte of the input and once more at the end, the input's bytes copied in order between |
| Substitution.NoMatchIdentity | src/input.rs:95-98 | with no occurrence, the output equals the input byte for byte |
| Substitution.ReplaceWithItself | src/input.rs:95-98 | replacing the pattern by itself changes nothing |
| Substitution.ReplacedLength | src/input.rs:95-98 | the output length is the input length plus, for each replaced occurrence, the replacement's length minus the pattern's |
| Substitution.NotIdempotent | src/input.rs:95-98 | substituting twice can differ from substituting once even when the replacement holds no occurrence (`abb` becomes `ab`, then `a`) |
| FileMutator.FileSystem.CreateTemp | src/input.rs:117-120 | a temporary file appears in the target's directory, empty and owner-only; no file in the map changes |
| FileMutator.FileSystem.SetLen | src/input.rs:122 | the temporary file is truncated or zero-extended to the given length |
| FileMutator.FileSystem.SetPermissions | src/input.rs:123 | the temporary file takes the given permission bits |
| FileMutator.FileSystem.Write | src/input.rs:126-127 | the bytes land at the start of the temporary file, within its length |
| FileMutator.FileSystem.DeleteTemp | src/input.rs:117-134 | dropping the temporary file on an error path deletes it; no file in the map changes |
| FileMutator.FileSystem.Persist | src/input.rs:134 | the temporary file, contents and permissions, replaces the target in one step and is gone |
| FileMutator.ReplaceFile | src/input.rs:104-136 | `replace_file` performs exactly the operations of the protocol for the failing steps, in order, and returns its result |
| FileMutator.PersistThroughTemp | src/input.rs:117-135 | the temporary-file half performs the plan's stages up to the first failing one, and deletes the temporary file when a stage fails after it was created |
| FileMutator.CreateSizedTemp | src/input.rs:117-123 | creating the temporary file, sizing it and copying the permissions succeeds exactly when none of those steps fails, and leaves no temporary file behind when one does |
| FileMutator.FillAndPersist | src/input.rs:125-135 | mapping, writing and flushing (skipped for an empty replacement), then the rename; on any failure the temporary file is deleted |
| FileMutator.FillTemp | src/input.rs:125-129 | for a non-empty replacement: map the temporary file, write the replacement through the mapping, and flush, stopping at the first failing step and deleting the temporary file; for an empty replacement, nothing |
| FileMutator.PlanRunIsExecute | src/input.rs:117-134 | the closed form of a run (setup, then fill, then rename, each up to its first failing step) is exactly the stage-by-stage run of the plan |
| FileMutator.KeepsFilesWithoutPersist | src/input.rs:117-134 | operations other than the rename leave every file as it was |
| FileMutator.OnlyLastOpPersists | src/input.rs:108-135 | the target is written by at most one operation: the last, a rename onto the path, and only in a call that succeeds |
| FileMutator.FailureLeavesFilesUntouched | src/input.rs:108-134 | a call that fails leaves every file unchanged and leaves no temporary file |
| FileMutator.SuccessReplacesContents | src/input.rs:104-136 | a call that succeeds either did nothing (the file was empty, or its first byte could not be read) or gave the target exactly the replacement of its old contents with its old permissions, leaving no temporary file |
| FileMutator.ProtocolFiles | src/input.rs:104-136 | the net effect on the files is either nothing or the target alone rewritten with the replacement and its old permissions |
| FileMutator.CompletedPlan | src/input.rs:117-134 | running every stage leaves the target holding exactly the replacement with the source's permissions |
| FileMutator.NoFaultsRewrites | src/input.rs:112-135 | when no step fails, a non-empty file with a parent directory is rewritten and the call succeeds |
| FileMutator.EmptyFileIsLeftAlone | src/input.rs:89-110 | an empty file, or one whose first byte cannot be read, succeeds without any operation |
| FileMutator.NoParentIsInvalidPath | src/input.rs:117-120 | a readable non-empty file whose path has no parent fails with `InvalidPath` before any operation |
| Driver.StdinRun | src/input.rs:140-156 | standard input fails with an I/O error exactly when reading or writing fails; otherwise standard output receives the substitution of the input when the pattern occurs in it, and the input unchanged when it does not |
| Driver.StdinShortcutUnobservable | src/input.rs:149-153 | for a plain-literal pattern, the no-match shortcut cannot be observed: the output is always the substitution of the whole input |
| Driver.PreviewFile | src/input.rs:172-180 | one previewed file fails, always with an I/O error, exactly when it is missing or cannot be opened, or when it is non-empty with a readable first byte and re-opening it, mapping it or writing to standard output fails; an empty or unreadable-first-byte file shows nothing; otherwise the file shows the substitution of its contents |
| Driver.RunPreview | src/input.rs:168-181 | the preview loop ends with exactly the result and the standard output of the fail-fast preview |
| Driver.PreviewFailsFast | src/input.rs:168-181 | preview succeeds exactly when no file fails, and then shows every file in order. Otherwise it returns the first failing file's error, having shown exactly the files before it |
| Driver.RunBatch | src/input.rs:157-167 | the batch loop attempts every path whatever happened before, and reports each failure with its path |
| Driver.Alone | src/input.rs:104-136 | rewriting one path on its own changes no other file and never adds or removes a path |
| Driver.BatchIsolation | src/input.rs:157-167 | with no path listed twice, every file ends as if rewritten alone from the initial state; files not listed stay unchanged; each path reports what it would report alone; so the visiting order does not matter |
| Driver.Run | src/input.rs:138-183 | standard input is chosen whatever the in-place switch and leaves files alone. In-place mode always returns success and only reports failures. Preview returns the first error and leaves files alone |

## Left out

- Regex matching in general is not modelled. This covers capture expansion (`$1`, `$name`), case-insensitive and `\b` word-boundary matching, and the meaning of multi-line and dot-all. Only the builder's options are recorded. Outside string mode the driver takes `is_match`/`replace_all` as parameters.
- `regex::escape`, `utils::unescape` and `RegexBuilder::build` are given as functions: their code is not part of this model.
- Replacers.Replace: covers string mode with a plain-literal pattern only. With `w` or `i`, matching belongs to the regex library.
- Replacers.New: the compile error's message is not kept. Any refusal of the builder is `InvalidPattern`.
- Batch in-place mode runs on a thread pool in the source. The model visits the paths one after another. `Driver.BatchIsolation` shows the order does not matter when no path is listed twice. A path listed twice and rewritten concurrently is not covered.
- Error messages written to the error stream are kept only as the list of (path, error) pairs.
- Memory maps, `flush_async` durability and the atomicity of the rename are not modelled. Each is one step that succeeds or fails. Dropping the source mapping before the rename has no observable effect here.
- All operating-system failures (open, read, metadata, map, write, rename) are the single error `Io`.
- Driver.StdinRun: a failing write to standard output is modelled as writing nothing, although a real partial write may leave some bytes.
- Driver.PreviewFile: a failing write to standard output is modelled as writing nothing. The output of earlier files is kept.
- The temporary file's initial permissions are fixed at owner read and write (0o600), the default of the temporary-file library. The replacement length's conversion to a 64-bit integer cannot overflow for contents held in memory, so it is not modelled.
- `src/app.rs` (the command-line declaration) is not part of this model. The core receives its parsed values as parameters.
