# cloc-rs core in Dafny

This project models the counting core of `cloc-rs`, a tool that counts the
blank, comment and code lines of source files by language. The model covers:

- **Line classifier.** Each line of a file is trimmed and counted as blank,
  as a comment (it starts with one of the language's single-line prefixes,
  or it lies in a block comment), or as code. An open block comment is
  carried from one line to the next. `Classifier` holds this as a
  specification (`Step`, `Next`, `Resume`, `Classify`). The imperative
  loop is `Classifier.CountLines`, with the labelled `continue 'here`.
  It is used by `Calculate.CalculateImpl` (src/calculate.rs) and by
  `Calculator.StatisticalDetailImpl` (src/calculator.rs).
- **Rust string primitives** (`Text`): `str::lines`, `str::trim` with
  Unicode white space, `starts_with`, `ends_with` and the UTF-8 length.
- **Comment-syntax tables.** Both `language!` tables build the same two maps
  (`Registry`). `Config` holds the 19 entries of src/config.rs.
  `Calculator` holds 16 of the entries of src/calculator.rs. Lookups
  go by exact extension, and a later listing overwrites an earlier one.
- **Details.** `Detail::new`, `Add` and `AddAssign` of src/calculator.rs,
  the 4-field `Detail` of src/detail.rs with its `i32` counts, and
  `Report::new`.
- **Directory walks.** These run over an abstract file tree (`FileTree`).
  `Explorer.Explorer` is the walker of src/explorer.rs, which sends every
  non-ignored file into a channel. `Engine.Engine` is the walker of
  src/engine.rs, which sends `Content` messages, counts them in
  `total_files`, and then sends one `End` per worker. Channels are sequences
  of what was sent.
- **Ignore predicates.** These come in both spellings:
  `is_not_ignore_file_impl`, and `is_ignored_file_impl`, which never
  ignores a directory.
- **Ordering.** `compare` of src/util.rs and src/bin/cloc.rs, and the
  `sort_by` step of src/bin/cloc.rs. Its closure picks a key by `SortBy`.
  The sort is modelled as a stable insertion sort, done in place on an
  array and proved equal to a functional specification. That specification
  is sorted, a permutation of its input, and stable.

## Model

| member | source | states |
|---|---|---|
| Text.Utf8Width | src/calculate.rs:74 | a character's UTF-8 width is 1 to 4 bytes, and 1 exactly for ASCII |
| Text.Utf8Len | src/calculate.rs:74 | `str::len` counts bytes: between the number of characters and four times it |
| Text.TrimStartCut | src/calculate.rs:29 | `trim_start` drops a white-space prefix and nothing more: the result is a suffix, and it starts with a non-space |
| Text.TrimEndCut | src/calculate.rs:29 | `trim_end` drops a white-space suffix and nothing more |
| Text.TrimIsInfix | src/calculate.rs:29 | `trim` returns an infix of the line whose removed ends are white space, and whose first and last characters are not |
| Text.TrimEmptyIffAllWhitespace | src/calculate.rs:29-35 | a trimmed line is empty exactly when the raw line is all white space |
| Text.NewlineIndex | src/calculate.rs:28 | finds the first line break, or the end of the text |
| Text.NewlineCountAppend | src/calculate.rs:28 | line breaks in a concatenation add up |
| Text.NewlineFree | src/calculate.rs:28 | a text without `'\n'` has no line breaks |
| Text.NewlineSplit | src/calculate.rs:28 | splitting at the first break accounts for exactly one break |
| Text.LinesCount | src/calculate.rs:28 | `lines()` yields one line per break, plus one for a final unterminated line |
| Text.LinesHaveNoBreak | src/calculate.rs:28 | no line from `lines()` contains `'\n'` |
| Text.StartsWith | src/calculate.rs:39 | every line starts with the empty prefix; a prefix is never longer than the line, and one as long as the line is the line |
| Text.EndsWith | src/calculate.rs:72 | the same for suffixes |
| Text.IsWhitespace | src/calculate.rs:29 | on ASCII, the white space `trim` removes is the space and `'\t'` to `'\r'` |
| Text.TrimStart | src/calculate.rs:29 | the result is no longer than the line and does not start with white space |
| Text.TrimEnd | src/calculate.rs:29 | the result is no longer than the line and does not end with white space |
| Text.Trim | src/calculate.rs:29 | the trimmed line is no longer than the raw line and neither starts nor ends with white space |
| Text.Lines | src/calculate.rs:28 | an empty text has no lines, a non-empty one has at least one, and never more lines than characters |
| Classifier.FirstOpener | src/calculate.rs:46-67 | the first pair whose start marker opens the line; every earlier pair does not open it |
| Classifier.Step | src/calculate.rs:29-85 | a line is blank if and only if it is empty after `trim`; a line that is not a comment leaves the open block unchanged |
| Classifier.Next | src/calculate.rs:28-86 | one more line never decreases any counter |
| Classifier.Classify | src/calculate.rs:28-86 | blank + comment + code is the number of lines; `Resume`, which it starts from no open block, is stated by `ResumeCountsEveryLine`, `ResumeAppend`, `ResumeShift` and `ResumeOne` |
| Classifier.MatchSingle | src/calculate.rs:38-43 | the loop over the single-line prefixes finds one exactly when some prefix begins the trimmed line |
| Classifier.CountLines | src/calculate.rs:28-86 | the labelled loop returns exactly the blank, comment and code counts of `Classify` over `lines()` |
| Classifier.MatchPairs | src/calculate.rs:46-83 | the inner loop over the pairs decides comment or code, and the new open pair, as `Step` does |
| Classifier.ResumeCountsEveryLine | src/calculate.rs:28-86 | from any state, each line adds exactly one to blank + comment + code |
| Classifier.ClassifyCountsEveryLine | src/calculate.rs:28-86 | blank + comment + code equals the number of lines |
| Classifier.ClassifyOpenIsDeclared | src/calculate.rs:53-67 | a block left open is always one of the profile's pairs |
| Classifier.BlankLineKeepsState | src/calculate.rs:32-35 | a white-space line counts as blank and keeps the open block, even inside a block comment |
| Classifier.SinglePrefixKeepsState | src/calculate.rs:38-43 | a line starting with a single-line prefix counts as a comment and leaves the block state unchanged |
| Classifier.InsideBlockIsComment | src/calculate.rs:46-82 | inside an open block, a non-blank line is a comment and never code; it closes the block exactly when it has no single-line prefix and starts with the start marker or ends with the end marker |
| Classifier.CodeIff | src/calculate.rs:46-85 | a non-blank line is code if and only if no block is open, it has no single-line prefix, and no pair's start marker opens it |
| Classifier.FirstPairOpens | src/calculate.rs:53-82 | outside a block, a line without a single-line prefix is a comment when some pair opens it; the first such pair stays open unless the line ends with its end marker and is at least as many bytes long as both markers |
| Classifier.ResumeAppend | src/calculate.rs:28-86 | classifying a concatenation resumes from the state after the first part |
| Classifier.ResumeShift | src/calculate.rs:28-86 | counters never influence decisions: shifting the start counts shifts the result by the same amount |
| Classifier.BlankLineIsNeutral | src/calculate.rs:32-35 | inserting a blank line anywhere adds one blank line and changes nothing else |
| Classifier.SingleCommentIsNeutral | src/calculate.rs:38-43 | inserting a single-prefix comment line anywhere adds one comment and changes nothing else |
| Classifier.ResumeOne | src/calculate.rs:28-86 | resuming over one line is one step |
| Calculate.CalculateImpl | src/calculate.rs:12-89 | returns exactly `DetailOf`: a read error, a metadata error, or the `Detail` built from `CountLines` |
| Calculate.DetailOf | src/calculate.rs:12-89 | a `Detail` exists if and only if both text and metadata can be read; otherwise the error is the read error when the text fails, else the metadata error; the `Detail` has the profile's name and the metadata length |
| Calculate.DetailOfSpec | src/calculate.rs:20-22 | a `Detail` exists if and only if both text and metadata can be read; the read error is reported first; the `Detail` carries the profile's name and the byte size, and its counts sum to the number of lines |
| Calculate.CountsIndependentOfSize | src/calculate.rs:22 | the byte count comes from the metadata only and does not affect the line counts |
| Registry.Build | src/config.rs:24-45 | the macro's inserts build `Built(entries)` |
| Registry.AddExtensions | src/config.rs:35-37 | keeps every earlier key and maps every listed extension to the entry's name |
| Registry.Register | src/config.rs:25-38 | after one invocation the entry is stored under its name, each of its extensions looks up to it, and no earlier key is lost |
| Registry.Built | src/config.rs:24-45 | no invocations give two empty maps; the last invocation always owns its name |
| Registry.Lookup | src/config.rs:77-81 | an extension missing from the extension map gives `None`; a found profile is one of the stored profiles |
| Registry.EveryListingWins | src/config.rs:24-45 | when names are unique and no extension is listed twice, every listed extension looks up to the entry that lists it |
| Registry.AddExtensionsSpec | src/config.rs:35-37 | every listed extension maps to the entry's name, and other keys keep their value |
| Registry.BuiltStoresUnderName | src/config.rs:26-34 | a name maps to an entry of that name taken from the list |
| Registry.BuiltExtensions | src/config.rs:35-37 | an extension is in the map if and only if some entry lists it |
| Registry.UnlistedNotFound | src/config.rs:77-81 | an extension that no entry lists resolves to nothing |
| Registry.LastListingWins | src/config.rs:24-45 | an extension resolves to its last listing, when no later entry reuses that entry's name |
| Registry.ListedAt | src/config.rs:24-45 | as `LastListingWins`, stated with indices |
| Registry.FoundProfileListsExtension | src/config.rs:77-81 | with distinct names, a resolved profile lists the extension it was found by |
| Registry.LastListing | src/config.rs:35-37 | finds the last entry that lists an extension, or reports that none does |
| Config.Default | src/config.rs:19-74 | `Config::default` builds the map of the 19 entries |
| Config.GetByExtension | src/config.rs:77-81 | no extension, or one that is not UTF-8, gives `None`; otherwise it is the lookup by extension, then by name |
| Config.RustProfile | src/config.rs:66 | `rs` gives Rust with `//`, `///`, `///!` and `/* */` |
| Config.GoProfile | src/config.rs:57 | `go` gives Go with the pairs `/* */` and `/** */`, in that order |
| Config.PythonProfile | src/config.rs:65 | `py` gives Python with `#`, `'''` and the one-character `"` pair |
| Config.RubyProfile | src/config.rs:67 | `rb` gives Ruby with the pair `=` … `=` |
| Config.JsonProfile | src/config.rs:61 | `json` gives Json without comment syntax |
| Config.HtmlProfile | src/config.rs:58 | `html` gives Html, which lists three extensions |
| Config.MarkdownProfile | src/config.rs:64 | `md` gives Markdown without comment syntax |
| Config.CssProfile | src/config.rs:51-56 | each of css, sass, less and scss gives the one CSS entry |
| Config.CssNotShadowed | src/config.rs:57-70 | no later entry relists a CSS extension or reuses the name |
| Config.ExactMatchOnly | src/config.rs:77-81 | lookup is case-sensitive: `RS` is not found |
| Config.UnknownExtension | src/config.rs:77-81 | an unmapped extension such as `xyz` gives no profile |
| Language.Lang | src/config.rs:39-44 | the 3- and 2-argument macro forms default the missing syntax lists to empty |
| Calculator.New | src/calculator.rs:316-327 | `Detail::new` stores its six arguments |
| Calculator.Zero | src/calculator.rs:306-314 | a `Detail` with all counts zero, used as the identity of the addition |
| Calculator.AddIsPointwiseIff | src/calculator.rs:329-342 | `Add` agrees with field-wise addition if and only if the right operand's comment and code are equal; all fields except `code` always agree |
| Calculator.AddLosesCode | src/calculator.rs:339 | a concrete sum whose `code` is wrong |
| Calculator.Add | src/calculator.rs:329-342 | as written: the left language is kept and files and bytes add, but the total lines fall short by the right operand's code and gain its comment lines |
| Calculator.AddPointwise | src/calculator.rs:344-352 | the intended sum: the left language is kept and files, bytes and the total lines add |
| Calculator.AddPointwiseLines | src/calculator.rs:344-352 | field-wise addition adds the files and the total line counts, and keeps the left language |
| Calculator.AddPointwiseLaws | src/calculator.rs:344-352 | field-wise addition is associative, commutative apart from the name, and has `Zero` as its identity |
| Calculator.DetailCell.constructor | src/calculator.rs:316-327 | a cell holds the given `Detail` |
| Calculator.DetailCell.AddAssign | src/calculator.rs:344-352 | `+=` adds files, bytes, blank, comment and code field by field and keeps the language |
| Calculator.NewManager | src/calculator.rs:165-303 | the table is built from the listed entries by the same macro |
| Calculator.GetByExtension | src/calculator.rs:156-160 | a non-UTF-8 extension gives `None`; otherwise it is the lookup by extension, then by language |
| Calculator.RustProfile | src/calculator.rs:270 | `rs` gives the Rust profile |
| Calculator.JsonProfile | src/calculator.rs:237 | `json` gives the profile named `JSON` |
| Calculator.GoProfile | src/calculator.rs:225 | `go` gives Go with `/* */` listed before `/** */` |
| Calculator.RubyProfile | src/calculator.rs:271 | `rb` gives Ruby with `=begin` … `=end` |
| Calculator.ExactMatchOnly | src/calculator.rs:156-160 | `Rs` is not found |
| Calculator.GoDocCommentOpensFirstPair | src/calculator.rs:87-108 | a Go `/**` line opens the `/* */` pair, because it is listed first |
| Calculator.StatisticalDetailImpl | src/calculator.rs:57-130 | returns exactly `StatisticalDetail`: the read or metadata error, or the `Detail` with `files` = 1 from the same loop |
| Calculator.StatisticalDetail | src/calculator.rs:57-130 | a `Detail` exists if and only if text and metadata can be read, the read error first; it counts one file of the profile's language with the metadata length |
| Calculator.SameClassificationAsCalculate | src/calculator.rs:57-130 | it fails exactly when calculate.rs fails, with the same error, and otherwise has the same name, bytes and counts |
| Calculator.ProcessFileSpec | src/calculator.rs:40-49 | a file name gives a `Detail` if and only if it has an extension with a profile, and its text and metadata can be read; the `Detail` is that file's |
| Calculator.ProcessFile | src/calculator.rs:43-47 | a file name yields a `Detail` only if it has an extension, and that `Detail` counts one file |
| Calculator.Sent | src/calculator.rs:40-49 | the received names send at most one `Detail` each |
| Calculator.SentAtMostOnePerName | src/calculator.rs:40-49 | each received file name sends at most one `Detail`, and each sent `Detail` counts one file |
| Explorer.IsNotIgnoreFileSpec | src/explorer.rs:39-45 | with no list, or an empty one, nothing is ignored; otherwise a path is ignored if and only if some listed path is a component-wise prefix of it (`a/bc` is not under `a/b`) |
| Explorer.Kept | src/explorer.rs:22-23 | keeps exactly the paths that are not ignored, in order |
| Explorer.WalkChildrenStep | src/explorer.rs:25-28 | walking one more entry appends that entry's walk |
| Explorer.KeptAppend | src/explorer.rs:22-23 | filtering distributes over concatenation |
| Explorer.KeptSnoc | src/explorer.rs:22-23 | filtering one more path appends it if it is not ignored |
| Explorer.KeptNoDuplicates | src/explorer.rs:22-23 | filtering keeps a list free of duplicates |
| Explorer.WalkIsKeptFiles | src/explorer.rs:21-31 | the walk sends exactly the non-ignored files of the tree, in walk order; it descends even into ignored directories |
| Explorer.WalkChildrenIsKeptFiles | src/explorer.rs:25-28 | the same for the entries of one directory |
| Explorer.NoIgnoreListSendsAll | src/explorer.rs:40-44 | without an ignore list, every file is sent |
| Explorer.KeptNone | src/explorer.rs:40-44 | without an ignore list, filtering keeps everything |
| Explorer.AllFilesUnder | src/explorer.rs:21-31 | every file found lies under the starting path; a file yields only itself |
| Explorer.AllFilesOfUnder | src/explorer.rs:25-28 | every file found in a directory lies under one of its readable entries |
| Explorer.AllFilesNoDuplicates | src/explorer.rs:21-31 | if the names within each directory are distinct, no file is found twice |
| Explorer.AllFilesOfNoDuplicates | src/explorer.rs:25-28 | the same for the entries of one directory |
| Explorer.SeparatedNoDuplicates | src/explorer.rs:25-28 | paths under two different entry names never clash |
| Explorer.WalkSendsKeptFilesOnce | src/explorer.rs:21-31 | each non-ignored file is sent exactly once, and nothing else is sent |
| Explorer.IgnoredSubtreeSendsNothing | src/explorer.rs:39-45 | nothing under an ignored path is sent |
| Explorer.WalkChildrenAppend | src/explorer.rs:25-28 | walking two runs of entries concatenates their walks |
| Explorer.FailedEntrySkipped | src/explorer.rs:25-28 | an entry that fails, cannot be read, or is neither a file nor a directory contributes nothing |
| Explorer.Explorer.constructor | src/explorer.rs:11-15 | a new walker has the given list, an open receiver, and has sent nothing |
| Explorer.Explorer.Send | src/explorer.rs:23 | `send` appends to the channel while the receiver is open, and its error is ignored |
| Explorer.Explorer.WalkDirImpl | src/explorer.rs:21-31 | the recursion appends exactly `Walk` of the path to the channel |
| Explorer.Explorer.WalkEntries | src/explorer.rs:25-28 | the loop over a directory's entries appends exactly their walks, in order |
| Explorer.Explorer.WalkDirectory | src/explorer.rs:17-19 | `walk_directory` sends the walk of the entry path |
| Details.New | src/detail.rs:10-17 | `Detail::new` stores its four arguments |
| Details.EqualIffFieldsEqual | src/detail.rs:1 | the derived equality holds if and only if all four fields are equal |
| Details.ToI32 | src/detail.rs:3-6 | the range of the `i32` fields: a count fits if and only if it is below 2^31 |
| Engine.NewReport | src/engine.rs:22-24 | `Report::new` stores the rows and the totals |
| Engine.IsIgnoredFile | src/engine.rs:146-153 | only a file can be ignored, and only by a non-empty list |
| Engine.IsIgnoredFileSpec | src/engine.rs:146-153 | a directory is never ignored; with an empty list nothing is; a file is ignored if and only if the explorer would not send it |
| Engine.ExtensionOf | src/engine.rs:89 | a path has an extension to look up exactly when `Path::extension` finds one, always as a UTF-8 string |
| Engine.Collected | src/engine.rs:83-101 | the workers collect at most one `Detail` per message |
| Engine.Contents | src/engine.rs:118 | one `Content` message per path |
| Engine.ContentsAt | src/engine.rs:118 | message i is `Content` of path i |
| Engine.Ends | src/engine.rs:107-109 | exactly `capacity` `End` messages |
| Engine.ContentsAppend | src/engine.rs:121-124 | the messages for two runs of paths concatenate |
| Engine.MessageOrder | src/engine.rs:106-109 | the channel holds all `Content` messages first, then exactly `capacity` `End`s |
| Engine.NoEndsInContents | src/engine.rs:116-118 | exploring sends no `End` |
| Engine.CollectedSpec | src/engine.rs:83-101 | workers gain nothing from `End`s, and each `Content` gives at most one `Detail` |
| Engine.CollectedAtMostOne | src/engine.rs:85-100 | at most one `Detail` per `Content` |
| Engine.Engine.constructor | src/engine.rs:44-61 | a missing entry is replaced by the current directory; a missing ignore list becomes empty; the configuration is `Config::default`; no file is counted and nothing is sent |
| Engine.Engine.Explore | src/engine.rs:115-126 | sends one `Content` per non-ignored file of the tree, in walk order, and adds their number to `total_files` |
| Engine.Engine.ExploreEntries | src/engine.rs:120-124 | the loop over a directory's entries sends and counts their walks in order |
| Engine.Engine.SendEnds | src/engine.rs:107-109 | sends `capacity` `End` messages and leaves `total_files` unchanged |
| Engine.Engine.Dispatch | src/engine.rs:106-109 | explores the entry path, then sends the `End`s |
| Util.Compare | src/util.rs:3-11 | `Less` if and only if `t1 < t2`; `Greater` if and only if not less and `t1 > t2`; otherwise `Equal` |
| Util.CompareSpec | src/util.rs:3-11 | over a strict total order, `Equal` means equal, and swapping the arguments swaps `Less` and `Greater` |
| Util.IntLess | src/util.rs:3-11 | the integers' `<` |
| Util.CompareInt | src/util.rs:3-11 | on integers, the three results match `<`, `>` and `==` |
| Util.StrLessIrreflexive | src/bin/cloc.rs:21 | no string is less than itself |
| Util.StrLessTransitive | src/bin/cloc.rs:21 | string order is transitive |
| Util.StrLessTotal | src/bin/cloc.rs:21 | any two different strings are ordered |
| Util.StrLessFn | src/bin/cloc.rs:21 | the lexicographic `<` on strings |
| Util.StrLessIsStrictTotalOrder | src/bin/cloc.rs:21 | string order is a strict total order |
| Util.CompareStr | src/bin/cloc.rs:21 | comparing language names: `Equal` if and only if the names are equal, the results are antisymmetric, and a proper prefix sorts first |
| Util.StrLess | src/bin/cloc.rs:21 | no string is less than itself, and nothing is less than the empty string |
| Cloc.CmpIsKeyOrder | src/bin/cloc.rs:20-26 | the closure compares the chosen key: `Less`, `Greater` or `Equal` exactly as the keys are ordered |
| Cloc.KeyLessIrreflexive | src/bin/cloc.rs:20-26 | no key is less than itself |
| Cloc.KeyLessTransitive | src/bin/cloc.rs:20-26 | the key order is transitive |
| Cloc.KeyLessTotal | src/bin/cloc.rs:20-26 | any two rows' keys are equal or ordered |
| Cloc.KeyOf | src/bin/cloc.rs:20-26 | only `SortBy::Name` compares text; every other column compares a count |
| Cloc.KeyLess | src/bin/cloc.rs:20-26 | only keys of the same kind are ordered, and never a key with itself |
| Cloc.Cmp | src/bin/cloc.rs:20-26 | the closure answers `Less` exactly when the first row's key is below the second's |
| Cloc.Insert | src/bin/cloc.rs:20 | insertion adds exactly one row |
| Cloc.Sort | src/bin/cloc.rs:20-26 | sorting keeps the number of rows; `SortSpec` states the order, the permutation and stability |
| Cloc.Sorted | src/bin/cloc.rs:20-26 | a sorted list has each row's key no smaller than the previous row's, and a list of at most one row is sorted |
| Cloc.InsertPos | src/bin/cloc.rs:20 | the insertion point is after every row with a key not greater than the new row's key |
| Cloc.WithKeyAppend | src/bin/cloc.rs:20 | selecting the rows with one key distributes over concatenation |
| Cloc.InsertSorted | src/bin/cloc.rs:20 | inserting into a sorted list keeps it sorted |
| Cloc.InsertWithKey | src/bin/cloc.rs:20 | insertion puts the new row after every row with the same key |
| Cloc.WithKeyAbove | src/bin/cloc.rs:20 | rows that all have larger keys contain none with the given key |
| Cloc.SortSpec | src/bin/cloc.rs:20-26 | `sort_by` gives a sorted permutation in which rows with equal keys keep their order |
| Cloc.SortIsSorted | src/bin/cloc.rs:20-26 | the result is sorted by the chosen key |
| Cloc.SortIsPermutation | src/bin/cloc.rs:20-26 | the result is a permutation of the input |
| Cloc.MultisetOfInsert | src/bin/cloc.rs:20 | insertion adds exactly the new row |
| Cloc.SortIsStable | src/bin/cloc.rs:20-26 | rows with equal keys keep their relative order |
| Cloc.SortStep | src/bin/cloc.rs:20 | sorting one more row inserts it into the sorted prefix |
| Cloc.SortByNameExample | src/bin/cloc.rs:21 | sorting by name puts Go before Rust; sorting by code puts the smaller count first |
| Cloc.SortLanguages | src/bin/cloc.rs:20-26 | the in-place sort leaves the array equal to `Sort` of its old contents |
| Cloc.InsertLast | src/bin/cloc.rs:20 | inserts the element at index i into the sorted prefix and leaves the rest alone |
| Cloc.ShiftUp | src/bin/cloc.rs:20 | shifts up the prefix rows with larger keys and returns the gap where the element goes |
| Cloc.InsertedAt | src/bin/cloc.rs:20 | an array laid out around such a gap is `Insert` |
| Cloc.InsertPosAt | src/bin/cloc.rs:20 | such a gap is the insertion point |
| Scenarios.LineCommentAndCode | src/calculate.rs:28-86 | the Rust lines `// hi`, `f() {`, an empty line and `}` count 1 blank, 1 comment and 2 code lines: the closing brace is code |
| Scenarios.ThreeLineBlock | src/calculate.rs:53-82 | `/*`, text, `*/` give three comment lines and close the block |
| Scenarios.SameLineBlock | src/calculate.rs:72-76 | `/* short */` is one comment line and closes at once; the next line is code |
| Scenarios.ShortLineStaysOpen | src/calculate.rs:74-76 | `/*/` is shorter than both markers, so it leaves the block open |
| Scenarios.BlankInsideBlock | src/calculate.rs:32-35 | a blank line inside a block counts as blank |
| Scenarios.LineCommentInsideBlock | src/calculate.rs:38-43 | inside a block, a `//` line is a single-line comment and does not close the block, even when it ends with `*/` |
| Scenarios.OpenerClosesBlock | src/calculate.rs:55-61 | a second start marker inside a block closes it |
| Scenarios.PythonDocstring | src/calculate.rs:46-82 | a `'''` docstring over three lines is three comment lines; the next line is code |
| Scenarios.SplitIntoLines | src/calculate.rs:28 | `lines()` drops `\r` before `\n` and yields no empty final line |
| FileTree.LastDot | src/calculator.rs:44 | finds the last `'.'` of a name |
| FileTree.ToStr | src/config.rs:78 | the conversion succeeds exactly on UTF-8 names and gives back that name |
| FileTree.NameExtension | src/calculator.rs:44 | an extension has no `'.'` and is shorter than the name; a name without `'.'` has none |
| FileTree.Extension | src/calculator.rs:44 | the empty path has no extension, and an extension has no `'.'` |
| FileTree.NoDotNoExtension | src/calculator.rs:44 | a name without `'.'` has no extension |
| FileTree.ExtensionOfJoin | src/calculator.rs:44 | `base.ext` has extension `ext` |
| Wrappers.ToOption | src/calculator.rs:46 | `.ok()` keeps the value of `Ok` and maps `Err` to `None` |

## Left out

- Threads, the thread pool and `executor.rs` are left out. Channel capacities and blocking are left out too. The order in which workers take messages is not modelled: channels are sequences in send order, and workers are folds over them.
- File-system access becomes data. The tree is an abstract `Node`, and a file's text and size are `Option` values in a `Disk` function. `read_dir` errors are the `FailedEntry` and `Unreadable` nodes.
- `read_ignore_list` and `fs::canonicalize` are left out, because they are file I/O. The constructor takes the list they would read as a parameter.
- Engine.Engine.Explore: requires that no directory read fails. The source calls `unwrap` on those reads and panics, and a panic is not modelled.
- `Engine.calculate` ends with `aggregate_details`, which src/detail.rs does not define. So the fold of `Detail`s into a `Report` is not modelled; only `Report::new` is.
- The `SumDetail` and `LanguageDetail` fields are the ones the renderers and `sort_by` read.
- Symlinks are not modelled. Nor is the path canonicalisation that `starts_with` relies on.
- File names in the tree are UTF-8 strings. The `NonUnicode` value appears only in the two `get_by_extension` functions, where `OsStr::to_str` fails on it; `ProcessFile` and `ExtensionOf` always pass a `Unicode` extension.
- Calculator.NewManager: builds 16 of the roughly 115 entries of src/calculator.rs: C, C Header, C++, C++ Header, CSS, Go, Html, JavaScript, JSON, Less, Markdown, Python, Rust, Ruby, Sass and Scala, in table order. These are the languages of src/config.rs that this table also has, except Haskell, Java, Julia, Shell and TypeScript, whose rows are identical in both tables; plus Less and Sass, which take `less`, `sass` and `scss` from CSS. The other rows are built by the same macro.
- `usize` and `u64` counters are unbounded integers. Overflow needs more than 2^64 lines and is not modelled.
- The `i32` fields of src/detail.rs are a bounded newtype. `Details.ToI32` is a modelling helper that states their range; the program performs no conversion into them.
- `Vec::sort_by` is the standard library's stable merge sort, which is not part of this model. It is modelled by a stable insertion sort with the same result: sorted, a permutation, and stable. The closure's key choice follows src/bin/cloc.rs:20-26.
- The `Options` of src/options.rs do not declare `sort_by`, so `SortBy` is modelled from its use in src/bin/cloc.rs.
- `text_files`, `ignored_files` and `unrecognized_files` are declared but never updated, so they are not modelled.
- Command-line parsing, the spinner, rendering, `pprint`, `machine.rs`, `reporter.rs` and `error.rs` are outside the counting core.
- The counts for the fixture `tests/code/rust.rs` (16 blank, 7 comment, 75 code) are not proved. The proof would restate its 98 lines as string literals and classify them one by one, each line costing the solver about as much as one scenario lemma. The fixture has no block comment, so it only reaches three branches: empty lines, lines whose trim starts with `//`, and code. `Scenarios.LineCommentAndCode`, `Classifier.BlankLineIsNeutral`, `Classifier.SingleCommentIsNeutral` and `Classifier.CodeIff` cover those three.
- The `"` pair of Python is a one-character start and end marker. As the code does, a line that is just `"` opens a block that stays open.

## Findings

| source | as written | input that shows it | evidently intended | confidence | as-written member | corrected member |
|---|---|---|---|---|---|---|
| src/calculator.rs:339 | `Add` sets `code` to `self.code + rhs.comment` | a + b with a.code = 3, b.comment = 1, b.code = 5 gives code 4 instead of 8 | `code: self.code + rhs.code`, as `AddAssign` does at line 350 | high, not executed | Calculator.AddLosesCode | Calculator.AddPointwiseLaws |
