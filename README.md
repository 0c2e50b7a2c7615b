# SENSE customizer: configuration files and decoration reconciler

This project models the desktop side of `FileManager`, the part of the SENSE customizer that reads and writes the game's configuration files and applies the user's decoration edits to the filesystem. It proves properties of that model in Dafny.

The model covers:

- **The `KEY=value` line toolkit** (module `ConfigText`):
  - the comment filter of `readTextFile`;
  - `isCommentLine`;
  - `extractValue`, which trims spaces and tabs;
  - `extractQuotedValue`, whose closing quote is the first later quote preceded by an even number of backslashes;
  - `unescapeString`;
  - the decimal conversions that `std::stoi` and `std::to_string` perform on font sizes.
- **The writer** (module `ConfigWriter`). `updateOrAddLine` rewrites the first line whose whitespace-stripped key matches, keeping the left part and the blanks after `=`, or else appends `key=value`. `ApplyUpdates` folds it over a list of updates, as `updateAllConfigFiles` does.
- **The settings and the three loaders as functions** (module `Settings`). It holds the initial `FontList` and `StandartDecorList`. Each of `loadLocalization`, `loadCustomFontSize` and `loadDecorAssets` is a function of the file's comment-free lines and the settings before the call.
- **Write-then-read** (module `RoundTrip`). It states what each loader makes of the file `updateAllConfigFiles` writes, including where the round trip loses information.
- **The decoration reconciler** (module `Decorations`):
  - the desktop branch of `processCustomDecorations` as a function `Step` per record;
  - `Pass` over the list;
  - the `remove_if`/`erase` sweep as `Survivors`;
  - the filesystem as a value `Disk`, plus a class `FileStore` whose methods change it.
- **The running program** (module `Customizer`). The process-wide lists are the fields of class `Session`. The loaders, the writer and the reconciler are its methods, written with the loops of the source. Each method is proved against the function that gives its meaning.

A configuration file enters the model as the lines `std::getline` delivers; a missing file delivers none. The lines to be written are returned. Whether a filesystem call throws is not a property of the disk, so each reconciler step takes a flag `fail` that makes its one call throw. The whole pass takes a sequence `fails` of these flags, and the creation of the decor directory takes a flag `dirFail` of its own. Nothing in `processCustomDecorations` catches an exception from that creation, so the model ends the call there with nothing changed.

Some behaviour of the code is easy to miss. The model keeps it as written, and a lemma shows each case:

- A newline in a written value becomes a space, a backslash and `n`. In a text without quote or backslash, it is read back as a space followed by a newline (`RoundTrip.LocalizationLineRoundTrip`).
- The writer does not escape `"` or `\`, so a text holding either need not survive the round trip. A text whose part before its first quote is nonempty and free of backslashes and newlines reads back as just that part (`RoundTrip.QuoteTruncates`). A backslash in a text is read as the start of an escape.
- Rename with a missing source file still resets the operations to `{None}`. Only a rename that throws leaves the record as it was (`Decorations.StepRenames`).
- The sweep drops every record that holds Remove among its operations, not only records whose operations are exactly `{Remove}` (`Decorations.SurvivorsMembers`).
- The font path is written unquoted but read by the quoted-value reader. So a font path without a quote, written as a fresh `FONT=` line, is never loaded back (`RoundTrip.FontPathNotReadBack`). A path that holds quotes would load as the text between its first quotes; the model states no lemma for that case.
- A blank after `=` in `decor.cfg` is kept when the line is rewritten, and the untrimmed comparison then reads the toggle as false, even one saved as true (`RoundTrip.DecorSpaceKept`).
- When a name appears twice in `decor.cfg`, saving rewrites the first line and loading takes the last, so a saved toggle can be shadowed (`RoundTrip.DuplicateNameShadowsSave`).

## Model

| member | source | states |
|---|---|---|
| ConfigText.NonCommentsMembers | app/src/main/cpp/utils/file_manager.cpp:126-129 | a line survives reading exactly when it is in the file and is not a comment |
| ConfigText.NonCommentsOfCommentFree | app/src/main/cpp/utils/file_manager.cpp:126-129 | reading a file without comment lines returns it unchanged |
| ConfigText.ReadTextLines | app/src/main/cpp/utils/file_manager.cpp:125-129 | the `getline` loop keeps exactly the non-comment lines, in order |
| ConfigText.ExtractValue | app/src/main/cpp/utils/file_manager.cpp:255-260 | the result is empty iff the text is all spaces and tabs; otherwise it is the slice between the leading and trailing blanks, with non-blank ends |
| ConfigText.ExtractValueOfPadded | app/src/main/cpp/utils/file_manager.cpp:255-260 | trimming blanks around a value with non-blank ends gives back the value |
| ConfigText.QuotedValueWithoutQuote | app/src/main/cpp/utils/file_manager.cpp:233-234 | a line without `"` yields the empty string |
| ConfigText.QuotedValueCharacterised | app/src/main/cpp/utils/file_manager.cpp:232-253 | the value is the raw slice after the first quote, backslashes kept, up to the first later quote preceded by an even number of backslashes counted no further back than the opening quote, or to the end of the line |
| ConfigText.QuotedValueOfWrapped | app/src/main/cpp/utils/file_manager.cpp:232-253 | `"v"` after quote-free text yields `v` when `v` has no quote and does not end in a backslash |
| ConfigText.ExtractQuotedValue | app/src/main/cpp/utils/file_manager.cpp:232-253 | the index loop with its backslash count computes `QuotedValue` |
| ConfigText.CountBackslashes | app/src/main/cpp/utils/file_manager.cpp:240-245 | the inner loop counts the backslashes directly before a quote, stopping at the opening quote |
| ConfigText.UnescapeEscapes | app/src/main/cpp/utils/file_manager.cpp:274-302 | `\n` decodes to a newline, `\t` to four spaces, `\\` to one backslash, `\"` to a quote, and any other `\c` stays as both characters |
| ConfigText.UnescapeTrailingBackslash | app/src/main/cpp/utils/file_manager.cpp:274-304 | a backslash appended to any text whose decoding leaves no backslash pending has nothing to pair with and is copied as it is |
| ConfigText.EscapeNotPending | app/src/main/cpp/utils/file_manager.cpp:274-304 | the reference encoder never leaves a backslash pending, so a backslash appended to its output decodes to itself |
| ConfigText.UnescapeWithoutBackslash | app/src/main/cpp/utils/file_manager.cpp:270-306 | text without backslashes is returned unchanged |
| ConfigText.UnescapeInvertsEscape | app/src/main/cpp/utils/file_manager.cpp:270-306 | decoding inverts a reference encoder that escapes every backslash, quote and newline and writes every other character, tab included, as it is |
| ConfigText.UnescapeString | app/src/main/cpp/utils/file_manager.cpp:270-306 | the index loop, consuming two characters per escape, computes `Unescape` |
| ConfigText.DecodeEscape | app/src/main/cpp/utils/file_manager.cpp:276-301 | the `switch` on the escaped character computes `EscapeMeaning` |
| ConfigText.DecimalRoundTrip | app/src/main/cpp/utils/file_manager.cpp:590 | the value of the decimal digits `std::to_string` writes for a natural number is that number |
| ConfigText.StripSpacesNoSpaces | app/src/main/cpp/utils/file_manager.cpp:519-520 | a key with its whitespace removed holds no whitespace |
| ConfigText.StripSpacesKeeps | app/src/main/cpp/utils/file_manager.cpp:545-546 | removing whitespace from a key without whitespace changes nothing |
| ConfigWriter.OneLineNoNewline | app/src/main/cpp/utils/file_manager.cpp:522-533 | the encoded value holds no newline |
| ConfigWriter.OneLineNoQuote | app/src/main/cpp/utils/file_manager.cpp:522-533 | encoding adds no quote |
| ConfigWriter.OneLineKeeps | app/src/main/cpp/utils/file_manager.cpp:522-533 | a value without newlines is written as it is |
| ConfigWriter.OneLineValue | app/src/main/cpp/utils/file_manager.cpp:522-533 | the character loop replaces each newline with a space, a backslash and `n` |
| ConfigWriter.RightSpaces | app/src/main/cpp/utils/file_manager.cpp:549-552 | the loop collects the whitespace run that follows `=` |
| ConfigWriter.RewriteLine | app/src/main/cpp/utils/file_manager.cpp:544-554 | a matching line becomes its text before `=`, the `=`, the whitespace run after it and the new value, as `Rewritten` says |
| ConfigWriter.UpdateOrAddLine | app/src/main/cpp/utils/file_manager.cpp:512-563 | the scan-and-rewrite loop computes `UpdatedLines` |
| ConfigWriter.FirstMatchIs | app/src/main/cpp/utils/file_manager.cpp:539-548 | the first editable line whose stripped key equals the stripped key is the one found |
| ConfigWriter.UpdateTouchesOnlyFirstMatch | app/src/main/cpp/utils/file_manager.cpp:539-562 | at most one line is added, and every line that does not match is unchanged |
| ConfigWriter.UpdateKeepsUneditable | app/src/main/cpp/utils/file_manager.cpp:540-541 | empty lines, comments and lines without `=` are never rewritten |
| ConfigWriter.UpdateRewritesFirstMatch | app/src/main/cpp/utils/file_manager.cpp:548-556 | with a match, the line count is unchanged, only the first match changes, and it becomes left part, `=`, the old whitespace run and the formatted value |
| ConfigWriter.UpdateAppendsWithoutMatch | app/src/main/cpp/utils/file_manager.cpp:560-562 | without a match exactly `key=formatted` is appended |
| ConfigWriter.UpdateExample | app/src/main/cpp/utils/file_manager.cpp:512-563 | a comment and an unrelated key stay; the matching unquoted line is rewritten in place |
| ConfigWriter.EntryLineShape | app/src/main/cpp/utils/file_manager.cpp:561 | an appended line for a plain key is editable, its first `=` follows the key, and its right part is the formatted value |
| ConfigWriter.FirstEntryOfKey | app/src/main/cpp/utils/file_manager.cpp:539-548 | in a file of appended lines, the first match of a key is the first update of that key |
| ConfigWriter.ApplyUpdatesToEmpty | app/src/main/cpp/utils/file_manager.cpp:565-615 | on an empty file, distinct plain keys are appended one line each, in order |
| ConfigWriter.UpdateEntryLinesInPlace | app/src/main/cpp/utils/file_manager.cpp:548-556 | updating a key of a written file rewrites its line into the line a fresh write would give |
| ConfigWriter.ResaveGivesFreshFile | app/src/main/cpp/utils/file_manager.cpp:565-615 | saving over the previous save of the same keys gives the file a save over an empty file gives |
| Settings.Stored | app/src/main/cpp/utils/file_manager.cpp:375 | copying into a 1024-byte buffer keeps the first 1023 characters, and all of a shorter text |
| Settings.DefinitionOfSplit | app/src/main/cpp/utils/file_manager.cpp:363-370 | a line `key=rest` defines `key` as the decoded quoted value of `rest` when that is nonempty, and defines nothing otherwise |
| Settings.LocalizedListSpec | app/src/main/cpp/utils/file_manager.cpp:362-380 | after loading, every entry keeps its key; the first entry of a key the file defines holds the stored last definition; all other entries are unchanged |
| Settings.LocalizationMapDomain | app/src/main/cpp/utils/file_manager.cpp:362-371 | a key is in the returned map iff some line defines it |
| Settings.LocalizationMapLastWins | app/src/main/cpp/utils/file_manager.cpp:362-371 | the map holds the text of the last line defining the key |
| Settings.LoadedFontsKeepsShape | app/src/main/cpp/utils/file_manager.cpp:396-441 | loading keeps every key in place, changes only the three font keys, and keeps sizes positive and within `int` |
| Settings.FontLineKeepsShape | app/src/main/cpp/utils/file_manager.cpp:396-441 | one font line keeps the shape of the list and the size entries valid |
| Settings.SizeLineSets | app/src/main/cpp/utils/file_manager.cpp:412-424 | blank-padded nonempty digits whose value is positive and fits in an `int` set the size entry to that value |
| Settings.SizeLineRejects | app/src/main/cpp/utils/file_manager.cpp:412-424 | a trimmed text that is empty, has a non-digit or is zero leaves the list unchanged |
| Settings.SizeLineRecognised | app/src/main/cpp/utils/file_manager.cpp:396-413 | a `FONT_SIZE=` line is read as a size line, not as `FONT=` |
| Settings.OtherSizeLineRecognised | app/src/main/cpp/utils/file_manager.cpp:396-428 | an `OTHER_TEXT_FONT_SIZE=` line is read as that size line |
| Settings.SizeTextRejected | app/src/main/cpp/utils/file_manager.cpp:412-424 | a `FONT_SIZE=` line whose text is empty, not all digits or zero changes nothing |
| Settings.RejectedSizeExamples | app/src/main/cpp/utils/file_manager.cpp:412-424 | `0`, `+5`, `-5` and an empty size text are all rejected |
| Settings.SizeLineReadableOf | app/src/main/cpp/utils/file_manager.cpp:415 | a size text `std::stoi` can read makes the line safe to load |
| Settings.DecorConfigDomain | app/src/main/cpp/utils/file_manager.cpp:490-497 | a name is configured iff some line holds `=` with that name before its first `=` |
| Settings.DecorConfigLastWins | app/src/main/cpp/utils/file_manager.cpp:490-497 | a name takes the value of its last line |
| Settings.DecorLineValue | app/src/main/cpp/utils/file_manager.cpp:492-495 | `name=value` sets the name to whether `value` is exactly `true` |
| Settings.DecorValueExamples | app/src/main/cpp/utils/file_manager.cpp:495 | for any name, `True`, `TRUE`, `1`, and `true` with a blank before or after it all disable the decoration |
| Settings.AppliedDecor | app/src/main/cpp/utils/file_manager.cpp:500-504 | every standard entry keeps its name and takes its configured value when it has one, else keeps its own |
| Settings.DecorAssets | app/src/main/cpp/utils/file_manager.cpp:505-506 | one non-custom asset per standard entry, in list order |
| Decorations.Copy | app/src/main/cpp/utils/file_manager.cpp:692-693 | the copy succeeds exactly when it is not told to throw, the source is a file and differs from the target |
| Decorations.Prepared | app/src/main/cpp/utils/file_manager.cpp:644-647 | the call throws exactly when the decor directory is missing and its creation fails; otherwise the directory exists afterwards and the files are unchanged |
| Decorations.StepAddCopies | app/src/main/cpp/utils/file_manager.cpp:690-697 | a successful Add copies the file to `decorDir/name.png`, points the record there with operations `{None}`, and keeps the source |
| Decorations.StepAddFails | app/src/main/cpp/utils/file_manager.cpp:690-700 | a failing copy leaves the record and the disk as they were |
| Decorations.StepRemoves | app/src/main/cpp/utils/file_manager.cpp:734-743 | Remove deletes the file if it exists and sets operations to `{Remove}`, also when there is no file |
| Decorations.StepRenames | app/src/main/cpp/utils/file_manager.cpp:781-792 | Rename resets operations to `{None}` even without a source file; the path and contents move only when the file existed |
| Decorations.StepThrows | app/src/main/cpp/utils/file_manager.cpp:733-793 | a remove or rename that throws leaves record and disk as they were |
| Decorations.StepIdle | app/src/main/cpp/utils/file_manager.cpp:666-794 | a record holding none of Add, Remove and Rename is untouched |
| Decorations.StepKeepsName | app/src/main/cpp/utils/file_manager.cpp:666-794 | a step never renames the record, and its operations afterwards are the old ones, `{None}` or `{Remove}` |
| Decorations.StepKeepsRemoveMark | app/src/main/cpp/utils/file_manager.cpp:705-744 | a Remove record without Add still holds Remove afterwards, whatever the filesystem does |
| Decorations.StepFrame | app/src/main/cpp/utils/file_manager.cpp:666-794 | a step touches no path other than the record's path and its target, and no directory |
| Decorations.AddRemoveFailedCopy | app/src/main/cpp/utils/file_manager.cpp:666-808 | a record holding both Add and Remove whose copy fails is swept |
| Decorations.AddRemoveCopied | app/src/main/cpp/utils/file_manager.cpp:666-808 | a record holding both Add and Remove whose copy succeeds survives as a plain copied record, since Add takes priority |
| Decorations.PassKeepsNames | app/src/main/cpp/utils/file_manager.cpp:652-795 | the pass keeps every name, and every Remove-without-Add record keeps its mark |
| Decorations.PassKeepsDirs | app/src/main/cpp/utils/file_manager.cpp:652-795 | the pass creates and removes no directory |
| Decorations.SurvivorsMembers | app/src/main/cpp/utils/file_manager.cpp:801-808 | a record remains iff it was in the list and holds no Remove |
| Decorations.SurvivorsAppend | app/src/main/cpp/utils/file_manager.cpp:801-808 | the sweep keeps relative order: it distributes over concatenation |
| Decorations.SurvivorsOfUnmarked | app/src/main/cpp/utils/file_manager.cpp:801-808 | a list without Remove records is kept as it is |
| Decorations.ProcessedResult | app/src/main/cpp/utils/file_manager.cpp:617-816 | when the decor directory is ready, after processing no record holds Remove, every record is one the pass produced, and the decor directory exists |
| Decorations.ProcessedAborts | app/src/main/cpp/utils/file_manager.cpp:644-645 | when the missing decor directory cannot be created, the exception leaves the function before any record is handled, and records and disk are unchanged |
| Decorations.ProcessedDropsRemoved | app/src/main/cpp/utils/file_manager.cpp:617-816 | when the decor directory is ready, a record marked Remove and not Add does not survive processing |
| Decorations.FileStore.FileExists | app/src/main/cpp/utils/file_manager.cpp:735 | `exists` reports whether the file is present |
| Decorations.FileStore.DirExists | app/src/main/cpp/utils/file_manager.cpp:644 | `exists` reports whether the directory is present |
| Decorations.FileStore.CreateDirectories | app/src/main/cpp/utils/file_manager.cpp:645 | succeeds exactly when not told to throw; then the directory is added and the files are unchanged, otherwise nothing changes |
| Decorations.FileStore.CopyFile | app/src/main/cpp/utils/file_manager.cpp:692-693 | the store changes as `Copy` says when it succeeds, and not at all when it throws |
| Decorations.FileStore.RemoveFile | app/src/main/cpp/utils/file_manager.cpp:736 | the store changes as `Delete` says when it succeeds, and not at all when it throws |
| Decorations.FileStore.RenameFile | app/src/main/cpp/utils/file_manager.cpp:784 | the store changes as `Move` says when it succeeds, and not at all when it throws |
| RoundTrip.SavedFileHasNoComments | app/src/main/cpp/utils/file_manager.cpp:565-615 | a saved file holds no comment line: comments are dropped on read and never written back |
| RoundTrip.EntryLinesNotComments | app/src/main/cpp/utils/file_manager.cpp:561 | appended lines for plain keys are not comments |
| RoundTrip.FreshSave | app/src/main/cpp/utils/file_manager.cpp:565-615 | saving distinct plain keys over a missing file writes one `key=value` line per setting, in order |
| RoundTrip.Resave | app/src/main/cpp/utils/file_manager.cpp:565-615 | saving over the previous save of the same keys writes the same file as a fresh save |
| RoundTrip.UnescapeOneLine | app/src/main/cpp/utils/file_manager.cpp:522-533 | decoding a written text without backslashes gives the text with a space before each newline |
| RoundTrip.QuotedOneLine | app/src/main/cpp/utils/file_manager.cpp:535-537 | the quoted written text is found again by the quote scanner |
| RoundTrip.LocalizationLineRoundTrip | app/src/main/cpp/utils/file_manager.cpp:362-371 | for a plain key and a text without quote or backslash, the written quoted line reads back as its key and its text with a space before each newline; an empty text defines nothing |
| RoundTrip.LocalizationLineExact | app/src/main/cpp/utils/file_manager.cpp:362-371 | a nonempty text without quote, backslash or newline reads back exactly |
| RoundTrip.QuoteTruncates | app/src/main/cpp/utils/file_manager.cpp:535-537 | a text whose part before its first quote is nonempty and free of backslashes and newlines reads back as that part alone |
| RoundTrip.LocalizationFileLine | app/src/main/cpp/utils/file_manager.cpp:573-575 | each line written for the localization list reads back as its entry |
| RoundTrip.LocalizationFileRoundTrip | app/src/main/cpp/utils/file_manager.cpp:567-579 | loading the lines written for a list of distinct plain keys and writable texts gives back the list |
| RoundTrip.LocalizationSaveLoad | app/src/main/cpp/utils/file_manager.cpp:567-579 | the same for the file saved over a missing one and read through the comment filter |
| RoundTrip.LocalizationResaveLoad | app/src/main/cpp/utils/file_manager.cpp:567-579 | the same for a save over the previous save of the same keys |
| RoundTrip.DecimalTextAccepted | app/src/main/cpp/utils/file_manager.cpp:412-424 | the decimal text of a positive `int` is trimmed to itself, accepted, and read back as that number |
| RoundTrip.SizeWriteRead | app/src/main/cpp/utils/file_manager.cpp:588-590 | a written `FONT_SIZE` line is safe to read and sets the size it was written with |
| RoundTrip.OtherSizeWriteRead | app/src/main/cpp/utils/file_manager.cpp:588-590 | the same for `OTHER_TEXT_FONT_SIZE` |
| RoundTrip.FontPathNotReadBack | app/src/main/cpp/utils/file_manager.cpp:592 | a font path without a quote, appended as an unquoted `FONT=` line, leaves the font list unchanged when loaded, because the loader looks for a quoted value |
| RoundTrip.FontFileRoundTrip | app/src/main/cpp/utils/file_manager.cpp:582-597 | the font lines written are safe to read and load as the two sizes, leaving the path as it was |
| RoundTrip.FontListRoundTrip | app/src/main/cpp/utils/file_manager.cpp:582-597 | loading the written font lines into the same list gives back the list |
| RoundTrip.FontSaveLoad | app/src/main/cpp/utils/file_manager.cpp:582-597 | the same for the file saved over a missing one and read through the comment filter |
| RoundTrip.DecorEntryLine | app/src/main/cpp/utils/file_manager.cpp:607 | a written toggle line sets exactly its own name, to its own value |
| RoundTrip.DecorFileRoundTrip | app/src/main/cpp/utils/file_manager.cpp:600-612 | loading the written toggles of distinct plain names into a list of the same names gives back the toggles |
| RoundTrip.DecorSaveLoad | app/src/main/cpp/utils/file_manager.cpp:600-612 | the same for the file saved over a missing one and read through the comment filter |
| RoundTrip.DuplicateNameShadowsSave | app/src/main/cpp/utils/file_manager.cpp:548-556 | when a name appears twice in `decor.cfg`, saving rewrites only the first line, and reading takes the second line's value whatever was saved, so the saved toggle can be shadowed |
| RoundTrip.DecorSpaceKept | app/src/main/cpp/utils/file_manager.cpp:549-554 | a blank after `=` is kept on rewrite, and `decor.cfg` then reads the toggle as false even when it was saved true |
| RoundTrip.SpacedRewrite | app/src/main/cpp/utils/file_manager.cpp:549-554 | rewriting `key= old` keeps the blank and replaces only the value |
| Customizer.Session.constructor | app/src/main/cpp/assets/data.cpp:30-45 | the session starts from the given localization texts, the default fonts (no path, sizes 24 and 48), the eight standard decorations enabled, and no custom decoration |
| Customizer.Session.FindEntry | app/src/main/cpp/utils/file_manager.cpp:373-378 | the loop with `break` finds the first entry of the key |
| Customizer.Session.FindFont | app/src/main/cpp/utils/file_manager.cpp:401-402 | `find_if` finds the first font entry of the key |
| Customizer.Session.LoadLocalization | app/src/main/cpp/utils/file_manager.cpp:354-383 | returns `LocalizationMap` of the comment-free lines and leaves the list as `LocalizedList` says; nothing else changes |
| Customizer.Session.LocalizeLine | app/src/main/cpp/utils/file_manager.cpp:363-379 | one line updates the map and the first entry of its key as its definition says |
| Customizer.Session.ReadDefinition | app/src/main/cpp/utils/file_manager.cpp:363-370 | the split at `=`, quote extraction and decoding compute `LocalizationDefinition` |
| Customizer.Session.LoadCustomFontSize | app/src/main/cpp/utils/file_manager.cpp:386-444 | returns false iff the file has no non-comment lines; the font list becomes `LoadedFonts`, keeps its shape and valid sizes; nothing else changes |
| Customizer.Session.ReadFontLine | app/src/main/cpp/utils/file_manager.cpp:396-441 | one line whose size text `std::stoi` can read is tested against the three prefixes in order, as `FontLine` says |
| Customizer.Session.SetSize | app/src/main/cpp/utils/file_manager.cpp:412-424 | for a text `std::stoi` can read, the trim, digit check, conversion and positivity test set the entry as `SizeLine` says |
| Customizer.Session.LoadDecorAssets | app/src/main/cpp/utils/file_manager.cpp:479-510 | the standard list takes the file's configuration and the assets list it |
| Customizer.Session.ReadDecorConfig | app/src/main/cpp/utils/file_manager.cpp:488-498 | the parse loop builds `DecorConfig` of the lines |
| Customizer.Session.ApplyDecorConfig | app/src/main/cpp/utils/file_manager.cpp:500-507 | the merge loop applies the configuration in place and pushes one asset per entry |
| Customizer.Session.UpdateAllConfigFiles | app/src/main/cpp/utils/file_manager.cpp:565-615 | the three files become the saved files of the localization, font and decor updates |
| Customizer.Session.SaveLocalization | app/src/main/cpp/utils/file_manager.cpp:567-579 | every text is written quoted over the comment-free lines of the file |
| Customizer.Session.SaveFonts | app/src/main/cpp/utils/file_manager.cpp:582-597 | sizes in decimal and the path as it is, unquoted |
| Customizer.Session.SaveDecor | app/src/main/cpp/utils/file_manager.cpp:600-612 | toggles as `true`/`false`, unquoted |
| Customizer.Session.ProcessCustomDecorations | app/src/main/cpp/utils/file_manager.cpp:617-816 | reports whether the decor directory was ready; the records and the filesystem end as `Processed` says, unchanged when the directory could not be created; the other settings are unchanged |
| Customizer.Session.ReconcileAll | app/src/main/cpp/utils/file_manager.cpp:652-795 | the in-place loop over the records computes `Pass` |
| Customizer.Session.ReconcileOne | app/src/main/cpp/utils/file_manager.cpp:666-794 | the Add / Remove / Rename branches with their filesystem calls compute `Step` |
| Customizer.Session.WithoutRemoved | app/src/main/cpp/utils/file_manager.cpp:801-808 | the in-place compaction of `remove_if` followed by `erase` yields `Survivors` |

## Left out

- The `__ANDROID__` branches are not modelled: the content-provider and JNI calls, and the Java side.
- Real file I/O is not modelled: `std::ifstream` and `std::ofstream`, `createFile`, `writeTextFile`, and the `fileExists` checks around the loaders. A file is the sequence of lines it delivers, and a missing file delivers none.
- The `fileExists` checks before the reads in `loadDecorAssets` and in `updateAllConfigFiles` are not modelled. Each is passed a path already joined with `gamePath`, and `fileExists` joins `gamePath` again. When `gamePath` is relative, the check looks at the wrong file, and the loader or writer starts from no lines. The model covers that outcome only as the input `raw = []`, not as a consequence of the path.
- How `std::getline` splits bytes into lines is not modelled: carriage returns stay in lines, and a final line without a newline is still a line.
- `joinPath` and `std::filesystem::path` semantics are reduced to `Decorations.Join`, which appends one `/` unless the base is empty or already ends in `/`. Normalisation, absolute second parts and the OS's notion of equivalent files are not modelled. A copy onto its own source is modelled as throwing.
- The creation of parent directories other than the decor directory itself is not modelled, and neither are paths that name directories rather than files.
- Texts are strings of characters. A NUL inside a text, which `value.data()` would stop at, is not modelled.
- `Settings.Stored`: counts characters, not the bytes of a UTF-8 encoding, so a text of 1023 multi-byte characters is stored whole in the model.
- The decoration-record state machine is not modelled: adding operations, restoring after Remove, unique names. `CustomeDecorationList` is not part of this model, and `hasOperation` is modelled as membership in the operation list.
- SDL logging is not modelled.
- `Customizer.Session.LoadCustomFontSize`: requires that every size line it reaches holds a text `std::stoi` can read. A longer digit string makes `std::stoi` throw an exception nobody catches, which ends the program.
- `Customizer.Session.ReadFontLine` and `Customizer.Session.SetSize`: carry the same requirement for their one line or size text, so the overflowing case, where the program ends, is not modelled.
- `Settings.SizeLine`: is total and would store a size above `IntMax`; every member that reaches it from a file requires the text to be `std::stoi`-readable, so that value never arises in the model.
- `loadCustomFontPath` and its absolute-path check are not modelled, because they depend on OS path semantics.
- `ConfigWriter.UpdateOrAddLine`: takes the line vector as a value and returns the updated vector, instead of mutating the caller's vector through a reference. No other alias of that vector exists in the source.
- `Customizer.Session.constructor`: takes the initial `LocalizationList` as a parameter. The default texts, including the platform-dependent instructions text, are not written out.
- Which filesystem call throws is not determined by the disk, so it is an input: one flag per record. The flag decides the one call of the branch taken.
