# Regkit in Dafny

This project models the platform-free kernels of Regkit, a Windows registry editor, and proves what they promise.

**Scripts.** Regkit keeps one list of operations (create a key, remove a key, set a value, remove a value) and prints it
as a .reg file, a batch script of reg.exe commands or a PowerShell script; it reads all three back. The model has the
printers and the parsers as loops over text, with the state the program keeps: the line-joining .reg reader with its
continuing, quoted and escaped flags; the batch layers from percent expansion over command splitting and argument
splitting to the options of reg.exe; the PowerShell tokenizer and an interpreter that moves over its tokens. Each is
proved against a function of its input, and about these functions three round trips are proved for whole scripts, each
followed by what the script does to any registry. `FormatsAgree` puts the three together. Loading a .reg file as a
document, a map of keys with an order, is proved to keep the meaning of its operations up to an exactly described set of
empty keys.

**Matching and comparing.** The wildcard matcher with its one remembered star, the recursive comparison of two keys over
sorted name indexes, and the store of comment rules with its hash indexes, its last-wins merge and its catalog check.

**Reversible state.** The undo stack with partly replayed groups, whole sessions on any store, and the eight kinds of
steps the program records, each undone exactly where it was recorded; sessions in which steps fail half-way, and what
stays right in them; key snapshots captured and restored in a tree of keys whose operations may fail, and what the
routines do to the registry as a map of paths; trimming the change history in place; synchronising one level of the key
tree with the registry.

**Records and bits.** The escaped field and line format of the record files, the change history stored in it, and bit
fields: deposit, extract, definitions that are validated, and definitions whose width changes.

Text is a sequence of 16-bit code units, lone surrogates included. The registry is a map from lower-case key paths to
maps from lower-case value names to a type and bytes; creating a key creates the keys above it and deleting one deletes
everything below it. Where an operation of the platform can fail, the model lets it fail at any time, deleting a key
half-way and the others without effect, and says what holds when nothing is refused. Case folding covers the ASCII letters.

One module per concern, named after its file. `text`, `value_format`, `multi_string`, `key_paths`, `operations`,
`registry_effect`, `registry_key` and `key_view` are shared; `reg_*`, `batch_*` and `powershell_*` hold the three formats, each from its syntax over its
reader and writer to its round trip and its meaning.

Where the code and what one would expect of it part ways, the model follows the code:

- A star in the text is compared with the pattern's star before that star is taken as one
  (src/cli/reg_command.cpp:296-301), so `*` does not match `*a`. `MatchIsGlobExactlyOnStarFreeTexts` says when the matcher is right.
- A CRLF in a quoted name of a .reg file is read as a line feed, and a backslash, a line break and two spaces in it are taken
  for another exporter's wrap (src/regfile/reg_file.cpp:512-558). `NamesComeBackExactly` says when names come back.
- The document of a .reg file forgets the keys that were created above a key deleted later (src/regfile/reg_file.cpp:581-633).
  `FoldForgetsEmptyParents` is the input, `FoldIsExactWhenCovered` the exact condition.
- A .reg file and a PowerShell script open, and so create, the key of a value they remove. `OpeningKeepsMeaning` says what
  that adds, `OpeningIsExact` exactly when it adds nothing.
- A deferred key line of a batch script is checked neither for its length nor for its encoding
  (src/regfile/batch_script.cpp:538-542), and is still written when the operation it waits for is skipped.
- An undo or redo step that fails half-way is kept as if it had done nothing (src/frame/commands/undo.cpp:171-191).
  `RefusedReplaceIsOff` is an input, `KeptExactlyWhenSound` the exact condition under which the undo side still accounts
  for the registry, and `SessionIsRightOutside` says where it is right in any case.
- A history entry of an unknown tab loses its source name and view (src/changes/change_history.cpp:160-207).
  `HistoryIsFaithful` is the exact condition.
- reg.exe stores REG_DWORD_BIG_ENDIAN little-endian (src/regfile/reg_exe_syntax.cpp:278-279); the batch forms rely on it.

`dafny verify dfyconfig.toml` checks the whole project.

## Model

| member | source | states |
|---|---|---|
| `Text.EqualsInsensitiveIsEqualLower` | src/win32/text_transform.cpp:127-135 | two texts are equal ignoring case exactly when their lower-case forms are equal |
| `Text.CompareZeroIsEquals` | src/win32/text_transform.cpp:218-240 | the three-way comparison is zero exactly on texts equal ignoring case |
| `Text.CompareAntisymmetric` | src/win32/text_transform.cpp:218-226 | the comparison orders two texts one way or the other, never both |
| `Text.CompareTransitive` | src/win32/text_transform.cpp:218-226 | the comparison is transitive in all its strict and equal combinations, so it is a weak order to sort by |
| `ValueFormat.HexRoundTrip` | src/registry/value_format.cpp:284-321 | bytes printed as digit pairs with any filler between them are read back as the same bytes |
| `ValueFormat.HexRunRoundTrip` | src/registry/value_format.cpp:284-321 | the byte reader carries its pending digit and `0x` state across any printed bytes without losing one |
| `ValueFormat.PaddedHexValue` | src/regfile/powershell_script.cpp:1305-1310 | zero-padded hexadecimal text spells the number it was printed from |
| `ValueFormat.PrefixedHexParses` | src/win32/text_transform.cpp:60-125 | a number behind its own 0x is read in base 16 whatever base was asked for, if it fits 64 bits |
| `ValueFormat.BytesOfNumber` | src/registry/value_format.cpp:260-282 | the little-endian number of some bytes gives exactly those bytes back |
| `ValueFormat.DecimalRoundTrip` | src/changes/change_history.cpp:202-207 | decimal text spells the number it was printed from |
| `MultiStrings.ReadItems` | src/registry/value_format.cpp:344-365 | the loop over NUL-terminated items returns the items up to the first empty one or the end of the data |
| `MultiStrings.ItemsRoundTrip` | src/registry/value_format.cpp:344-382 | items without NULs and empty items survive being stored as REG_MULTI_SZ data |
| `KeyPaths.SearchRoot` | src/registry/registry_path.cpp:44-55 | the first root whose full or short name equals the text ignoring case, or none |
| `KeyPaths.Normalize` | src/regfile/script_convert.cpp:143-162 | stripping the separators, splitting off the root and looking it up gives the path under its full root name, or none |
| `KeyPaths.NormalizeIsIdempotent` | src/regfile/script_convert.cpp:143-162 | a normalised path normalises to itself |
| `KeyPaths.AbbreviatedNormalizes` | src/registry/registry_path.cpp:476-518 | a normalised path survives being abbreviated and normalised again |
| `KeyPaths.UnderKeyIsUnder` | src/regfile/script_convert.cpp:164-168 | a path under a key ignoring case names that key or one below it in the registry |
| `RegSyntax.EscapeText` | src/regfile/reg_file.cpp:105-118 | the loop doubles backslashes and escapes quotes, unit by unit |
| `RegSyntax.ParseQuoted` | src/regfile/reg_file.cpp:23-77 | the reader of a quoted text with its escapes, and what it refuses |
| `RegSyntax.QuotedRoundTrip` | src/regfile/reg_file.cpp:23-118 | any text, escaped and quoted, is read back as itself |
| `RegSyntax.FindAssignment` | src/regfile/reg_file.cpp:79-103 | the equals sign behind a quoted or default name, found by the scanning loop |
| `RegSyntax.ClosingQuoteOfEscape` | src/regfile/reg_file.cpp:79-118 | whatever a name holds, the scanner stops at the quote that closes its escaped form |
| `RegSyntax.DataRoundTrip` | src/regfile/reg_file.cpp:343-402 | the data text of any value, of any type and any bytes, is read back as that type and those bytes |
| `RegReader.JoinLine` | src/regfile/reg_file.cpp:404-520 | a physical line is appended to the logical one and the quote and escape flags follow it |
| `RegReader.ParseOperations` | src/regfile/reg_file.cpp:404-579 | the line-joining loop with its continuing, quoted and escaped flags reads exactly the operations of the recursive reader |
| `RegWriter.AppendHexLine` | src/regfile/reg_file.cpp:120-143 | bytes are written with a wrap once a physical line reaches 77 units |
| `RegWriter.AppendValue` | src/regfile/reg_file.cpp:150-172 | the line of a value: quoted text, dword, or wrapped hexadecimal bytes |
| `RegWriter.Writer.AppendKeyHeader` | src/regfile/reg_file.cpp:183-190 | a section is appended behind a blank line unless it is the first |
| `RegWriter.Writer.AppendKey` | src/regfile/reg_file.cpp:207-221 | a section and its values, in the order given or sorted |
| `RegWriter.SortedValuesAreSorted` | src/regfile/reg_file.cpp:210-216 | sorting puts the default value first and the others by name ignoring case, and keeps each value |
| `RegWriter.Writer.Finish` | src/regfile/reg_file.cpp:223-233 | the text with its final blank line, and the writer emptied |
| `RegWriter.RenderReg` | src/regfile/reg_file.cpp:659-686 | the writer loop with its current section appends exactly the text of the operations |
| `RegRoundTrip.NameRead` | src/regfile/reg_file.cpp:404-579 | a name with line feeds, quotes and backslashes passes the line-joining reader, its CRLFs taken for line feeds |
| `RegRoundTrip.HexRead` | src/regfile/reg_file.cpp:120-143 | bytes of any length, wrapped over any number of lines, are joined again to one data text |
| `RegRoundTrip.RegRoundTrip` | src/regfile/reg_file.cpp:404-686 | reading a rendered list gives the same names, types, bytes and order; a section is opened where a path is not the open one, a key operation repeating it leaves nothing, and a CRLF in a name becomes LF |
| `RegRoundTrip.RegRoundTripExact` | src/regfile/reg_file.cpp:512-558 | where no name has a wrap in it, the names come back unchanged exactly when none has a CRLF in it |
| `RegNames.WrapIsLost` | src/regfile/reg_file.cpp:512-558 | a name with what looks like another exporter's wrap is read as another name, whatever stands behind it in the file, or the file is refused |
| `RegNames.NamesComeBackExactly` | src/regfile/reg_file.cpp:404-686 | whatever a list of operations holds, its file gives the operations back if and only if no name has a CRLF or a wrap in it |
| `RegMeaning.RegKeepsMeaning` | src/regfile/reg_file.cpp:659-686 | on every registry the file does what the operations do, each removal of a value after creating its key |
| `RegDocumentMeaning.RemovedKeys` | src/regfile/reg_file.cpp:581-633 | after a deletion nothing is left below the key, the key itself is marked and emptied, every other entry is as it was, and key_order names the survivors in their order |
| `RegDocumentMeaning.KeyKeys` | src/regfile/reg_file.cpp:581-633 | after a section line the document creates its key, what was collected for the key stays, and no other entry changes |
| `RegDocument.Parse` | src/regfile/reg_file.cpp:581-633 | the loop that edits the key map and key_order in place builds the fold of the operations |
| `RegDocumentMeaning.KeyOrderIsSound` | src/regfile/reg_file.cpp:581-633 | key_order names every key of the map once, and no removed key comes after a key below it |
| `RegDocumentMeaning.FoldKeepsMeaning` | src/regfile/reg_file.cpp:581-633 | on every registry the operations do what replaying the document does, and leave besides a set of empty keys that the operations alone determine |
| `RegDocumentMeaning.StandingIsCreating` | src/regfile/reg_file.cpp:581-633 | the document creates exactly the keys that a section opens and no later deletion reaches |
| `RegDocumentMeaning.FoldIsExactWhenCovered` | src/regfile/reg_file.cpp:581-633 | the document means the operations on all registries if and only if each of those empty keys is at or above a key that a section opens and no later deletion reaches |
| `RegDocumentMeaning.NoSurplusWithoutLateDeletion` | src/regfile/reg_file.cpp:581-633 | lists whose deletions hit nothing created before lose nothing |
| `RegDocumentMeaning.FoldForgetsEmptyParents` | src/regfile/reg_file.cpp:581-633 | the case that does lose something: a key created and deleted again leaves the keys above it, the document does not |
| `RegDocumentMeaning.ReadIsSectional` | src/regfile/reg_file.cpp:404-579 | every list that the reader can produce has its values under open sections |
| `RegDocumentMeaning.DocumentOfFileKeepsMeaning` | src/regfile/reg_file.cpp:404-633 | loading any file as a document keeps the meaning of its operations, apart from that set of keys |
| `BatchSyntax.Quote` | src/regfile/batch_script.cpp:72-94 | backslash runs before quotes and the closing quote are doubled, quotes escaped and percents doubled |
| `BatchSyntax.ExpandPercents` | src/regfile/batch_script.cpp:337-373 | doubled percents halve, variables are replaced, anything else with a percent is refused |
| `BatchSyntax.SkipRedirect` | src/regfile/batch_script.cpp:264-335 | where the scanner continues behind a redirection |
| `BatchSyntax.SplitCommands` | src/regfile/batch_script.cpp:264-335 | commands with their separators, quotes, carets, parentheses and redirections |
| `BatchSyntax.ReadArgument` | src/regfile/batch_script.cpp:24-70 | one argument under the C runtime rules for quotes and backslashes |
| `BatchSyntax.SplitArguments` | src/regfile/batch_script.cpp:24-70 | all arguments of a command text |
| `BatchLayers.ExpandQuotedRest` | src/regfile/batch_script.cpp:337-373 | whatever stands in a quoted text, percent expansion undoes exactly the doubling |
| `BatchLayers.QuotedPasses` | src/regfile/batch_script.cpp:264-335 | whatever stands in a quoted text (`&`, `&#124;`, `>`, `^`, parentheses), the command splitter leaves it alone and ends outside the quotes |
| `BatchLayers.ArgumentQuoted` | src/regfile/batch_script.cpp:24-94 | the argument splitter gives the text back that was quoted, backslash runs and quotes included |
| `RegExe.ReadOptions` | src/regfile/reg_exe_syntax.cpp:53-182 | the argument loop fills the options as the grammar of switches says, each switch once and one of each group |
| `RegExe.SplitPieces` | src/regfile/reg_exe_syntax.cpp:235-245 | the pieces of a multi-string text between its separators |
| `RegExe.SplitItems` | src/regfile/reg_exe_syntax.cpp:232-260 | the items of a multi-string text: an empty last piece is dropped and only a single item may be empty |
| `BatchRuns.TypeNameParses` | src/regfile/reg_exe_syntax.cpp:184-223 | the name of a type is read as that type |
| `BatchRuns.AddParses` | src/regfile/reg_exe_syntax.cpp:53-182 | the arguments of a written add command set exactly the key, name, type, separator and data they were written for |
| `BatchRuns.DeleteParses` | src/regfile/reg_exe_syntax.cpp:53-182 | the arguments of a written delete command name exactly the key or value they were written for |
| `BatchReader.ReadRegCommand` | src/regfile/batch_script.cpp:179-238 | what an add or delete command does, and which commands are refused |
| `BatchReader.RunOneLine` | src/regfile/batch_script.cpp:382-500 | one line through trimming, percent expansion, command splitting and the commands themselves |
| `BatchReader.RunAll` | src/regfile/batch_script.cpp:382-500 | the commands of a line one after the other, with skipped alternatives |
| `BatchReader.ParseBatch` | src/regfile/batch_script.cpp:382-507 | the lines of a script joined at carets and run in an environment of variables |
| `BatchWriter.PickUnused` | src/regfile/batch_script.cpp:121-177 | the first separator that no item contains, or the last candidate |
| `BatchWriter.RenderBatch` | src/regfile/batch_script.cpp:509-589 | the loop with its pending key line writes exactly the lines of the planned operations and reports exactly the skipped ones |
| `BatchKeyLine.KeyRuns` | src/regfile/batch_script.cpp:250-262 | the query-or-add line of a key is recognised and read as creating that key |
| `BatchRuns.ValueRuns` | src/regfile/batch_script.cpp:121-177 | the line of a value sets that value: name, type and bytes |
| `BatchRuns.RemoveValueRuns` | src/regfile/batch_script.cpp:179-238 | the line that removes a value removes that value |
| `BatchRuns.RemoveKeyRuns` | src/regfile/batch_script.cpp:179-238 | the line that removes a key removes that key |
| `BatchValues.JoinSplits` | src/regfile/batch_script.cpp:121-177 | items joined by a separator that none contains and that is no border of itself are split into the same items |
| `BatchValues.BatchHoldsExactly` | src/regfile/batch_script.cpp:121-177 | a value has a line if and only if it is of one of the eight types and its bytes are the ones its text form without line breaks stands for |
| `BatchRoundTrip.ScriptIsReadBack` | src/regfile/batch_script.cpp:382-589 | a script of writable operations, behind its header lines, is read back as exactly those operations |
| `BatchMeaning.BatchIsReadBack` | src/regfile/batch_script.cpp:382-589 | for every list of normalised operations the reader accepts the rendered script and returns the operations that have a line |
| `BatchMeaning.BatchKeepsMeaning` | src/regfile/batch_script.cpp:509-589 | on every registry the script does what the operations without the skipped ones do, though key lines were dropped |
| `BatchMeaning.KeptHasLine` | src/regfile/batch_script.cpp:535-570 | a kept operation has a line of its own, or is a key that a later emitted line creates |
| `BatchMeaning.DropWaiting` | src/regfile/batch_script.cpp:535-570 | dropping the waiting key before the operation that covers it changes no registry |
| `PowerShellLexer.ReadParts` | src/regfile/powershell_script.cpp:85-134 | the parts of an expandable string: text with its backtick escapes, and variables |
| `PowerShellLexer.ReadSingleQuoted` | src/regfile/powershell_script.cpp:237-259 | a single-quoted string with any of four quote characters, doubled ones taken once |
| `PowerShellLexer.ReadDoubleQuoted` | src/regfile/powershell_script.cpp:260-293 | the end and the body of a double-quoted string with any of four quote characters |
| `PowerShellLexer.Tokenize` | src/regfile/powershell_script.cpp:137-420 | the tokenizer loop with its depth, adjacency and member flags yields exactly the tokens of the script |
| `PowerShellPieces.BehindMatches` | src/regfile/powershell_script.cpp:137-420 | what a written piece leaves behind for the next one: open parentheses, an adjacent token, a member name to come, a joined line |
| `PowerShellQuoted.QuotedReads` | src/regfile/powershell_script.cpp:237-293 | any literal, in single or double quotes, is read as one string token with its text |
| `PowerShellQuoted.EscapedParts` | src/regfile/powershell_script.cpp:85-134 | backtick escapes of NUL, tab, CR, LF, backtick, dollar and double quotes are undone, and no variable appears |
| `PowerShellQuoted.NumberReads` | src/regfile/powershell_script.cpp:375-396 | a hexadecimal number up to 64 bits is one number token: a signed int up to 32 bits, a long with its suffix |
| `PowerShellLines.PiecesRead` | src/regfile/powershell_script.cpp:137-420 | any list of pieces that fit where they stand is read as exactly their tokens, wherever it stands in a script |
| `PowerShellItems.ReadBytes` | src/regfile/powershell_script.cpp:985-997 | the bytes of an item, refused unless every element is a number from 0 to 255 |
| `PowerShellItems.Interpolate` | src/regfile/powershell_script.cpp:827-845 | variables in a string are replaced by their text, others refused |
| `PowerShellInterpreter.Interpreter.constructor` | src/regfile/powershell_script.cpp:486-489 | an interpreter starts at the first token without variables and output |
| `PowerShellInterpreter.Interpreter.Expression` | src/regfile/powershell_script.cpp:722-738 | a comma list or a single value, at the new position with the operations its calls added |
| `PowerShellInterpreter.Interpreter.Unary` | src/regfile/powershell_script.cpp:740-758 | casts and postfix calls, and the nesting limit of 256 |
| `PowerShellInterpreter.Interpreter.Primary` | src/regfile/powershell_script.cpp:760-825 | strings, numbers, variables, words, static members and parentheses |
| `PowerShellInterpreter.Interpreter.CallArguments` | src/regfile/powershell_script.cpp:847-861 | the arguments of a call |
| `PowerShellInterpreter.Interpreter.StaticMember` | src/regfile/powershell_script.cpp:873-921 | root keys, enumeration names, base keys and the native SetValue with its type wrapped to 32 bits |
| `PowerShellInterpreter.Interpreter.Postfix` | src/regfile/powershell_script.cpp:923-970 | calls on keys: create, open, set, delete, close |
| `PowerShellInterpreter.Interpreter.Arguments` | src/regfile/powershell_script.cpp:671-711 | parameters, switches and values of a command |
| `PowerShellInterpreter.Interpreter.Statement` | src/regfile/powershell_script.cpp:552-582 | assignments, commands, expressions and the end of a script |
| `PowerShellInterpreter.Interpreter.Run` | src/regfile/powershell_script.cpp:491-509 | the interpreter, moving over its tokens in place, gives exactly the operations that the grammar gives, or fails where it gives none |
| `PowerShellInterpreter.ParsePowerShell` | src/regfile/powershell_script.cpp:1413-1426 | tokens and statements together: the operations of a script, or a refusal |
| `PowerShellWriter.WriteLiteral` | src/regfile/powershell_script.cpp:1313-1348 | a literal in single quotes, in double quotes with escapes where control characters need them, or none |
| `PowerShellWriter.WriteByteArray` | src/regfile/powershell_script.cpp:1350-1362 | bytes as a typed list |
| `PowerShellWriter.RenderPowerShell` | src/regfile/powershell_script.cpp:1428-1489 | the loop with its open key and native flag writes exactly the script of the operations and reports exactly the skipped ones |
| `PowerShellValues.ExpressionUnary` | src/regfile/powershell_script.cpp:722-825 | the tokens of a value's expression evaluate to the item that stands for it |
| `PowerShellValues.SetIsBack` | src/regfile/powershell_script.cpp:1054-1112 | that item, set under its kind, gives the name, type and bytes back, DWORDs above 0x7FFFFFFF passing through a negative int |
| `PowerShellValues.NativeIsBack` | src/regfile/powershell_script.cpp:906-918 | the native call gives any type number and any bytes back |
| `PowerShellRoots.RootOfProperty` | src/regfile/powershell_script.cpp:32-38 | every root key is found again under its property name, in lower case |
| `PowerShellLineRuns.OpenRuns` | src/regfile/powershell_script.cpp:1460-1464 | running an opening line puts the key into $key and creates it unless it is a root |
| `PowerShellLineRuns.RemoveKeyRuns` | src/regfile/powershell_script.cpp:1448-1458 | running a removal line removes exactly that key |
| `PowerShellValueRuns.ManagedRuns` | src/regfile/powershell_script.cpp:1470-1477 | running a SetValue line sets exactly that value on the key in $key |
| `PowerShellValueRuns.NativeRuns` | src/regfile/powershell_script.cpp:1478-1482 | running a line of the native helper sets exactly that value |
| `PowerShellFrontRuns.HelperRuns` | src/regfile/powershell_script.cpp:18-24 | the line that compiles the helper is accepted and changes nothing |
| `PowerShellScript.ScriptIsTokens` | src/regfile/powershell_script.cpp:1428-1489 | a whole rendered script is read as the tokens of its lines |
| `PowerShellRoundTrip.PowerShellIsReadBack` | src/regfile/powershell_script.cpp:1413-1489 | for every list of normalised operations the rendered script is accepted and gives every operation back that was not skipped, under the keys that were opened |
| `PowerShellMeaning.PowerShellKeepsMeaning` | src/regfile/powershell_script.cpp:1428-1489 | on every registry with its root keys the script does what the operations that are not skipped do, each removal of a value after creating its key |
| `OpenedKeys.OpeningKeepsMeaning` | src/regfile/reg_file.cpp:659-686 | on every registry, opening the key of each removal first does what the operations do and leaves the opened keys besides, except those a later deletion reaches |
| `OpenedKeys.OpeningIsExact` | src/regfile/powershell_script.cpp:1460-1468 | opening them changes nothing if and only if the operations leave every one of those keys themselves |
| `OpenedKeys.OpeningIsExactEverywhere` | src/regfile/powershell_script.cpp:1460-1468 | it changes nothing on any registry if and only if it changes nothing on an empty one |
| `FormatsAgree.FormatsAgree` | src/regfile/script_convert.cpp:123-135 | written as a batch script and read back, operations that every format can hold do the same on every registry; written as .reg or PowerShell, if and only if they leave the keys that those open |
| `Wildcard.WildcardMatch` | src/cli/reg_command.cpp:287-321 | the loop with one remembered star terminates and gives the result of the backtracking scan |
| `Wildcard.MatchIsGlob` | src/cli/reg_command.cpp:287-321 | a reported match is a match in the declarative glob relation, for every text and pattern |
| `Wildcard.GlobIsMatch` | src/cli/reg_command.cpp:287-321 | on a text without stars every match is found, so one remembered star is enough |
| `Wildcard.MatchIsGlobExactlyOnStarFreeTexts` | src/cli/reg_command.cpp:296-301 | the matcher decides the glob relation for every pattern if and only if the text has no star |
| `CompareKeys.SortNames` | src/cli/reg_command.cpp:940-945 | an order of the names in which every one is in its place ignoring case |
| `CompareKeys.FindName` | src/cli/reg_command.cpp:947-953 | the binary search finds a name exactly when some item has it ignoring case |
| `CompareKeys.Compare.AddLine` | src/cli/reg_command.cpp:908-934 | a line sets the difference flag and is printed as the output option says |
| `CompareKeys.CompareTrees` | src/cli/reg_command.cpp:961-1039 | the recursion adds exactly the lines of the two keys, and fails only for unreadable keys or a missing named value |
| `CompareKeys.CompareShared` | src/cli/reg_command.cpp:1012-1023 | the shared subkeys are compared in the left order, each with everything below it |
| `CompareKeys.EqualExactlyWhenSame` | src/cli/reg_command.cpp:961-1039 | no line shows a difference if and only if the keys are equal as maps of values and subkeys ignoring case |
| `CompareKeys.CompareCommand` | src/cli/reg_command.cpp:1071-1079 | for readable keys without a value filter the command answers, and reports a difference exactly when the trees differ, whichever lines are printed |
| `ValueComments.ConditionKeyIsInjective` | src/changes/value_comments.cpp:38-44 | two rules have the same condition key if and only if they have the same condition, whatever their names hold |
| `ValueComments.WinnerIsBest` | src/changes/value_comments.cpp:207-229 | what matching means: the latest rule of maximal specificity among those that apply |
| `ValueComments.ValidateCatalog` | src/changes/value_comments.cpp:298-320 | accepts a catalog exactly when no two of its rules conflict |
| `ValueComments.CatalogIsUnambiguous` | src/changes/value_comments.cpp:298-320 | in an accepted catalog no two rules that apply to a target are equally specific |
| `ValueComments.CatalogPermutes` | src/changes/value_comments.cpp:298-320 | every permutation of an accepted catalog is accepted |
| `ValueComments.CatalogOrderIsIrrelevant` | src/changes/value_comments.cpp:207-320 | every permutation of an accepted catalog has the same winner for every target |
| `ValueCommentStore.MergedOrderIsIrrelevant` | src/changes/value_comments.cpp:190-229 | whatever the store held, an accepted catalog merged in any order answers every target with the same rule |
| `ValueCommentStore.Comments.Reindex` | src/changes/value_comments.cpp:248-263 | the indexes agree with the rule list |
| `ValueCommentStore.Comments.Merge` | src/changes/value_comments.cpp:190-205 | of each condition the last rule given stays, and the indexes agree |
| `ValueCommentStore.Comments.Set` | src/changes/value_comments.cpp:231-234 | one condition gets its new rule, all others keep theirs |
| `ValueCommentStore.Comments.Erase` | src/changes/value_comments.cpp:236-241 | one condition loses its rule, all others keep theirs |
| `ValueCommentStore.Comments.Clear` | src/changes/value_comments.cpp:184-188 | no rules and empty indexes |
| `ValueCommentStore.Comments.Match` | src/changes/value_comments.cpp:207-229 | the rule found through the indexes is the winner of a scan over all rules |
| `ValueCommentStore.BestIsWinner` | src/changes/value_comments.cpp:207-229 | looking only at the rules of the target's name gives the winner among all |
| `ValueCommentStore.Run` | src/changes/value_comments.cpp:184-263 | after any run of merges, sets, erasures and clears the indexes agree and every condition has the rule last given for it |
| `KeySnapshots.Store.Fill` | src/changes/key_snapshot.cpp:91-108 | values and children of a snapshot are added to a key; on failure only that key has changed; nothing refused means success |
| `KeySnapshots.Store.Restore` | src/changes/key_snapshot.cpp:118-136 | success makes exactly the snapshot's key; a failure leaves the parent, or one partial child that the flag reports |
| `KeySnapshots.Store.RestoreKey` | src/changes/key_snapshot.cpp:189-208 | a restore is exact or undone: on failure the registry is as before if the clean-up deletion works, and at most the begun key, or what a deletion that fails half-way leaves of it, otherwise; a name that is taken is never touched |
| `KeySnapshots.Store.ReplaceKey` | src/changes/key_snapshot.cpp:140-181 | the key gets the snapshot's values and children and nothing outside it changes, whatever fails |
| `KeySnapshots.Store.Capture` | src/changes/key_snapshot.cpp:17-87 | a complete snapshot determines the key it was taken of, all the way down |
| `KeySnapshots.RestoreThenCapture` | src/changes/key_snapshot.cpp:17-208 | restoring an exact snapshot and capturing the new key gives the same snapshot; where nothing is refused both succeed |
| `KeySnapshots.ExactIsDetermined` | src/changes/key_snapshot.cpp:17-136 | two exact snapshots that make the same key are equal |
| `KeySnapshots.AddingIsLocal` | src/changes/key_snapshot.cpp:118-136 | every key elsewhere, siblings included, is as it was |
| `KeySnapshots.Store.DeleteTree` | src/win32/registry_native.cpp:260-293 | a key goes after the keys below it; when one of them is refused, the key keeps its values and its last subkeys, the first of these perhaps in part |
| `UndoStacks.UndoStack.Push` | src/changes/undo_stack.cpp:11-15 | the operation becomes the last to undo and nothing is left to redo |
| `UndoStacks.UndoStack.PushSteps` | src/changes/undo_stack.cpp:17-31 | a mass change is nothing, one step or one group, and truncates the redo side unless it is empty |
| `UndoStacks.UndoStack.CompletePartial` | src/changes/undo_stack.cpp:33-56 | the replayed steps change sides as a group, the rest stays as one, and exactly the next step is dropped on request |
| `UndoStacks.UndoStack.TakeUndo` | src/changes/undo_stack.cpp:63-72 | the last operation leaves the undo side |
| `UndoStacks.UndoStack.TakeRedo` | src/changes/undo_stack.cpp:74-83 | the next operation leaves the redo side |
| `UndoStacks.UndoStack.CompleteUndo` | src/changes/undo_stack.cpp:85-88 | an undone operation becomes the next to redo |
| `UndoStacks.UndoStack.CompleteRedo` | src/changes/undo_stack.cpp:90-93 | a redone operation becomes the last to undo |
| `UndoSessions.Session.Change` | src/changes/undo_stack.cpp:17-31 | the steps are done in order and recorded as one operation; what was left to redo is gone |
| `UndoSessions.Session.ReplayStep` | src/frame/commands/undo.cpp:77-93 | a replay stops at the first step that fails, from the back for undo and from the front for redo, and the store stays as that step leaves it |
| `UndoSessions.Session.EditUndo` | src/frame/commands/clipboard_commands.cpp:545-570 | an undo, complete or stopped anywhere, only moves the cursor back by the steps that went through, and loses at most the one rename that left both names |
| `UndoSessions.Session.EditRedo` | src/frame/commands/clipboard_commands.cpp:577-602 | a redo, complete or stopped anywhere, only moves the cursor forward the same way |
| `UndoSessions.RunMovesCursor` | src/changes/undo_stack.cpp:11-93 | over any run, whatever fails in it, the two stacks are one timeline and a cursor: replays move the cursor by the steps that went through, a change replaces what comes after it, and a dropped rename takes exactly its own step away |
| `UndoSessions.ReplaysKeepTimeline` | src/changes/undo_stack.cpp:33-93 | undos and redos alone, complete or stopped anywhere, never change the timeline |
| `UndoSessions.KeptExactlyWhenSound` | src/frame/commands/undo.cpp:77-93 | where the undo side accounts for the store, a command leaves it so if and only if its change can be taken back where it is made, or its replay goes through or stops at a step that leaves nothing of its own; a step that is dropped must leave the store without it, on which the rest can be taken back |
| `UndoSessions.RunKeepsStoreExactly` | src/changes/undo_stack.cpp:11-93 | all along a run the store is the undo side replayed from the start, and the timeline can be taken back, if and only if every command is of that kind where it comes |
| `UndoSessions.Run` | src/changes/undo_stack.cpp:11-93 | a session that runs any list of commands is where the commands lead, on the timeline and in the store |
| `UndoSteps.StepIsUndone` | src/frame/commands/undo.cpp:44-75 | each of the eight kinds of steps is undone exactly on the registry it was recorded on |
| `UndoRegions.StepAgrees` | src/frame/commands/undo.cpp:44-75 | redoing or undoing any step on two registries that agree outside a region leaves them agreeing there, if the step moves nothing across its border |
| `UndoRegions.SessionIsRightOutside` | src/frame/commands/undo.cpp:44-93 | over any run of recorded changes, undos and redos, wherever and however steps fail: outside any region that holds what the failed steps may have touched, the registry is what the changes on the undo side make of the one at the start, and that one itself when nothing is left to undo |
| `UndoRegions.SessionKeepsRegistry` | src/frame/commands/undo.cpp:44-93 | if no step that fails leaves anything of its own, that is the whole registry |
| `UndoRegions.OneFailureIsLocal` | src/frame/commands/undo.cpp:44-93 | the first step that leaves something puts the registry off at most at and below its own key, a value rename at most at its names in its key |
| `UndoRegions.RefusedReplaceIsOff` | src/frame/commands/clipboard_commands.cpp:556-562 | a replaced key whose undo is refused after the key was emptied: the program keeps the replacement on the undo side, and the registry is at no place of the timeline |
| `RegistryTrees.PutReplaces` | src/changes/key_snapshot.cpp:140-181 | another content for one key of a tree is, in the map of paths, everything below that path replaced and nothing else changed |
| `RegistryTrees.ReplayReplace` | src/changes/key_snapshot.cpp:140-181 | replacing a key of the tree does to the map of paths exactly what the recorded step says, or fails and touches nothing but what is below the key |
| `RegistryTrees.ReplayDelete` | src/win32/registry_native.cpp:260-293 | deleting a key of the tree does exactly what the recorded step says, or fails and touches nothing beside the key |
| `RegistryTrees.ReplayRestore` | src/changes/key_snapshot.cpp:189-208 | restoring a key of the tree does exactly what the recorded step says, or fails and touches nothing beside the key |
| `EscapedFields.AppendEscaped` | src/records/escaped_fields.cpp:31-64 | the loop escapes separators, backslashes and lone surrogates |
| `EscapedFields.AppendUnescaped` | src/records/escaped_fields.cpp:66-101 | the loop undoes known escapes and keeps unknown ones |
| `EscapedFields.EscapeRoundTrip` | src/records/escaped_fields.cpp:31-101 | any sequence of 16-bit units comes back, lone surrogates included |
| `EscapedFields.EscapedFieldIsStorable` | src/records/escaped_fields.cpp:31-64 | every escaped field is well-formed UTF-16 (D91, section 3.9 of the Unicode Standard) without tab, CR or LF |
| `EscapedFields.Lines` | src/records/escaped_fields.cpp:136-152 | the lines of a text, without their line ends |
| `EscapedFields.AppendRecord` | src/records/escaped_fields.cpp:154-162 | escaped fields with tabs between them and a line end |
| `EscapedFields.DecodeRecord` | src/records/escaped_fields.cpp:164-179 | the fields of a line |
| `EscapedFields.RecordsRoundTrip` | src/records/escaped_fields.cpp:103-179 | a list of records survives the file if and only if every record has a field |
| `EscapedFields.ParseUnsigned` | src/records/escaped_fields.cpp:181-203 | accepts exactly the digit strings up to the maximum, without overflow, and returns their number |
| `ChangeHistories.SerializeHistoryEntry` | src/changes/change_history.cpp:202-207 | the fifteen fields of an entry |
| `ChangeHistories.ParseHistory` | src/changes/change_history.cpp:160-200 | all rows of a file or none, with what a malformed row does |
| `ChangeHistories.EntryRoundTrip` | src/changes/change_history.cpp:102-207 | an entry comes back, up to the source of an unknown tab |
| `ChangeHistories.HistoryIsFaithful` | src/changes/change_history.cpp:160-207 | a history file gives its entries back if and only if each has a known source or no source data at all |
| `HistoryTrim.NthElement` | src/changes/change_history.cpp:36-80 | the stamp that sorting would put at a position |
| `HistoryTrim.ChangeHistory.Trim` | src/changes/change_history.cpp:36-80 | trimming in place at the cutoff equals removing the oldest entry, the earliest among equals, one at a time |
| `HistoryTrim.ChangeHistory.CompactInPlace` | src/changes/change_history.cpp:36-80 | the entries that stay are moved down in order and the rest is cut off |
| `HistoryTrim.ChangeHistory.Append` | src/changes/change_history.cpp:121-130 | added entries are trimmed together with the old ones |
| `HistoryTrim.TrimmedKeepsNewest` | src/changes/change_history.cpp:36-80 | what is kept is a subsequence in list order, and every dropped entry is older than every kept one |
| `BitFields.Extract` | src/dialogs/bitfield_definition.cpp:295-306 | the loop collects the bits of a field in order |
| `BitFields.Apply` | src/dialogs/bitfield_definition.cpp:308-323 | the loop clears and sets the bits of a field |
| `BitFields.ExtractOfApply` | src/dialogs/bitfield_definition.cpp:295-323 | taking out what was put in gives it modulo two to the number of bits |
| `BitFields.ApplyOfExtract` | src/dialogs/bitfield_definition.cpp:295-323 | putting back what was taken out changes nothing |
| `BitFields.ApplyIsLocal` | src/dialogs/bitfield_definition.cpp:308-323 | bits outside the field never change |
| `BitFields.DisjointFieldsCommute` | src/dialogs/bitfield_definition.cpp:308-323 | disjoint fields can be set in either order and do not disturb each other |
| `BitFields.StateFor` | src/dialogs/bitfield_definition.cpp:325-335 | the first state of a value |
| `BitFields.AppliedStateIsFound` | src/dialogs/bitfield_definition.cpp:295-335 | applying the value of a state makes the field show that same state |
| `BitFields.WidthMaskIsPower` | src/dialogs/bitfield_definition.cpp:392-399 | the mask of a width is two to the width less one, also at 64 bits |
| `BitFieldDefinitions.Definition.BuildLookup` | src/dialogs/bitfield_definition.cpp:401-417 | a mask has exactly the bits of its field, and the owner table agrees with the fields |
| `BitFieldDefinitions.Definition.FieldIndexForBit` | src/dialogs/bitfield_definition.cpp:337-349 | the answer is i exactly when the bit belongs to field i, and none exactly when it belongs to no field |
| `BitFieldDefinitions.CheckFields` | src/dialogs/bitfield_definition.cpp:419-539 | accepts exactly fields with ascending bits inside the width, claimed once, with fitting distinct states |
| `BitFieldDefinitions.Definition.Validate` | src/dialogs/bitfield_definition.cpp:419-539 | accepts exactly the well-formed definitions; an accepted one is sorted and has its lookup, a refused one is unchanged |
| `BitFieldDefinitions.ValidatedIsIdempotent` | src/dialogs/bitfield_definition.cpp:496-539 | validating twice is validating once |
| `BitFieldDefinitions.Definition.ChangeWidth` | src/dialogs/bitfield_definition_editor.cpp:815-849 | narrowing needs consent and leaves a definition that is valid at the new width with its lookup |
| `BitFieldDefinitions.NarrowedIsSettled` | src/dialogs/bitfield_definition_editor.cpp:815-849 | a narrowed definition is accepted at its new width and needs no more sorting |
| `BitFieldDefinitions.SurvivorKeepsLowBits` | src/dialogs/bitfield_definition_editor.cpp:815-849 | each surviving field extracts its old value modulo two to the bits it kept |
| `KeyTree.RegistryTree.AddChildren` | src/browse/key_tree.cpp:372-487 | whatever was shown, the items then stand for the sorted entries one by one: each is an old item whose node keeps its subkey, or a new one under the subkey of its entry; exactly the nodes of deleted subtrees are freed, and strictly sorted siblings keep their nodes |
| `KeyTree.RegistryTree.Merge` | src/browse/key_tree.cpp:423-485 | walking items and entries side by side deletes what has gone, keeps what meets with its node and its subkey, and inserts what is new under its own subkey |
| `KeyTree.RegistryTree.FillEmpty` | src/browse/key_tree.cpp:423-485 | a first level is filled from the last entry to the first |
| `KeyTree.RegistryTree.StoreNode` | src/browse/key_tree.cpp:305-311 | a node gets an identity of its own |
| `KeyTree.ShownTextsAreEntries` | src/browse/key_tree.cpp:423-485 | the labels are those of the sorted entries ignoring case, as long as they fit the text buffer |
| `KeyTree.SortedEntries` | src/browse/key_tree.cpp:372-422 | sorting puts the entries in order and keeps each |
| `ExcludePaths.SplitExcludePaths` | src/dialogs/query_dialog.cpp:246-303 | the scanner with its current, quoted and kept state splits at separators outside quotes |
| `ExcludePaths.JoinExcludePaths` | src/dialogs/query_dialog.cpp:305-335 | items are joined with quotes where they need them |
| `ExcludePaths.JoinedSplits` | src/dialogs/query_dialog.cpp:246-335 | splitting joined items gives the non-empty ones back, whatever commas, semicolons, quotes, line breaks and spaces they hold |

## Left out

- Windows, dialogs, list and tree controls, painting, translation and message texts: of a refusal the model keeps that it happens, not its wording or line number.
- The live and offline registries, privileges, hive files, running reg.exe, and reading or writing files; the registry is the map or tree above.
- RegRoundTrip.RegRoundTrip: paths must be trimmed, on one line and not start with a minus sign, because the reader takes such lines for something else; the format has no way to write them.
- RegNames.NamesComeBackExactly: is about lists with such paths, and about any names.
- RegReader.ParseOperations: the conversion of REGEDIT4 bytes from the ANSI code page is a parameter, and cancelling is not modelled.
- BatchReader.ParseBatch: `set`, `setlocal`, `endlocal` and `exit` are modelled as far as the reader knows them; environment variables of the machine are not.
- PowerShellInterpreter.ParsePowerShell: here-strings, `if` blocks on Test-Path, registry drives and the registry cmdlets are refused by the model although the program reads them; the renderer writes none of them. The lines of Tokenize, Primary, Statement, Arguments and Run below follow from this.
- PowerShellLexer.Tokenize: refuses here-strings; line numbers of tokens are not kept, and identifiers are ASCII.
- PowerShellLexer.ReadParts: names of variables are ASCII.
- PowerShellInterpreter.Interpreter.Primary: refuses registry cmdlets in parentheses.
- PowerShellInterpreter.Interpreter.Arguments: the values of arguments are evaluated and not returned, because only commands without effect on the registry take them in the model.
- PowerShellInterpreter.Interpreter.Statement: refuses `if` blocks and registry cmdlets.
- PowerShellInterpreter.Interpreter.Run: refuses scripts that hold them.
- PowerShellMeaning.PowerShellKeepsMeaning: the registry must have its root keys, which every Windows registry has; the script takes a root key without creating it.
- FormatsAgree.FormatsAgree: is about operations that no format skips; the theorems of each format say what happens to the others.
- KeySnapshots.Store.Capture: security descriptors, time stamps and the count of subkeys the registry reports are not part of a key; that writing them may fail is.
- KeySnapshots.Store.CreateKey: a link is made whole or not at all; deleting one whose target could not be written is taken to succeed.
- KeySnapshots.Store.ReadLink: reading whether a key is a link does not fail in the model.
- UndoRegions.SessionIsRightOutside: what a failed step may touch is proved of the routines on key trees for creating, deleting and replacing keys (`RegistryTrees`); for renames and single values it is read off the registry layer (src/registry/registry_store.cpp:365-447, src/registry/key_algorithms.h:402-423).
- UndoSteps.StepIsUndone: is about steps that go through; `UndoRegions` says what one that fails may leave. Groups inside groups do not occur in the program and are flat in the model. Names differ ignoring case.
- RegistryTrees.ReplayReplace: subkeys have names of their own without backslashes, as the registry demands; classes and links are not part of the map of paths. The same holds for ReplayDelete and ReplayRestore.
- ValueComments.ValidateCatalog: rules are taken as the reader returns them, with a name or a path where their kind needs one; reading and writing JSON is not modelled.
- BitFieldDefinitions.Definition.Validate: the lengths of names, paths and texts and the number of paths are checked; reading and writing JSON and the wording of a refusal are not modelled.
- KeyTree.RegistryTree.AddChildren: the tree control is a sequence of items; asking it for the text of an item does not fail, and texts longer than its buffer compare as their first 511 units.
- CompareKeys.SortNames: the library's sort is modelled as an insertion; the theorems use only that it returns an order.
- HistoryTrim.NthElement: the library's selection is modelled as a quickselect; the theorems use only which stamp it returns.
- ChangeHistories.ParseHistory: sorting by column and the history file's own handle are not modelled.
- HistoryTrim.ChangeHistory.Append: the entries come with their time stamps.
- Selecting the operations below one key, reading operations from the registry, and the table of file extensions: they only combine or filter what is modelled.
- Case folding outside ASCII, and letters and digits outside ASCII in PowerShell names.
