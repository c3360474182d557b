# mychat terminal core in Dafny

This project models the deterministic core of mychat, a terminal chat client
written in C++, and proves properties of it. The model covers:

- **The input engine.**
  - `VtParser` is a byte-at-a-time state machine. It turns raw terminal bytes into key, mouse, resize and paste events. It handles plain ASCII and control bytes, UTF-8 (section 3 of RFC 3629), CSI and SS3 sequences (section 5.4 of ECMA-48), the Kitty keyboard protocol, xterm SGR mouse reports, bracketed paste, and bare-ESC disambiguation on timeout.
  - `InputField` is the Emacs-style line editor those events drive. It has a byte buffer and a cursor, a history with a saved line, and a 16-entry kill ring with kill merging.
  - `KeyCode` and `Modifier` are the shared vocabulary of keys and modifier bits.
- **The widgets.**
  - `List`: filtering and selection.
  - The select, confirm and input dialogs.
  - `LogPanel`: a bounded log with a scroll clamp.
  - `Box` geometry and border glyphs.
  - `StatusBar`: the hint join.
- **The text utilities** `displayWidth`, `truncate`, `wordWrap` and `Text`.
- **Output.**
  - The `MarkdownRenderer` line classifiers and the block state used by both `render` and streaming.
  - The `TerminalOutput` escape-sequence serialiser: SGR (section 8.3.117 of ECMA-48) and CUP (section 8.3.21).
  - The DEC sixel encoder, with its median-cut palette and six-row band layout.
- **Chat.** `ChatSession`'s system-prompt invariant and the `Role` wire names.
- **From the application**:
  - the text-to-speech feed (a `<think>` tag filter followed by a sentence splitter);
  - the grapheme offsets of the input line;
  - the horizontal scroll of the input box;
  - the height of the input box.

Strings are byte sequences: `Utf8.Byte` is a `char` up to U+00FF. A class whose
methods update fields in place is a Dafny `class`, and its methods are proved
against a function of the old state (`Snapshot()`, `TtsState()` and similar).
Each loop of the source is a loop here, proved against a specification
function. The properties are lemmas about those functions. Where a finding
below shows the source wrong, the class methods adopt the corrected behaviour:
`Texts.Text.Wrap` cuts character-mode chunks at codepoint boundaries, and
`InputFields.InputField.SetMaxHistory`, through `LineEditor.SetMaxHistory`,
clamps the history index.

## Model

| member | source | states |
|---|---|---|
| Utf8.EncodeUtf8 | src/tui/InputField.cpp:15-41 | at most four bytes; nothing exactly for codepoints from 0x110000; one byte equal to an ASCII codepoint; otherwise a 110/1110/11110 lead byte by length followed by continuation bytes |
| Utf8.SkipContinuations | src/tui/InputField.cpp:48-50 | the loop stops at the first byte at or after its start that is not a continuation byte, or at the end |
| Utf8.NextBoundary | src/tui/InputField.cpp:44-52 | at or past the end the position is returned unchanged; otherwise the result is past pos, within the text, skips only continuation bytes and stops at the end or at a non-continuation byte |
| Utf8.BackOverContinuations | src/tui/InputField.cpp:60-61 | the backward loop stops at 0 or at the last byte before its start that is not a continuation byte |
| Utf8.PrevBoundary | src/tui/InputField.cpp:55-63 | 0 stays 0; otherwise the result is before pos, steps back only over continuation bytes and stops at 0 or at a non-continuation byte |
| Utf8.NextUtf8 | src/tui/InputField.cpp:44-52 | the loop as written computes NextBoundary |
| Utf8.PrevUtf8 | src/tui/InputField.cpp:55-63 | the loop as written computes PrevBoundary |
| Decimal.DigitChar | src/tui/TerminalOutput.cpp:50 | the character of a decimal digit is a digit whose distance from '0' is the digit's value |
| Decimal.NatText | src/tui/TerminalOutput.cpp:50 | std::format of a non-negative number is at least one digit, all digits, with no leading zero |
| Decimal.IntText | src/tui/TerminalOutput.cpp:50 | std::format of an int is non-empty and starts with '-' exactly when the number is negative |
| Decimal.DigitsValueOfNatText | src/tui/TerminalOutput.cpp:50 | reading the formatted digits back gives the number |
| CharConv.LeadingDigitsIsLongestDigitPrefix | src/tui/VtParser.cpp:26 | the digits std::from_chars consumes are the longest digit prefix of the part |
| CharConv.LeadingDigitsOfDigits | src/tui/VtParser.cpp:26 | a part made only of digits is consumed whole |
| CharConv.FromCharsOfIntText | src/tui/VtParser.cpp:26 | std::from_chars of the decimal text of any 32-bit int succeeds with that int |
| KeyCodes.NamedKeysConsecutive | src/tui/KeyCode.hpp:13-50 | the 26 named keys run from Enter = 0x10000 up by one, and none of them is printable |
| KeyCodes.CodepointRoundTrip | src/tui/KeyCode.hpp:44-66 | for a printable codepoint, codepointFromKeyCode(keyCodeFromCodepoint(cp)) == cp |
| KeyCodes.NonPrintableCodepoint | src/tui/KeyCode.hpp:44-66 | a non-printable codepoint comes back as 0, and 0x10000..0x10019 cast to the named keys |
| Modifiers.OrAssign | src/tui/Modifier.hpp:32-36 | operator\|= stores and returns the OR of both operands |
| Modifiers.FlagsAreDistinctBits | src/tui/Modifier.hpp:10-29 | None is 0, Shift/Alt/Ctrl/Super are 1, 2, 4, 8, and any two distinct flags AND to None |
| Modifiers.OrLaws | src/tui/Modifier.hpp:20-23 | operator\| is commutative, associative and idempotent, with None as identity |
| Modifiers.HasModifierLaws | src/tui/Modifier.hpp:42-45 | a non-None flag is held by any combination containing it; None is never held |
| VtParser.Split | src/tui/VtParser.cpp:22 | std::views::split(';') yields at least one part for a non-empty buffer (see SplitJoin for the inverse) |
| VtParser.MapParts | src/tui/VtParser.cpp:22-30 | one value per part, in order |
| VtParser.SplitAtFirstSeparator | src/tui/VtParser.cpp:22 | splitting at the first ';' gives the part before it followed by the parts of the rest |
| VtParser.SplitWithoutSeparator | src/tui/VtParser.cpp:22 | a buffer without ';' is a single part |
| VtParser.SplitValuesAtSeparator | src/tui/VtParser.cpp:22-30 | the values of the parts at a separator are the value of the part before it followed by the values after it |
| VtParser.ConvertParts | src/tui/VtParser.cpp:19-32 | the part-by-part loop pushes exactly the converted value of every ';'-separated part, in order |
| VtParser.ParseCsiParams | src/tui/VtParser.cpp:19-32 | parseCsiParams returns CsiParams: nothing for an empty buffer, else from_chars of every part with 0 for a part that does not parse |
| VtParser.Parser.constructor | src/tui/VtParser.hpp:1-83 | a new parser is in Ground with empty buffers |
| VtParser.Parser.Feed | src/tui/VtParser.cpp:104-122 | the events and the new parser state are those of stepping every byte in order from the old state (Run) |
| VtParser.Parser.Timeout | src/tui/VtParser.cpp:124-134 | the events and state are TimeoutStep of the old state |
| VtParser.Parser.ProcessGround | src/tui/VtParser.cpp:136-193 | the events and state are GroundStep of the old state |
| VtParser.Parser.ProcessEscape | src/tui/VtParser.cpp:195-232 | the events and state are EscapeStep of the old state |
| VtParser.Parser.ProcessCsi | src/tui/VtParser.cpp:234-263 | the events and state are CsiStep of the old state |
| VtParser.Parser.ProcessSs3 | src/tui/VtParser.cpp:265-282 | the events and state are Ss3Step of the old state |
| VtParser.Parser.ProcessPaste | src/tui/VtParser.cpp:284-298 | the events and state are PasteStep of the old state |
| VtParser.Parser.ProcessUtf8 | src/tui/VtParser.cpp:300-320 | the events and state are Utf8Step of the old state |
| VtParser.Parser.DispatchCsi | src/tui/VtParser.cpp:322-429 | the events and state are DispatchStep of the old state |
| VtParserProps.RunAppend | src/tui/VtParser.cpp:104-122 | feeding a ++ b at once gives the same events and final state as feeding a and then b |
| VtParserProps.RunSnoc | src/tui/VtParser.cpp:107-120 | one more byte is one more step of the state machine |
| VtParserProps.IncrementalCursorUp | src/tests/TuiTests.cpp:482-500 | ESC, '[' and 'A' fed in three calls give nothing, nothing, then Up, back in Ground |
| VtParserProps.GroundBytes | src/tui/VtParser.cpp:136-169 | in Ground: printable ASCII is a key with that codepoint; CR/LF Enter; Tab; 0x08/0x7F Backspace; ESC moves to Escape; other controls are Ctrl+letter |
| VtParserProps.GroundLeadBytes | src/tui/VtParser.cpp:171-189 | a 110/1110/11110 lead byte waits for 1/2/3 continuation bytes; any other high byte is dropped without leaving Ground |
| VtParserProps.BrokenSequence | src/tui/VtParser.cpp:302-309 | a non-continuation byte abandons the sequence and is handled as in Ground |
| VtParserProps.DecodeEncode | src/tui/VtParser.cpp:436-453 | emitUtf8 decodes the UTF-8 encoding of every codepoint from 0x80 to 0x10FFFF back to that codepoint |
| VtParserProps.RunPartialSequence | src/tui/VtParser.cpp:300-320 | part of an announced sequence is held in the buffer with the remaining count and no event |
| VtParserProps.RunWholeSequence | src/tui/VtParser.cpp:300-320 | a lead byte with all its continuation bytes emits what emitUtf8 decodes and returns to Ground |
| VtParserProps.EncodedCodepoint | src/tui/VtParser.cpp:171-189 | the UTF-8 encoding of any codepoint from 0x80 to 0x10FFFF fed in Ground yields exactly one key with that codepoint |
| VtParserProps.EscapeBytes | src/tui/VtParser.cpp:195-232 | after ESC: '[' starts CSI, 'O' SS3, CR/LF Alt+Enter, printable Alt+char, anything else Escape and the byte again in Ground |
| VtParserProps.Ss3Bytes | src/tui/VtParser.cpp:265-282 | SS3 consumes one byte, returns to Ground and emits at most one key (P is F1, S is F4, A is Up) |
| VtParserProps.TimeoutResolvesBareEscape | src/tui/VtParser.cpp:124-134 | timeout turns a pending ESC into the Escape key and otherwise changes nothing |
| VtParserProps.BareEscapeThenTimeout | src/tests/TuiTests.cpp:454-463 | ESC alone gives nothing; the timeout then yields Escape and the initial state |
| VtParserProps.CsiByteClasses | src/tui/VtParser.cpp:234-263 | parameter bytes and intermediates accumulate, a final byte dispatches, anything else aborts to Ground without an event |
| VtParserProps.RunParamBytes | src/tui/VtParser.cpp:237-241 | a run of parameter bytes only accumulates in the parameter buffer |
| VtParserProps.SplitJoin | src/tui/VtParser.cpp:22 | splitting parts joined with ';' gives the parts back |
| VtParserProps.CsiParamsOfJoinedValues | src/tui/VtParser.cpp:19-32 | ints written in decimal and joined with ';' parse back to the same list |
| VtParserProps.DecodeModifiersRoundTrip | src/tui/VtParser.cpp:39-54 | decodeModifiers(1 + m) == m for every 4-bit modifier mask |
| VtParserProps.DecodeModifiersOfSmallParams | src/tui/VtParser.cpp:41-42 | a parameter of at most 1 decodes to None |
| VtParserProps.MarkedPartIsZero | src/tui/VtParser.cpp:26-29 | a part starting with a marker does not parse and counts as 0 |
| VtParserProps.PrivateMarkersIgnored | src/tui/VtParser.cpp:419-422 | a sequence whose parameters start with '>' or '?' emits nothing and changes nothing |
| VtParserProps.KittyKeys | src/tui/VtParser.cpp:391-417 | CSI ... u: 13, 9, 127, 27 are Enter, Tab, Backspace, Escape; 32..0xFFFF a codepoint key; others nothing |
| VtParserProps.TildeTable | src/tui/VtParser.cpp:70-94 | CSI n ~ follows the fixed table: no parameter, 16, 22 and codes outside 1..24 give no key; 3 is Delete and 24 is F12 |
| VtParserProps.SgrMouseButtons | src/tui/VtParser.cpp:330-378 | 64/65 scroll up/down; 0 press or release of button 0; 2 press of button 2; 32 move; 28 press with Shift+Alt+Ctrl |
| VtParserProps.SgrMouseReport | src/tui/VtParser.cpp:324-381 | ESC [ < b ; x ; y M/m fed in Ground yields exactly one mouse event decoded from b, x, y and ends in Ground |
| VtParserProps.PasteStart | src/tui/VtParser.cpp:383-389 | ESC [ 2 0 0 ~ starts a paste with an empty buffer |
| VtParserProps.RunPasteText | src/tui/VtParser.cpp:284-298 | bytes other than ESC only accumulate in the paste buffer |
| VtParserProps.RunPasteEnd | src/tui/VtParser.cpp:288-297 | ESC [ 2 0 1 ~ emits the buffered text as one paste event and returns to Ground |
| VtParserProps.BracketedPaste | src/tui/VtParser.cpp:284-298 | a bracketed paste of text without ESC yields exactly one paste event with that text and ends in Ground |
| VtParserProps.PasteHelloWorld | src/tests/TuiTests.cpp:437-444 | the paste test's input yields one paste event "Hello, world!" |
| LineEditor.SkipNonWord | src/tui/InputField.cpp:390-398 | the first loop of moveForwardWord stops at the end or at a word byte, and moves when it starts on a separator |
| LineEditor.SkipWordChars | src/tui/InputField.cpp:390-398 | the second loop stops at the end or at a separator, and moves when it starts on a word byte |
| LineEditor.ForwardWord | src/tui/InputField.cpp:390-398 | moveForwardWord lands after pos (unless at the end), at the end or on a separator |
| LineEditor.BackOverNonWord | src/tui/InputField.cpp:400-408 | the first loop of moveBackwardWord stops at 0 or after a word codepoint |
| LineEditor.BackOverWordChars | src/tui/InputField.cpp:400-408 | the second loop stops at 0 or after a separator codepoint |
| LineEditor.BackwardWord | src/tui/InputField.cpp:400-408 | moveBackwardWord lands before pos (unless at 0), at 0 or just after a separator |
| LineEditor.InsertText | src/tui/InputField.cpp:483-487 | the text goes in at the cursor, the bytes around it are kept, and the cursor moves past it; nothing else changes |
| LineEditor.InsertCodepoint | src/tui/InputField.cpp:476-481 | the UTF-8 encoding of the codepoint goes in at the cursor and the cursor moves past it |
| LineEditor.PushKillRing | src/tui/InputField.cpp:459-474 | empty text changes nothing; right after a kill the text is appended to the newest entry; otherwise it becomes the newest entry, at most 16 kept |
| LineEditor.Kill | src/tui/InputField.cpp:277-325 | the killed range is removed, pushed to the kill ring and the cursor goes to its start |
| LineEditor.KillToEnd | src/tui/InputField.cpp:277-286 | Ctrl+K keeps the text before the cursor and pushes the rest to the kill ring |
| LineEditor.KillToStart | src/tui/InputField.cpp:288-298 | Ctrl+U keeps the text after the cursor, pushes the rest and moves the cursor to 0 |
| LineEditor.KillWord | src/tui/InputField.cpp:300-312 | Alt+D removes and pushes the text from the cursor to the end of the next word |
| LineEditor.KillWordBackward | src/tui/InputField.cpp:314-325 | Ctrl+W removes and pushes the text from the previous word start to the cursor |
| LineEditor.Yank | src/tui/InputField.cpp:327-333 | with an empty ring nothing changes; otherwise the newest entry is inserted at the cursor |
| LineEditor.RemoveYanked | src/tui/InputField.cpp:335-345 | Alt+Y first removes as many bytes before the cursor as the current entry is long, when the cursor is that far in |
| LineEditor.YankPop | src/tui/InputField.cpp:335-351 | with an empty ring nothing changes; otherwise the yanked text is replaced by the next older entry, wrapping round |
| LineEditor.DeleteChar | src/tui/InputField.cpp:353-359 | Delete removes the codepoint at the cursor, and nothing at the end |
| LineEditor.DeleteCharBackward | src/tui/InputField.cpp:361-368 | Backspace removes the codepoint before the cursor and moves there, and nothing at 0 |
| LineEditor.MoveToStart | src/tui/InputField.cpp:370-373 | only the cursor changes, to 0 |
| LineEditor.MoveToEnd | src/tui/InputField.cpp:375-378 | only the cursor changes, to the end |
| LineEditor.MoveForwardChar | src/tui/InputField.cpp:380-383 | only the cursor moves, forward unless at the end |
| LineEditor.MoveBackwardChar | src/tui/InputField.cpp:385-388 | only the cursor moves, backward unless at 0 |
| LineEditor.MoveForwardWord | src/tui/InputField.cpp:390-398 | only the cursor moves, to ForwardWord |
| LineEditor.MoveBackwardWord | src/tui/InputField.cpp:400-408 | only the cursor moves, to BackwardWord |
| LineEditor.Transpose | src/tui/InputField.cpp:441-457 | Ctrl+T keeps the length; at 0 or with under two bytes nothing changes; otherwise the two codepoints swap and the cursor goes past both |
| LineEditor.HistoryPrev | src/tui/InputField.cpp:410-422 | with no history nothing changes; leaving the edited line saves it; at the oldest entry only the saved line changes; otherwise the previous entry is shown |
| LineEditor.HistoryNext | src/tui/InputField.cpp:424-439 | past the newest nothing changes; otherwise the next entry, or the saved line past the newest |
| LineEditor.AddHistory | src/tui/InputField.cpp:113-124 | empty lines and repeats of the newest entry are ignored; otherwise the entry is appended, the oldest dropped beyond maxHistory, and the index reset past the newest |
| LineEditor.NewestEntries | src/tui/InputField.cpp:126-131 | the newest n entries, all of them when there are at most n |
| LineEditor.SetMaxHistory | src/tui/InputField.cpp:126-131 | the newest n entries are kept and the history index is kept in range (corrected; see Findings) |
| LineEditor.Clear | src/tui/InputField.cpp:101-105 | the buffer is emptied and the cursor is 0; nothing else changes |
| LineEditor.SetText | src/tui/InputField.cpp:107-111 | the buffer is the text and the cursor its end; nothing else changes |
| LineEditor.Done | src/tui/InputField.cpp:133-275 | an action that also ends a run of kills |
| LineEditor.CtrlKey | src/tui/InputField.cpp:194-243 | the Ctrl+letter switch keeps the editor valid |
| LineEditor.AltKey | src/tui/InputField.cpp:245-265 | the Alt+letter switch keeps the editor valid |
| LineEditor.HandleKey | src/tui/InputField.cpp:133-275 | handleKey keeps the editor valid (the bindings are stated in LineEditorProps) |
| LineEditor.ProcessEvent | src/tui/InputField.cpp:66-79 | processEvent keeps the editor valid |
| InputFields.InputField.constructor | src/tui/InputField.hpp:1-120 | a new field is empty with cursor 0, no history and an empty kill ring |
| InputFields.InputField.ProcessEvent | src/tui/InputField.cpp:66-79 | the new state and action are LineEditor.ProcessEvent of the old state |
| InputFields.InputField.SetPrompt | src/tui/InputField.cpp:91-94 | only the prompt changes |
| InputFields.InputField.Clear | src/tui/InputField.cpp:101-105 | the new state is LineEditor.Clear of the old |
| InputFields.InputField.SetText | src/tui/InputField.cpp:107-111 | the new state is LineEditor.SetText of the old |
| InputFields.InputField.AddHistory | src/tui/InputField.cpp:113-124 | the new state is LineEditor.AddHistory of the old |
| InputFields.InputField.SetMaxHistory | src/tui/InputField.cpp:126-131 | the loop dropping the oldest entries reaches LineEditor.SetMaxHistory (corrected; see Findings) |
| InputFields.InputField.HandleKey | src/tui/InputField.cpp:133-275 | the new state and action are LineEditor.HandleKey of the old state |
| InputFields.InputField.CtrlKey | src/tui/InputField.cpp:194-243 | the new state and action are LineEditor.CtrlKey of the old state |
| InputFields.InputField.AltKey | src/tui/InputField.cpp:245-265 | the new state and action are LineEditor.AltKey of the old state |
| InputFields.InputField.PushKillRing | src/tui/InputField.cpp:459-474 | only the kill ring changes, to LineEditor.PushKillRing of the old ring |
| InputFields.InputField.KillToEnd | src/tui/InputField.cpp:277-286 | the new state is LineEditor.KillToEnd of the old |
| InputFields.InputField.KillToStart | src/tui/InputField.cpp:288-298 | the new state is LineEditor.KillToStart of the old |
| InputFields.InputField.KillWord | src/tui/InputField.cpp:300-312 | the new state is LineEditor.KillWord of the old |
| InputFields.InputField.KillWordBackward | src/tui/InputField.cpp:314-325 | the new state is LineEditor.KillWordBackward of the old |
| InputFields.InputField.Yank | src/tui/InputField.cpp:327-333 | the new state is LineEditor.Yank of the old |
| InputFields.InputField.YankPop | src/tui/InputField.cpp:335-351 | the new state is LineEditor.YankPop of the old |
| InputFields.InputField.DeleteChar | src/tui/InputField.cpp:353-359 | the new state is LineEditor.DeleteChar of the old |
| InputFields.InputField.DeleteCharBackward | src/tui/InputField.cpp:361-368 | the new state is LineEditor.DeleteCharBackward of the old |
| InputFields.InputField.MoveToStart | src/tui/InputField.cpp:370-373 | the new state is LineEditor.MoveToStart of the old |
| InputFields.InputField.MoveToEnd | src/tui/InputField.cpp:375-378 | the new state is LineEditor.MoveToEnd of the old |
| InputFields.InputField.MoveForwardChar | src/tui/InputField.cpp:380-383 | the new state is LineEditor.MoveForwardChar of the old |
| InputFields.InputField.MoveBackwardChar | src/tui/InputField.cpp:385-388 | the new state is LineEditor.MoveBackwardChar of the old |
| InputFields.InputField.MoveForwardWord | src/tui/InputField.cpp:390-398 | the two loops as written reach LineEditor.MoveForwardWord |
| InputFields.InputField.MoveBackwardWord | src/tui/InputField.cpp:400-408 | the two loops as written reach LineEditor.MoveBackwardWord |
| InputFields.InputField.HistoryPrev | src/tui/InputField.cpp:410-422 | the new state is LineEditor.HistoryPrev of the old |
| InputFields.InputField.HistoryNext | src/tui/InputField.cpp:424-439 | the new state is LineEditor.HistoryNext of the old |
| InputFields.InputField.Transpose | src/tui/InputField.cpp:441-457 | the new state is LineEditor.Transpose of the old |
| InputFields.InputField.InsertCodepoint | src/tui/InputField.cpp:476-481 | the new state is LineEditor.InsertCodepoint of the old |
| InputFields.InputField.InsertText | src/tui/InputField.cpp:483-487 | the new state is LineEditor.InsertText of the old |
| LineEditorProps.EnterSubmits | src/tui/InputField.cpp:141 | Enter submits whatever the modifiers, leaving the text as it is |
| LineEditorProps.CtrlCAborts | src/tui/InputField.cpp:239 | Ctrl+C answers Abort and changes nothing |
| LineEditorProps.CtrlDEofOrDelete | src/tui/InputField.cpp:233-238 | Ctrl+D is Eof exactly on an empty line, and otherwise deletes at the cursor |
| LineEditorProps.PrintableKeyInserts | src/tui/InputField.cpp:267-271 | a printable key without Ctrl or Alt inserts its codepoint as sent |
| LineEditorProps.ShiftedLetterInsertedAsSent | src/tui/InputField.cpp:267-271 | Shift with a letter inserts the codepoint unchanged; the code does no case mapping |
| LineEditorProps.OtherEventsIgnored | src/tui/InputField.cpp:66-79 | mouse and resize events answer None and change nothing |
| LineEditorProps.PasteInsertsVerbatim | src/tui/InputField.cpp:71-75 | a paste inserts its bytes verbatim at the cursor and answers Changed |
| LineEditorProps.TypeInsertsText | src/tui/InputField.cpp:267-271 | typing printable ASCII inserts exactly those bytes at the cursor and moves past them |
| LineEditorProps.TypedIntoFresh | src/tests/TuiTests.cpp:510-517 | typing into a fresh editor gives that text with the cursor at its end |
| LineEditorProps.BackspaceUndoesInsert | src/tui/InputField.cpp:361-368 | Backspace right after inserting any codepoint restores the editor exactly |
| LineEditorProps.AsciiBoundaries | src/tui/InputField.cpp:44-63 | in ASCII text each codepoint step is one byte |
| LineEditorProps.ForwardWordEndsAfterNextWord | src/tui/InputField.cpp:390-398 | from before separators and a word, moveForwardWord lands right after that word |
| LineEditorProps.BackwardWordStartsPreviousWord | src/tui/InputField.cpp:400-408 | from after a word and separators, moveBackwardWord lands at the start of that word |
| LineEditorProps.HelloForward | src/tests/TuiTests.cpp:643-654 | Alt+F from the start of "hello world" stops at 5 |
| LineEditorProps.HelloBackward | src/tests/TuiTests.cpp:643-654 | Alt+B from 5 in "hello world" goes back to 0 |
| LineEditorProps.WorldBackward | src/tests/TuiTests.cpp:656-663 | Ctrl+Left from the end of "hello world" stops at 6 |
| LineEditorProps.KillToEndBinding | src/tui/InputField.cpp:222 | Ctrl+K is KillToEnd, keeping the run of kills |
| LineEditorProps.KillToStartBinding | src/tui/InputField.cpp:223 | Ctrl+U is KillToStart, keeping the run of kills |
| LineEditorProps.BackwardWordKillBinding | src/tui/InputField.cpp:224 | Ctrl+W is KillWordBackward |
| LineEditorProps.ForwardWordKillBinding | src/tui/InputField.cpp:257 | Alt+D is KillWord |
| LineEditorProps.YankBinding | src/tui/InputField.cpp:225-228 | Ctrl+Y yanks and ends the run of kills |
| LineEditorProps.YankPopBinding | src/tui/InputField.cpp:258-261 | Alt+Y rotates the yank and ends the run of kills |
| LineEditorProps.UnboundLetterIgnored | src/tui/InputField.cpp:194-265 | a Ctrl or Alt letter that is not bound answers None and changes nothing |
| LineEditorProps.HelloWorldKillWord | src/tests/TuiTests.cpp:776-783 | Alt+D at the start of "hello world" leaves " world" |
| LineEditorProps.HelloWorldKillWordBackward | src/tests/TuiTests.cpp:613-619 | Ctrl+W at the end of "hello world" leaves "hello " |
| LineEditorProps.KillToEndThenYank | src/tui/InputField.cpp:277-333 | Ctrl+K then Ctrl+Y puts the line back, with any text merged by an earlier kill |
| LineEditorProps.KillToStartThenYank | src/tui/InputField.cpp:288-333 | Ctrl+U then Ctrl+Y outside a run of kills restores the line and the cursor |
| LineEditorProps.KillsAccumulate | src/tui/InputField.cpp:459-474 | Ctrl+U then Ctrl+K empties the line and leaves all of it in one kill-ring entry |
| LineEditorProps.YankPopAfterYank | src/tui/InputField.cpp:335-351 | Alt+Y right after Ctrl+Y is the same as yanking the next older entry |
| LineEditorProps.KilledAbc | src/tests/TuiTests.cpp:603-611 | Ctrl+U on "abc" leaves an empty line and one entry "abc" |
| LineEditorProps.YankPopErasesTypedText | src/tui/InputField.cpp:335-345 | Alt+Y does not check for a previous yank: after typing "xyz" it erases it and inserts "abc" |
| LineEditorProps.YankAfterTyping | src/tests/TuiTests.cpp:603-611 | "abc", Ctrl+U, "x", Ctrl+Y gives "xabc" |
| LineEditorProps.FooBarWord | src/tui/InputField.cpp:400-408 | the start of the previous word from the end of "foo bar" is 4 |
| LineEditorProps.FooWord | src/tui/InputField.cpp:400-408 | the start of the previous word from the end of "foo " is 0 |
| LineEditorProps.ConsecutiveBackwardKills | src/tui/InputField.cpp:314-325 | two Ctrl+W in a row remove both words and leave one entry holding the second word killed after the first |
| LineEditorProps.FooBarKilledOnce | src/tui/InputField.cpp:314-325 | Ctrl+W at the end of "foo bar" kills "bar" into a new entry |
| LineEditorProps.FooKilledAfterBar | src/tui/InputField.cpp:459-474 | a second Ctrl+W appends "foo " after "bar", so yanking gives "barfoo " |
| LineEditorProps.TransposePermutes | src/tui/InputField.cpp:441-457 | Ctrl+T rearranges the line and never adds or drops a byte |
| LineEditorProps.TransposeAb | src/tests/TuiTests.cpp:711-717 | "ab" with the cursor at the end becomes "ba" |
| LineEditorProps.HistoryPrevThenNext | src/tui/InputField.cpp:410-439 | Up then Down returns to the same history position, restoring an edited line |
| LineEditorProps.AddHistoryIdempotent | src/tui/InputField.cpp:113-124 | adding the newest entry again changes nothing |
| LineEditorProps.HistoryScenarios | src/tests/TuiTests.cpp:665-697 | the history navigation and saved-line tests end as the tests expect |
| LineEditorProps.SetMaxHistoryAsWrittenOverruns | src/tui/InputField.cpp:126-131 | after a, b, c and setMaxHistory(1) as written, the index is 3 with one entry left, so Up reads past the history |
| LineEditorProps.SetMaxHistoryAsWrittenValidIff | src/tui/InputField.cpp:126-131 | the as-written setMaxHistory keeps the invariant exactly when the index still fits, and then equals the corrected one |
| LineEditorProps.SetMaxHistoryClamped | src/tui/InputField.cpp:126-131 | with the index clamped the same steps leave a usable history: Up shows "c" |
| LineEditorProps.CtrlCFromTerminal | src/tui/VtParser.cpp:154-160 | byte 0x03 from the terminal is Ctrl+C and the editor answers Abort |
| LineEditorProps.CtrlDFromTerminal | src/tui/VtParser.cpp:154-160 | byte 0x04 is Ctrl+D, Eof exactly on an empty line |
| LineEditorProps.AstralCodepointTyped | src/tui/KeyCode.hpp:52-58 | a codepoint past the BMP typed at the terminal arrives as a key equal to the codepoint: U+10000 submits, codes past End are dropped, pasted it is inserted |
| LineEditorProps.BracketedPasteInserted | src/tui/InputField.cpp:71-75 | a bracketed paste from the terminal is inserted verbatim, even bytes that as keys would edit or submit |
| ListModel.ToLower | src/tui/List.cpp:13-20 | toLower keeps the length (see ListProps.ToLowerAt for each byte) |
| ListModel.Find | src/tui/List.cpp:22-30 | std::string::find from a position: the first occurrence at or after it, or none when there is none |
| ListModel.Positions | src/tui/List.cpp:350-372 | the kept indices are strictly increasing and below n |
| ListModel.PositionsExact | src/tui/List.cpp:350-372 | an index is kept exactly when its item passes the test |
| ListModel.VisibleExact | src/tui/List.cpp:350-372 | the visible indices are increasing and an index is visible exactly when its item matches the filter |
| ListModel.FirstEnabled | src/tui/List.cpp:313-324 | the first visible position from a start that shows an enabled item, or none |
| ListModel.LastEnabled | src/tui/List.cpp:326-336 | the last visible position that shows an enabled item, or none |
| ListModel.Rebuild | src/tui/List.cpp:350-372 | rebuildVisibleIndices keeps items and filter, scrolls to the top and selects the first enabled visible item, or position 0 |
| ListModel.SelectedItem | src/tui/List.cpp:70-75 | no item exactly when nothing is visible; otherwise the item at the selected index |
| ListModel.ScanForward | src/tui/List.cpp:274-292 | the do-while of selectNext stops at the next enabled position or the last one, never wrapping |
| ListModel.ScanBackward | src/tui/List.cpp:294-311 | the do-while of selectPrevious stops at the previous enabled position or at 0 |
| ListModel.PageDown | src/tui/List.cpp:338-342 | pageDown moves only the selection |
| ListModel.PageUp | src/tui/List.cpp:344-348 | pageUp moves only the selection |
| ListModel.PositionOf | src/tui/List.cpp:77-88 | the first visible position holding the index, or none when it is not visible |
| ListModel.EnsureSelectionVisible | src/tui/List.cpp:374-383 | only the scroll offset changes; with rows to show the selection ends inside the window; a visible selection changes nothing |
| ListModel.HandleKey | src/tui/List.cpp:122-182 | navigation keys leave items, visible indices and filter alone |
| ListModel.ProcessEvent | src/tui/List.cpp:114-120 | processEvent keeps the state well formed |
| Lists.List.constructor | src/tui/List.cpp:34-38 | a new list is the rebuilt state of its items with an empty filter |
| Lists.List.SetItems | src/tui/List.cpp:40-46 | the new state is ListModel.SetItems of the old |
| Lists.List.SetSelectedIndex | src/tui/List.cpp:77-88 | the new state is ListModel.SetSelectedIndex of the old |
| Lists.List.SetFilter | src/tui/List.cpp:90-97 | the new state is ListModel.SetFilter of the old |
| Lists.List.ClearFilter | src/tui/List.cpp:104-107 | the new state is ListModel.ClearFilter of the old |
| Lists.List.ProcessEvent | src/tui/List.cpp:114-120 | the new state and action are ListModel.ProcessEvent of the old state |
| Lists.List.HandleKey | src/tui/List.cpp:122-182 | the new state and action are ListModel.HandleKey of the old state |
| Lists.List.SelectNext | src/tui/List.cpp:274-292 | the do-while as written reaches ListModel.SelectNext |
| Lists.List.SelectPrevious | src/tui/List.cpp:294-311 | the do-while as written reaches ListModel.SelectPrevious |
| Lists.List.SelectFirst | src/tui/List.cpp:313-324 | the loop as written reaches ListModel.SelectFirst |
| Lists.List.SelectLast | src/tui/List.cpp:326-336 | the loop as written reaches ListModel.SelectLast |
| Lists.List.PageDown | src/tui/List.cpp:338-342 | the loop as written reaches ListModel.PageDown |
| Lists.List.PageUp | src/tui/List.cpp:344-348 | the loop as written reaches ListModel.PageUp |
| Lists.List.RebuildVisibleIndices | src/tui/List.cpp:350-372 | the loops as written reach ListModel.Rebuild |
| Lists.List.MatchingPositions | src/tui/List.cpp:352-358 | the first loop collects exactly the indices of the items matching the filter, in order |
| Lists.List.FirstEnabledPosition | src/tui/List.cpp:360-371 | the second loop stops at the first visible position holding an enabled item, or leaves 0 |
| Lists.List.EnsureSelectionVisible | src/tui/List.cpp:374-383 | the new state is ListModel.EnsureSelectionVisible of the old |
| ListProps.ToLowerAt | src/tui/List.cpp:13-20 | each byte is mapped by std::tolower |
| ListProps.ToLowerIdempotent | src/tui/List.cpp:13-20 | lowering twice is lowering once |
| ListProps.SubstringMatches | src/tui/List.cpp:22-30 | a needle that occurs verbatim matches |
| ListProps.IgnoresCase | src/tui/List.cpp:22-30 | lowering the haystack or the needle first changes nothing |
| ListProps.EmptyFilterShowsAll | src/tui/List.cpp:385-392 | the empty filter shows every item in order |
| ListProps.MatchesAt | src/tui/List.cpp:22-30 | a needle that equals the haystack at some position once both are lowered matches |
| ListProps.LacksLetter | src/tui/List.cpp:22-30 | a needle holding a letter the haystack lacks in both cases does not match |
| ListProps.AppleMatches | src/tests/TuiTests.cpp:1600-1620 | "Apple" matches "a" by its capital A |
| ListProps.AppleLacksAn | src/tests/TuiTests.cpp:1600-1620 | "Apple" does not match "an" |
| ListProps.BananaMatches | src/tests/TuiTests.cpp:1600-1620 | "Banana" matches both "a" and "an" |
| ListProps.CherryLacksA | src/tests/TuiTests.cpp:1600-1620 | "Cherry" does not match "a" |
| ListProps.CherryLacksAn | src/tests/TuiTests.cpp:1600-1620 | "Cherry" does not match "an" |
| ListProps.FruitFilterAn | src/tests/TuiTests.cpp:1600-1620 | filtering "an" leaves only "Banana" |
| ListProps.FruitFilterA | src/tests/TuiTests.cpp:1600-1620 | filtering "a" leaves "Apple" and "Banana" |
| ListProps.VisibleOfThree | src/tui/List.cpp:350-372 | of three items, exactly the matching ones are visible, in order |
| ListProps.SelectNextLands | src/tui/List.cpp:274-292 | selectNext lands on the next enabled visible item, or on the last position when none follows |
| ListProps.SelectPreviousLands | src/tui/List.cpp:294-311 | selectPrevious lands on the previous enabled visible item, or on 0 when none precedes |
| ListProps.SelectFirstAndLast | src/tui/List.cpp:313-336 | selectFirst/selectLast pick the first/last enabled visible item and do nothing when none is enabled |
| ListProps.PageDownAllEnabled | src/tui/List.cpp:338-342 | with every visible item enabled, a page down moves pageSize positions, stopping at the last |
| ListProps.PageUpAllEnabled | src/tui/List.cpp:344-348 | with every visible item enabled, a page up moves pageSize positions, stopping at 0 |
| ListProps.SetSelectedIndexSelects | src/tui/List.cpp:77-88 | a visible index becomes the selected one; an index not visible is ignored |
| ListProps.NothingVisible | src/tui/List.cpp:63-75 | with nothing visible there is no selected item, the selected index is 0 and no move changes anything |
| ListProps.SetFilterLaws | src/tui/List.cpp:90-97 | an unchanged filter changes nothing; a new one rebuilds |
| ListProps.HandleKeyKeepsValid | src/tui/List.cpp:122-182 | every key keeps the list's invariant |
| ListProps.ArrowKeys | src/tui/List.cpp:124-147 | Down and plain j select next; Up and plain k select previous |
| ListProps.EnterAndEscape | src/tui/List.cpp:165-175 | Enter selects only a visible, enabled item; Escape cancels; neither moves anything |
| ListProps.UnhandledKey | src/tui/List.cpp:177-181 | a key no branch handles answers None and changes nothing |
| ListProps.ModifiedLetterIgnored | src/tui/List.cpp:125 | 'j' with a modifier is not a navigation key |
| ListProps.NonKeyEventsIgnored | src/tui/List.cpp:114-120 | events other than keys answer None and change nothing |
| ListProps.ThreeVisible | src/tests/TuiTests.cpp:1571-1598 | three enabled items are all visible with the first selected |
| ListProps.ThreeNavigation | src/tests/TuiTests.cpp:1571-1598 | Down twice reaches the last item, a third Down stays, Up goes back one |
| ListProps.SkipsDisabled | src/tests/TuiTests.cpp:1646-1662 | selectNext skips a disabled item |
| Styles.ExtendedColor | src/tui/TerminalOutput.cpp:253-274 | reading back the arguments after 38 or 48 consumes no more than there are |
| Styles.DefaultIffNoCodes | src/tui/TerminalOutput.cpp:207-211 | appendSgr returns early exactly when the style has no parameter to write |
| Styles.ParamsIsJoin | src/tui/TerminalOutput.cpp:213-276 | the parameter text is the decimal texts of the codes joined with ';' |
| Styles.ParamsParseBack | src/tui/TerminalOutput.cpp:213-276 | a parameter list written out reads back as the same list through the input side's CSI parameter parser |
| Styles.SgrParamsParseBack | src/tui/TerminalOutput.cpp:204-277 | the SGR text is ESC [ parameters m, and its parameters parse back to the style's codes |
| Styles.DecodeFlags | src/tui/TerminalOutput.cpp:221-250 | the attribute parameters, applied to the default rendition, set exactly the style's attributes |
| Styles.DecodeColors | src/tui/TerminalOutput.cpp:252-274 | the colour parameters set exactly the style's foreground and background |
| Styles.DecodeCodes | src/tui/TerminalOutput.cpp:221-274 | applying the written codes to the default rendition gives the style back |
| Styles.SgrRoundTrip | src/tui/TerminalOutput.cpp:204-277 | the bytes between ESC [ and m, parsed by the input side and applied to the default rendition, reproduce the style |
| Styles.SgrTextEmptyIffDefault | src/tui/TerminalOutput.cpp:207-211 | only the default style is written as nothing |
| Styles.SgrTextInjective | src/tui/TerminalOutput.cpp:204-277 | distinct styles never share an escape sequence |
| TerminalOutputs.TerminalOutput.constructor | src/tui/TerminalOutput.hpp:1-188 | a fresh output buffers nothing and assumes 80x24 |
| TerminalOutputs.TerminalOutput.Write | src/tui/TerminalOutput.cpp:36-41 | appends the style's SGR, the text, then the reset; the size is unchanged |
| TerminalOutputs.TerminalOutput.WriteRaw | src/tui/TerminalOutput.cpp:43-46 | appends the text alone |
| TerminalOutputs.TerminalOutput.MoveTo | src/tui/TerminalOutput.cpp:48-51 | appends CSI row ; col H |
| TerminalOutputs.TerminalOutput.MoveUp | src/tui/TerminalOutput.cpp:53-57 | appends CSI n A for a positive count, nothing otherwise |
| TerminalOutputs.TerminalOutput.MoveDown | src/tui/TerminalOutput.cpp:59-63 | appends CSI n B for a positive count, nothing otherwise |
| TerminalOutputs.TerminalOutput.MoveLeft | src/tui/TerminalOutput.cpp:65-69 | appends CSI n D for a positive count, nothing otherwise |
| TerminalOutputs.TerminalOutput.MoveRight | src/tui/TerminalOutput.cpp:71-75 | appends CSI n C for a positive count, nothing otherwise |
| TerminalOutputs.TerminalOutput.Append | src/tui/TerminalOutput.cpp:77-166 | a fixed sequence is appended and nothing else changes |
| TerminalOutputs.TerminalOutput.ClearLine | src/tui/TerminalOutput.cpp:77-80 | appends the erase-line sequence |
| TerminalOutputs.TerminalOutput.ClearToEndOfLine | src/tui/TerminalOutput.cpp:82-85 | appends the erase-to-end sequence |
| TerminalOutputs.TerminalOutput.ClearToStartOfLine | src/tui/TerminalOutput.cpp:87-90 | appends the erase-to-start sequence |
| TerminalOutputs.TerminalOutput.ClearScreen | src/tui/TerminalOutput.cpp:92-95 | appends the clear-screen sequence |
| TerminalOutputs.TerminalOutput.ClearScrollback | src/tui/TerminalOutput.cpp:97-100 | appends the clear-scrollback sequence |
| TerminalOutputs.TerminalOutput.EnterAltScreen | src/tui/TerminalOutput.cpp:102-105 | appends DECSET 1049 |
| TerminalOutputs.TerminalOutput.LeaveAltScreen | src/tui/TerminalOutput.cpp:107-110 | appends DECRST 1049 |
| TerminalOutputs.TerminalOutput.SetDoubleWidth | src/tui/TerminalOutput.cpp:118-121 | appends ESC # 6 |
| TerminalOutputs.TerminalOutput.SetDoubleHeightTop | src/tui/TerminalOutput.cpp:123-126 | appends ESC # 3 |
| TerminalOutputs.TerminalOutput.SetDoubleHeightBottom | src/tui/TerminalOutput.cpp:128-131 | appends ESC # 4 |
| TerminalOutputs.TerminalOutput.SetSingleWidth | src/tui/TerminalOutput.cpp:133-136 | appends ESC # 5 |
| TerminalOutputs.TerminalOutput.ShowCursor | src/tui/TerminalOutput.cpp:138-141 | appends DECSET 25 |
| TerminalOutputs.TerminalOutput.HideCursor | src/tui/TerminalOutput.cpp:143-146 | appends DECRST 25 |
| TerminalOutputs.TerminalOutput.SaveCursor | src/tui/TerminalOutput.cpp:148-151 | appends ESC 7 |
| TerminalOutputs.TerminalOutput.RestoreCursor | src/tui/TerminalOutput.cpp:153-156 | appends ESC 8 |
| TerminalOutputs.TerminalOutput.SetScrollRegion | src/tui/TerminalOutput.cpp:158-161 | appends CSI top ; bottom r |
| TerminalOutputs.TerminalOutput.ResetScrollRegion | src/tui/TerminalOutput.cpp:163-166 | appends CSI r |
| TerminalOutputs.TerminalOutput.WriteSixel | src/tui/TerminalOutput.cpp:168-173 | appends DCS q, the data as given, then ST |
| TerminalOutputs.TerminalOutput.Flush | src/tui/TerminalOutput.cpp:175-182 | hands over exactly the buffered bytes and empties the buffer |
| TerminalOutputs.TerminalOutput.SyncGuard | src/tui/TerminalOutput.cpp:112-116 | flushes what is pending followed by the synchronized-output begin sequence, leaving the buffer empty |
| TerminalOutputs.TerminalOutput.UpdateDimensions | src/tui/TerminalOutput.cpp:194-202 | the size is taken over only when the window-size query answers; the buffer is untouched |
| TerminalOutputs.TerminalOutput.Initialize | src/tui/TerminalOutput.cpp:30-34 | initialize measures the terminal as updateDimensions does |
| TerminalOutputs.TerminalOutput.AppendSgr | src/tui/TerminalOutput.cpp:204-277 | appendSgr appends exactly the style's SGR text |
| TerminalOutputs.TerminalOutput.AppendAttributes | src/tui/TerminalOutput.cpp:213-250 | the six attribute groups are written as their parameter list, and the separator flag says whether one was written |
| TerminalOutputs.TerminalOutput.AppendFlags | src/tui/TerminalOutput.cpp:221-250 | three consecutive attribute groups are written as their parameter list, continuing what was written before |
| TerminalOutputs.TerminalOutput.AppendColors | src/tui/TerminalOutput.cpp:252-274 | after the attributes, the foreground and background groups complete the style's whole parameter list |
| TerminalOutputs.TerminalOutput.AppendFlag | src/tui/TerminalOutput.cpp:221-250 | one attribute group is written after a separator only when its flag is set |
| TerminalOutputs.TerminalOutput.AppendColor | src/tui/TerminalOutput.cpp:252-274 | a colour writes its 5;n or 2;r;g;b group, and nothing for the default colour |
| TerminalOutputs.TerminalOutput.AppendGroup | src/tui/TerminalOutput.cpp:215-219 | appendSep writes ';' before every group but the first |
| TerminalOutputs.TerminalOutput.AppendSgrReset | src/tui/TerminalOutput.cpp:279-282 | appends ESC [ m |
| TerminalOutputs.CsiPair | src/tui/TerminalOutput.cpp:48-51 | the two-parameter sequences are ESC [ a ; b and the final byte |
| TerminalOutputs.CsiSingle | src/tui/TerminalOutput.cpp:53-75 | the one-parameter sequences are ESC [ n and the final byte |
| TerminalOutputs.CsiParseBack | src/tui/TerminalOutput.cpp:48-75 | every parameterised sequence the output writes parses back, on the input side, as exactly its parameters |
| TerminalOutputs.MoveSeqCarriesCount | src/tui/TerminalOutput.cpp:53-75 | a cursor move writes nothing exactly for a count of 0 or less, and otherwise carries the count |
| TerminalOutputs.PrivateModePairs | src/tui/TerminalOutput.cpp:102-146 | cursor, alternate screen and synchronized output are DECSET/DECRST pairs of modes 25, 1049 and 2026 |
| Boxes.SetConfig | src/tui/Box.cpp:228-231 | setConfig replaces the configuration |
| Boxes.Render | src/tui/Box.cpp:105-118 | a box under 2x2 draws nothing; any other box appends to what was already buffered |
| Boxes.RenderTopBorder | src/tui/Box.cpp:120-176 | the top border appends at least one byte and keeps what was buffered |
| Boxes.RenderTitle | src/tui/Box.cpp:129-166 | the title run of the top border only appends |
| Boxes.RenderBottomBorder | src/tui/Box.cpp:178-189 | the bottom border only appends |
| Boxes.RenderSideBorders | src/tui/Box.cpp:191-202 | the side borders only append |
| Boxes.ClearContent | src/tui/Box.cpp:238-252 | clearContent only appends |
| Boxes.WriteRepeated | src/tui/Box.cpp:120-202 | the glyph loops only append |
| Boxes.Spaces | src/tui/Box.cpp:245 | n spaces |
| Boxes.BorderGlyphs | src/tui/Box.cpp:9-99 | every drawn border glyph is one box-drawing character |
| Boxes.NoBorderIsBlank | src/tui/Box.cpp:9-99 | no border is drawn with spaces |
| Boxes.RoundedIsSingleWithRoundCorners | src/tui/Box.cpp:9-99 | Rounded is Single with its four corners replaced, each different |
| Boxes.DistinctGlyphs | src/tui/Box.cpp:9-99 | distinct codepoints of the tables encode differently |
| Boxes.DashedIsSingleWithDashedLines | src/tui/Box.cpp:9-99 | Dashed is Single with dashed straight lines |
| Boxes.ContentArea | src/tui/Box.cpp:204-226 | inner sizes are non-negative; the content starts after border and padding and, when not empty, ends where the trailing padding and border begin |
| Boxes.ContentInsideBorder | src/tui/Box.cpp:204-226 | with non-negative padding and a border, the content lies strictly inside the border |
| Boxes.InnerDimensionsExample | src/tests/TuiTests.cpp:1449-1483 | the 20x10 single box with padding 2/2/1/1 has a 14x6 content area at (3, 4) |
| Dialogs.FromListAction | src/tui/Dialog.cpp:19-36 | the list's Selected, Cancelled, Changed and None answers become Confirmed, Cancelled, Changed and None, and only those |
| Dialogs.SelectDialog.constructor | src/tui/Dialog.cpp:13-17 | the items move into the list, which starts in its initial state |
| Dialogs.SelectDialog.ProcessEvent | src/tui/Dialog.cpp:19-36 | the list takes its ListModel.ProcessEvent step and the answer is that step's action translated |
| Dialogs.SelectDialog.SetFilter | src/tui/Dialog.cpp:80-83 | the list's filter is set as ListModel.SetFilter does |
| Dialogs.SelectDialog.ClearFilter | src/tui/Dialog.cpp:85-88 | the list's filter is cleared as ListModel.ClearFilter does |
| Dialogs.SelectDialog.SetConfig | src/tui/Dialog.cpp:90-94 | the configuration is replaced and the list takes the new items |
| Dialogs.ConfirmDialog.constructor | src/tui/Dialog.cpp:144-147 | the highlight starts on the configured default button |
| Dialogs.ConfirmDialog.ProcessEvent | src/tui/Dialog.cpp:149-184 | the highlight and the answer are ConfirmStep of the old highlight |
| Dialogs.DialogUtf8 | src/tui/Dialog.cpp:337-372 | the dialog's own encoder always writes one to four bytes |
| Dialogs.Insert | src/tui/Dialog.cpp:337-380 | the text goes in at the cursor, the bytes around it are kept, and the cursor moves past it |
| Dialogs.InputKey | src/tui/Dialog.cpp:285-371 | every key keeps the cursor within the text |
| Dialogs.InputStep | src/tui/Dialog.cpp:283-381 | every event keeps the cursor within the text, and an event answered None changes nothing |
| Dialogs.InputDialog.constructor | src/tui/Dialog.cpp:278-281 | the field starts with the initial value and the cursor at its end |
| Dialogs.InputDialog.ProcessEvent | src/tui/Dialog.cpp:283-381 | the field and the answer are InputStep of the old field |
| Dialogs.InputDialog.ProcessKey | src/tui/Dialog.cpp:285-371 | the field and the answer are InputKey of the old field |
| Dialogs.InputDialog.SetValue | src/tui/Dialog.cpp:476-480 | the value is replaced and the cursor goes to its end |
| DialogProps.SelectConfirmsEnabledItem | src/tui/Dialog.cpp:19-36 | the selection dialog confirms exactly on Enter over a visible, enabled item, and confirming leaves the list as it was |
| DialogProps.SelectEscapeCancels | src/tui/Dialog.cpp:19-36 | Escape always cancels the selection dialog |
| DialogProps.BoundsGeometry | src/tui/Dialog.cpp:110-138 | the list gets min(items, maxHeight - 2) rows in a bordered box no wider than termCols - 4, centred horizontally, and on a tall enough terminal the box stays on screen with the slack split evenly |
| DialogProps.BoundsWithoutWrap | src/tui/Dialog.cpp:110-138 | on terminals up to 0xFFFF cells no step of calculateBounds overflows int |
| DialogProps.BoundsExample | src/tui/Dialog.cpp:110-138 | the default 50x20 dialog with five items on 80x24 is at row 8, column 16, 50 wide and 7 high |
| DialogProps.ConfirmEnterAndEscape | src/tui/Dialog.cpp:149-184 | Enter answers with the highlighted button, Escape always cancels, neither moves the highlight |
| DialogProps.ConfirmNavigation | src/tui/Dialog.cpp:149-184 | Left highlights confirm; Right and Tab toggle, so two of them cancel out |
| DialogProps.ConfirmShortcuts | src/tui/Dialog.cpp:149-184 | y/Y confirm and n/N cancel whatever is highlighted |
| DialogProps.ConfirmIgnoresNonKeys | src/tui/Dialog.cpp:149-184 | anything but a key leaves the dialog alone |
| DialogProps.DialogUtf8IsStandard | src/tui/Dialog.cpp:337-372 | within Unicode the dialog's encoder is the standard UTF-8 encoder |
| DialogProps.DialogUtf8BeyondUnicode | src/tui/Dialog.cpp:337-372 | above U+10FFFF the standard encoder refuses but the dialog still writes four bytes |
| DialogProps.TypingInsertsEncoding | src/tui/Dialog.cpp:337-372 | a printable key inserts the UTF-8 encoding of its codepoint at the cursor |
| DialogProps.BackspaceAfterInsert | src/tui/Dialog.cpp:295-303 | Backspace right after inserting t ++ [x] leaves t inserted |
| DialogProps.BackspacesUndoInsert | src/tui/Dialog.cpp:295-303 | as many Backspaces as bytes were inserted restore the field |
| DialogProps.PasteMatchesTyping | src/tui/Dialog.cpp:373-379 | pasting a character is the same edit as typing it |
| DialogProps.EditsStopAtEdges | src/tui/Dialog.cpp:295-327 | Backspace, Delete, Left and Right report nothing at the ends of the text and remove one byte elsewhere |
| DialogProps.CursorMoves | src/tui/Dialog.cpp:312-336 | Left and Right move by one byte and undo each other; Home and End go to the ends |
| DialogProps.TypeThenErase | src/tests/TuiTests.cpp:1929-1964 | typing 'a' into an empty dialog gives "a", and Backspace empties it again |
| LogPanels.LogPanel.constructor | src/tui/LogPanel.hpp:1-88 | a new panel is collapsed, empty and scrolled to the bottom |
| LogPanels.LogPanel.AddLog | src/tui/LogPanel.cpp:11-20 | the new state is AddLogTo of the old: the entry appended, the oldest dropped beyond MaxEntries, scroll reset |
| LogPanels.LogPanel.Toggle | src/tui/LogPanel.cpp:22-28 | the new state is Toggled of the old |
| LogPanels.LogPanel.HandleClick | src/tui/LogPanel.cpp:163-175 | the new state and the answer are Clicked of the old state |
| LogPanels.LogPanel.ScrollUp | src/tui/LogPanel.cpp:177-182 | the new state is ScrolledUp of the old |
| LogPanels.LogPanel.ScrollDown | src/tui/LogPanel.cpp:184-188 | the new state is ScrolledDown of the old |
| LogPanelProps.Newest | src/tui/LogPanel.cpp:14-16 | the newest n elements are min(length, n) of them |
| LogPanelProps.AddLogKeepsNewest | src/tui/LogPanel.cpp:11-20 | one addLog keeps the newest MaxEntries entries, ends with the new one and scrolls to the bottom |
| LogPanelProps.NewestTwice | src/tui/LogPanel.cpp:14-16 | trimming to the newest n before more arrive gives the same as trimming once at the end |
| LogPanelProps.AddLogsKeepNewest | src/tui/LogPanel.cpp:11-20 | however many entries arrive, the panel holds exactly the newest MaxEntries of all of them, in order |
| LogPanelProps.EvictionKeepsLastHundred | src/tests/TuiTests.cpp:1259-1266 | 110 entries into a fresh panel leave the last 100 |
| LogPanelProps.OperationsKeepValid | src/tui/LogPanel.cpp:11-188 | every operation keeps at most MaxEntries entries and the scroll offset within range |
| LogPanelProps.ScrollClamps | src/tui/LogPanel.cpp:177-188 | scrolling stops at 0 and at max(0, count - 7), and inside those one step up and one down undo each other |
| LogPanelProps.ToggleLaws | src/tui/LogPanel.cpp:22-28 | toggling flips the flag and keeps the entries; opening starts at the newest entry; twice restores the flag |
| LogPanelProps.ClickTogglesHeaderOnly | src/tui/LogPanel.cpp:163-175 | a click is handled exactly on the header row, and then toggles |
| LogPanelProps.WindowShowsNewest | src/tui/LogPanel.cpp:42-50 | render shows min(count, 7) consecutive entries ending scrollOffset before the newest, and the height is one header row plus the rows shown (at least one) |
| LogPanelProps.ScrollUpShiftsWindow | src/tui/LogPanel.cpp:95-103 | one step up moves the shown range one entry towards the oldest, until the top |
| LogPanelProps.ToggleHeights | src/tests/TuiTests.cpp:1228-1244 | with two entries the panel is 1 row collapsed, 3 expanded, 1 collapsed again |
| TextWidth.Width | src/tui/Text.cpp:337-355 | the display width counts every byte that is not a UTF-8 continuation byte, so it never exceeds the byte length |
| TextWidth.DisplayWidth | src/tui/Text.cpp:337-355 | displayWidth's loop returns the width of the whole text |
| TextWidth.LeadCutEndsOnLeadByte | src/tui/Text.cpp:323-331 | truncate's loop stops with exactly width - 1 columns taken, on the lead byte of the last one |
| TextWidth.BoundaryCutEndsOnBoundary | src/tui/Text.cpp:323-331 | the corrected loop stops with exactly width - 1 columns taken, at a codepoint boundary |
| TextWidth.TruncateAsWritten | src/tui/Text.cpp:306-335 | truncate as written: empty for width <= 0, the text when it fits, dots for width <= 3, otherwise the loop's prefix and an ellipsis |
| TextWidth.Truncate | src/tui/Text.cpp:306-335 | truncate with the cut moved to the next codepoint boundary; its meaning is proved in TextWidthProps.TruncateContract |
| TextWidthProps.WidthAppend | src/tui/Text.cpp:337-355 | the width of a concatenation is the sum of the widths |
| TextWidthProps.WidthOfEncoding | src/tui/Text.cpp:337-355 | every UTF-8 encoded codepoint is one column |
| TextWidthProps.WidthCountsCodepoints | src/tui/Text.cpp:337-355 | the width of encoded text is its number of codepoints |
| TextWidthProps.WidthOfAscii | src/tui/Text.cpp:337-355 | on ASCII text the width is the byte length |
| TextWidthProps.EllipsisIsOneCodepoint | src/tui/Text.cpp:332 | the appended ellipsis is U+2026 and one column wide |
| TextWidthProps.TruncateContract | src/tui/Text.cpp:306-335 | the corrected truncate never exceeds width columns; over-wide text becomes width - 1 whole codepoints and an ellipsis, width columns exactly; text that fits is unchanged |
| TextWidthProps.TruncateAsWrittenWidth | src/tui/Text.cpp:306-335 | the as-written cut ends on a lead byte after width - 1 columns, before the ellipsis |
| TextWidthProps.TruncateAgreesOnAscii | src/tui/Text.cpp:306-335 | without continuation bytes the as-written and corrected truncate agree |
| TextWidthProps.TruncateSplitsCodepoint | src/tui/Text.cpp:323-332 | truncate("ééééé", 4) as written keeps a lead byte without its continuation byte; the corrected one keeps whole codepoints |
| TextWidthProps.TruncateHello | src/tests/TuiTests.cpp:1685-1690 | "Hello, world!" truncated to 8 columns is "Hello, " and an ellipsis |
| TextWidthProps.DisplayWidthExamples | src/tests/TuiTests.cpp:1692-1697 | the display widths of "hello", "" and "test" are 5, 0 and 4 |
| WordWraps.WordsAppendWord | src/tui/Text.cpp:278-295 | a word read after a separator adds exactly that word to the text's words |
| WordWraps.WordsAppendSpace | src/tui/Text.cpp:278-295 | a white-space byte adds no word |
| WordWraps.ExtendLine | src/tui/Text.cpp:249-276 | appending a word to a line, after one space unless the line is empty, appends it to the line's words and adds its width plus the space |
| WordWraps.PlaceOnLine | src/tui/Text.cpp:256-268 | a word that fits is placed on the current line and the lines still hold the words read so far |
| WordWraps.PlaceOnNewLine | src/tui/Text.cpp:269-275 | a word that does not fit closes the current line and starts the next one, keeping the words in order |
| WordWraps.FlushWord | src/tui/Text.cpp:249-276 | flushWord keeps every line within width (or a single word) and the words of lines plus current line equal the words of the text read so far; with no pending word it changes nothing |
| WordWraps.SkipSpace | src/tui/Text.cpp:290-294 | a white-space byte other than '\n' leaves the placement unchanged |
| WordWraps.CloseLine | src/tui/Text.cpp:283-289 | at '\n' the current line is closed and an empty one begins |
| WordWraps.Finish | src/tui/Text.cpp:297-303 | the final flush leaves lines whose words are exactly the words of the text |
| WordWraps.ScanByte | src/tui/Text.cpp:278-295 | one pass of the loop keeps the placement invariant: the words placed so far are the words of the text up to the start of the pending word, which holds no white space |
| WordWraps.EndWord | src/tui/Text.cpp:282-293 | white space flushes the pending word and a '\n' also closes the current line, keeping the placement invariant past the byte |
| WordWraps.WordWrap | src/tui/Text.cpp:235-304 | [""] for empty text or width <= 0; otherwise at least one line, the words of the lines are exactly the text's words in order, and every line fits in width columns or is a single word |
| WordWrapProps.WordsAreWords | src/tui/Text.cpp:278-295 | every word is non-empty and holds no white space |
| WordWrapProps.LineHasOnlySpaces | src/tui/Text.cpp:262-275 | a line holds no '\n' and no white space except the single spaces between its words |
| WordWrapProps.WideTextTakesSeveralLines | src/tests/TuiTests.cpp:1677-1683 | two or more words wider together than width never share one line |
| WordWrapProps.LinesFitWhenWordsFit | src/tui/Text.cpp:235-304 | when every word fits in width columns, every line does |
| WordWrapProps.WordOfLinesIsWord | src/tui/Text.cpp:235-304 | the words of any one line are words of the text |
| Texts.Append | src/tui/Text.cpp:22-30 | append adds exactly one span at the end, with the given text and style, so the line's text grows by that text |
| Texts.LineWidth | src/tui/Text.cpp:14-20 | a line's width is the display width of its whole text |
| Texts.Find | src/tui/Text.cpp:49 | find returns the first '\n' at or after start, or the end of the text when there is none |
| Texts.ChunkAsWritten | src/tui/Text.cpp:204-224 | the character-mode loops as written compute ChunksAsWritten |
| Texts.Chunk | src/tui/Text.cpp:204-224 | the corrected character-mode loops compute Chunks |
| Texts.LeadLength | src/tui/Text.cpp:210-217 | the inner loop as written stops at the first prefix holding width columns, after at least one byte |
| Texts.BoundaryLength | src/tui/Text.cpp:210-217 | the corrected inner loop stops at the first codepoint boundary after width columns, after at least one byte |
| Texts.Text.constructor | src/tui/Text.hpp:60 | a default Text has no lines, is left-aligned, wraps words and has no width limit |
| Texts.Text.FromContent | src/tui/Text.cpp:36-39 | Text(content, style) is the defaults followed by setText |
| Texts.BuildLines | src/tui/Text.cpp:46-67 | the loop of setText builds one single-span line per '\n'-separated piece, and one empty line when there is none |
| Texts.Text.SetText | src/tui/Text.cpp:41-69 | setText replaces the lines by one single-span line per '\n'-separated piece; alignment, wrap mode and width are kept |
| Texts.Text.SetLines | src/tui/Text.cpp:71-74 | setLines replaces the lines and nothing else |
| Texts.Text.AsString | src/tui/Text.cpp:76-90 | text() is the lines' texts joined with '\n' |
| Texts.Text.SetAlign | src/tui/Text.cpp:97-100 | setAlign changes the alignment only |
| Texts.Text.SetWrapMode | src/tui/Text.cpp:107-110 | setWrapMode changes the wrap mode only |
| Texts.Text.SetMaxWidth | src/tui/Text.cpp:117-120 | setMaxWidth changes the width limit only |
| Texts.Text.Wrap | src/tui/Text.cpp:164-229 | wrap returns the lines unchanged for WrapMode::None or width <= 0, and otherwise the concatenation, in order, of what each line becomes under WrapsTo (character mode corrected; see Findings) |
| Texts.WrapLines | src/tui/Text.cpp:171-226 | the outer loop of wrap yields, in order, the concatenation of what WrapsTo allows for each line |
| Texts.WrapLine | src/tui/Text.cpp:184-225 | one line stays as it is when it fits, and otherwise becomes single-span lines in its default style holding wordWrap's lines or the character chunks (character mode corrected; see Findings) |
| Texts.Flatten | src/tui/Text.cpp:174-182 | the first loop of wrap yields the line's whole text and the style of its first span with text |
| TextProps.PiecesHaveNoNewline | src/tui/Text.cpp:47-64 | no piece setText cuts holds a '\n' |
| TextProps.JoinPieces | src/tui/Text.cpp:47-64 | joining setText's pieces with '\n' gives the content back, less one final '\n' |
| TextProps.SetTextThenText | src/tui/Text.cpp:41-90 | after setText(content) there is at least one line, none holds a '\n', and text() is content less a final '\n' |
| TextProps.RoundTrip | src/tests/TuiTests.cpp:1664-1669 | text() after setText(s) is s whenever s does not end in '\n' |
| TextProps.TrailingNewlineIsLost | src/tui/Text.cpp:47-69 | "a\n" reads back as "a": the trailing newline makes no empty line |
| TextProps.ChunksContract | src/tui/Text.cpp:204-224 | the corrected chunks put back together are the text; each is non-empty and at most width columns, all but the last exactly width; every chunk after the first starts a codepoint |
| TextProps.ChunksAsWrittenCover | src/tui/Text.cpp:204-224 | the chunks as written put back together are the text, and each is non-empty and at most width columns |
| TextProps.CharWrapSplitsCodepoint | src/tui/Text.cpp:210-217 | character wrapping "éé" at width 1 as written starts chunks with continuation bytes; the corrected chunks are the two whole codepoints |
| TextProps.WrapsToContract | src/tui/Text.cpp:184-225 | a fitting line is kept; otherwise the new lines are single spans in the default style that hold the text (character mode) or its words in order (word mode), within width unless a line is a single word |
| TextProps.DefaultStyleIsFirstWithText | src/tui/Text.cpp:177-182 | the style wrapped lines get is that of the first span with text |
| Markdown.RunEnd | src/tui/MarkdownRenderer.cpp:30-31 | the run of one byte that starts at from ends at the first other byte or at the end of the line |
| Markdown.DigitsEnd | src/tui/MarkdownRenderer.cpp:74-75 | the run of ASCII digits that starts at from ends at the first non-digit or the end |
| Markdown.FenceIndent | src/tui/MarkdownRenderer.cpp:17-20 | a fence may be indented by at most three spaces |
| Markdown.CodeFence | src/tui/MarkdownRenderer.cpp:15-37 | a fence is a run of at least three equal '`' or '~' after the indent, taken whole from the line and not followed by one more of its byte |
| Markdown.DetectCodeFence | src/tui/MarkdownRenderer.cpp:15-37 | detectCodeFence's loops return CodeFence of the line |
| Markdown.HeadingLevel | src/tui/MarkdownRenderer.cpp:42-52 | the heading level is 0 to 6, and a level n > 0 means n leading '#' followed by a space |
| Markdown.DetectHeadingLevel | src/tui/MarkdownRenderer.cpp:42-52 | detectHeadingLevel's loop returns HeadingLevel of the line |
| Markdown.ListMarker | src/tui/MarkdownRenderer.cpp:57-81 | a list marker is 0 bytes, or it is the leading spaces followed either by a bullet and a space, or by one or more digits, '.' or ')' and a space; with MarkdownProps.BulletMarker and OrderedMarker this gives both directions, so any other line gives 0 |
| Markdown.DetectListMarker | src/tui/MarkdownRenderer.cpp:57-81 | detectListMarker's loops return ListMarker of the line |
| Markdown.Blockquote | src/tui/MarkdownRenderer.cpp:86-95 | a blockquote marker exists exactly when the line starts with '>', and it takes 2 bytes exactly when "> " starts the line |
| Markdown.Complete | src/tui/MarkdownRenderer.cpp:392-397 | what is left after the complete lines are taken holds no '\n' |
| Markdown.StepsAppend | src/tui/MarkdownRenderer.cpp:106-162 | stepping over a + b is stepping over a, then over b from where a left the block state, and the outputs concatenate |
| Markdown.DefaultTheme | src/tui/MarkdownRenderer.cpp:206-257 | headings are bold (the second also underlined), code and think blocks dim, emphasis italic, links underlined in (0,180,216), list markers in (0,180,0), blockquotes italic and dim |
| Markdown.MarkdownRenderer.constructor | src/tui/MarkdownRenderer.cpp:98-101 | a new renderer keeps its theme, has an empty buffer, is not streaming, is in no block and has written nothing |
| Markdown.MarkdownRenderer.ProcessLine | src/tui/MarkdownRenderer.cpp:111-160 | one line moves the block state as Step says and appends what Step writes; the stream buffer is untouched |
| Markdown.MarkdownRenderer.Render | src/tui/MarkdownRenderer.cpp:103-162 | render steps over every line of the text, the unterminated last one included, from the current block state |
| Markdown.MarkdownRenderer.RenderLine | src/tui/MarkdownRenderer.cpp:107-160 | one turn of render's loop processes the line up to the next '\n' (or the end) and moves strictly forward |
| Markdown.MarkdownRenderer.BeginStream | src/tui/MarkdownRenderer.cpp:164-171 | beginStream starts streaming with an empty buffer and every block closed |
| Markdown.MarkdownRenderer.FeedToken | src/tui/MarkdownRenderer.cpp:173-177 | feedToken appends the token, steps over every complete line and keeps only the unfinished rest |
| Markdown.MarkdownRenderer.ProcessStreamBuffer | src/tui/MarkdownRenderer.cpp:389-450 | the loop steps over exactly the complete lines of the buffer, in order, and leaves the unfinished rest |
| Markdown.MarkdownRenderer.EndStream | src/tui/MarkdownRenderer.cpp:179-204 | endStream writes the unfinished rest in its block's style, then a newline, and closes every block |
| MarkdownProps.FenceOfShape | src/tui/MarkdownRenderer.cpp:15-37 | up to three spaces and a run of three or more '`' or '~' make that run the fence |
| MarkdownProps.IndentedIsNoFence | src/tui/MarkdownRenderer.cpp:19-27 | four leading spaces never make a fence |
| MarkdownProps.ShortRunIsNoFence | src/tui/MarkdownRenderer.cpp:33-36 | one or two fence characters make no fence |
| MarkdownProps.HeadingOfShape | src/tui/MarkdownRenderer.cpp:42-52 | one to six '#' and a space make a heading of that level |
| MarkdownProps.SevenHashesAreNoHeading | src/tui/MarkdownRenderer.cpp:45-51 | seven or more '#' make no heading |
| MarkdownProps.BulletMarker | src/tui/MarkdownRenderer.cpp:67-70 | spaces, a bullet and a space make a marker that ends after the space |
| MarkdownProps.OrderedMarker | src/tui/MarkdownRenderer.cpp:72-78 | spaces, digits, '.' or ')' and a space make an ordered list marker |
| MarkdownProps.NoMarkerAfterOtherByte | src/tui/MarkdownRenderer.cpp:70-80 | leading spaces and then a byte that is neither a bullet nor a digit give no marker |
| MarkdownProps.StepWritesIffStays | src/tui/MarkdownRenderer.cpp:111-160 | a line is written, once, exactly when it leaves the block state unchanged |
| MarkdownProps.CodeBlockCloses | src/tui/MarkdownRenderer.cpp:124-137 | inside a code block a line closes it exactly when it is a fence at least as long as the opening one; any other line is written as code |
| MarkdownProps.ThinkBlockHidesLines | src/tui/MarkdownRenderer.cpp:112-123 | inside a think block only "</think>" counts: a fence neither opens a block nor is written |
| MarkdownProps.TildeClosesBacktick | src/tui/MarkdownRenderer.cpp:126-131 | "~~~" closes a block that "```" opened, since only lengths are compared |
| MarkdownProps.ThinkOpens | src/tui/MarkdownRenderer.cpp:141-145 | "<think>" anywhere in a line outside every block opens a think block |
| MarkdownProps.PiecesAreComplete | src/tui/MarkdownRenderer.cpp:103-162 | render cuts a text into the same lines the stream path takes from it, the unfinished rest included |
| MarkdownProps.FeedTwice | src/tui/MarkdownRenderer.cpp:173-177 | feeding a and then b leaves what feeding a + b at once leaves: how a stream is cut into tokens does not matter |
| MarkdownProps.StreamMatchesRender | src/tui/MarkdownRenderer.cpp:164-204 | streaming a text that ends in '\n' from a fresh stream, then ending it, writes what render writes plus one newline, and closes every block |
| MarkdownProps.NoRestAfterNewline | src/tui/MarkdownRenderer.cpp:389-450 | a buffer that ends in '\n' leaves no unfinished rest |
| MarkdownProps.StepsKeepValid | src/tui/MarkdownRenderer.cpp:111-160 | from a valid block state every sequence of lines reaches a valid one: never in both blocks, and an open code block holds its own fence |
| MarkdownProps.FedAllIsFedOnce | src/tui/MarkdownRenderer.cpp:173-177 | feeding a list of tokens one by one leaves what feeding their concatenation once leaves |
| StatusBars.HintText | src/tui/StatusBar.cpp:117-119 | one hint is shown as its key, one space and its action |
| StatusBars.DefaultStatusBarStyle | src/tui/StatusBar.cpp:142-161 | the default bar has indexed background 236 and foreground 252, bold keys in (130,180,255), actions in indexed 252 and not bold, a dim separator, and two spaces between hints |
| StatusBars.StatusBar.constructor | src/tui/StatusBar.hpp:20-37 | a new bar has no hints, empty left, centre and right texts, and the default member style |
| StatusBars.StatusBar.SetHints | src/tui/StatusBar.cpp:9-12 | setHints replaces the hints and nothing else |
| StatusBars.StatusBar.AddHint | src/tui/StatusBar.cpp:14-17 | addHint appends exactly one hint at the end and changes nothing else |
| StatusBars.StatusBar.ClearHints | src/tui/StatusBar.cpp:19-22 | clearHints empties the hints and nothing else |
| StatusBars.StatusBar.SetLeftText | src/tui/StatusBar.cpp:24-27 | setLeftText changes the left text only |
| StatusBars.StatusBar.SetCenterText | src/tui/StatusBar.cpp:29-32 | setCenterText changes the centre text only |
| StatusBars.StatusBar.SetRightText | src/tui/StatusBar.cpp:34-37 | setRightText changes the right text only |
| StatusBars.StatusBar.SetStyle | src/tui/StatusBar.cpp:39-42 | setStyle changes the style only |
| StatusBars.StatusBar.FormatHints | src/tui/StatusBar.cpp:106-123 | formatHints' loop builds the hints joined by the separator |
| StatusBars.StatusBar.HintsWidth | src/tui/StatusBar.cpp:125-140 | hintsWidth counts, without building it, exactly the byte length of what formatHints builds |
| StatusBarProps.JoinedLength | src/tui/StatusBar.cpp:125-140 | the joined text is the hints' lengths plus one separator between each two hints |
| StatusBarProps.JoinedStartsWithFirst | src/tui/StatusBar.cpp:109-115 | no separator leads: the text starts with the first hint's key and a space |
| StatusBarProps.JoinedEndsWithLast | src/tui/StatusBar.cpp:111-120 | no separator trails: the text ends with the last hint's action |
| StatusBarProps.JoinedSnoc | src/tui/StatusBar.cpp:111-120 | adding a hint adds the separator (unless it is the first) and that hint's text, nothing else |
| StatusBarProps.JoinedOne | src/tui/StatusBar.cpp:111-120 | a single hint has no separator at all |
| ChatTypes.RoleToString | src/core/Types.hpp:24-34 | every role has one of the four lower-case wire names, and each name belongs to exactly one role |
| ChatTypes.RoleFromString | src/core/Types.hpp:39-48 | "system", "assistant" and "tool" give their roles, and every other string, "user" included, gives User |
| ChatTypes.RoleRoundTrip | src/tests/ChatSessionTests.cpp:98-110 | reading back the name of any role gives that role |
| ChatTypes.RoleNamesDiffer | src/core/Types.hpp:24-34 | different roles have different names |
| ChatTypes.HasToolCalls | src/core/Types.hpp:93-100 | a result has tool calls exactly when its list of calls is not empty; ChatSessions.ResultMessageCarriesCalls ties it to the message an agent step records |
| ChatSessions.WithPrompt | src/llm/ChatSession.cpp:75-87 | with a non-empty prompt the system message is put in front of the messages; with an empty one nothing changes |
| ChatSessions.ExchangeCount | src/llm/ChatSession.cpp:56-61 | in a history whose only system message is the leading one, every other message is counted |
| ChatSessions.ChatSession.constructor | src/llm/ChatSession.cpp:9-12 | a new session holds its prompt and only the system message (none for an empty prompt), and is well formed |
| ChatSessions.ChatSession.EnsureSystemPrompt | src/llm/ChatSession.cpp:75-87 | the system message is inserted in front exactly when the prompt is not empty |
| ChatSessions.ChatSession.AddUserMessage | src/llm/ChatSession.cpp:14-22 | one user message with the content is appended, and a well-formed history stays well formed |
| ChatSessions.ChatSession.AddAssistantMessage | src/llm/ChatSession.cpp:24-32 | one assistant message with the content and tool calls is appended, and a well-formed history stays well formed |
| ChatSessions.ResultMessageCarriesCalls | src/agent/AgentLoop.cpp:31-39 | the assistant message recorded for a result holds its text, and carries tool calls exactly when HasToolCalls holds, then all of them |
| ChatSessions.ToolCallsDetected | src/tests/AgentLoopTests.cpp:15-22 | a default result has no tool calls; after one call is pushed it has |
| ChatSessions.ChatSession.RecordResult | src/agent/AgentLoop.cpp:31-39 | one ResultMessage is appended, a well-formed history stays well formed, and the step finishes exactly when the result has no tool calls |
| ChatSessions.ChatSession.AddToolResult | src/llm/ChatSession.cpp:34-43 | one tool message with the content and call id is appended, the error flag is dropped, and a well-formed history stays well formed |
| ChatSessions.ChatSession.Clear | src/llm/ChatSession.cpp:50-54 | clear leaves only the system message (or nothing for an empty prompt) and keeps the prompt |
| ChatSessions.ChatSession.MessageCount | src/llm/ChatSession.cpp:56-61 | messageCount never exceeds the number of messages and equals it without a prompt |
| ChatSessions.ChatSession.MessageCountSkipsSystem | src/tests/ChatSessionTests.cpp:8-35 | in a well-formed session messageCount counts exactly the messages that are not the system message |
| ChatSessions.ChatSession.SetSystemPrompt | src/llm/ChatSession.cpp:68-73 | setSystemPrompt replaces the prompt and leaves only its system message |
| SixelPalette.Lo | src/tui/Sixel.cpp:30-44 | the running minimum of a channel, started at 255, stays within 0..255 |
| SixelPalette.Hi | src/tui/Sixel.cpp:30-44 | the running maximum of a channel, started at 0, stays within 0..255 |
| SixelPalette.Widest | src/tui/Sixel.cpp:45-52 | the chosen channel has the greatest spread, and no lower channel has as great a spread: red wins ties, then green |
| SixelPalette.WidestChannel | src/tui/Sixel.cpp:28-53 | widestChannel's loop returns Widest of the bucket |
| SixelPalette.SumBounds | src/tui/Sixel.cpp:63-68 | a channel's sum lies between \|ps\| times the least and \|ps\| times the greatest value |
| SixelPalette.Average | src/tui/Sixel.cpp:56-75 | averageColor is black for no pixels and otherwise the per-channel sum divided by the pixel count, rounded down |
| SixelPalette.AverageColor | src/tui/Sixel.cpp:56-75 | averageColor's loop returns Average of the bucket |
| SixelPalette.Largest | src/tui/Sixel.cpp:89-98 | the search finds the greatest bucket size and the first bucket of that size; (0, 0) when every bucket is empty |
| SixelPalette.Insert | src/tui/Sixel.cpp:107-114 | inserting one pixel into a bucket makes it one longer |
| SixelPalette.SortOn | src/tui/Sixel.cpp:107-114 | sorting on a channel keeps the bucket's length |
| SixelPalette.Means | src/tui/Sixel.cpp:125-129 | the palette has one colour per bucket, each bucket's average, in bucket order |
| SixelPalette.FindLargest | src/tui/Sixel.cpp:89-98 | the search loop returns Largest of the buckets |
| SixelPalette.MedianCut | src/tui/Sixel.cpp:81-130 | medianCut's loop returns the means of the buckets that splitting the largest bucket at its median leaves |
| SixelPalette.Dist | src/tui/Sixel.cpp:140-143 | the squared distance of two colours lies between 0 and 3 * 255 * 255, so it fits an int |
| SixelPalette.Scan | src/tui/Sixel.cpp:135-149 | closestColor's scan keeps the least distance so far and the first index that reaches it |
| SixelPalette.Closest | src/tui/Sixel.cpp:133-151 | closestColor is 0 for an empty palette, and otherwise the lowest index of least distance |
| SixelPalette.ClosestColor | src/tui/Sixel.cpp:133-151 | closestColor's loop returns Closest of the pixel |
| SixelPaletteProps.RangeBounds | src/tui/Sixel.cpp:30-44 | every value of a channel lies between its Lo and Hi |
| SixelPaletteProps.RangeAttained | src/tui/Sixel.cpp:30-44 | in a non-empty bucket Lo and Hi are values some pixel has |
| SixelPaletteProps.SpreadOfPixels | src/tui/Sixel.cpp:45-47 | the spread of a non-empty bucket lies within 0..255, so the unsigned subtraction never wraps |
| SixelPaletteProps.UniformBucketIsRed | src/tui/Sixel.cpp:45-49 | a bucket of one repeated colour has spread 0 and is widest on red |
| SixelPaletteProps.AverageInRange | src/tui/Sixel.cpp:56-75 | each channel of the average lies between the least and the greatest value of that channel |
| SixelPaletteProps.AverageOfUniform | src/tui/Sixel.cpp:56-75 | the average of a bucket of one repeated colour is that colour |
| SixelPaletteProps.InsertSorted | src/tui/Sixel.cpp:107-114 | inserting into a bucket sorted on a channel keeps it sorted |
| SixelPaletteProps.InsertKeeps | src/tui/Sixel.cpp:107-114 | inserting adds exactly the one pixel to the bucket's multiset |
| SixelPaletteProps.SortOnSorts | src/tui/Sixel.cpp:107-114 | the sorted bucket is ordered on the channel and is a permutation of the bucket |
| SixelPaletteProps.SplitKeepsPixels | src/tui/Sixel.cpp:116-122 | splitting a bucket at its median adds one bucket and keeps every pixel in exactly one bucket |
| SixelPaletteProps.SplitAtMedian | src/tui/Sixel.cpp:116-122 | no pixel left in the split bucket has a greater value on the widest channel than any pixel of the new bucket |
| SixelPaletteProps.SplitKeepsNonEmpty | src/tui/Sixel.cpp:100-122 | splitting a bucket of two or more pixels leaves no bucket empty |
| SixelPaletteProps.CutFacts | src/tui/Sixel.cpp:86-123 | the loop keeps the pixels and the buckets non-empty, and stops with maxColors buckets or with every bucket down to one pixel |
| SixelPaletteProps.PaletteSize | src/tui/Sixel.cpp:81-130 | for a non-empty image the palette has exactly min(maxColors, pixel count) colours |
| SixelPaletteProps.PaletteOfNothing | src/tui/Sixel.cpp:81-130 | with no pixels the palette is the one colour black |
| SixelPaletteProps.ClosestFindsExact | src/tui/Sixel.cpp:133-151 | a colour that is in the palette maps to an entry equal to it, no later than its first occurrence |
| Sixel.ClampColors | src/tui/Sixel.cpp:163 | the colour count is clamped to 1..256 and left alone inside that range |
| Sixel.Extract | src/tui/Sixel.cpp:166-174 | pixel i takes bytes 4i, 4i+1 and 4i+2; the alpha byte is skipped |
| Sixel.IndexAll | src/tui/Sixel.cpp:180-182 | every pixel is mapped to its closest palette colour |
| Sixel.Percent | src/tui/Sixel.cpp:191 | a channel as a percentage is at most 100, 0 for 0 and 100 for 255 |
| Sixel.SixelBits | src/tui/Sixel.cpp:205-219 | a column's sixel value is below 64 |
| Sixel.SixelChar | src/tui/Sixel.cpp:220 | a sixel character lies between '?' and '~' |
| Sixel.Row | src/tui/Sixel.cpp:203-221 | a colour's row has one character per column |
| Sixel.BandCount | src/tui/Sixel.cpp:197 | the bands of six rows cover the image, with no band wholly below it |
| Sixel.Encode | src/tui/Sixel.cpp:154-233 | the result is an InvalidArgument error exactly for an invalid image, with the dimensions message exactly when a dimension is not positive |
| Sixel.ColumnBits | src/tui/Sixel.cpp:205-219 | the bit loop returns the column's sixel value, and whether any of its pixels has the colour |
| Sixel.ColorRow | src/tui/Sixel.cpp:201-221 | the column loop returns the colour's row and whether the band holds the colour |
| Sixel.Band | src/tui/Sixel.cpp:199-228 | one band's text is, for every colour present in it and in colour order, "#i", its row and '$' |
| Sixel.ExtractPixels | src/tui/Sixel.cpp:166-174 | the extraction loop returns Extract of the bytes |
| Sixel.IndexPixels | src/tui/Sixel.cpp:180-182 | the mapping loop returns IndexAll of the pixels |
| Sixel.DefinePalette | src/tui/Sixel.cpp:188-192 | the palette loop writes "#i;2;r;g;b" in percentages for every colour in order |
| Sixel.EncodeBands | src/tui/Sixel.cpp:197-230 | the band loop writes every band of six rows in order |
| Sixel.EncodeSixel | src/tui/Sixel.cpp:154-233 | encodeSixel's loops return Encode of the image |
| SixelProps.BitsAreHits | src/tui/Sixel.cpp:206-218 | bit k of a column's value is set exactly when the pixel k rows into the band has the colour |
| SixelProps.AnyHitIsNonZero | src/tui/Sixel.cpp:213-216 | a column marks the colour present exactly when one of its six pixels has it |
| SixelProps.RowEncodesPixels | src/tui/Sixel.cpp:203-221 | character x of a colour's row, less 63, has bit k set exactly when the pixel k rows into the band in column x has the colour |
| SixelProps.RowHasIsHit | src/tui/Sixel.cpp:201-227 | a colour's row is written exactly when one of the band's pixels has the colour |
| SixelProps.RowChars | src/tui/Sixel.cpp:220 | every character of a row lies between '?' and '~' |
| SixelProps.PaletteHasClampedSize | src/tui/Sixel.cpp:163-177 | a valid image's palette has min(clamped maxColors, pixel count) colours |
| SixelProps.OneDashPerBand | src/tui/Sixel.cpp:187-230 | the output of a valid image holds exactly one '-' per band of six rows |
| SixelProps.StartsWithColorZero | src/tui/Sixel.cpp:188-192 | the output of a valid image starts with "#0;2;", the definition of colour 0 |
| SixelProps.AlphaIsIgnored | src/tui/Sixel.cpp:166-174 | images that differ only in alpha bytes, or in bytes past the last pixel, encode alike |
| AppImpl.InputBoxHeight | src/mychat/App.cpp:132-137 | the input box is 3 to 10 rows high: the line count plus two borders, with the count clamped to 1..8 |
| AppImpl.LeadLength | src/mychat/App.cpp:341-352 | a lead byte announces a sequence of 1 to 4 bytes, and any other byte counts as 1 |
| AppImpl.CalculateGraphemePositions | src/mychat/App.cpp:334-360 | calculateGraphemePositions' loop returns 0 and then the offset after every codepoint that fits in the text |
| AppImpl.CursorGrapheme | src/mychat/App.cpp:370-379 | the cursor's grapheme is the first offset at or after the cursor byte, or the last offset when there is none |
| AppImpl.FindCursorGrapheme | src/mychat/App.cpp:370-379 | the search loop returns CursorGrapheme |
| AppImpl.CursorGraphemeIs | src/mychat/App.cpp:370-379 | any index that meets CursorGrapheme's characterisation is the one it returns |
| AppImpl.EffectiveWidth | src/mychat/App.cpp:381-392 | at least one column shows text once the overflow indicators are reserved |
| AppImpl.Scrolled | src/mychat/App.cpp:394-408 | the new offset lies within 0..max(0, total - 1), is at or before the cursor, and shows the cursor unless the clamp to the last grapheme takes over |
| AppImpl.BoundaryFrom | src/mychat/App.cpp:855-869 | the scan from i returns a position inside the buffer, at or after i |
| AppImpl.Boundary | src/mychat/App.cpp:854-872 | a sentence end that is found lies inside the buffer |
| AppImpl.TrimEnd | src/mychat/App.cpp:877-879 | trimming keeps a prefix that ends in neither ' ' nor '\n' and removes only spaces and newlines |
| AppImpl.Impl.constructor | src/mychat/App.cpp:110-115 | a new App has empty text-to-speech buffers and is outside think (lines 110-115), and has scroll offset 0 (line 128) |
| AppImpl.Impl.FeedTtsToken | src/mychat/App.cpp:802-884 | feedTtsToken moves the state as Feed says, and changes nothing without a speaker or with speech disabled |
| AppImpl.Impl.FilterToken | src/mychat/App.cpp:811-849 | the character loop moves the tag buffer, think flag and sentence buffer as FilterAll says, and nothing else |
| AppImpl.Impl.SplitSentences | src/mychat/App.cpp:852-883 | the sentence loop leaves the remainder in the buffer and appends the buffer's sentences to the pending ones |
| AppImpl.Impl.UpdateInputScrollOffset | src/mychat/App.cpp:363-409 | the scroll offset becomes Scrolled for the cursor's grapheme, and the speech state is untouched |
| AppImpl.FilterLoop | src/mychat/App.cpp:811-849 | the character loop computes FilterAll over the token |
| AppImpl.SentenceLoop | src/mychat/App.cpp:852-883 | the sentence loop computes the remainder and appends the sentences |
| AppImpl.FindBoundary | src/mychat/App.cpp:854-869 | the scan loop returns Boundary of the buffer |
| AppImpl.TrimSentence | src/mychat/App.cpp:877-879 | the trimming loop returns TrimEnd of the sentence |
| AppProps.PositionsStep | src/mychat/App.cpp:339-357 | each offset steps by the length the lead byte announces and never passes the end; the scan stops at the end or before a sequence the text cuts short |
| AppProps.GraphemePositionsIncrease | src/mychat/App.cpp:334-360 | the offsets start at 0, increase strictly and end within the text |
| AppProps.AsciiPositions | src/mychat/App.cpp:334-360 | ASCII text has an offset for every byte |
| AppProps.ScrollStaysWhenVisible | src/mychat/App.cpp:394-408 | a cursor already in view does not move the scroll offset |
| AppProps.ScrollLeftToCursor | src/mychat/App.cpp:395-399 | a cursor left of the view makes the view start at the cursor |
| AppProps.FilterAllAppend | src/mychat/App.cpp:811-849 | filtering a + b is filtering a and then b: tags may span token boundaries |
| AppProps.FilterAllKeepsTag | src/mychat/App.cpp:813-845 | a tag buffer that is empty or a proper prefix of one of the two tags stays so through any token |
| AppProps.InsideThinkKeepsSentence | src/mychat/App.cpp:834-848 | inside a think block no character reaches the sentence buffer |
| AppProps.BrokenTagIsFlushed | src/mychat/App.cpp:834-838 | a tag that stops matching both tags is flushed, with the character that broke it, outside think |
| AppProps.PlainTextPasses | src/mychat/App.cpp:847-848 | outside think, text without '<' passes through unchanged |
| AppProps.ThinkTextDropped | src/mychat/App.cpp:847-848 | inside think, text without '<' is dropped |
| AppProps.TagPrefix | src/mychat/App.cpp:830-832 | while the buffered characters are a proper prefix of a tag, the filter keeps buffering them |
| AppProps.OpenTag | src/mychat/App.cpp:817-822 | "<think>" enters a think block and writes nothing |
| AppProps.CloseTag | src/mychat/App.cpp:823-828 | "</think>" leaves a think block and writes nothing |
| AppProps.ThinkBlockHidden | src/mychat/App.cpp:809-849 | "<think>", a body without '<' and "</think>" leave the filter where it was: nothing of the block is spoken |
| AppProps.BoundaryFromIsFirst | src/mychat/App.cpp:855-869 | the scan returns a sentence end and passes no index where it would stop; none is found only when no index stops it |
| AppProps.BoundaryIsFirstEnd | src/mychat/App.cpp:851-872 | the scan finds the first position that ends a sentence, and finds none exactly when no position ends one |
| AppProps.RemainderHasNoEnd | src/mychat/App.cpp:852-883 | no sentence end is left in what stays in the buffer |
| AppProps.RemainderIsTail | src/mychat/App.cpp:874-875 | what stays in the buffer is a tail of it |
| AppProps.SentencesAreTrimmed | src/mychat/App.cpp:877-882 | every sentence pushed is non-empty and ends in neither ' ' nor '\n' |
| AppProps.FeedLeavesNoSentenceEnd | src/mychat/App.cpp:802-884 | after feedTtsToken the sentence buffer holds no sentence end |
| AppProps.FeedAppendsSentences | src/mychat/App.cpp:802-884 | feedTtsToken only appends non-empty sentences to the pending ones |

## Left out

- Terminal I/O (`TerminalInput.cpp`, `Terminal.cpp`: raw mode, `poll`, the self-pipe, `ioctl`, SIGWINCH) is not part of this model; bytes reach the model through `VtParser.Parser.Feed` and a poll timeout through `VtParser.Parser.Timeout`.
- Grapheme segmentation by libunicode is replaced by UTF-8 codepoint boundaries (`Utf8.NextBoundary`, `Utf8.PrevBoundary`), so a cluster of several codepoints is edited one codepoint at a time.
- Multiline editing and Shift capitalisation, which `App.cpp` and the tests use, are not declared by the `InputField` sources; the model follows those sources.
- Screen rendering (`render` of Box, List, Dialog, LogPanel and StatusBar, `Text::render`, `Text::lineCount`, and the styling of `MarkdownRenderer::renderLine`, `renderInline` and `renderHeading`) is left out; a markdown line that reaches `renderLine` is recorded as one `MarkdownLine` item holding its text.
- Boxes.Render, Boxes.WriteRepeated, Boxes.RenderTopBorder, Boxes.RenderTitle, Boxes.RenderBottomBorder, Boxes.RenderSideBorders and Boxes.ClearContent state only that they append to the output buffer (and that a box under 2x2 draws nothing), not which glyph goes where.
- LineEditor.SetMaxHistory, InputFields.InputField.SetMaxHistory: the history index is clamped, where src/tui/InputField.cpp:126-131 leaves it past the history (see Findings).
- Texts.Text.Wrap, Texts.WrapLine: character mode cuts chunks at codepoint boundaries, where src/tui/Text.cpp:210-217 stops a chunk right after a lead byte and so splits a codepoint (see Findings).
- Lists.List.EnsureSelectionVisible: takes `maxRows` as a `nat`; the source's `int maxRows` is cast to `size_t` (src/tui/List.cpp:374-383), so a negative value would wrap, and its only caller, `render` (src/tui/List.cpp:194), is not part of this model.
- `TerminalOutput::flush`, `updateDimensions` and `SyncGuard` write to a file descriptor and call `ioctl`; the output buffer is a byte sequence the methods append to.
- The LogPanel mutex and App's transcription queue and atomic flags are concurrency; the model is sequential.
- StatusBars.StatusBar.HintsWidth counts in unbounded integers; the source's `int` sum would overflow only past 2^31 bytes of hints.
- ChatTypes.ToolCall keeps a tool call's JSON arguments as the bytes of their text, because nlohmann::json is not part of this model.
- ChatTypes.RoleToString has no `"unknown"` case: the source returns it only after a switch that covers all four roles, so it cannot be reached.
- SixelPalette.SortOn orders pixels with equal channel values as an insertion sort would; `std::ranges::sort` is not stable, so with ties the exact palette is one of several the source may produce, while partition, palette size and band layout hold whatever the order.
- Sixel.Encode computes `width * height * 4` in unbounded integers, where the source uses `size_t`.
- AppImpl.Impl reduces the text-to-speech speaker object to a `hasSpeaker` flag; `flushTts` and the rest of `App.cpp` (event loop, commands, layout, redraw, voice meter) are orchestration and left out.
- AppImpl.Impl.UpdateInputScrollOffset receives the input field's text and cursor as parameters instead of reading the `InputField` object.
- AppImpl.InputBoxHeight receives the line count as a parameter, because the `InputField` sources have no `lineCount`.
- Clocks and floating point (spinner, progress bar, voice meter, voice activity detection), the audio stack, LLM inference, the agent loop (apart from how a step records its result, `ChatSessions.ChatSession.RecordResult`: tool execution and the iteration limit are left out), MCP, JSON-RPC, configuration, themes and logging are outside the terminal core.

## Findings

| source | as written | input that shows it | evidently intended | confidence | as-written member | corrected member |
|---|---|---|---|---|---|---|
| src/tui/Text.cpp:323-332 | `truncate` stops copying right after the lead byte of the last kept codepoint, so that codepoint's continuation bytes are dropped before the ellipsis | `truncate("ééééé", 4)` keeps `C3 A9 C3 A9 C3` and then the ellipsis, which is not valid UTF-8 | keep whole codepoints: width - 1 codepoints, then the ellipsis | not executed | TextWidthProps.TruncateSplitsCodepoint | TextWidthProps.TruncateContract |
| src/tui/InputField.cpp:126-131 | `setMaxHistory` drops the oldest entries but leaves `_historyIndex` where it was | add "a", "b", "c", then `setMaxHistory(1)`, then Up: the index is 3 with one entry, and `historyPrev` reads `_history[2]` | clamp the index to the new history size | not executed | LineEditorProps.SetMaxHistoryAsWrittenOverruns | LineEditorProps.SetMaxHistoryClamped |
| src/tui/Text.cpp:204-224 | character-mode `wrap` stops a chunk right after the lead byte that fills the width, so the next chunk starts with a continuation byte | wrapping "éé" at width 1 gives the chunks `C3`, `A9 C3` and `A9` | cut at codepoint boundaries: "é" and "é" | not executed | TextProps.CharWrapSplitsCodepoint | TextProps.ChunksContract |
