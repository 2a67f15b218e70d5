# Phone-keypad decoder

A model of `ParserPhonePad`, the decoder that turns a string of key presses on a
telephone keypad into text. Its input uses three kinds of symbol:

- the digits `0`–`9`: repeated presses of one key step through the characters
  printed on it, and wrap around after the last one;
- a space: a *wait*, which commits the pending press sequence;
- `*`: a *delete*, which cancels the pending press sequence, or removes the last
  committed character when nothing is pending.

The terminator `#` must end the input. The decoder returns a `Result`: either the
decoded text, or a failure carrying a description.

The project has five modules, one file each:

- `Results` (`results.dfy`) is the success/failure carrier of `result.h`. It is a
  datatype holding an error description and a payload. A result is a success
  exactly when its description is empty. `Value()` may only be asked of a success.
- `Keypad` (`keypad.dfy`) holds the fixed ten-entry key table, the set of valid
  symbols, the lookup of a key's characters, and the press-count lookup with its
  wrap-around.
- `PhonePadParser` (`parser.dfy`) holds the decoder itself, specified twice:
  - `ParseSpec` says declaratively which outcome an input has;
  - `Decode` folds `Step` over the symbols before the terminator;
  - `Parse` is the imperative scan over the locals `keyPressing`, `keyIterations`
    and `result`, with the early returns and the `break` of the loop of `parse`, and
    it is proved equal to `ParseSpec` on every input.
- `ParserProperties` (`properties.dfy`) proves:
  - the error order and the exact condition for success;
  - what each kind of symbol does to the scan state;
  - wrap-around, length bounds, and that decoded text uses keypad characters only.
- `DecoderTests` (`test_cases.dfy`) states each case of the decoder's unit tests
  as a lemma about `ParseSpec`. The longer cases are proved one key group at a time;
  the others follow from the general lemmas.

A press sequence still pending at `#` is committed. `#` goes through the new-key
and different-key branches (`parserphonepad.cpp:84-99`) before the `break` at
line 102, so `"33#"` decodes to `"E"` and `"2#"` to `"A"`. See
`DecoderTests.TerminatorCommitsPending` and `ParserProperties.TerminatorCommitsLikeWait`.

Only the symbols before the first `#` are validated (`parserphonepad.cpp:58-61`
and 102). Anything after it is trailing input, whatever it is: `"123#x"` fails
with the trailing-input error. See `ParserProperties.ParseTrailingInput`.

For the two longest test inputs, the lemmas write the input as its key groups
joined with `+`. For example, `"3" + "1" + "888" + ...` is the same string as
`"318884430666 6662222#"`.

## Model

| member | source | states |
|---|---|---|
| Results.Ok | parserphonepad/include/parserphonepad/result.h:12 | `Ok(r)` reads as a success and its value is `r` |
| Results.Result.IsOk | parserphonepad/include/parserphonepad/result.h:17-18 | a result is a success exactly when its description is empty (a definition; `Ok` and `Error` state what it means for each constructor) |
| Results.Result.Value | parserphonepad/include/parserphonepad/result.h:20-28 | may only be asked of a success (the assert becomes the precondition); a success is exactly the empty description with the payload returned |
| Results.Error | parserphonepad/include/parserphonepad/result.h:13-34 | `Error(e)` stores `e` as the description and an empty payload; it reads as a success exactly when `e` is empty |
| Keypad.KeyMapShape | parserphonepad/src/parserphonepad/parserphonepad.cpp:18-31 | the key table has ten entries, none of them empty |
| Keypad.ValidInputsAreKeypadSymbols | parserphonepad/src/parserphonepad/parserphonepad.cpp:36 | a symbol is valid exactly when it is a digit, a space, `*` or `#` |
| Keypad.KeyLetters | parserphonepad/src/parserphonepad/parserphonepad.cpp:122-128 | only a digit may be looked up (the assert becomes the precondition), and the entry found is never empty, so the later index is in range |
| Keypad.KeyOfLetter | parserphonepad/src/parserphonepad/parserphonepad.cpp:18-31 | no character is printed on two keys, so a character found on keys `a` and `b` means `a == b` |
| Keypad.CharForPresses | parserphonepad/src/parserphonepad/parserphonepad.cpp:139-142 | needs a digit and at least one press; the character selected is one printed on that key |
| Keypad.CharForPressesFirstRound | parserphonepad/src/parserphonepad/parserphonepad.cpp:139-142 | within the first round, `n` presses select the key's `n`-th character |
| Keypad.CharForPressesWraps | parserphonepad/src/parserphonepad/parserphonepad.cpp:134-142 | `n + k * len` presses select the same character as `n` presses, for every `k` |
| PhonePadParser.Message | parserphonepad/src/parserphonepad/parserphonepad.cpp:46-111 | every failure description is non-empty, so the `Error` built from it reads as a failure |
| PhonePadParser.PressSymbolsAreValidInputs | parserphonepad/src/parserphonepad/parserphonepad.cpp:36-61 | the symbols the scan processes as presses are exactly the valid symbols other than `#` |
| PhonePadParser.Inv | parserphonepad/src/parserphonepad/parserphonepad.cpp:49-53 | the scan state: a key is pending exactly when its press count is non-zero, and a pending key is a digit (a definition; `Step` and `Run` prove it is kept) |
| PhonePadParser.Flush | parserphonepad/src/parserphonepad/parserphonepad.cpp:79-80 | committing adds exactly one character when a key is pending and none otherwise |
| PhonePadParser.Step | parserphonepad/src/parserphonepad/parserphonepad.cpp:63-100 | one symbol keeps the scan invariant: a key is pending exactly when its press count is non-zero, and a pending key is a digit |
| PhonePadParser.Run | parserphonepad/src/parserphonepad/parserphonepad.cpp:58-104 | the scan invariant holds after any sequence of press symbols |
| PhonePadParser.Decode | parserphonepad/src/parserphonepad/parserphonepad.cpp:58-103 | the text the press symbols before `#` decode to, with `#` committing the pending press (a definition; its properties are `DecodePresses`, `DecodeLength`, `DecodeUsesKeypadLetters`) |
| PhonePadParser.TerminatorIndex | parserphonepad/src/parserphonepad/parserphonepad.cpp:102-106 | the index found is the first `#`, or the input's length when there is none |
| PhonePadParser.FirstInvalid | parserphonepad/src/parserphonepad/parserphonepad.cpp:58-61 | the index found is the first symbol outside the valid set, and `None` means every symbol is valid |
| PhonePadParser.ParseSpec | parserphonepad/src/parserphonepad/parserphonepad.cpp:44-115 | the outcome of a decode in the order the code checks: empty input, the first invalid symbol before `#`, a missing `#`, trailing input, else the decoded text; a success ends with `#` and a failure carries no payload |
| PhonePadParser.RunSnoc | parserphonepad/src/parserphonepad/parserphonepad.cpp:58-104 | scanning one more symbol is one more `Step` |
| PhonePadParser.NoInvalidPressSymbol | parserphonepad/src/parserphonepad/parserphonepad.cpp:59-61 | press symbols are never reported as invalid |
| PhonePadParser.FirstInvalidAt | parserphonepad/src/parserphonepad/parserphonepad.cpp:58-61 | an invalid symbol preceded only by press symbols is the one reported |
| PhonePadParser.Parse | parserphonepad/src/parserphonepad/parserphonepad.cpp:44-115 | the scan returns exactly `ParseSpec(input)` on every input: every error in its order, and otherwise the decoded text |
| ParserProperties.ParseEmptyFails | parserphonepad/src/parserphonepad/parserphonepad.cpp:45-47 | the empty input fails with the empty-input error |
| ParserProperties.ParseInvalidCharacter | parserphonepad/src/parserphonepad/parserphonepad.cpp:58-61 | the first invalid symbol, with only press symbols before it, fails the decode with its own description |
| ParserProperties.ParseMissingTerminator | parserphonepad/src/parserphonepad/parserphonepad.cpp:106-108 | valid non-empty input without `#` fails with the missing-terminator error |
| ParserProperties.ParseTrailingInput | parserphonepad/src/parserphonepad/parserphonepad.cpp:102-112 | after a valid prefix and `#`, any further symbols, valid or not, fail with the trailing-input error |
| ParserProperties.ParseSucceedsIff | parserphonepad/src/parserphonepad/parserphonepad.cpp:44-115 | a decode succeeds exactly when the input is press symbols followed by a single final `#`, and then yields `Decode` of those symbols |
| ParserProperties.ParseWellTerminated | parserphonepad/src/parserphonepad/parserphonepad.cpp:102-114 | press symbols followed by `#` decode successfully to `Decode` of the symbols |
| ParserProperties.MessagesDistinct | parserphonepad/src/parserphonepad/parserphonepad.cpp:46-111 | distinct failures have distinct descriptions |
| ParserProperties.RunAppend | parserphonepad/src/parserphonepad/parserphonepad.cpp:58-104 | scanning two pieces is scanning the first, then the second from where it left off |
| ParserProperties.PressesAccumulate | parserphonepad/src/parserphonepad/parserphonepad.cpp:88-90 | further presses of the pending key only raise its count and commit nothing |
| ParserProperties.RunGroup | parserphonepad/src/parserphonepad/parserphonepad.cpp:84-99 | a run of a different key commits what was pending, then leaves the new key pending as many times as it was pressed |
| ParserProperties.PressesFromIdle | parserphonepad/src/parserphonepad/parserphonepad.cpp:84-90 | `n` presses of a key from an idle state leave it pending `n` times, with the output unchanged |
| ParserProperties.DecodePresses | parserphonepad/src/parserphonepad/parserphonepad.cpp:84-103 | `n` presses of one key, committed at the end, decode to the single character `CharForPresses` selects |
| ParserProperties.PressesWrapAround | parserphonepad/src/parserphonepad/parserphonepad.cpp:134-142 | a full further round of presses decodes to the same text |
| ParserProperties.DecodedCharacterNamesKey | parserphonepad/src/parserphonepad/parserphonepad.cpp:18-31 | no character is printed on two keys, so the character a press sequence decodes to tells which key was pressed |
| ParserProperties.TerminatorCommitsLikeWait | parserphonepad/src/parserphonepad/parserphonepad.cpp:75-103 | `#` commits the pending press sequence exactly as a wait does |
| ParserProperties.DeleteStep | parserphonepad/src/parserphonepad/parserphonepad.cpp:63-74 | a delete cancels a pending sequence and keeps the output; with nothing pending it removes the last character, or does nothing on empty output |
| ParserProperties.PressesThenDeleteCancel | parserphonepad/src/parserphonepad/parserphonepad.cpp:63-74 | a press sequence followed by a delete leaves the state as it was before the presses |
| ParserProperties.LeadingDeletesAreNoOps | parserphonepad/src/parserphonepad/parserphonepad.cpp:69-74 | deletes at the start of input change nothing |
| ParserProperties.WaitCommits | parserphonepad/src/parserphonepad/parserphonepad.cpp:75-83 | a wait commits the pending character, if any, and resets to idle |
| ParserProperties.FlushKeepsOutput | parserphonepad/src/parserphonepad/parserphonepad.cpp:79-80 | committing keeps the text already committed and appends exactly `CharForPresses` of the pending key and its count, a character printed on that key |
| ParserProperties.LeadingWaitsAreNoOps | parserphonepad/src/parserphonepad/parserphonepad.cpp:78-83 | waits with nothing pending change nothing |
| ParserProperties.RepeatedWaitsActAsOne | parserphonepad/src/parserphonepad/parserphonepad.cpp:75-83 | several consecutive waits act as a single wait from any state |
| ParserProperties.RunGrowsByAtMostOne | parserphonepad/src/parserphonepad/parserphonepad.cpp:58-104 | each symbol adds at most one character to the committed-plus-pending text |
| ParserProperties.DecodeLength | parserphonepad/src/parserphonepad/parserphonepad.cpp:44-115 | the decoded text is never longer than the input before `#` |
| ParserProperties.RunKeepsKeyLetters | parserphonepad/src/parserphonepad/parserphonepad.cpp:63-100 | the scan keeps its text made of keypad characters, deletes included |
| ParserProperties.DecodeUsesKeypadLetters | parserphonepad/src/parserphonepad/parserphonepad.cpp:18-31 | every decoded character is printed on some key |
| DecoderTests.EmptyInputFails | test/test.cpp:72-77 | `""` fails, and its description contains "empty" |
| DecoderTests.ExtraInputFails | test/test.cpp:82-87 | `"123# 123#"` fails, and its description contains "input beyond" |
| DecoderTests.NoTerminatorFails | test/test.cpp:92-97 | `"123"` fails, and its description contains "terminating" |
| DecoderTests.KnownInputE | test/test.cpp:19-36 | `"33#"` decodes to `"E"` |
| DecoderTests.KnownInputB | test/test.cpp:19-36 | `"227*#"` decodes to `"B"` |
| DecoderTests.KnownInputHello | test/test.cpp:19-36 | `"4433555 555666#"` decodes to `"HELLO"` |
| DecoderTests.LoneTerminator | test/test.cpp:41-46 | `"#"` decodes to the empty text |
| DecoderTests.LoneDeletes | test/test.cpp:51-56 | `"****#"` decodes to the empty text |
| DecoderTests.MultipleDeletes | test/test.cpp:62-67 | `"2 **** 3#"` decodes to `"D"` |
| DecoderTests.Delete | test/test.cpp:103-108 | `"22*34*#"` decodes to `"D"` |
| DecoderTests.SpaceAndSequence | test/test.cpp:119-124 | `"318884430666 6662222#"` decodes to `"D&VHD OOA"` |
| DecoderTests.MultipleWait | test/test.cpp:130-135 | `"   11  23#"` decodes to `"'AD"` |
| DecoderTests.Combined | test/test.cpp:140-145 | `"32888444301116 6 666 66611110666 66 * 55 51 * *#"` decodes to `"DAVID (MMOO) OK"` |
| DecoderTests.TerminatorCommitsPending | parserphonepad/src/parserphonepad/parserphonepad.cpp:84-103 | `"2#"` decodes to `"A"`: the terminator commits the pending press |

## Left out

- The command-line program in `iron/src/main.cpp` is not part of this model. It only reads an argument and prints the result or the error.
- `Result<T>` is modelled only for strings, the one type the decoder uses. Its `const` fields are the fields of an immutable datatype.
- The `assert(ok())` in `result()` becomes the precondition of `Results.Value`. So a call on a failure is rejected by the verifier rather than being undefined.
- `keyIterations` is an unbounded `nat`. Overflow of the source's `int` counter is not modelled.
- The `-1` sentinel in the `char keyPressing` is an `Option`. The signedness of `char` does not arise.
- The `std::find` over the vector of valid symbols is modelled as membership in a set.
- `Parse` keeps the in-place `+=` and `pop_back` on `result` as reassignments of a local `seq`, which has no aliasing.
- The decoder's constructor and its `const` members are module constants. No decoder object is modelled, because `parse` reads only those constants.
- The header comment at `parserphonepad/include/parserphonepad/parserphonepad.h:15` lists `&` as a valid symbol. The code uses `#` and the model follows it. The header's commentary on performance and static initialisation has no behaviour to model.
- Keypad.CharForPresses: its contract states only that the result is printed on the key. The exact position is stated by `CharForPressesFirstRound` and `CharForPressesWraps`.
- PhonePadParser.Flush: its contract states only the length of the result. The exact content is stated by `ParserProperties.FlushKeepsOutput`.
