# VertexOS kernel core in Dafny

This project models the text-processing, buffer and byte-level core of the
VertexOS hobby kernel and proves properties of it. It covers:

- the keyboard path: the scancode queue of `task/keyboard.rs` (producer
  `add_scancode`, consumer `ScancodeStream`) and the 256-byte line editor that
  `print_keypress` and the keyboard interrupt handler both run;
- the hard-wired command dispatcher `handle_command`, the `assert_eq` command,
  and the name-to-callable command and test registries;
- the VGA text writer: a 25x80 grid of characters with colour attributes and a
  bottom-row cursor;
- interrupt-vector numbering and task-id allocation;
- the freestanding `memcmp`, `memset` and `memcpy`;
- the PC-speaker driver's timer divisor and port writes.

Each Rust module becomes a Dafny module of its own:

| Dafny file | module | models |
|---|---|---|
| `text.dfy` | `Text` | the `str` operations the kernel relies on: `trim`, `find`/`split_at`, `splitn(2, ' ')`, `split_whitespace`, decimal formatting |
| `utf8.dfy` | `Utf8` | `core::str::from_utf8` and `str::bytes` (Table 3-7 of the Unicode Standard) |
| `commands.dfy` | `Commands` | `kernel/src/commands.rs` |
| `assert_eq.dfy` | `AssertEq` | `kernel/src/commands/assert_eq.rs`, including `str::parse::<i32>` |
| `command_registry.dfy` | `CommandRegistry` | `kernel/src/command_registry.rs` |
| `test_registry.dfy` | `TestRegistry` | `kernel/src/test_registry.rs` |
| `keyboard.dfy` | `Keyboard` | `kernel/src/task/keyboard.rs` |
| `interrupts.dfy` | `Interrupts` | `kernel/src/interrupts.rs` |
| `task.dfy` | `Task` | `kernel/src/task/mod.rs` |
| `vga_buffer.dfy` | `VgaBuffer` | `kernel/src/vga_buffer.rs` |
| `mem.dfy` | `Mem` | `memcmp`, `memset`, `memcpy` of `kernel/src/main.rs` |
| `sound.dfy` | `Sound` | `kernel/src/sound.rs` |

The model keeps the source's form:

- State the kernel updates in place is a class:
  - the scancode bridge;
  - the line editor, whose 256-byte buffer is an `array<byte>`;
  - the VGA `Writer`, whose text buffer is an `array2`;
  - the command and test registries, each holding a `map`;
  - the task-id counter;
  - the I/O port bus.
- Each of its methods is proved against a pure function of the old state, e.g.
  `State() == AfterWriteByte(old(State()), b)`. The properties the kernel
  promises are then lemmas about those functions.
- The pure code (dispatch, routing, parsing, colour packing, divisor
  arithmetic) is made of functions and lemmas.

Printing is modelled as the list of lines a call prints. A panic is an error
value carrying its message.

Notes on the model:

- In this source nothing calls `add_scancode`, and `kernel/src/lib.rs:11-15`
  does not declare the `task` module, so neither the scancode bridge nor
  `print_keypress` is part of the built kernel. The keyboard interrupt handler
  does not feed the queue; it runs its own editor. The bridge and
  `print_keypress` are modelled as written.
- The files `command_registry.rs` and `test_registry.rs` are not declared in
  `lib.rs` either; each is modelled on its own text.
- `interrupts.rs` repeats the line editor of `print_keypress` line for line,
  but over its own statics. `Interrupts.KeyboardInterruptHandler` therefore runs
  the same `Keyboard.Step` on a `LineEditor` of its own.
- The PIT command byte `0b10110110` (`kernel/src/sound.rs:15`) selects channel 2,
  low-then-high access, operating mode 3 (square-wave generator) and binary
  counting. That is what `Sound.Channel2CommandFields` states. The comment next to
  it says "mode 2 (rate generator)"; the model follows the byte.
- `print_fart` always returns `true`, so `Commands.PrintFart` ensures it. As a
  result the "Fart [failed]" and "noob" branches of `handle_command` are
  modelled but unreachable, and `Commands.DispatchCases` shows that `fart` always
  prints the banner and an empty line.
- `run_command` and `run_test` hold the registry lock while the callable runs.
  The model returns which callable is invoked rather than running it.

## Model

| member | source | states |
|---|---|---|
| Text.LeadingWhitespace | kernel/src/commands.rs:7 | the count of leading characters is all whitespace and is followed by a non-whitespace character or the end |
| Text.TrailingWhitespace | kernel/src/commands.rs:7 | the same for the end of the string |
| Text.Trim | kernel/src/commands.rs:7 | `str::trim`: the slice between the leading and trailing whitespace runs; a non-empty result starts and ends with non-whitespace; empty exactly when the string is all whitespace |
| Text.LeadingWhitespaceIs | kernel/src/commands.rs:7 | any prefix length that is all whitespace and followed by non-whitespace is the leading count (uniqueness) |
| Text.TrailingWhitespaceIs | kernel/src/commands.rs:7 | uniqueness of the trailing count |
| Text.TrimIsSlice | kernel/src/command_registry.rs:34 | a slice with whitespace on both sides and non-whitespace ends is what `trim` returns |
| Text.TrimEmpty | kernel/src/command_registry.rs:34 | `trim` gives the empty string exactly for all-whitespace input |
| Text.TrimOfTrimmed | kernel/src/command_registry.rs:34 | `trim` is idempotent: a string with non-whitespace ends is its own trim |
| Text.TrimIgnoresPadding | kernel/src/command_registry.rs:34 | whitespace added before and after a line does not change its trim |
| Text.TrimWordLine | kernel/src/commands.rs:7-11 | a word, a space and arguments with a non-whitespace end are left alone by `trim` |
| Text.FindFirst | kernel/src/commands.rs:10 | `str::find(' ')`: `None` exactly when the character is absent, otherwise its first index |
| Text.SplitOnce | kernel/src/command_registry.rs:35-37 | `splitn(2, sep)`: without a separator the whole string and no rest; otherwise the string is prefix + sep + rest with no separator in the prefix |
| Text.SplitOnceOfJoined | kernel/src/command_registry.rs:35-37 | round trip: splitting a separator-free word joined to a rest gives back the word and the rest |
| Text.WordLength | kernel/src/commands/assert_eq.rs:5 | the length of the first word is all non-whitespace and ends at whitespace or the end |
| Text.SplitWhitespace | kernel/src/commands/assert_eq.rs:5 | `split_whitespace`: every token is non-empty and contains no whitespace |
| Text.SplitWhitespaceExtraSpace | kernel/src/commands/assert_eq.rs:5 | one more whitespace character next to whitespace or at either end changes no token |
| Text.SplitWordThen | kernel/src/commands/assert_eq.rs:5 | a word followed by whitespace or the end is the first token |
| Text.SplitJoinWords | kernel/src/commands/assert_eq.rs:5 | round trip: tokens joined with single spaces split back to the same tokens |
| Text.NatToString | kernel/src/commands/assert_eq.rs:8 | decimal formatting yields a non-empty run of digits |
| Utf8.EncodeChar | kernel/src/vga_buffer.rs:128 | `str::bytes` for one character: 1 to 4 bytes, a single byte exactly for ASCII |
| Utf8.DecodeFirst | kernel/src/commands.rs:5 | whatever one well-formed character decodes to is exactly the encoding of that character |
| Utf8.Decode | kernel/src/commands.rs:5 | `from_utf8`: a decoded string re-encodes to the input bytes |
| Utf8.DecodeFirstOfEncoding | kernel/src/commands.rs:5 | every character's encoding decodes back to it, whatever follows |
| Utf8.DecodeEncode | kernel/src/commands.rs:5 | round trip: decoding the encoding of any string gives the string |
| Utf8.DecodeAscii | kernel/src/commands.rs:5 | bytes below 0x80 decode one character per byte with the same code |
| Commands.FartBanner | kernel/src/commands.rs:51-58 | the banner is eight lines |
| Commands.PrintFart | kernel/src/commands.rs:50-60 | `print_fart` prints eight lines and always returns true |
| Commands.HandleCommand | kernel/src/commands.rs:3-48 | invalid UTF-8 prints only "Failed to parse command"; valid text is dispatched after trimming |
| Commands.Dispatch | kernel/src/commands.rs:10-44 | every command prints at least one line |
| Commands.DispatchCases | kernel/src/commands.rs:10-44 | split at the first space: `fart` (with or without arguments) prints the banner then an empty line; `echo` with arguments prints the text after the space; a bare `echo` and every other word print "Unknown command: " and the first word |
| Commands.HandleCommandOfText | kernel/src/commands.rs:5-7 | valid UTF-8 text padded with whitespace is dispatched as its trimmed content |
| Commands.DispatchEcho | kernel/src/commands.rs:13-16 | `echo` followed by a space prints exactly the rest, without that space |
| Commands.HandleCommandEcho | kernel/src/commands.rs:3-16 | a typed `echo message` line, padded with whitespace, prints exactly the message |
| Commands.HandleCommandBareEcho | kernel/src/commands.rs:32-42 | `echo` with no argument is an unknown command |
| Commands.BareEchoDispatch | kernel/src/commands.rs:40-42 | the trimmed word `echo` alone reaches the unknown-command branch |
| Commands.HandleCommandUnknown | kernel/src/commands.rs:25-28 | an unknown multi-word command reports only its first word |
| Commands.UnknownDispatch | kernel/src/commands.rs:25-28 | the same at the dispatch level, for any rest |
| AssertEq.DigitValue | kernel/src/commands/assert_eq.rs:15 | a decimal digit's value is below ten |
| AssertEq.Step | kernel/src/commands/assert_eq.rs:15 | one step of the `i32` digit loop never yields a value outside `i32` |
| AssertEq.Accumulate | kernel/src/commands/assert_eq.rs:15 | the digit loop yields an `i32` or an error other than `Empty` |
| AssertEq.ParseI32 | kernel/src/commands/assert_eq.rs:15-16 | `str::parse::<i32>`: a success is within `i32`; the error is `Empty` exactly for the empty string |
| AssertEq.AccumulateSnoc | kernel/src/commands/assert_eq.rs:15 | the loop over a longer string is the loop over the prefix followed by one more step |
| AssertEq.AccumulateDecimal | kernel/src/commands/assert_eq.rs:15 | the decimal digits of a magnitude within range accumulate back to it, negated for a minus sign |
| AssertEq.ParseFormatted | kernel/src/commands/assert_eq.rs:15-16 | round trip: every `i32` printed in decimal parses back to itself |
| AssertEq.AccumulateOnlyDigits | kernel/src/commands/assert_eq.rs:15 | the loop succeeds only on strings made of digits |
| AssertEq.ParseOnlyDecimal | kernel/src/commands/assert_eq.rs:15-16 | only an optional sign followed by at least one digit parses |
| AssertEq.AssertEqual | kernel/src/commands/assert_eq.rs:22-27 | `assert_eq` returns exactly for equal values and then returns true; different values panic with the message carrying both |
| AssertEq.Execute | kernel/src/commands/assert_eq.rs:4-19 | a token count other than 2 prints "assert_eq takes 2 arguments but n arguments was supplied" and returns; with two tokens nothing is printed: the first token that is not an `i32` panics with "failed to parse to i32" and its error kind, two different values panic with the mismatch message carrying both, and it returns quietly exactly when both parse and are equal |
| AssertEq.ExecuteExtraWhitespace | kernel/src/commands/assert_eq.rs:5 | extra whitespace in the arguments does not change the outcome |
| AssertEq.IntToStringIsWord | kernel/src/commands/assert_eq.rs:5 | a formatted integer is one whitespace-free token |
| AssertEq.ExecuteFormatted | kernel/src/commands/assert_eq.rs:4-27 | `assert_eq x y` on two `i32` values returns quietly when they are equal and panics with the mismatch message otherwise |
| CommandRegistry.Report | kernel/src/command_registry.rs:40-59 | nothing is printed exactly when a callable is invoked; otherwise one error line |
| CommandRegistry.ParseCommandLine | kernel/src/command_registry.rs:34-37 | the name holds no space; without arguments it is the whole trimmed line; with arguments the trimmed line is name, space, arguments |
| CommandRegistry.Registry.constructor | kernel/src/command_registry.rs:19-21 | the registry starts empty |
| CommandRegistry.Registry.RegisterCommandWithArgs | kernel/src/command_registry.rs:24-26 | the name is bound to the with-arguments callable, replacing any old entry; other names are untouched |
| CommandRegistry.Registry.RegisterCommand | kernel/src/command_registry.rs:29-31 | the name is bound to the no-arguments callable, replacing any old entry; other names are untouched |
| CommandRegistry.Registry.RunCommand | kernel/src/command_registry.rs:33-59 | the outcome is the routing of the line and the printed lines its report; the registry is not changed |
| CommandRegistry.RouteCases | kernel/src/command_registry.rs:39-59 | unknown name → "not found"; with-args entry without arguments → "requires arguments"; no-args entry given arguments → "does not accept arguments"; otherwise that entry is invoked, with the arguments for the with-args form |
| CommandRegistry.ParseNameAndArgs | kernel/src/command_registry.rs:34-37 | a padded `name args` line parses to the name and the arguments |
| CommandRegistry.ParseNameAlone | kernel/src/command_registry.rs:34-37 | a padded single word parses to the name and no arguments |
| CommandRegistry.RunRegisteredWithArgs | kernel/src/command_registry.rs:42-44 | a registered with-args command given arguments is invoked with exactly them |
| CommandRegistry.RunRegisteredWithArgsAlone | kernel/src/command_registry.rs:43-47 | a registered with-args command without arguments is refused |
| CommandRegistry.RunRegisteredNoArgs | kernel/src/command_registry.rs:49-51 | a registered no-args command without arguments is invoked |
| CommandRegistry.RunRegisteredNoArgsGivenArgs | kernel/src/command_registry.rs:49-54 | a registered no-args command given arguments is refused |
| CommandRegistry.RouteIgnoresOtherEntries | kernel/src/command_registry.rs:24-31 | registering another name does not change how a line is routed |
| TestRegistry.Report | kernel/src/test_registry.rs:23-28 | nothing is printed exactly for a test that panicked; otherwise one line |
| TestRegistry.Registry.constructor | kernel/src/test_registry.rs:11-13 | the registry starts empty |
| TestRegistry.Registry.RegisterTest | kernel/src/test_registry.rs:16-18 | the name is bound to the test, replacing any old entry; other names are untouched |
| TestRegistry.Registry.RunTest | kernel/src/test_registry.rs:21-29 | the run is the lookup and the test's behaviour, the printed lines its report; the registry is not changed |
| TestRegistry.OkExactlyWhenReturns | kernel/src/test_registry.rs:23-25 | "Test name [ok]" is printed exactly when the name is registered and its test returns |
| TestRegistry.RunRegistered | kernel/src/test_registry.rs:23-25 | a just-registered test is the one that runs |
| TestRegistry.RunIgnoresOtherEntries | kernel/src/test_registry.rs:16-18 | registering another name does not change how a name runs |
| Keyboard.ScancodeBridge.constructor | kernel/src/task/keyboard.rs:17-18 | no queue, no waker registered |
| Keyboard.ScancodeBridge.NewStream | kernel/src/task/keyboard.rs:44-49 | the first call creates the queue; every later call fails with the `expect` message and changes nothing |
| Keyboard.ScancodeBridge.AddScancode | kernel/src/task/keyboard.rs:27-37 | no queue → warning and nothing stored; full queue → warning, byte dropped, no wake; otherwise the byte joins the back and the registered waker is taken and woken; the queue is always at most 100 and holds exactly the accepted bytes not yet delivered, in order |
| Keyboard.ScancodeBridge.PollNext | kernel/src/task/keyboard.rs:55-74 | a non-empty queue gives its front byte; an empty one registers the waker and checks again, returning a byte found then and clearing the slot, else pending with the waker registered; end-of-stream is never returned; bytes are delivered in the order accepted |
| Keyboard.Zeroes | kernel/src/task/keyboard.rs:22 | a run of zero bytes of the given length |
| Keyboard.Initial | kernel/src/task/keyboard.rs:21-24 | the editor starts with an empty line |
| Keyboard.Step | kernel/src/task/keyboard.rs:84-122 | one key keeps the buffer at 256 bytes and the position within it |
| Keyboard.StepLine | kernel/src/task/keyboard.rs:86-122 | newline submits exactly `buffer[..position]` and resets; raw keys change nothing; any other character changes the line as a user sees it (backspace removes the last byte of a non-empty line, a character is appended as a byte while there is room) |
| Keyboard.Run | kernel/src/task/keyboard.rs:81-126 | after any run of keys the buffer and position are in range |
| Keyboard.Actions | kernel/src/task/keyboard.rs:81-126 | one action per key |
| Keyboard.RunTyped | kernel/src/task/keyboard.rs:104-122 | over keys without a newline, the editor's line is what the typed characters and backspaces spell |
| Keyboard.SubmitTyped | kernel/src/task/keyboard.rs:86-103 | Enter after a run of keys hands `handle_command` exactly the line they typed and leaves an empty editor |
| Keyboard.TypeThenErase | kernel/src/task/keyboard.rs:104-119 | a character then a backspace leaves a line that was not full unchanged |
| Keyboard.EditBounds | kernel/src/task/keyboard.rs:108-119 | the line never exceeds 256 bytes; backspace never goes below empty |
| Keyboard.LineEditor.State | kernel/src/task/keyboard.rs:21-24 | the buffer and position as an editor state in range |
| Keyboard.LineEditor.constructor | kernel/src/task/keyboard.rs:22-23 | a zeroed 256-byte buffer and position 0 |
| Keyboard.LineEditor.HandleKey | kernel/src/task/keyboard.rs:84-122 | the new buffer, position and action are those of `Step` on the old state |
| Keyboard.PrintKeypress | kernel/src/task/keyboard.rs:77-128 | after a run of decoded keys the editor is in the state `Run` gives and has taken the actions `Actions` gives |
| Interrupts.AsU8 | kernel/src/interrupts.rs:13-23 | every interrupt index is one of the primary PIC's vectors, 32 to 39 |
| Interrupts.AsUsize | kernel/src/interrupts.rs:25-27 | the widened vector equals the `u8` vector |
| Interrupts.FromVector | kernel/src/interrupts.rs:15-18 | an index recovered from a vector has that vector |
| Interrupts.VectorRoundTrip | kernel/src/interrupts.rs:15-23 | every index's vector leads back to it, so indices have distinct vectors |
| Interrupts.VectorLayout | kernel/src/interrupts.rs:10-18 | Timer is 32, Keyboard 33, the secondary PIC starts at 40, and no vector lies among the CPU exceptions 0-31 |
| Interrupts.KeyboardInterruptHandler | kernel/src/interrupts.rs:98-146 | a decoded key goes through the handler's own line editor exactly as `Step` says; no key leaves it unchanged; the end of interrupt is signalled for vector 33 |
| Task.IdCounter.constructor | kernel/src/task/mod.rs:37 | the counter starts at 0 with no id handed out |
| Task.IdCounter.NewId | kernel/src/task/mod.rs:36-39 | returns the previous counter value and advances the counter by one modulo 2^64; the k-th id handed out is k modulo 2^64 |
| Task.NewTask | kernel/src/task/mod.rs:20-25 | the task carries its future and a freshly allocated id |
| Task.IdsIncrease | kernel/src/task/mod.rs:32-38 | among the first 2^64 ids a later id is strictly greater than an earlier one under the derived order, so none repeats |
| Task.IdsRepeatAfterWrap | kernel/src/task/mod.rs:36-38 | after 2^64 ids the counter has wrapped and the first id is handed out again |
| VgaBuffer.ColorValue | kernel/src/vga_buffer.rs:10-27 | each colour's value is below 16 |
| VgaBuffer.ColorOf | kernel/src/vga_buffer.rs:10-27 | the colour with a given value has that value |
| VgaBuffer.ColorOfValue | kernel/src/vga_buffer.rs:10-27 | colours and their values correspond one to one |
| VgaBuffer.ColorCodeNew | kernel/src/vga_buffer.rs:38-40 | the background is the high nibble and the foreground the low nibble |
| VgaBuffer.NibblePacking | kernel/src/vga_buffer.rs:39 | the shift-and-or of two nibbles is their base-16 combination |
| VgaBuffer.ColorCodeRoundTrip | kernel/src/vga_buffer.rs:38-40 | both colours can be recovered from the packed code |
| VgaBuffer.BlankRow | kernel/src/vga_buffer.rs:154-160 | 80 blank cells in the given colour |
| VgaBuffer.ShiftDownThenNewLine | kernel/src/vga_buffer.rs:139-150 | moving the text down and then starting a new line restores every row but the bottom one, which is blank |
| VgaBuffer.NewLineThenShiftDown | kernel/src/vga_buffer.rs:198-205 | starting a new line and then moving the text down restores every row but the top one |
| VgaBuffer.AfterNewLine | kernel/src/vga_buffer.rs:139-150 | a new line keeps the colour and returns to column 0 |
| VgaBuffer.AfterWriteByte | kernel/src/vga_buffer.rs:99-120 | writing keeps the colour; after any byte other than a newline the column is in 1..80 |
| VgaBuffer.AfterRemovePreviousSymbol | kernel/src/vga_buffer.rs:171-195 | a backspace keeps the colour and leaves the column at most 80, whatever column it started from |
| VgaBuffer.Printable | kernel/src/vga_buffer.rs:129-134 | printable ASCII and newline pass unchanged; every other byte becomes 0xfe |
| VgaBuffer.Substituted | kernel/src/vga_buffer.rs:128-135 | each byte of the string is replaced by its printable form |
| VgaBuffer.EncodeAscii | kernel/src/vga_buffer.rs:128 | ASCII text encodes one byte per character, each its code |
| VgaBuffer.PrintableTextUnchanged | kernel/src/vga_buffer.rs:127-136 | printable ASCII and newlines reach the screen as written, one byte per character |
| VgaBuffer.NonAsciiSubstituted | kernel/src/vga_buffer.rs:133 | every byte of a non-ASCII character is written as 0xfe |
| VgaBuffer.WriteByteLands | kernel/src/vga_buffer.rs:102-116 | a non-newline byte lands in row 24 just left of the new column in the current colour; below column 80 only that cell changes and the column grows by one; at column 80 or beyond the whole new-line step (rows up, row 24 blanked) happens first, then the byte lands in column 0 and the column is 1 |
| VgaBuffer.EraseUndoesWrite | kernel/src/vga_buffer.rs:172-175 | a backspace after echoing a byte past the prompt blanks that cell and returns to the column it was written at |
| VgaBuffer.RemoveKeepsPrompt | kernel/src/vga_buffer.rs:176-187 | at column 2 behind the `> ` prompt, a backspace changes nothing |
| VgaBuffer.RemoveAtLineStart | kernel/src/vga_buffer.rs:188-192 | at column 0 or 1 a backspace moves every row down one (row 0 kept) and sets the column to 80 |
| VgaBuffer.CursorPosition | kernel/src/vga_buffer.rs:207-209 | the cursor's linear position is row 24 times 80 plus the column |
| VgaBuffer.CursorRegistersRebuild | kernel/src/vga_buffer.rs:219-224 | the high and low bytes written to the cursor registers rebuild the position |
| VgaBuffer.Writer.Grid | kernel/src/vga_buffer.rs:50-53 | the buffer read as 25 rows of 80 cells |
| VgaBuffer.Writer.GridIs | kernel/src/vga_buffer.rs:50-53 | a grid that agrees with every cell is the buffer's grid |
| VgaBuffer.Writer.constructor | kernel/src/vga_buffer.rs:61-67 | column 0, white on black, the buffer as found |
| VgaBuffer.Writer.ClearRow | kernel/src/vga_buffer.rs:153-161 | the row becomes blanks in the current colour; nothing else changes |
| VgaBuffer.Writer.NewLine | kernel/src/vga_buffer.rs:139-150 | rows 1-24 move up one, row 24 is blanked in the current colour, the column becomes 0 |
| VgaBuffer.Writer.MoveTextDown | kernel/src/vga_buffer.rs:198-205 | rows 0-23 move down one, row 0 is unchanged; nothing else changes |
| VgaBuffer.Writer.WriteByte | kernel/src/vga_buffer.rs:99-120 | the new grid and column are those of `AfterWriteByte` |
| VgaBuffer.Writer.WriteString | kernel/src/vga_buffer.rs:127-136 | the writer ends as if each byte of the string's UTF-8 encoding, substituted, had been written in turn |
| VgaBuffer.Writer.SetColumn | kernel/src/vga_buffer.rs:163-165 | only the column changes, to the given value |
| VgaBuffer.Writer.GetColumn | kernel/src/vga_buffer.rs:167-169 | returns the column |
| VgaBuffer.Writer.RemovePreviousSymbol | kernel/src/vga_buffer.rs:171-195 | the new grid and column are those of `AfterRemovePreviousSymbol` |
| Mem.Mismatch | kernel/src/main.rs:108-115 | the first index where the two byte strings differ, after a common prefix, or their length |
| Mem.MismatchUnique | kernel/src/main.rs:108-115 | any index with a common prefix before it and a difference at it is the mismatch |
| Mem.Compare | kernel/src/main.rs:106-117 | the result lies in -255..255 |
| Mem.CompareZeroIffEqual | kernel/src/main.rs:106-117 | the comparison is 0 exactly when the bytes are equal |
| Mem.CompareSign | kernel/src/main.rs:111-113 | a negative result means the first string is lexicographically smaller, a positive one larger |
| Mem.Memcmp | kernel/src/main.rs:106-117 | `memcmp` returns the comparison of the first `n` bytes only (so `n = 0` gives 0) |
| Mem.Bits32 | kernel/src/main.rs:120 | the two's complement bit pattern of an `i32`, unchanged for non-negative values |
| Mem.Low8IsResidue | kernel/src/main.rs:123 | `c as u8` is `c` modulo 256: values 0-255 are kept and negative values wrap |
| Mem.Filled | kernel/src/main.rs:122-124 | the first `n` bytes are the fill byte, the rest unchanged |
| Mem.Memset | kernel/src/main.rs:120-127 | the first `n` bytes become the low byte of `c`, no byte from `n` on changes, and the array is returned |
| Mem.Memcpy | kernel/src/main.rs:130-137 | the first `n` bytes of `src` replace those of `dest`, the rest of `dest` and all of `src` are unchanged, and `dest` is returned |
| Sound.Divisor | kernel/src/sound.rs:10 | frequency 0 fails (division by zero); otherwise the divisor is the integer quotient of 1193180 by the frequency |
| Sound.BytesRebuild | kernel/src/sound.rs:19-20 | the low and high bytes written rebuild the divisor's lower 16 bits |
| Sound.DivisorFits | kernel/src/sound.rs:10-20 | from 19 Hz up the divisor fits in 16 bits and reaches the timer whole |
| Sound.DivisorTruncated | kernel/src/sound.rs:10-20 | below 19 Hz the divisor exceeds 0xFFFF and its top bits are lost |
| Sound.DecodeCommand | kernel/src/sound.rs:15 | every command byte splits into valid 8254 channel, access, mode and BCD fields |
| Sound.CommandRoundTrip | kernel/src/sound.rs:13-15 | command bytes and their fields correspond one to one, so the field reading of `0b10110110` in `Sound.Channel2CommandFields` is the only one the byte has |
| Sound.Channel2CommandFields | kernel/src/sound.rs:13-15 | `0b10110110` selects channel 2, low-then-high access, mode 3, binary |
| Sound.SpeakerOnBits | kernel/src/sound.rs:24 | switching on sets bits 0 and 1 and keeps the other bits |
| Sound.SpeakerOffBits | kernel/src/sound.rs:36 | switching off clears bits 0 and 1 and keeps the other bits |
| Sound.StopAfterPlay | kernel/src/sound.rs:23-37 | stopping after playing leaves the port as stopping alone would, and the other way round |
| Sound.PlayWrites | kernel/src/sound.rs:14-25 | the command byte goes to port 0x43 before any channel-2 write; then the low byte, the high byte, and the speaker port with bits 0 and 1 set |
| Sound.PortBus.constructor | kernel/src/sound.rs:5 | only the speaker control port holds a value; nothing written yet |
| Sound.PortBus.Write | kernel/src/sound.rs:15 | the port holds the value and the write is logged |
| Sound.PortBus.Read | kernel/src/sound.rs:24 | returns the value the port holds |
| Sound.PortBus.PlaySound | kernel/src/sound.rs:8-29 | frequency 0 fails with the division panic and writes nothing; otherwise the writes are those of `PlayWrites` for the divisor and the speaker state read |
| Sound.PortBus.StopSound | kernel/src/sound.rs:32-39 | the speaker control port is rewritten with bits 0 and 1 cleared and the other bits kept |

## Left out

- Descriptor tables (`gdt.rs`, the IDT and `init`) are not modelled: they only load CPU state.
- Port I/O is not modelled in the interrupt handlers: the scancode read, the timer, breakpoint and double-fault handlers, and the PIC calls. The keyboard handler's end-of-interrupt vector is returned as a value.
- The `pc_keyboard` decoder is an external library: keys arrive already decoded.
- Interrupt/task interleaving is not modelled. `ArrayQueue`, `AtomicWaker`, `OnceCell`, `spin::Mutex` and `lazy_static` are sequential state. The one interrupt that may run inside `poll_next` is the `arrival` parameter of `Keyboard.ScancodeBridge.PollNext`. That interrupt is hypothetical: nothing in this kernel calls `add_scancode`, so the parameter models a producer the bridge is written for rather than one that exists.
- The executor, `Task::poll` and the futures are not modelled: futures are opaque identifiers.
- The callables held by the command and test registries are not run. A registry entry is a handler identifier, and whether a test returns or panics is a parameter.
- `commands/bsod.rs` and `commands/test.rs` are not modelled. `bsod.rs` calls writer methods that `vga_buffer.rs` does not define and only panics; `test.rs` forwards to `run_test`.
- The characters the line editor echoes, and what the commands print, are recorded as lines or actions, not drawn on the VGA grid.
- `update_cursor`'s port writes and the `Volatile` wrapper are not modelled; only the cursor arithmetic is.
- The `fmt::Write` plumbing and the `print!`/`println!` macros of `vga_buffer.rs` are not modelled.
- The kernel entry, panic handlers, `hlt_loop` and the test harness in `main.rs` are not modelled.
- `RustTests/` holds tutorial programs outside the kernel and is not modelled.
- Mem.Memcpy: overlapping buffers are excluded by requiring two distinct arrays. Pointers into the same array at different offsets are not modelled.
- Mem.Memcmp, Mem.Memset, Mem.Memcpy: pointer arithmetic is modelled as indexing an array from 0. A `usize` length larger than the array is excluded, since that would be undefined behaviour.
- Sound.PortBus: reading port 0x61 returns the last value it holds. The hardware's own changes to the port's other bits are not modelled.
- Task.IdCounter.NewId: the `Relaxed` atomic ordering and concurrent callers are not modelled; calls are sequential.
