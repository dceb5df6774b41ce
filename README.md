# AlecOS kernel core in Dafny

This project models the earliest layer of the AlecOS x86-64 kernel:

- the interrupt descriptor table (IDT) and the trap handler;
- the print library's number converters, `printk`, `vprintk` and the text-screen writer;
- the diagnostic path: log levels, byte and memory dumps, the register dump, `error_check` and `ASSERT`;
- the two string primitives `strlen` and `strcpy`.

Each C file becomes modules of the same kind of code:

| module | models | form |
|---|---|---|
| `Machine` | fixed-width integers, little-endian byte layouts, the signed/unsigned casts | functions and lemmas |
| `TrapTypes` | `IdtEntry`, `IdtPtr` and `TrapFrame` of `trap.h`, and the declared vector stubs | datatypes, byte/word encodings with their parsers |
| `Trap` | `init_idt_entry`, `init_idt`, `load_idt`, `handler` | the class `Idt` over the 256-entry `vectors` array; `handler` as a function returning an outcome |
| `Lib` | `strlen`, `strcpy` | methods with loops over `seq`/`array` |
| `Numerals` | the digit table and the texts the converters produce | functions and round-trip lemmas |
| `Print` | `udecimal_to_string`, `decimal_to_string`, `hex_to_string`, `hex64_to_string`, `read_string` | methods writing into a `char` array, with the do/while digit loop |
| `Format` | what `printk` and `vprintk` print, as functions of the format and the arguments | functions over pieces, and lemmas about them |
| `Screen` | `write_screen` | the class `ScreenBuffer` over the 4000-byte cell array, proved against the function `WriteAll` |
| `Output` | the loops of `printk` and `vprintk` over their 1024-character buffer | methods proved against `Format` |
| `Debug` | `log_message`, `format_byte_hex`, `dump_memory`, `dump_registers`, `error_check`, `ASSERT` | methods and functions returning the sequence of `log_message` calls, and lemmas about the text they print |

Four things that the C code obtains from the machine are given as parameters:

- the addresses of the twenty vector stubs (`stubs`), and the address of the table itself (`tableAddr`);
- the byte that `read_isr` returns (`isr`);
- the sixteen register values that `dump_registers` captures (`Registers`);
- the bytes that `dump_memory` reads (`mem`).

Calls into assembly (`eoi`, `read_isr`, `load_idt`) become recorded accesses: `PicAccess` values, and the `loads` field of `Idt`.

Arguments of a variadic call are a sequence of `Arg` values. An integer is the 64-bit word the call passes, and a string is the memory from the pointer onwards.

## Model

| member | source | states |
|---|---|---|
| Machine.LittleEndianRoundTrip | src/kernel/trap.h:10-18 | a value below 256^k, laid out in k little-endian bytes, reads back as itself |
| Machine.SignedRoundTrip | src/lib/print.c:199-200 | the `(uint64_t)` cast of the `int64_t` read by `va_arg` gives back the 64-bit word that was passed |
| TrapTypes.EntryLayout | src/kernel/trap.h:10-18 | a gate packs into 16 bytes: low(16), selector(16), res0(8), attr(8), mid(16), high(32), res1(32); parsing those bytes gives the gate back |
| TrapTypes.PtrLayout | src/kernel/trap.h:24-27 | the IDT pointer packs into 10 bytes, limit(16) then address(64), and parses back |
| TrapTypes.FrameWords | src/kernel/trap.h:33-56 | a trap frame is 22 words, r15 first and rax at 14; trapno is word 15, errorcode 16, rip 17, ss 21 |
| TrapTypes.FrameLayout | src/kernel/trap.h:33-56 | the 22 words (176 bytes) read back as the frame |
| TrapTypes.StubPosition | src/kernel/trap.h:62-81 | each declared stub's vector number has a unique position among the 20 stubs |
| TrapTypes.StubVectorsAreThePopulatedSlots | src/kernel/trap.c:36-55 | exactly 20 stubs are declared, in increasing vector order, and they are vectors 0-8, 10-14, 16-19, 32 and 39, the slots `init_idt` fills |
| Trap.SplitAddress | src/kernel/trap.c:23-27 | the low 16, middle 16 and high 32 bits of an address, recombined, are the address |
| Trap.SetGate | src/kernel/trap.c:22-28 | `init_idt_entry` stores addr mod 2^16, (addr/2^16) mod 2^16 and (addr/2^32) mod 2^32, which recombine to addr; selector 8 and the given attribute; res0 and res1 keep what they held |
| Trap.Idt.constructor | src/kernel/trap.c:13 | the static table starts as 256 all-zero entries, and nothing has been loaded |
| Trap.Idt.InitIdtEntry | src/kernel/trap.c:22-28 | writing one slot changes that slot to its gate and no other slot |
| Trap.Idt.LoadIdt | src/kernel/trap.h:100 | `load_idt` records one load of the pointer and of the table as it is at that moment |
| Trap.Idt.InitIdt | src/kernel/trap.c:34-63 | afterwards the table is `InstalledTable(stubs)`, the pointer is (4095, table address), and exactly one load is recorded, of that pointer and the filled table |
| Trap.InstalledTableReadBack | src/kernel/trap.c:36-55 | a slot of the installed table is non-empty exactly when it is a stub's vector; then it holds that stub's address, selector 8, attribute 0x8E and zero reserved fields |
| Trap.FillIsInstalled | src/kernel/trap.c:36-55 | filling the twenty slots in order, starting from the zero table, gives the installed table |
| Trap.InitIdtTwice | src/kernel/trap.c:34-63 | calling `init_idt` twice leaves the same table and pointer as calling it once, and the two loads are identical |
| Trap.Irq7InServiceIsTopBit | src/kernel/trap.c:83 | the test `isr & (1 << 7)` on the 8-bit ISR holds exactly when the ISR is at least 128 |
| Trap.Handler | src/kernel/trap.c:71-92 | `handler` returns exactly for vectors 32 and 39. For 32 it sends one EOI. For 39 it reads the ISR once, first, and sends one EOI iff bit 7 is set, none otherwise. Any other vector spins with no access |
| Lib.CLen | src/lib/lib.c:9-15 | the length of a C string is the index of its first NUL, and every earlier character is non-NUL |
| Lib.Strlen | src/lib/lib.c:9-15 | the loop returns the index of the first NUL |
| Lib.CString | src/lib/lib.c:24-32 | the characters before the terminator, which the terminator follows |
| Lib.Strcpy | src/lib/lib.c:24-32 | `strcpy` returns `dest`, whose first n+1 characters are the n characters of `src` before its NUL and a NUL; the rest of `dest` is untouched, and `strlen(dest) == strlen(src)` |
| Lib.CopiedStringLength | src/lib/lib.c:24-32 | a string followed by a NUL and anything else has the string's length |
| Numerals.DigitChar | src/lib/print.c:17-34 | entry d of the digit table has digit value d, and is neither NUL, '-' nor 'H' |
| Numerals.DigitsRoundTrip | src/lib/print.c:17-34 | the most-significant-first numeral of n reads back as n, in base 10 and in base 16 |
| Numerals.DigitsCanonical | src/lib/print.c:17-34 | a numeral has no leading zero: it starts with '0' only when it is the numeral "0" of zero |
| Numerals.DigitsLength | src/lib/print.c:17-34 | n < base^k iff the numeral of n has at most k digits |
| Numerals.U64DigitBounds | src/lib/print.c:17-34 | a 64-bit value has at most 20 decimal and at most 16 hexadecimal digits |
| Numerals.Hex64RoundTrip | src/lib/print.c:94-117 | the zero-padded sixteen-digit numeral reads back as the value |
| Numerals.UdecimalTextProperties | src/lib/print.c:17-34 | the unsigned text is 1 to 20 decimal digits, starts with '0' only for zero, and parses back to the value |
| Numerals.DecimalTextRoundTrip | src/lib/print.c:44-56 | the signed text starts with '-' exactly for negative values, is one longer than the magnitude's digits then, and parses back to the value |
| Numerals.DecimalOfNonNegative | src/lib/print.c:44-56 | for a non-negative value the signed text is the unsigned text |
| Numerals.HexTextRoundTrip | src/lib/print.c:66-84 | the hexadecimal text is 2 to 17 characters: digits that read back as the value, then 'H' |
| Numerals.Hex64TextRoundTrip | src/lib/print.c:94-117 | the 64-bit hexadecimal text is always 17 characters: 16 digits that read back as the value, then 'H' |
| Numerals.HexTextExample | src/lib/print.c:66-84 | 0x123456789ABCD is written "123456789ABCDH" |
| Print.ExtractDigits | src/lib/print.c:23-26 | the do/while loop stores the digits least significant first, and returns how many; read backwards they are the numeral |
| Print.WriteReversed | src/lib/print.c:29-31 | the copy loop writes the collected digits backwards from the position on, and changes nothing else |
| Print.UdecimalToString | src/lib/print.c:17-34 | writes the decimal numeral at the position, changes nothing else, and returns its length |
| Print.DecimalToString | src/lib/print.c:44-56 | writes '-' and the magnitude's numeral for a negative value, the numeral otherwise, and returns the length |
| Print.HexToString | src/lib/print.c:66-84 | writes the upper-case hexadecimal numeral and 'H', and returns the length |
| Print.PadWithZeros | src/lib/print.c:106-108 | the padding loop adds '0's after the collected digits up to sixteen, which read backwards are the zero-padded numeral |
| Print.Hex64ToString | src/lib/print.c:94-117 | writes the sixteen zero-padded digits and 'H', and returns 17 |
| Print.ReadString | src/lib/print.c:127-135 | copies the string's characters before its NUL, without the NUL, and returns how many |
| Screen.Scroll | src/lib/print.c:151-155 | rows 1-24 move up to rows 0-23 and the last row becomes zeros |
| Screen.Settle | src/lib/print.c:151-155 | before a character, the screen scrolls once when the row is 25, and then the row is 24; otherwise nothing changes |
| Screen.ScreenBuffer.ScrollCells | src/lib/print.c:152-153 | the copy and the clear leave the cells shifted up by one row, with the last row cleared |
| Screen.PutCharPlacement | src/lib/print.c:157-168 | after the scroll, a non-newline character goes at column*2 + row*160 and the colour right after it; no other cell changes; the column advances, or wraps to 0 on the next row at column 80 |
| Screen.NewlineWritesNothing | src/lib/print.c:157-159 | a newline sets the column to 0, adds one to the row, and writes no cell (apart from the scroll) |
| Screen.WriteAll | src/lib/print.c:145-174 | the cursor stays at column < 80 and row <= 25 |
| Screen.WriteAllConcat | src/lib/print.c:149-170 | writing a then b is writing a + b, because the cursor is kept between calls |
| Screen.WriteAllOnOneRow | src/lib/print.c:161-168 | text without a newline that fits on the row leaves the cursor on that row, its length further on |
| Screen.ScreenBuffer.constructor | src/lib/print.c:7 | the cells keep whatever the text memory holds, and the cursor starts at (0, 0) |
| Screen.ScreenBuffer.WriteScreen | src/lib/print.c:145-174 | the cells and the cursor after the loop are those of writing the text character by character, and the cursor is stored back |
| Format.PrintkHex | src/lib/print.c:198-201 | "%x" takes one integer and prints its hexadecimal text with 'H', then the walk goes on after the 'x' |
| Format.PrintkUnsigned | src/lib/print.c:203-206 | "%u" takes one integer and prints its unsigned decimal numeral |
| Format.PrintkSigned | src/lib/print.c:208-211 | "%d" takes one integer and prints its signed decimal numeral; the most negative value has no text |
| Format.PrintkString | src/lib/print.c:213-216 | "%s" takes one string and prints it up to its terminator |
| Format.PrintkChar | src/lib/print.c:218-220 | "%c" takes one integer and prints the character of its low byte |
| Format.PrintkMissingArgument | src/lib/print.c:197-220 | a conversion whose argument is missing or of the wrong kind has no text |
| Format.PrintkLiteral | src/lib/print.c:194-195 | a format without '%' prints itself, up to its terminator |
| Format.PrintkLiteralRun | src/lib/print.c:194-195 | a run of characters without '%' is copied verbatim |
| Format.PrintkUnknown | src/lib/print.c:234-236 | after '%', an unknown character writes '%' alone, takes no argument, and is then read as a plain character |
| Format.PrintkSingleL | src/lib/print.c:226-230 | "%l" followed by anything but 'l' writes "%l", takes no argument, and re-reads the following character |
| Format.PrintkLlu | src/lib/print.c:222-225 | "%llu" takes one argument and prints its 17-character hexadecimal text, then a plain 'u' |
| Format.VprintkConversionStep | src/lib/print.c:284-389 | a conversion whose width fits prints what the switch makes of its character and goes on after that character |
| Format.VprintkUndefined | src/lib/print.c:271-389 | an overflowing width, a format ending inside a conversion, or a missing or mistyped argument leaves the text undefined |
| Format.ParseSpecShape | src/lib/print.c:271-282 | the flag is present exactly when '0' follows the '%'; the width is read from the longest run of digits after it, and the conversion character is the first non-digit |
| Format.WidthIsNumeral | src/lib/print.c:278-282 | the width accumulated digit by digit is the value of the run read as a decimal numeral |
| Format.WidthPrefixBound | src/lib/print.c:278-282 | every partial width is at most the final one, so the accumulation overflows `int` only when the final width does |
| Format.VprintkLiteral | src/lib/print.c:266-267 | a format without '%' prints itself, up to its terminator |
| Format.VprintkHex | src/lib/print.c:286-314 | "%x" and "%X" print the same text, the upper-case hexadecimal text with 'H', zero-padded on the left to the width when the flag is given; both take one argument |
| Format.HexTextIsUpperCase | src/lib/print.c:293-299 | the hexadecimal text has no lower-case letter, so the upper-casing loop has nothing to change |
| Format.VprintkUnsigned | src/lib/print.c:317-333 | "%u" takes one argument and prints its decimal numeral |
| Format.VprintkPaddedUnsigned | src/lib/print.c:317-333 | "%u" with any flag and width prints the decimal numeral, zero-padded on the left to the width when the flag is given, and takes one argument |
| Format.VprintkSigned | src/lib/print.c:335-355 | "%d" with any flag and width prints the sign, then the digits zero-padded to the width when the flag is given, and takes one argument; the most negative value has no text |
| Format.VprintkChar | src/lib/print.c:364-367 | "%c" ignores the flag and width, takes one integer and prints the character of its low byte |
| Format.PaddedDecimalValue | src/lib/print.c:322-331 | the zero-padded decimal text still reads back as the value |
| Format.PadShape | src/lib/print.c:303-307 | with the flag, a shorter text gets width - length zeros in front of it; otherwise it is unchanged |
| Format.SignedTextShape | src/lib/print.c:335-355 | "%d" writes the '-' first and pads only the digits of the magnitude after it |
| Format.VprintkString | src/lib/print.c:357-362 | "%s" takes one argument and prints the string up to its terminator |
| Format.VprintkUnpaddedString | src/lib/print.c:357-362 | "%s" ignores the flag and width and prints the string up to its terminator |
| Format.EchoTextShape | src/lib/print.c:369-388 | the echo of an unknown conversion is '%', the '0' if it was given, the width in decimal if it is positive, and the character |
| Format.VprintkUnknown | src/lib/print.c:369-388 | an unknown conversion character is echoed after what was parsed, and no argument is taken |
| Format.VprintkEchoesL | src/lib/print.c:369-388 | `vprintk` has no 'l' conversion: "%l" is echoed and takes no argument |
| Format.VprintkLlu | src/lib/print.c:369-388 | `vprintk` prints "%llu" literally and takes no argument |
| Format.VprintkEchoes | src/lib/print.c:265-389 | a format whose every '%' starts "%l" prints itself |
| Output.PrintkBuild | src/lib/print.c:183-239 | the loop leaves in the 1024-character buffer exactly the text `printk` is specified to print |
| Output.Printk | src/lib/print.c:183-245 | the screen afterwards is the screen before with that text written in white, and the return value is its length |
| Output.ParseConversion | src/lib/print.c:269-282 | the flag and width loop finds the flag, the width and the index of the conversion character that the specification function gives |
| Output.UpperCase | src/lib/print.c:293-299 | the upper-casing loop leaves the hexadecimal buffer as it was |
| Output.WriteZeros | src/lib/print.c:304-306 | the padding loop writes exactly the given number of '0's |
| Output.AppendPadded | src/lib/print.c:303-312 | the padding and copy loops write the padded text and return its length |
| Output.EmitHex | src/lib/print.c:286-314 | "%x"/"%X" write the padded hexadecimal text, using the converter's own count |
| Output.EmitUnsigned | src/lib/print.c:317-333 | "%u" writes the padded decimal text |
| Output.SignedPadded | src/lib/print.c:339-353 | after the converter, the sign is copied, then the zeros, then the digits |
| Output.EmitSigned | src/lib/print.c:335-355 | "%d" writes the sign and the padded digits |
| Output.EchoFlagChars | src/lib/print.c:371-372 | writes '%' and, with the flag, '0' |
| Output.WidthChars | src/lib/print.c:373-386 | writes the width in decimal when it is positive, and nothing when it is zero |
| Output.EchoConversion | src/lib/print.c:369-388 | the default case writes the echo of the conversion and returns its length |
| Output.ConversionStep | src/lib/print.c:285-389 | the switch writes exactly the text of the conversion and takes as many arguments as it specifies |
| Output.VprintkBuild | src/lib/print.c:254-391 | the loop leaves in the 1024-character buffer exactly the text `vprintk` is specified to print |
| Output.Vprintk | src/lib/print.c:254-397 | the screen afterwards is the screen before with that text written in white, and the return value is its length |
| Output.ConverterBufferAsWritten | src/lib/print.c:289-290 | the converter overwrites only the start of the local buffer, and leaves the rest as it was |
| Output.StaleConverterBuffer | src/lib/print.c:289-312 | with stale characters behind the converter's text, `strlen` and the copy loop take "0HZW" for "%x" of 0 |
| Output.UnterminatedConverterBuffer | src/lib/print.c:289-312 | when the stale characters hold no NUL, the buffer has no terminator at all |
| Debug.LevelPrefix | src/lib/debug.c:28-44 | the prefix is "[UNKNOWN] " exactly for a value outside the four levels, and holds no '%' and no NUL |
| Debug.PrefixNamesLevel | src/lib/debug.h:14-19 | the levels are INFO 0, WARN 1, ERROR 2 and PANIC 3, in that order; each has its own prefix, "[INFO] " to "[PANIC] ", from which the level reads back, and any other value reads back as none |
| Debug.PrefixPrintsItself | src/lib/debug.c:30-42 | the prefix printed by `printk` is the prefix itself |
| Debug.LogMessage | src/lib/debug.c:23-50 | the screen afterwards shows that one prefix followed by the message, written in white |
| Debug.Emit | src/lib/debug.c:64-72 | a sequence of calls writes their texts one after the other |
| Debug.TranscriptConcat | src/lib/debug.c:64-72 | the text of two runs of calls is the concatenation of their texts |
| Debug.ByteHex | src/lib/debug.c:146-152 | three characters: two hexadecimal digits and a space |
| Debug.ByteHexRoundTrip | src/lib/debug.c:146-152 | the two digits are upper-case hexadecimal and read back as the byte |
| Debug.FormatByteHex | src/lib/debug.c:146-152 | writes the three characters at the position, changes nothing else, and returns the position plus 3 |
| Debug.DumpMemory | src/lib/debug.c:164-178 | the loop makes the calls of the dump records: one header, one call per byte, a newline after every 16th byte and at the end |
| Debug.ByteRecordsLayout | src/lib/debug.c:167-176 | after n bytes, the records print the first n bytes in address order and n/16 newlines |
| Debug.DumpMemoryLayout | src/lib/debug.c:164-178 | the dump starts with the header, ends with a newline, prints the `size` bytes in address order and `size/16 + 1` newlines in all |
| Debug.DumpHeaderText | src/lib/debug.c:166 | the header prints "Memory Dump at 0x%llu (Size: %llu bytes):" literally after "[INFO] ", whatever the address and size |
| Debug.RecordCallText | src/lib/debug.c:170-175 | each byte group prints as "[INFO] " and its three characters; each newline as "[INFO] " and a newline |
| Debug.RecordsTranscript | src/lib/debug.c:164-178 | the whole dump prints the concatenation of its records' texts |
| Debug.DumpRegisters | src/lib/debug.c:119-135 | 17 calls, each fitting the buffer, that print the "Register Dump:" header and then RAX, RBX, RCX, RDX, RSI, RDI, RBP, RSP, R8 to R15 in order, each with its own value |
| Debug.RegisterLineText | src/lib/debug.c:120 | a register line prints "[INFO] ", the name, ": 0x", the value in decimal, and a newline |
| Debug.BannerCalls | src/lib/debug.c:64-66 | three calls, each fitting the buffer, that print the rule, the line containing "PANIC", and the rule again, each after "[PANIC] " |
| Debug.FailureLineText | src/lib/debug.c:69 | the failure line prints "[PANIC] Assertion Failed: ", the file name, ':', the line number in decimal and a newline |
| Debug.ErrorCheck | src/lib/debug.c:62-80 | `error_check` ends halted with interrupts disabled; its report prints the banner, then the failure line with the file and line number, then the register dump |
| Debug.ErrorCheckText | src/lib/debug.c:62-80 | its whole report is the banner text, then the failure line, then the register dump text |
| Debug.Assert | src/lib/debug.h:54-58 | a true expression continues with no effect; a false one is `error_check` with the site's file and line |

## Left out

- The inline assembly of `dump_registers` (src/lib/debug.c:93-116): the sixteen register values are a parameter.
- The `cli` of `error_check`: it is the `interruptsEnabled` field of the `Halted` outcome.
- The infinite loops of `handler` (src/kernel/trap.c:90) and of `error_check` (src/lib/debug.c:79): they are the terminal `Spin` and `Halted` outcomes, not non-termination.
- The assembly routines `eoi`, `read_isr`, `load_idt` and the vector stubs: their effects are recorded accesses and loads. The stubs' addresses and the ISR byte are parameters.
- `memcpy` and `memset` in the scroll: each is one simultaneous `forall` update in `ScrollCells`, proved equal to the row shift `Scroll`.
- Screen.ScreenBuffer.ScrollCells: the `memcpy` at src/lib/print.c:152 copies between overlapping areas, which C leaves undefined; the model gives it the meaning of `memmove` (every cell takes the value its source held before the copy), the result a forward copy also gives here, because the destination lies below the source. The implementation of `memcpy` is not part of this model.
- `va_list`: the arguments are a sequence of tagged values, one per argument taken in order.
- The fixed VGA address 0xb8000 of `screen_buffer`: the screen is a 4000-character array, with `LINE_SIZE` 160, and a cell byte is a `char`.
- The overflow of the 1024-character output buffer: `Printk`, `Vprintk`, `LogMessage` and the methods over them require the text to fit.
- A format that C leaves undefined has no text (`None`). That covers `%d` of the most negative 64-bit value (its negation overflows), a missing or mistyped argument, a `%s` string without a terminator, a `vprintk` conversion cut off by the terminator, and a width that overflows `int`.
- `strcpy`'s aliasing: the source string is a value, so a `dest` that overlaps `src` is not modelled.
- `ASSERT`'s expression is a value evaluated by the caller, so the model cannot show that it is evaluated once.
- The `int` counters of the converters and loops are not bounded: every position stays below 1024, so they cannot overflow.
- Debug.FailureLineText: requires a file name of at most 984 characters, so that the failure line fits the 1024-character buffer.
- Debug.ErrorCheckText: requires the same bound on the file name.
- Debug.ErrorCheck: states the report's text only under the same bound on the file name; for a longer name it states the calls made, not their text.
- Debug.Transcript: the text of a run of calls counts only calls whose text fits the buffer; the lemmas about the dumps prove that all of theirs fit.
- The `dump_memory` call in `error_check` is commented out (src/lib/debug.c:73), and the model makes no such call.
- `handler` spins silently for any vector other than 32 and 39, as the code does; it does not enter the panic report.
- The register dump prints each value in decimal after a literal "0x", as the code does (`%u`); it is not fixed-width hexadecimal.
- The memory dump prints each byte group and each newline as a `log_message` call of its own, as the code does, so every group is preceded by "[INFO] ".
- `vprintk`'s `%c` and `printk`'s `%c` take the low byte of the argument word, as the `(char)` cast of an `int` does.
- src/kernel/main.c, src/lib/print.h and src/lib/lib.h are not part of this model: start-up text and declarations only.

## Findings

| source | as written | input that shows it | evidently intended | confidence | as-written member | corrected member |
|---|---|---|---|---|---|---|
| src/lib/print.c:289-312 | `hex_to_string`, `udecimal_to_string` and `decimal_to_string` write no terminator, yet `vprintk` runs `strlen` and the copy loop over their uninitialised local buffer up to a NUL (also lines 319-331 and 337-353) | "%x" of 0 with "XYZW" and a NUL left in the buffer prints "0HZW"; with no NUL there the loops run past the buffer | copy exactly the count the converter returns | not executed | Output.StaleConverterBuffer | Output.EmitHex |
