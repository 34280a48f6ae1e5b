# SIMPLE assembler: a verified model

`assembler.py` translates assembly text for the SIMPLE 16-bit processor into
memory-initialisation text. Each source line holds one instruction. The
program turns each line into one 16-bit word and writes the words as a
listing: a fixed header, one `address : word;` record per word, then `END;`.

This project models the core of that translation, in eight modules:

- **Outcomes:** `Option` and `Result`. The model returns these where the
  program raises an exception.
- **Diagnostics:** the four kinds of failure the line loop reports. Each
  error carries its 1-based line number.
- **Decimal:** the ASCII digits, and `str` of a natural number.
- **Bits** (`to_binary`): a number as a fixed count of binary digits, either
  zero-padded unsigned or two's complement, with the range check that raises
  `ValueError(num)`. Also the readers that take a 0/1 string back to its
  unsigned or signed value.
- **Tokenizer** (`preproc`):
  - cutting the comment at the first `//`;
  - the scanner `[a-zA-Z]+|[-+]?\d+`, modelled as a left-to-right
    longest-match function over runs;
  - upper-casing the command;
  - reading each operand with `int`, stopping at the first operand that is
    not an integer.

  `Tokenizer.Preproc` is the loop over the operands, proved equal to the
  specification function `Tokenizer.Tokenize`.
- **Encoder** (the `inst` table and the per-line dispatch):
  - Each of the 22 mnemonics is a field layout: literal bit strings plus
    operand fields giving the operand's position, width and signedness. This
    layout is what the source's lambda concatenates, in the same order.
  - `Encoder.Encode` dispatches in the source's order: known mnemonic, then
    decimal data word, then unknown command. It reports a wrong operand
    count before any field is encoded, as Python does when a lambda is
    called with the wrong number of arguments.
  - It also reports the first operand, from left to right, that does not fit
    its field.
  - `Encoder.Decode` reads the operands back out of a word, so the encoding
    has a proved inverse.
- **Assembler** (the loop of `assemble`):
  - It skips empty lines and lines starting with `//`.
  - The first failing line stops the run as `AsmError(line, diagnostic)`, and
    no word is produced.
  - `Assembler.Assemble` is the imperative loop, proved equal to the fold
    `Assembler.Assembled`.
- **Listing** (the text `write_result` writes): the header, the records and
  the footer. A parser for the listing proves that the words and their order
  can be recovered from it.

Three facts about the program that a reader might not expect:

- The listing header is fixed (`WIDTH=16`, `DEPTH=256`, `ADDRESS_RADIX=DEC`,
  `DATA_RADIX=BIN`) and has no fill record for unused addresses.
- A register written `R1` scans as `R` and `1`, so `ADD R1,R2` is a bad
  argument (`Tokenizer.RegisterNameExample`, `Assembler.BadArgumentProgram`).
- The table has 22 mnemonics.

## Model

| member | source | states |
|---|---|---|
| Bits.ToBinary | assembler.py:39-51 | Succeeds exactly when num is in the unsigned range [0, 2^digit) or the signed range [-2^(digit-1), 2^(digit-1)). A failure carries num itself. A success is a 0/1 string of `digit` characters (one character when digit is 0) that reads back as num in the requested reading. |
| Bits.Format | assembler.py:47-51 | `format(n, "0<d>b")`: the binary numeral of n, left-padded with zeros to d characters. Its length and value are proved in `Bits.FormatValue`. |
| Bits.Mask | assembler.py:47 | `num & (2 ** digit - 1)`: the residue of num modulo 2^digit, which is below 2^digit. `Bits.SignedFormat` proves that formatting it gives the two's complement of num. |
| Bits.FormatValue | assembler.py:51 | Zero-padded formatting of n < 2^d gives d binary digits (at least one) whose value is n. |
| Bits.SignedFormat | assembler.py:44-47 | Masking an in-range number to d bits and formatting it gives a d-bit string whose two's-complement value is the number. |
| Bits.UnsignedInjective | assembler.py:47-51 | Two 0/1 strings of one length with one value are the same string, so a field's bits are determined by its value. |
| Bits.FromBinaryRoundTrip | assembler.py:39-51 | Every d-bit string is what `to_binary` produces for its own value, in both readings. Together with ToBinary's read-back, `to_binary` is a bijection between the range and the d-bit strings. |
| Bits.MinusOneExample | assembler.py:44-47 | -1 in eight signed bits is `11111111`. |
| Bits.RangeExamples | assembler.py:44-51 | 127 and -128 fit a signed 8-bit field, while 128 and -129 are rejected with their own value. 0 and 7 fit an unsigned 3-bit field, while 8 and -1 are rejected. |
| Decimal.DecString | assembler.py:145 | `str(i)` of a natural number is a non-empty digit string without a leading zero. |
| Decimal.DecStringValue | assembler.py:145 | The decimal digits written for an address read back as that address. |
| Decimal.DecStringInjective | assembler.py:145 | Distinct addresses are written as distinct digit strings. |
| Tokenizer.StripComment | assembler.py:26-27 | The result is the part of the line before the first `//`, or the whole line when it has none: no marker starts inside it, and a marker starts right after it unless it is the whole line. |
| Decimal.Span | assembler.py:28 | The length of the longest prefix whose characters all satisfy the class. The scanner uses it for letter and digit runs, and the listing reader uses it for the address digits. |
| Tokenizer.MatchLength | assembler.py:28 | The length of the match at the start of the text. It is 0 exactly when no letter, digit, or sign followed by a digit starts the text. A non-empty match is a letter run or a signed digit run, and it is maximal: the next character cannot extend it. |
| Tokenizer.Runs | assembler.py:28 | Every token the scanner returns is a letter run or an optionally signed digit run. |
| Tokenizer.ParseAll | assembler.py:30-35 | Succeeds exactly when every operand token is an integer, giving their values in order. Otherwise it names the first token that is not an integer, and every token before it is one. |
| Tokenizer.ParseInt | assembler.py:33 | `int(t)` on one scanned token: ASCII digits with an optional `+` or `-` give their value, and anything else gives nothing, where Python raises `ValueError`. Its partners are `Tokenizer.RunIsInteger` and `Tokenizer.IntStringParses`. |
| Tokenizer.Tokenize | assembler.py:20-36 | A successful tokenization has a non-empty command. Every failure is a bad-argument diagnostic, either no token at all or a non-integer operand. |
| Tokenizer.Preproc | assembler.py:20-36 | The operand loop returns exactly what the specification function Tokenize gives for the line. |
| Tokenizer.CommentIgnored | assembler.py:26-28 | Appending `//` and any comment to a comment-free line that does not end in `/` changes neither the cut text nor the tokenization. |
| Tokenizer.TakeRun | assembler.py:28 | The scanner takes a run whole when the next character cannot extend it, then continues after it. |
| Tokenizer.SkipChar | assembler.py:28 | A character that starts no token is skipped. |
| Tokenizer.SkipGap | assembler.py:28 | A separator gap produces no tokens. |
| Tokenizer.RunsJoined | assembler.py:28 | A line written as runs separated by gaps scans back to exactly those runs: the scanner's inverse. |
| Tokenizer.JoinedScan | assembler.py:26-28 | Such a line has no comment to cut, and it scans back to its runs. |
| Tokenizer.TokenizeJoined | assembler.py:26-36 | Tokenizing a line built from runs gives the upper-cased first run as the command, followed by the outcome of reading the other runs as integers. |
| Tokenizer.IntStringParses | assembler.py:33 | Every integer's decimal spelling is a token that `int` reads back as that integer. |
| Tokenizer.RunIsInteger | assembler.py:33-35 | A scanned token is an integer exactly when it is not a letter run. |
| Tokenizer.Upper | assembler.py:29 | `head.upper()` on ASCII text: the same length, with each lower-case letter replaced by its capital and every other character kept. Its properties are proved in `Tokenizer.UpperTwice`, `Tokenizer.RunsUpper` and `Tokenizer.TokenizeCaseInsensitive`. |
| Tokenizer.UpperTwice | assembler.py:29 | Upper-casing twice is upper-casing once. |
| Tokenizer.StripCommentUpper | assembler.py:26-29 | Cutting the comment commutes with upper-casing. |
| Tokenizer.RunsUpper | assembler.py:28-29 | Scanning an upper-cased line gives the upper-cased tokens of the original line. |
| Tokenizer.ParseAllUpper | assembler.py:30-35 | Upper-casing the operand tokens keeps every value. A failure names the upper-cased form of the same token. |
| Tokenizer.TokenizeCaseInsensitive | assembler.py:26-35 | A line and its upper-cased form tokenize alike. The only difference is that a rejected operand token is reported upper-cased. |
| Tokenizer.DisplacementExample | assembler.py:24-35 | `LD 1,-1(2)` tokenizes to command `LD` with operands 1, -1, 2, the displacement-register form the docstring describes. |
| Tokenizer.LowerCaseExample | assembler.py:28-35 | `add 1,2 ` tokenizes to command `ADD` with operands 1, 2. |
| Tokenizer.CommentExample | assembler.py:26-35 | `add 1,2 // x` tokenizes exactly as `ADD 1,2`. |
| Tokenizer.RegisterNameExample | assembler.py:28-35 | `ADD R1,R2` is rejected, with `R` as the operand that is not an integer. |
| Tokenizer.NoTokenExamples | assembler.py:26-28 | A blank line and a line holding only a comment have no token, so they are bad arguments. |
| Encoder.Inst | assembler.py:56-112 | `cmd in inst` and `inst[cmd]`. A name found in the table consists of capital letters only. |
| Encoder.Entry | assembler.py:56-101 | The i-th entry of the dictionary, in its written order: the mnemonic and the layout of its lambda. `Encoder.EntriesWellFormed` and `Encoder.TableNames` state what every entry satisfies. |
| Encoder.Alu | assembler.py:57-70 | The ALU lambdas of (rd, rs): `11`, rs in 3 bits, rd in 3 bits, the opcode, `0000`. |
| Encoder.Shift | assembler.py:71-78 | The shift lambdas of (rd, d): `11`, `000`, rd in 3 bits, the opcode, d in 4 unsigned bits. |
| Encoder.Input | assembler.py:79-80 | The IN lambda of (rd): `11`, `000`, rd in 3 bits, `1100`, `0000`. |
| Encoder.Output | assembler.py:81-82 | The OUT lambda of (rs): `11`, rs in 3 bits, `000`, `1101`, `0000`. |
| Encoder.Halt | assembler.py:83-84 | The HLT lambda without parameters: `11`, `000`, `000`, `1111`, `0000`. |
| Encoder.Memory | assembler.py:85-88 | The LD and ST lambdas of (ra, d, rb): the prefix, ra in 3 bits, rb in 3 bits, d in 8 signed bits. |
| Encoder.LoadImmediate | assembler.py:89-90 | The LI lambda of (rb, d): `10`, `000`, rb in 3 bits, d in 8 signed bits. |
| Encoder.Branch | assembler.py:91-100 | The branch lambdas of (d): `10`, the condition bits, the code bits, d in 8 signed bits. |
| Encoder.NamesDistinct | assembler.py:56-101 | The 22 keys of the dictionary are pairwise different. |
| Encoder.InstEntry | assembler.py:56-113 | The lookup gives layout s for cmd exactly when the table has the entry (cmd, s), in both directions. |
| Encoder.FindAt | assembler.py:56-101 | Looking up a name returns the layout of its entry in the table. |
| Encoder.EncodeFields | assembler.py:57-100 | Concatenating an instruction's fields succeeds exactly when every operand fits its field. A failure reports the value of the first operand, from left to right, that does not fit. A success is a 0/1 string as wide as the layout. |
| Encoder.AluWellFormed | assembler.py:57-70 | Every ALU layout is 16 bits wide and uses each of its two operands exactly once. |
| Encoder.ShiftWellFormed | assembler.py:71-78 | Every shift layout is 16 bits wide and uses each operand exactly once. |
| Encoder.InWellFormed | assembler.py:79-80 | The IN layout is 16 bits wide and uses its operand once. |
| Encoder.OutWellFormed | assembler.py:81-82 | The OUT layout is 16 bits wide and uses its operand once. |
| Encoder.HltWellFormed | assembler.py:83-84 | The HLT layout is a 16-bit literal with no operands. |
| Encoder.MemoryWellFormed | assembler.py:85-88 | The LD and ST layouts are 16 bits wide and use each of their three operands exactly once. |
| Encoder.LiWellFormed | assembler.py:89-90 | The LI layout is 16 bits wide and uses each operand once. |
| Encoder.BranchWellFormed | assembler.py:91-100 | Every branch layout is 16 bits wide and uses its displacement once. |
| Encoder.EntriesWellFormed | assembler.py:56-101 | Every one of the 22 table entries is well formed. |
| Encoder.TableNames | assembler.py:56-101 | Every mnemonic in the table consists of capital letters. |
| Encoder.TableWellFormed | assembler.py:56-113 | Whatever the lookup finds is 16 bits wide, and each of its arity's operand positions appears in it exactly once. |
| Encoder.IsDataWord | assembler.py:114 | `cmd.isdigit() or (cmd[0] == "-" and cmd[1:].isdigit())`: one or more ASCII digits, or a minus sign followed by one or more digits. `Encoder.NotMnemonic` shows that such a command is never a mnemonic. |
| Encoder.DataValue | assembler.py:114-115 | For a command that passes the data-word test, `int(cmd)` does not raise: the model of `int` reads it, and the result is that value. |
| Encoder.Encode | assembler.py:111-124 | A success is a 16-bit 0/1 word. A line that tokenized never fails with a bad argument here. |
| Encoder.EncodeCases | assembler.py:111-124 | The four outcomes, each stated in both directions. A wrong operand count means a known mnemonic with the wrong arity, and the diagnostic carries both counts. An unknown command means neither a mnemonic nor a data word. A known mnemonic with the right arity succeeds exactly when every operand fits, and otherwise names one of the operands. A data word succeeds exactly when it fits 16 signed bits, reads back as its value, and otherwise reports that value. |
| Encoder.EncodeDecode | assembler.py:57-100 | Decoding an encoded word with the same mnemonic's layout recovers the operands. |
| Encoder.DecodeEncode | assembler.py:57-100 | Every word that decodes with a mnemonic's layout is the encoding of the decoded operands. The encoding is therefore a bijection between operand lists that fit and the words with that mnemonic's literal bits. |
| Encoder.NotMnemonic | assembler.py:112-114 | A command that does not start with a capital letter, such as a number, is never found in the table. |
| Encoder.DataWordIgnoresOperands | assembler.py:114-118 | For a command that is not a mnemonic, the operands make no difference to the outcome. |
| Encoder.ArityFirst | assembler.py:112-124 | Calling a known mnemonic with the wrong number of operands is reported as a wrong count, whatever the operands' values. |
| Encoder.AddExample | assembler.py:57-58 | `ADD 1,2` encodes as `11 010 001 0000 0000`: the source register comes before the destination register. |
| Encoder.LoadExample | assembler.py:85-86 | `LD 1,-1,2` encodes as `00 001 010 11111111`: Ra, then Rb, then the signed displacement. |
| Encoder.RegisterRangeExample | assembler.py:57-58 | A register number 8 does not fit. With both operands too large, the first field in the word is the one reported, which is the rs operand. |
| Encoder.MinusOneWord | assembler.py:114-115 | The data word `-1` with the operand `7` becomes sixteen ones. `Encoder.DataWordIgnoresOperands` gives the general case: a data word's result does not depend on its operands. |
| Encoder.BigWord | assembler.py:114-121 | The data word 32768 is out of range and is reported with its value. |
| Encoder.PlusWord | assembler.py:114-118 | `+5` is not a data word (`isdigit` rejects the sign), so it is an unknown command. |
| Assembler.AssembleLine | assembler.py:106-124 | A success is a 16-bit word. The line fails with a bad argument exactly when tokenization fails. |
| Assembler.Skipped | assembler.py:103 | The loop skips a line exactly when it is empty or begins with `//`. `Assembler.SkippedLineHasNoTokens` shows that such a line has no token. |
| Assembler.Outcome | assembler.py:103-124 | A line is skipped exactly when it is empty or starts with `//`. Otherwise it emits the line's word or stops with its diagnostic. |
| Assembler.SkippedLineHasNoTokens | assembler.py:103-104 | Every line the loop skips would have had no token anyway. The skip test matters only for which lines are counted as errors. |
| Assembler.AssembleOne | assembler.py:106-124 | The per-line method computes the line's word or diagnostic. |
| Assembler.Classify | assembler.py:103-124 | The per-iteration method classifies line i exactly as the specification does. |
| Assembler.Assemble | assembler.py:102-125 | The loop returns exactly the fold over the lines' outcomes. |
| Assembler.Run | assembler.py:102-124 | The state of the loop after its first n iterations: the words appended so far, or the first failure with its 1-based line number. `Assembler.RunStep` states one iteration. |
| Assembler.Assembled | assembler.py:102-125 | The value `assemble` returns for the whole program, or the error where it exits. `Assembler.OkIff`, `Assembler.Words` and `Assembler.FirstError` state what it is. |
| Assembler.RunStep | assembler.py:102-124 | One more iteration keeps the words on a skip, appends the word on success, and stops with the 1-based line number on failure. |
| Assembler.ErrorPersists | assembler.py:106-124 | Once a line has failed, later lines change nothing, as the program has exited. |
| Assembler.RunOk | assembler.py:102-125 | The first n lines assemble exactly when none of them fails. |
| Assembler.RunWords | assembler.py:102-125 | The words produced are the emitted words, in line order. |
| Assembler.RunFails | assembler.py:102-124 | The run fails with a given line and diagnostic exactly when that line fails with that diagnostic and no earlier line fails. |
| Assembler.OkIff | assembler.py:102-125 | A program assembles exactly when every line is skipped or assembles. |
| Assembler.Words | assembler.py:102-125 | The result holds one 16-bit word per kept line, in order, each the word of its own line. |
| Assembler.FirstError | assembler.py:102-124 | The program fails with error e exactly when line e.line is the first line that is neither skipped nor assembles, and e.diag is that line's diagnostic. |
| Assembler.EmittedKept | assembler.py:102-125 | When no line fails, the emitted words correspond one to one, in order, with the lines that are not skipped. |
| Assembler.OneWordProgram | assembler.py:102-125 | A comment line, `add 1,2 // x` and an empty line assemble to the single ADD word. |
| Assembler.BadArgumentProgram | assembler.py:102-110 | A program whose fourth line is `ADD R1,R2` fails at line 4 with the bad argument `R`, even though line 3 assembled. |
| Listing.Records | assembler.py:154-155 | One record per word, in order. The k-th record carries address start + k and the k-th word. |
| Listing.Record | assembler.py:155 | One record line: a tab, the address in decimal, ` : `, the word, `;`. `Listing.RecordRoundTrip` parses it back. |
| Listing.Listing | assembler.py:149-156 | The listing is the five header lines, then one record per word in order with addresses from 0, then `END;`. |
| Listing.RecordRoundTrip | assembler.py:155 | A record line parses back to its address and its word. |
| Listing.RecordsRoundTrip | assembler.py:154-155 | The records parse back to the words, in order. |
| Listing.ListingRoundTrip | assembler.py:149-156 | The whole listing parses back to exactly the assembled words. |
| Listing.ListingInjective | assembler.py:149-156 | Different word sequences give different listings. |

## Left out

- `read_data` (`assembler.py:6-17`): reading a file or standard input, stripping each line, and stopping at a blank line on standard input. The model takes the lines as given.
- `main` (`assembler.py:158-164`) and the choice between the named output file and standard output (`assembler.py:137-147`). Both branches write the same lines, and the model gives those lines once as `Listing.Listing`.
- The messages printed to standard error and `exit(1)`. A failure is returned as `AsmError(line, diagnostic)`. The diagnostic keeps the category and the value the message shows, with two exceptions. `UnknownCommand` also carries the command, which the message at `assembler.py:117` does not print. `NoTokens` drops the text of the unpacking error that `assembler.py:109` prints. For a wrong operand count it holds the expected and given counts rather than Python's `TypeError` text.
- Unicode: Python's `\d`, `isdigit`, `int` and `upper` also accept non-ASCII digits and letters. The model covers ASCII only.
- `DEPTH=256` is written in the header but never enforced. A program with more than 256 words gets records beyond the stated depth, and the model reproduces this without a check.
- Encoder.Encode: requires a non-empty command. On an empty command the source would raise an uncaught `IndexError` at `cmd[0]`, but `preproc` never returns an empty command (`Tokenizer.Tokenize` ensures this).
- Encoder.Inst: the dictionary is modelled as the ordered list of its 22 entries, searched from the front. The keys are distinct (`Encoder.NamesDistinct`), so this is the same lookup (`Encoder.InstEntry`).
- Tokenizer.ParseInt: does not model the limit on the number of digits that `int` accepts. Python 3.11, and 3.10 from 3.10.7 (the program needs 3.10 or later for the `encoding` argument at `assembler.py:12`), refuses a decimal string of more than 4300 digits with `ValueError` by default. The limit can be changed at run time. Under the default, an operand of more than 4300 digits is a bad argument (`assembler.py:33-35`), and a data word that long is reported with the limit's message instead of its value (`assembler.py:115`, `assembler.py:119-120`). The model reads any number of digits, leading zeros included, so it accepts such operands and data words. `Encoder.DataValue` and `Encoder.Encode` inherit this.
- Python's arbitrary-precision integers are modelled as unbounded `int`. `num & (2 ** digit - 1)` is the residue modulo 2^digit, which is what `&` gives for negative Python integers.
