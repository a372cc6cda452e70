# NESH: verified model

NESH is a UEFI shell with a BASIC interpreter. This project models its most intricate parts in Dafny
and proves what its code and documentation promise about them.

**The UEFI compressor and decompressor** (`src/lib/eficomp.c`, the format of section 19.2 of the UEFI
Specification 2.10). `Bits`, `BitIO`: bit streams. `Canonical`, `Trees`: canonical codes, as section 3.2.2 of
RFC 1951 defines them, and their decoding tables. `HuffmanTrees`, `Forests`, `HuffmanOptimal`, `Huffman`: code lengths
with the limit of 16, and why they are the best. `Headers`, `Runs`: tree headers. `Lz`, `Blocks`, `Streams`: tokens, blocks and the specification
`Streams.Decode` of a whole file. `Sizes`: the 32-bit size field. `Encoder`, `BlockWriter`, `Matcher`,
`Compressor`, `Decoder`: the loops over arrays. `Format` describes the format on its own: which bit strings are
headers, tokens and blocks, and which files stand for which bytes (`Format.Stands`); it uses nothing that reads or
writes. `FormatDecoding`, `FormatEncoding`, `FormatExample`, `MatchLaws` connect it with the program. The main theorems
are the contracts of `Compressor.Compress` and `Decoder.Decompress`: every file of the format is decoded to the bytes
it stands for, whoever wrote it, and for every input of at most 0x40000000 bytes (the decoder's own limit) the
compressor makes a file of the format that stands for the input; so decompressing it gives back the input.

**NESH BASIC** (`src/basic/parser.c`, `src/basic/interp.c`). `ExprSyntax`, `ExprRoundTrip`, `ExprMinimal`,
`ExprParser`: the expression parser inverts a printer with the fewest parentheses. `ExprGrammar`, `ExprParsing`,
`ExprChains`: the grammar rule by rule, that the parser reads exactly its texts, and how operators group.
`BasicValues`, `BasicSyntax`,
`Semantics`, `VarTables`, `Interp`: a big-step semantics whose contracts are type soundness, stack
discipline and the finality of END, the hash tables that hold variables, and the
interpreter that updates them in place and refines the semantics. `BasicArith`, `BasicFlow`, `BasicRuns`, `BasicLaws`:
what operators compute and what each construct does, spelled out in values: which branch runs, how often a loop runs,
what a call binds and returns. Ctrl-C is modelled by a budget of polls after which it has been pressed; so every run ends.

**Moving files** (`src/cmd/cmd_fs.c`). `FileTree`, `FileSystem`: file systems as maps from paths to nodes;
every operation may fail, as an arbitrary function of time decides, and every state is kept in a trace.
`FileCopy`, `FileMove`: copying, removing and `mv`. Names are compared without case and are kept case-folded.

**The boot manager** (`src/platform/efi/efi_boot.c`). `Utf8`, `LoadOptions`: the load options of section 3.1.3 of
the UEFI Specification 2.10, byte by byte. `BootOrder`, `BootPlans`, `BootRuns`, `BootManager`: the boot variables
as a map, the plans the commands make, and what every sequence of commands keeps. `LoadOptionLayout`, `BootEffects`:
where every byte of an option is, and what each completed command has changed, read back from the variables.

**Smaller kernels.** `Glob`, `GlobLaws`: wildcards. `Paths`, `PathText`, `PathLaws`, `Shell`: path resolution and the
current directory.
`Records`, `RecordLaws`: the `-data` output and the BASIC functions that read it. `Ip6`, `Ip6Text`, `Ip6Grammar`,
`Ip6Accepted`, `Ip6Laws`: IPv6 addresses as text (section 4 of RFC 5952), and what is read compared with the grammar of
section 2.2 of RFC 4291. `Optional`, `Ascii` hold shared definitions.

## Where the code does not keep a promise

- `mv` promises that a source is never lost. When a file system cannot rename (its driver answers
  "unsupported"), moving a file or directory onto itself, which also happens with a name in other case or with the
  directory it lies in as the target, takes the refused copy for a partial one and deletes the source; of the root
  of a volume, all that it holds.
  `FileMove.Move` proves the promise for every source that is not its own target; `FileMove.MoveOntoItself`
  shows that it fails for every source that is.
- `bcfg add` does not check that an entry number is free. With all 65536 taken it writes a variable with a
  five-digit name and puts entry 0 into the order. `BootRuns.BcfgAddExact` says exactly when the order stays sound,
  `BootRuns.FullTableBreaks` shows a machine on which it does not.
- `bcfg rm` does not clear BootNext, as `bootmgr del` does: `BootRuns.NextKept` with `BootRuns.NextLeftBehind`.
- A description that is not UTF-8 in shortest form, or has a character NUL or above U+FFFF, or a device path of 65536
  bytes or more, makes a load option that does not read back: `LoadOptions.ParseOfBuild` has the exact condition, on
  the bytes (`Utf8.IsBmp`); `LoadOptions.DescriptionLost` and `LoadOptions.PathLost` have examples.
- `ip6_parse` reads more than section 2.2 of RFC 4291 allows: brackets around an address, and in a dotted IPv4 address
  whatever the program's own `strtol` takes for a number: a sign without digits, spaces before it, and digits of any
  number, modulo 2^64. `Ip6Accepted.AcceptedExactly` says exactly which accepted texts are those of the standard: the
  ones that are plain, with only hexadecimal digits, colons and dots, and no dot next to four digits. What is accepted
  is still stable under printing and reading.

## How the C code is represented

Fixed-size buffers and working tables are arrays, objects are classes, and every loop of the source that
updates variables is a loop. Unsigned 32-bit, 16-bit and 8-bit wrap-around is written out with `%`; shifts and masks by
constants are divisions and remainders, and an OR of values that share no bits is a sum. The single-symbol trees of the
compressor, which the source handles in three places, are one method, `Encoder.MakeTree`. The count of unary bits in
a tree header is unbounded until it is stored in 8 bits, as in the source. Line numbers and error messages are not
represented: an error is an outcome.

## Model

| member | source | states |
|---|---|---|
| `BitIO.BitWriter.PutBits` | src/lib/eficomp.c:34-46 | the bits written so far are followed by exactly the `count` low bits of the value, most significant first, although the 32-bit accumulator wraps |
| `BitIO.BitWriter.FlushBits` | src/lib/eficomp.c:48-53 | all written bits are in the bytes, followed by fewer than eight zero bits |
| `BitIO.BitReader.GetBits` | src/lib/eficomp.c:376-392 | the next n bits of the stream, zeros past its end, and the position moves by n |
| `HuffmanTrees.DepthsComplete` | src/lib/eficomp.c:56-119 | the depths of any Huffman tree of height at most 16 have Kraft sum exactly 1 |
| `HuffmanTrees.HeavyMerge` | src/lib/eficomp.c:83-101 | merging the two lightest trees keeps every tree at least Fibonacci-heavy for its height |
| `Huffman.TooDeepIsHeavy` | src/lib/eficomp.c:56-119 | a tree deeper than 16 has a total weight of at least 4181, whatever the frequencies |
| `Huffman.FlatShrinks` | src/lib/eficomp.c:115-117 | flattening never increases the total weight, and strictly decreases it unless every weight is at most one: why the retry loop ends |
| `Huffman.HuffLengths` | src/lib/eficomp.c:56-119 | for every histogram with two or more used symbols the retry loop ends with lengths in 1..16 exactly on the used symbols and Kraft sum 1; they are the best lengths for the flattened histogram, and for the histogram itself when its total is below 4181 |
| `Huffman.Work.SelectTwo` | src/lib/eficomp.c:83-94 | the two live nodes chosen are the lightest ones |
| `Huffman.FlatLaw` | src/lib/eficomp.c:115-117 | flattening halves every weight and rounds up |
| `HuffmanOptimal.LightestDeepest` | src/lib/eficomp.c:83-94 | in any placement of the live trees the two lightest can be made the deepest at no cost |
| `HuffmanOptimal.MergeBeats` | src/lib/eficomp.c:95-100 | merging the two lightest trees loses nothing to any rival table of code lengths |
| `HuffmanOptimal.EndOptimal` | src/lib/eficomp.c:102-112 | the depths of the last tree give the shortest text among all prefix codes of at most 16 bits |
| `Canonical.CodeFits` | src/lib/eficomp.c:121-135 | canonical codes fit their own length, hence 16 bits |
| `Canonical.PrefixFree` | src/lib/eficomp.c:121-135 | no code of a complete length table is a prefix of another |
| `Canonical.MatchUnique` | src/lib/eficomp.c:403-427 | at most one code of a complete table matches at a position |
| `Canonical.SomeMatch` | src/lib/eficomp.c:403-445 | some code of a complete table matches at every position |
| `Trees.CompleteNeverFails` | src/lib/eficomp.c:429-445 | decoding with a complete table never fails and takes at most 16 bits |
| `Trees.CanonCodes` | src/lib/eficomp.c:121-135 | the loop assigns every used symbol its canonical code in 16 bits |
| `Trees.DecodeEncode` | src/lib/eficomp.c:429-445 | the code of a symbol, followed by any bits, decodes to the symbol and consumes exactly its length |
| `Trees.CodeTree.TreeBuild` | src/lib/eficomp.c:403-427 | the decoding tables are accepted exactly when the lengths are complete, or the tree has a single symbol |
| `Trees.CodeTree.TreeDecode` | src/lib/eficomp.c:429-445 | the loop over lengths finds the unique matching code and stops behind it, or reports the error |
| `Headers.LenRoundTrip` | src/lib/eficomp.c:148-153 | a code length, also one above 6 in unary, is read back |
| `Headers.LensRoundTrip` | src/lib/eficomp.c:138-160 | reading the written lengths gives them back, including the 2-bit skip after the third one |
| `Headers.PtRoundTrip` | src/lib/eficomp.c:447-475 | a T or P tree header is read back as the same tree in both the listed and the single-symbol form |
| `Runs.RunsStandFor` | src/lib/eficomp.c:207-224 | the zero-run symbols chosen, with 19 zeros sent as 1 and 18, stand for exactly the C lengths |
| `Runs.RunsRoundTrip` | src/lib/eficomp.c:494-514 | the decoder's C-length loop recovers the lengths from the run symbols |
| `Runs.CRoundTrip` | src/lib/eficomp.c:494-514 | a C tree header is read back as the same tree in both forms |
| `Lz.RepeatMatch` | src/lib/eficomp.c:530-532 | copying byte by byte from an earlier position, overlapping or not, reproduces a true match |
| `Lz.PosClassRange` | src/lib/eficomp.c:167-175 | a position lies in the power-of-two range of its class |
| `Lz.ComputePosClass` | src/lib/eficomp.c:167-175 | the loop computes that class |
| `Blocks.ToksRoundTrip` | src/lib/eficomp.c:515-541 | the written tokens of a block decode to the bytes they stand for |
| `Blocks.BlockRoundTrip` | src/lib/eficomp.c:490-546 | a written block, header and tokens, decodes to the bytes it stands for and ends at its last bit |
| `Streams.BlocksRoundTrip` | src/lib/eficomp.c:490-546 | many blocks in a row decode to all their bytes |
| `Streams.FileRoundTrip` | src/lib/eficomp.c:477-547 | a file with a correct header whose payload starts with the blocks decodes to their bytes |
| `Streams.LargestRefused` | src/lib/eficomp.c:534 | a size field of 0xFFFFFFFF makes the limit wrap to 0, so no such file with any contents is accepted |
| `Sizes.ToksSize` | src/lib/eficomp.c:281-293 | a token never takes more than 16 bits for each byte it stands for |
| `Sizes.StreamSize` | src/lib/eficomp.c:361-366 | under the limit of 0x40000000 bytes the payload fits the 32-bit size field |
| `Encoder.MakeTree` | src/lib/eficomp.c:187-200 | the tree sent has complete lengths on exactly the used symbols, or is the single-symbol form |
| `Encoder.WritePt` | src/lib/eficomp.c:138-160 | writes exactly the specified header bits |
| `Encoder.CountRuns` | src/lib/eficomp.c:207-224 | the run symbols are counted as often as they are written |
| `Encoder.WriteRuns` | src/lib/eficomp.c:250-277 | writes exactly the specified run bits |
| `BlockWriter.MakeTrees` | src/lib/eficomp.c:177-241 | the three trees of a block can code every symbol the block uses |
| `BlockWriter.WriteBlock` | src/lib/eficomp.c:177-294 | appends exactly the bits of a well-formed block of the given tokens |
| `Matcher.ChainExact` | src/lib/eficomp.c:313-349 | a hash chain lists exactly the earlier positions with that hash, strictly decreasing |
| `Matcher.FindMatch` | src/lib/eficomp.c:316-331 | the match found is a longest, and among these the nearest, true match among the first 256 chain entries in the window |
| `Matcher.Insert` | src/lib/eficomp.c:343-349 | inserting a position keeps every chain exact |
| `Compressor.NextToken` | src/lib/eficomp.c:316-341 | every token has a symbol below 510 and a distance of at most 8192, and stands for the bytes it replaces |
| `Compressor.Compress` | src/lib/eficomp.c:301-366 | for every input up to 0x40000000 bytes the file is one of section 19.2 of the UEFI Specification that stands for the input (`Format.Stands`, which knows nothing of this program), it decodes to exactly the input, and its size field is exact |
| `FormatEncoding.TIsText` | src/lib/eficomp.c:138-160 | what is written for a T tree is the format's text of its lengths: count in 5 bits, lengths in 3 bits or unary, 2 bits of zeros behind the third |
| `FormatEncoding.CIsText` | src/lib/eficomp.c:244-277 | what is written for the C tree is the format's text: count in 9 bits, then T symbols 0, 1 with 4 bits, 2 with 9 bits, and l + 2 |
| `FormatEncoding.TokenIsTok` | src/lib/eficomp.c:281-293 | what is written for a token is the format's text: a byte, or length plus 253, position class and the digits behind the first |
| `FormatEncoding.TokensSpell` | src/lib/eficomp.c:310-341 | the bytes the tokens stand for are those of the input, position by position |
| `FormatEncoding.FileStands` | src/lib/eficomp.c:301-366 | a file made of blocks is a file of the format and stands for what the tokens expand to |
| `MatchLaws.NearestLongest` | src/lib/eficomp.c:316-331 | whatever the hashes are, no match among the 256 positions before is longer than the one chosen, and none as long is nearer |
| `MatchLaws.NothingMissed` | src/lib/eficomp.c:316-341 | where a literal is chosen, none of the 256 positions before starts with the same three bytes |
| `Decoder.CopyMatch` | src/lib/eficomp.c:530-532 | the overlapping copy loop stays within the output and copies from an earlier output position |
| `Decoder.GetRuns` | src/lib/eficomp.c:494-514 | the loop refines the C-length reader |
| `Decoder.DecodeBlocks` | src/lib/eficomp.c:490-546 | ends on every input, since each block takes at least 16 bits, and fills all the output or reports the error, with the limit on the position computed in 32 bits |
| `Decoder.Decompress` | src/lib/eficomp.c:477-547 | every file of section 19.2 of the UEFI Specification, whoever wrote it, is decoded to the bytes it stands for; on every byte string, well-formed or not, the decoder computes `Streams.Decode` |
| `FormatDecoding.TRead` | src/lib/eficomp.c:447-475 | the format's text of a T table is read as that table, in both forms and with any number of zeros skipped behind the third length |
| `FormatDecoding.PRead` | src/lib/eficomp.c:447-475 | the format's text of a P table is read as that table |
| `FormatDecoding.CRead` | src/lib/eficomp.c:494-514 | the format's text of a C table is read as that table, however its zeros are grouped |
| `FormatDecoding.BlockRead` | src/lib/eficomp.c:490-534 | a block of the format is read as the bytes its tokens spell, and exactly its bits are used |
| `FormatDecoding.StandsDecodes` | src/lib/eficomp.c:477-547 | every file that stands for some bytes is decoded to these bytes |
| `FormatDecoding.HeaderRefused` | src/lib/eficomp.c:479-485 | a file shorter than its header or its size field, or for more than 0x40000000 bytes, is refused |
| `FormatDecoding.TooFarRefused` | src/lib/eficomp.c:526-529 | a file whose first block copies from before the beginning of the output is refused |
| `FormatExample.StandsAB` | src/lib/eficomp.c:447-547 | 17 given bytes stand for "AB" and are decoded to it |
| `FormatExample.StandsCopies` | src/lib/eficomp.c:447-547 | 19 given bytes, with overlapping and distant copies, stand for seven times "A" and are decoded to it |
| `Decoder.RoundTrip` | src/lib/eficomp.c:301-547 | decompressing what was compressed gives back the input |
| `ExprRoundTrip.LevelRoundTrip` | src/basic/parser.c:281-450 | at every precedence level, parsing the printed tokens of an expression yields it and stops behind it |
| `ExprRoundTrip.RoundTrip` | src/basic/parser.c:428-450 | parsing the minimal-parentheses form of any expression yields the expression exactly when its nesting is within the limit of 64, and fails otherwise |
| `ExprMinimal.ParsePrintParse` | src/basic/parser.c:428-450 | of all token lists that parse to an expression the printed one is no longer and no deeper; it parses to the same expression |
| `ExprParser.Parser.Expression` | src/basic/parser.c:428-450 | the cursor parser reads exactly the grammar, whose rules are written out token by token in `ExprGrammar`: every text of a tree in front of a token that cannot continue it gives the meaning of the tree, unless it is nested deeper than 64, and whatever is given is the meaning of the text read; it restores its depth counter, which only a step over the limit leaves one too high |
| `ExprParsing.TextParsed` | src/basic/parser.c:212-450 | every text of the grammar parses to its meaning and stops behind it, exactly when its nesting is within 64 |
| `ExprParsing.ParsedIsText` | src/basic/parser.c:212-450 | whatever parses begins with a text of the grammar and gives its meaning |
| `ExprChains.Chain` | src/basic/parser.c:281-450 | a p b q c groups to the left or the right as the classes {OR XOR}, {AND}, comparisons, {SHL SHR}, {+ -}, {* / \ MOD}, {^} say, to the left within a class and to the right for ^, for all primaries a, b and c |
| `ExprChains.FiveTokens` | src/basic/parser.c:281-450 | the same for the five tokens of three numbers, texts or names and two operators |
| `ExprChains.NotBefore` | src/basic/parser.c:390-408 | NOT takes a comparison and everything tighter, and ends at AND, OR and XOR |
| `ExprChains.SignBefore` | src/basic/parser.c:297-319 | a minus sign takes a power and nothing looser; a plus sign leaves no trace |
| `ExprChains.NoSignedExponent` | src/basic/parser.c:281-295 | an exponent cannot begin with a sign or NOT |
| `ExprChains.SumOfProduct` | src/basic/parser.c:321-355 | the tokens of 1 + 2 * 3 give 1 + (2 * 3) |
| `ExprParser.Parser.Primary` | src/basic/parser.c:233-279 | numbers, strings, names, calls and parentheses as specified |
| `ExprParser.Parser.Power` | src/basic/parser.c:281-295 | `^` is right-associative and binds tighter than unary minus |
| `ExprParser.Parser.LeftAssociative` | src/basic/parser.c:321-388 | the loop of a left-associative level computes the specified parse |
| `BasicValues.BinaryOp` | src/basic/interp.c:409-499 | an operator yields a value of the static type, or fails; mixed operands always fail |
| `BasicArith.Plus64` | src/basic/interp.c:457-459 | the sum as a 64-bit number, congruent to the integer sum |
| `BasicArith.Minus64` | src/basic/interp.c:460 | the difference: adding the second operand again is congruent to the first modulo 2^64 |
| `BasicArith.Star64` | src/basic/interp.c:461 | the product as a 64-bit number, congruent to the integer product |
| `BasicArith.MinusUndoesPlus` | src/basic/interp.c:459-460 | subtraction undoes addition and the other way round, with wrap-around |
| `BasicArith.Caret64` | src/basic/interp.c:474-485 | x ^ 0 is 1, x ^ (y + 1) is x * x ^ y, and a negative exponent is an error |
| `BasicArith.Divide64` | src/basic/interp.c:462-473 | x is q * y + m with m smaller than y and zero or of the sign of x; the one exception wraps |
| `BasicArith.DivideByZero` | src/basic/interp.c:465-466 | division by zero is an error for all three operators |
| `BasicArith.Compare64` | src/basic/interp.c:486-491 | each comparison is -1 exactly when it holds, else 0 |
| `BasicArith.Bitwise64` | src/basic/interp.c:492-494 | AND, OR and XOR, bit by bit of the two's complement |
| `BasicArith.Shift64` | src/basic/interp.c:495-496 | shifts move every bit by y places, the right one filling with zeros; by 64 or more, or a negative count, they give 0 |
| `BasicArith.Texts` | src/basic/interp.c:422-452 | + joins texts; comparisons follow the first differing byte, a proper beginning being less |
| `BasicArith.NotForTexts` | src/basic/interp.c:422-448 | a text and a number never combine, and other operators do not take texts |
| `BasicValues.IntPower` | src/basic/interp.c:472-485 | the squaring loop in wrapping 64-bit arithmetic computes the power modulo 2^64 |
| `VarTables.VarTable.Find` | src/basic/interp.c:92-100 | the hash table finds exactly the variable the map holds |
| `VarTables.VarTable.Add` | src/basic/interp.c:102-127 | adds the zero of the name's type and keeps every other variable, also when the table is rehashed |
| `VarTables.VarTable.Grow` | src/basic/interp.c:104-118 | rehashing keeps the contents |
| `VarTables.VarTable.Put` | src/basic/interp.c:92-127 | storing through what is found or added changes one variable of the map |
| `VarTables.HoldsOneMore` | src/basic/interp.c:119-127 | a new name at the front of its chain adds one variable to the map |
| `Semantics.Eval` | src/basic/interp.c:501-545 | type soundness: a value has the static type of its expression; every frame is as before; no value exactly after an error or END |
| `Semantics.EvalCall` | src/basic/interp.c:385-407 | the value of a call has the type of the name; frames are as before |
| `Semantics.EvalVar` | src/basic/interp.c:501-545 | the value of a name has the type of the name; frames are as before |
| `Semantics.Index` | src/basic/interp.c:373-383 | an index is within the bounds the array has after the index was evaluated |
| `Semantics.Apply` | src/basic/interp.c:307-349 | a built-in's result is made to agree with the `$` of its name |
| `Semantics.Arguments` | src/basic/interp.c:307-349 | one value for each argument, which agrees with the letter of the built-in |
| `Semantics.Bind` | src/basic/interp.c:556-576 | the table holds exactly the parameters, each with the type of its name; the frames are as before |
| `Semantics.Invoke` | src/basic/interp.c:577-612 | the frame is removed whatever the outcome; depth never exceeds 200; a FUNCTION returns its type |
| `Semantics.AssignTo` | src/basic/interp.c:616-650 | whatever the outcome, every variable and element keeps the type of its name, arrays stay arrays, and other frames are untouched |
| `Semantics.ForRound` | src/basic/interp.c:733-772 | one round ends or takes the counter closer to its end, or the body has consumed polls |
| `Semantics.ForRounds` | src/basic/interp.c:733-772 | every FOR loop ends when Ctrl-C comes at last, also with an empty body; the stack is kept, and no EXIT or CONTINUE of FOR gets out |
| `Semantics.ExecWhile` | src/basic/interp.c:784-800 | no EXIT or CONTINUE of WHILE gets out of the loop; the stack is kept |
| `Semantics.ExecDo` | src/basic/interp.c:802-826 | no EXIT or CONTINUE of DO gets out of the loop; the stack is kept |
| `Semantics.SelectFrom` | src/basic/interp.c:837-914 | whatever clause runs, with any outcome, the stack and the types are kept |
| `Semantics.Declare` | src/basic/interp.c:916-953 | DIM, REDIM and LOCAL keep the typing invariant; arrays stay arrays |
| `Semantics.ExecEnd` | src/basic/interp.c:1127-1134 | END stops the run and records the state; its code is a 32-bit number, 0 when none is given |
| `Semantics.ExecStmt` | src/basic/interp.c:1046-1211 | every statement, with any outcome, restores the frames and keeps every variable at the type of its name |
| `Semantics.ExecBlock` | src/basic/interp.c:1213-1236 | a GOTO that leaves a block goes to none of its labels; the outcome is END exactly when END has run, however deep |
| `BasicLaws.AssignThenRead` | src/basic/interp.c:616-650 | an assignment to a variable works exactly when type and name allow it; the variable then has the value, and no other name means anything else |
| `BasicLaws.AssignElement` | src/basic/interp.c:624-639 | an assignment to an element changes that element and nothing else |
| `BasicLaws.VariableHides` | src/basic/interp.c:501-545 | a variable hides every function and procedure of its name |
| `BasicLaws.LocalHides` | src/basic/interp.c:169-178 | a local variable hides the global one |
| `BasicLaws.BareCall` | src/basic/interp.c:385-407 | a name and the name with empty parentheses are the same call, unless both a built-in and a procedure have it |
| `BasicFlow.IfRunsFirst` | src/basic/interp.c:1059-1067 | IF runs the body of the first clause whose condition is neither 0 nor "", or ELSE; without one, nothing |
| `BasicFlow.WhileStep` | src/basic/interp.c:784-800 | WHILE ends before its body exactly when the condition is 0 or ""; otherwise the body runs once, and the same WHILE follows after a poll |
| `BasicFlow.DoStep` | src/basic/interp.c:802-826 | DO, with WHILE or UNTIL before or behind the body, ends exactly when 0 or "", or the opposite, says so; otherwise the same DO follows |
| `BasicFlow.ForLaw` | src/basic/interp.c:733-772 | FOR over a body that leaves its counter alone runs it with start, start + step and so on, up to and including the end; how it ends early or at the end of the number range |
| `BasicFlow.VarLaw` | src/basic/interp.c:504-525 | a name means the variable of the current frame, else the global, else 0 or ""; an array alone is an error |
| `BasicFlow.ElementLaw` | src/basic/interp.c:373-395 | an element is that at the index, within the bounds after the index was evaluated; else an error |
| `BasicFlow.AssignLaw` | src/basic/interp.c:1049-1054 | an assignment stores the value where the variable is, or in a new global, and changes nothing else; else it is an error |
| `BasicFlow.AssignElementLaw` | src/basic/interp.c:616-650 | an element is assigned after value and index, in this order, are known |
| `BasicFlow.UnaryLaw` | src/basic/interp.c:529-538 | minus and NOT, also of the smallest number; of a text they are errors |
| `BasicFlow.BinaryLaw` | src/basic/interp.c:409-420 | both operands are evaluated, the left one first, whatever the operator is |
| `BasicFlow.PrintLaw` | src/basic/interp.c:672-698 | PRINT appends the values of its arguments in order |
| `BasicRuns.BlockLaw` | src/basic/interp.c:1213-1236 | a block polls before each statement, runs them in order, goes to its own labels and hands everything else on; END inside a FUNCTION ends it |
| `BasicRuns.JumpLaw` | src/basic/interp.c:1076-1083 | EXIT, CONTINUE and GOTO change nothing but what comes next |
| `BasicRuns.EndLaw` | src/basic/interp.c:1127-1134 | END records everything as it is, with its value as a 32-bit code |
| `BasicRuns.BareEnd` | src/basic/interp.c:1127-1134 | END without value has the code 0 |
| `BasicRuns.CallLaw` | src/basic/interp.c:549-612 | a call evaluates its arguments in order, runs the body with each parameter equal to its argument in a new frame, removes the frame, and yields what RETURN set, else 0 or "" |
| `BasicRuns.CallStmtLaw` | src/basic/interp.c:1084-1093 | a call as a statement does the same and drops the value |
| `BasicRuns.CallRefused` | src/basic/interp.c:549-555 | a wrong number of arguments and the 201st nested call are errors before anything is evaluated |
| `BasicRuns.ReturnLaw` | src/basic/interp.c:1108-1126 | RETURN sets the value of the current frame, only in a FUNCTION, and nothing else |
| `BasicRuns.ItemLaw` | src/basic/interp.c:846-905 | a CASE item matches when it is equal, when its comparison holds, or when both ends of its range do |
| `BasicRuns.ClauseLaw` | src/basic/interp.c:843-905 | the items of a clause are tried in order up to one that matches; CASE ELSE matches |
| `BasicRuns.SelectRunsFirst` | src/basic/interp.c:837-914 | SELECT evaluates its expression once, runs the first clause that matches and no other; without one it does nothing |
| `BasicRuns.DeclareScalar` | src/basic/interp.c:916-953 | a declaration without size makes 0 or "", in the frame for LOCAL, and leaves a variable alone that is there |
| `BasicRuns.DeclareArray` | src/basic/interp.c:916-953 | a declaration with size makes an array with indexes 0 to the size of zeros, REDIM keeping what fits; sizes above 10000000 and a second DIM are errors |
| `BasicRuns.DimLaw` | src/basic/interp.c:1135-1136 | DIM and REDIM make their declarations one after the other |
| `BasicRuns.LocalLaw` | src/basic/interp.c:1137-1138 | LOCAL likewise, in the current frame |
| `BasicRuns.BuiltinLaw` | src/basic/interp.c:307-349 | a built-in is applied to the values of its arguments, arrays not evaluated; a result of the wrong type becomes 0 or "" |
| `BasicRuns.BuiltinRefused` | src/basic/interp.c:309-317 | too few arguments, too many, and more than 16 are errors before anything is evaluated |
| `BasicRuns.BareBuiltin` | src/basic/interp.c:510-526 | a bare name that is no variable prefers the built-in |
| `BasicRuns.UnknownCall` | src/basic/interp.c:1084-1107 | a name that is no array, procedure or built-in cannot be called |
| `Interpreter.Interp.Eval` | src/basic/interp.c:501-545 | the interpreter, whose variables are hash tables updated in place, computes the semantics of an expression |
| `Interpreter.Interp.Lookup` | src/basic/interp.c:169-178 | the hash table of the current frame, then that of the globals |
| `Interpreter.Interp.Bind` | src/basic/interp.c:556-576 | fills a new hash table with the arguments as the semantics does |
| `Interpreter.Interp.Get` | src/basic/interp.c:180-184 | the variable, made a global with a zero if it does not exist |
| `Interpreter.Interp.Invoke` | src/basic/interp.c:549-612 | pushing and popping the frame is the semantics of a call; the depth counter counts the frames |
| `Interpreter.Interp.AssignTo` | src/basic/interp.c:616-650 | the tables afterwards are those the semantics gives: one cell changed |
| `Interpreter.Interp.ExecFor` | src/basic/interp.c:733-772 | the loop computes the semantics of FOR |
| `Interpreter.Interp.ExecSelect` | src/basic/interp.c:837-914 | the loops over clauses and items compute the semantics of SELECT CASE |
| `Interpreter.Interp.Declare` | src/basic/interp.c:916-953 | computes the semantics of one declaration |
| `Interpreter.Interp.ExecStmt` | src/basic/interp.c:1046-1211 | computes the semantics of a statement |
| `Interpreter.Interp.ExecBlock` | src/basic/interp.c:1213-1236 | the loop with GOTO computes the semantics of a block |
| `Interpreter.Interp.Run` | src/basic/interp.c:1285-1322 | the exit code is END's, 0 at the end of the program, 130 after Ctrl-C and 1 after any other error; after END the globals, the output and the count of executed statements are those of the moment END ran |
| `FileTree.RelocatedUnique` | src/pal/pal_efi.c:740-770 | what characterises a renamed tree: all of it at the new place, nothing at the old, the rest as before |
| `FileTree.RelocatedWf` | src/pal/pal_efi.c:740-770 | a rename to a free place in a directory keeps the file system well formed |
| `FileSystem.Volumes.Rename` | src/pal/pal_efi.c:740-770 | when a rename works, what it then does, and when it is not supported |
| `FileSystem.Volumes.Remove` | src/pal/pal_efi.c:704-738 | removes a file or an empty directory and nothing else |
| `FileCopy.CopyFile` | src/cmd/cmd_fs.c:544-582 | changes the destination only; success means an equal file; after a failure the partial file is gone unless removing it failed too |
| `FileCopy.CopyTree` | src/cmd/cmd_fs.c:590-626 | changes nothing outside the destination in any state on the way; success means an equal tree; without faults it succeeds |
| `FileCopy.CopyChild` | src/cmd/cmd_fs.c:612-621 | one more entry copied leaves the copies made so far intact |
| `FileCopy.RemoveTree` | src/cmd/cmd_fs.c:628-665 | only ever removes, only below the path, in every state on the way; success means it is gone |
| `FileCopy.CopiedAll` | src/cmd/cmd_fs.c:590-626 | equal copies of all entries make an equal tree |
| `FileMove.SetAside` | src/cmd/cmd_fs.c:741-754 | the old target takes the first free one of its 1000 names, or nothing changes |
| `FileMove.AsideNames` | src/cmd/cmd_fs.c:741-754 | the names tried are the target's with .mv and a number below 1000 |
| `FileMove.Transfer` | src/cmd/cmd_fs.c:756-767 | every state on the way has all of the source at its old or new place; a failed attempt without further faults changes nothing |
| `FileMove.Move` | src/cmd/cmd_fs.c:728-783 | under arbitrary failures, in every state: all of the source at its old or its new place, the old target at its place or set aside until the move is complete, all else unchanged; success means exactly the relocation; a failed transfer without further faults is undone; without faults it succeeds |
| `FileMove.BetweenSafe` | src/cmd/cmd_fs.c:756-767 | every state of the transfer is safe in terms of the original file system |
| `FileMove.Completed` | src/cmd/cmd_fs.c:771-772 | deleting the set-aside file completes exactly the relocation |
| `FileMove.PutBack` | src/cmd/cmd_fs.c:773-774 | putting the old target back undoes setting it aside |
| `FileMove.MoveOntoItself` | src/cmd/cmd_fs.c:756-767 | the guarantee fails for every source that is its own target when renaming is not supported: the source is deleted, or all that the root of a volume holds |
| `Utf8.DecodeEncoded` | src/lib/util.c:140-198 | an encoded character decodes to itself, whatever follows |
| `Utf8.DecodeChar` | src/lib/util.c:140-176 | the loop computes the specified character and size; malformed bytes are the replacement character |
| `Utf8.EncodeChar` | src/lib/util.c:178-198 | writes the specified one to four bytes and nothing else |
| `Utf8.UnitsOfText` | src/lib/util.c:227-261 | UCS-2 to UTF-8 and back is the identity on all nonzero units |
| `Utf8.SurvivesExactly` | src/lib/util.c:227-261 | UTF-8 to UCS-2 and back is the identity exactly on nonzero characters up to U+FFFF in their shortest form, byte by byte |
| `Utf8.Utf8ToUcs2` | src/lib/util.c:227-241 | the loop computes the units and the final NUL, within its buffer |
| `Utf8.Ucs2ToUtf8` | src/lib/util.c:251-261 | the loop computes the text up to the first NUL |
| `Utf8.BmpHasNoNul` | src/lib/util.c:227-261 | text that UCS-2 can hold in shortest form has no NUL unit |
| `Utf8.Malformed` | src/lib/util.c:140-176 | a byte that does not begin a well-formed sequence stands for U+FFFD, alone |
| `Utf8.UnitsLaw` | src/lib/util.c:227-241 | a character above U+FFFF becomes U+FFFD |
| `Utf8.TextLaw` | src/lib/util.c:178-261 | each unit up to the first NUL becomes its shortest sequence, byte by byte |
| `LoadOptionLayout.ParsedExactly` | src/platform/efi/efi_boot.c:53-82 | an option is accepted exactly when its bytes are laid out as the specification says, place by place, and is then what they hold |
| `LoadOptionLayout.BuildLaw` | src/platform/efi/efi_boot.c:84-100 | every byte of what is built, for any option |
| `LoadOptionLayout.NodeLaw` | src/platform/efi/efi_boot.c:37-50 | a device path is nodes of type, subtype and 16-bit length up to the end node 0x7F 0xFF |
| `LoadOptionLayout.SmallestOption` | src/platform/efi/efi_boot.c:53-82 | 15 given bytes are an active option described as "A" |
| `LoadOptions.DevPathValid` | src/platform/efi/efi_boot.c:37-50 | accepts exactly the well-formed device paths |
| `LoadOptions.DevPathHasNodes` | src/platform/efi/efi_boot.c:37-50 | an accepted path is a list of nodes of which the last, and only the last, ends the path |
| `LoadOptions.NodesAreDevPath` | src/platform/efi/efi_boot.c:37-50 | every such list is accepted |
| `LoadOptions.LoParse` | src/platform/efi/efi_boot.c:53-82 | the scanner computes the specified option, or refuses |
| `LoadOptions.LoBuild` | src/platform/efi/efi_boot.c:84-100 | fills its buffer with the specified bytes |
| `LoadOptions.BuildOfParse` | src/platform/efi/efi_boot.c:53-100 | rebuilding an accepted option gives back the identical bytes |
| `LoadOptions.ParseOfBuild` | src/platform/efi/efi_boot.c:53-100 | parsing what was built recovers attributes, description, device path and data exactly when the attributes have 32 bits, the description is UTF-8 of UCS-2 in shortest form, and the path is well formed and shorter than 65536 bytes |
| `LoadOptions.DescriptionLost` | src/platform/efi/efi_boot.c:53-100 | an overlong NUL or a character above U+FFFF in the description is lost |
| `LoadOptions.PathLost` | src/platform/efi/efi_boot.c:84-100 | a well-formed device path of 65536 bytes is lost |
| `LoadOptions.ActiveBitOnly` | src/platform/efi/efi_boot.c:741-760 | changing the active attribute changes the lowest bit of the first byte and nothing else |
| `BootOrder.MoveIsPermutation` | src/platform/efi/efi_boot.c:1343-1346 | a move is a permutation that changes the place of one element; moving back undoes it |
| `BootOrder.InsertKeeps` | src/platform/efi/efi_boot.c:678-684 | inserting adds one number; the list stays free of duplicates exactly when the number is new |
| `BootOrder.WithoutKeeps` | src/platform/efi/efi_boot.c:849-853 | top removes every occurrence of the number and nothing else |
| `BootOrder.MemMove` | src/platform/efi/efi_boot.c:1315-1345 | overlapping regions are copied as if at once |
| `BootOrder.Move` | src/platform/efi/efi_boot.c:1343-1346 | the two memory moves of bcfg mv in one array are the one-element move |
| `BootPlans.OrderWritten` | src/platform/efi/efi_boot.c:271-280 | a stored order is read back, each number in 16 bits |
| `BootPlans.PlanKeeps` | src/platform/efi/efi_boot.c:366-406 | whatever write fails, a command that deletes no entry keeps both orders free of duplicates and dangling numbers |
| `BootPlans.DeleteKeeps` | src/platform/efi/efi_boot.c:712-739 | a completed deletion does too; stopped by a failing write it leaves nothing dangling but the deleted number |
| `BootPlans.AddedOrder` | src/platform/efi/efi_boot.c:1304-1317 | the order an addition stores, also when every number is taken |
| `BootRuns.RunKeeps` | src/platform/efi/efi_boot.c:366-406 | every sequence of bootmgr and bcfg commands keeps both orders free of duplicates and dangling numbers |
| `BootRuns.BcfgAddExact` | src/platform/efi/efi_boot.c:1301-1318 | bcfg add does so exactly when a number is free or entry 0 is not in the order |
| `BootRuns.NextKept` | src/platform/efi/efi_boot.c:729-731 | after every completed command BootNext names an existing entry, except exactly after bcfg rm of the entry it names |
| `BootRuns.FullTableBreaks` | src/platform/efi/efi_boot.c:1301-1318 | with all 65536 numbers taken and entry 0 in the order, bcfg add breaks the order |
| `BootRuns.NextLeftBehind` | src/platform/efi/efi_boot.c:1324-1336 | bcfg rm of the entry BootNext names leaves BootNext dangling |
| `BootRuns.EnableChangesOneBit` | src/platform/efi/efi_boot.c:741-760 | enable and disable change one bit of one variable |
| `BootRuns.MvMovesOne` | src/platform/efi/efi_boot.c:1337-1350 | bcfg mv moves one element of the stored order, changes no other variable, and is undone by moving back |
| `BootRuns.DryRun` | src/platform/efi/efi_boot.c:379-380 | a dry run changes nothing |
| `BootEffects.OrderLaw` | src/platform/efi/efi_boot.c:152-158 | an order variable holds 16-bit numbers, low byte first |
| `BootEffects.RewriteEffect` | src/platform/efi/efi_boot.c:741-831 | a completed edit leaves the entry with exactly the given description, path and data and its other fields, enable and disable with one bit changed, and no other variable changed |
| `BootEffects.AddEffect` | src/platform/efi/efi_boot.c:628-697 | a completed addition: the lowest free number, an entry that parses to the given option, the number first or last in the order, no other variable changed; it is refused exactly when no number is free |
| `BootEffects.BcfgAddEffect` | src/platform/efi/efi_boot.c:1289-1323 | the same at a given position; with no number free, number 0 once more |
| `BootEffects.DelEffect` | src/platform/efi/efi_boot.c:712-739 | a completed deletion: the entry is gone, the order lacks its first place only, BootNext is gone exactly when it named the entry |
| `BootEffects.RmEffect` | src/platform/efi/efi_boot.c:1324-1336 | bcfg rm: the entry is gone and the order lacks that one place |
| `BootEffects.SetOrderEffect` | src/platform/efi/efi_boot.c:855-906 | the order becomes the list given, accepted exactly when all entries exist and none is named twice |
| `BootEffects.TopEffect` | src/platform/efi/efi_boot.c:841-853 | the number is first and nowhere else; the others keep their relative order |
| `BootEffects.MvEffect` | src/platform/efi/efi_boot.c:1337-1350 | the number stands at its new position, the others as before |
| `BootEffects.NextEffect` | src/platform/efi/efi_boot.c:909-934 | BootNext holds the two bytes of the number, or is gone; accepted exactly when the entry exists |
| `BootManager.ArgLaw` | src/platform/efi/efi_boot.c:655-660 | arguments are stored as units of two bytes with a NUL |
| `BootManager.Manager.PlanApply` | src/platform/efi/efi_boot.c:366-406 | applies the writes in order up to the first that fails; nothing when dry, cancelled or without backup |
| `BootManager.Manager.Add` | src/platform/efi/efi_boot.c:628-697 | does its plan; when it reports success and was no dry run, the variables have changed as `BootEffects.AddedSome` says; if nothing fails and the user agrees it succeeds exactly when a number is free; without consent or backup nothing changes |
| `BootManager.Manager.Del` | src/platform/efi/efi_boot.c:712-739 | the same for bootmgr del and `BootEffects.Deleted`: succeeds exactly when the entry exists |
| `BootManager.Manager.Rewrite` | src/platform/efi/efi_boot.c:741-831 | the same for enable, disable and edit and `BootEffects.Rewrote`: the description, path and data given are those read back |
| `BootManager.Manager.SetOrder` | src/platform/efi/efi_boot.c:855-906 | the same for bootmgr order and `BootEffects.Ordered`: accepts exactly lists of existing entries named once |
| `BootManager.Manager.Top` | src/platform/efi/efi_boot.c:841-853 | the same for bootmgr top and `BootEffects.Topped` |
| `BootManager.Manager.Next` | src/platform/efi/efi_boot.c:909-934 | the same for bootmgr next and `BootEffects.NextSet` |
| `BootManager.Manager.BcfgAdd` | src/platform/efi/efi_boot.c:1289-1323 | the same for bcfg add, which asks nothing, and `BootEffects.AddedSome` or `AddedTooMany` |
| `BootManager.Manager.BcfgRm` | src/platform/efi/efi_boot.c:1324-1336 | the same for bcfg rm and `BootEffects.Dropped` |
| `BootManager.Manager.BcfgMv` | src/platform/efi/efi_boot.c:1337-1350 | the same for bcfg mv and `BootEffects.Moved` |
| `Glob.GlobMatch` | src/lib/util.c:270-294 | the loop that only goes back to the last star accepts exactly what the recursive definition of `*`, `?` and literals matches, and ends |
| `GlobLaws.MatchesExactly` | src/lib/util.c:270-294 | a text matches exactly when it can be divided so that every character of the pattern stands for its part |
| `Glob.LastStarOnly` | src/lib/util.c:278-287 | a later star makes the choices for the earlier one final |
| `Paths.ResolveIsNormal` | src/core/shell.c:185-253 | the result is always a normal form: a volume, single separators, no `.` or `..`, never above the root |
| `Paths.NormalIsFixed` | src/core/shell.c:185-253 | a normal form resolves to itself in every directory, whatever the aliases |
| `Paths.ResolveIdempotent` | src/core/shell.c:185-253 | resolving twice is resolving once |
| `Paths.RelativeIsJoined` | src/core/shell.c:185-301 | a relative path means the same as the absolute path joined to the current directory |
| `Paths.OwnName` | src/core/shell.c:131-146 | a volume is found under its own name; no alias hides it |
| `PathLaws.Walked` | src/core/shell.c:185-253 | a path is walked piece by piece from the current directory, or from its root after a leading separator: both slashes separate, "" and . stay, .. goes up but never above the root |
| `PathLaws.WalkedOn` | src/core/shell.c:185-253 | a path with a volume is walked from the root of that volume |
| `PathLaws.NoDirectory` | src/core/shell.c:190-205 | without a current directory a path without volume is refused |
| `PathLaws.VolumeLaw` | src/core/shell.c:131-146 | a name means the volume that has it, in any case of its letters |
| `PathLaws.AliasLaw` | src/core/shell.c:131-146 | else the volume of the first alias of that name whose volume exists |
| `PathLaws.NoVolumeLaw` | src/core/shell.c:131-146 | without such an alias it means nothing |
| `PathLaws.UpAndDown` | src/core/shell.c:185-253 | ../c/./d from fs0:\a\b is fs0:\a\c\d |
| `PathText.DirnameDropsLast` | src/core/shell.c:284-293 | the directory of a normal form has one name less; a root is its own |
| `PathText.UpIsDirname` | src/core/shell.c:185-293 | `..` resolves to the directory of the current directory |
| `PathText.InsideIsPrefix` | src/cmd/cmd_fs.c:584-588 | the text test of mv and cp holds on normal forms exactly when volume and leading names agree without case |
| `Shell.Shell.PathResolve` | src/core/shell.c:185-253 | the scanner with its component stack computes the resolution |
| `Shell.Shell.FindVolume` | src/core/shell.c:131-146 | real names first, then aliases of existing volumes |
| `Shell.Shell.ChDir` | src/core/shell.c:255-273 | the current directory becomes the normal form of an existing directory, or stays; with the other methods, it is a normal form in every reachable state, though maybe of a volume that is gone |
| `Shell.Shell.VolumesRefresh` | src/cmd/cmd_fs.c:987 | enumerating the volumes again leaves the current directory as it is |
| `Shell.Shell.Refresh` | src/cmd/cmd_fs.c:86-102 | the current directory stays when it still exists; otherwise it becomes another existing one, in normal form, or stays |
| `Records.DataOutput.DataField` | src/core/con.c:195-212 | one line for a field, line ends in the value turned into spaces |
| `Records.DataOutput.PrintRecords` | src/core/con.c:188-212 | records are printed in order with one empty line between them |
| `Records.StripLineEnds` | src/basic/bfuncs.c:608-622 | RUN$ removes exactly the line ends at the end |
| `Records.SplitRecords` | src/basic/bfuncs.c:689-724 | the index loops of RECORDS compute the specified split |
| `Records.FindField` | src/basic/bfuncs.c:727-751 | FIELD$ computes the value of the first line with the key |
| `Records.SplitRunText` | src/basic/bfuncs.c:689-724 | RECORDS splits the stripped output into exactly the printed records |
| `Records.RecordsRoundTrip` | src/core/con.c:188-212 | printing, RUN$, RECORDS and FIELD$ give back every value of every record on one line, and no value for any other key |
| `RecordLaws.TwoRecords` | src/core/con.c:188-212 | the text of two given records, character by character |
| `RecordLaws.FieldLaw` | src/basic/bfuncs.c:727-751 | the value is what follows the key and the equals sign on its line, without a carriage return |
| `RecordLaws.OtherLine` | src/basic/bfuncs.c:727-751 | any other line is passed over |
| `RecordLaws.StripLaw` | src/basic/bfuncs.c:608-622 | line ends are taken off the end, and only there |
| `RecordLaws.ForeignRecords` | src/basic/bfuncs.c:689-724 | an empty line with a carriage return ends a record as well |
| `Ip6Laws.Digits` | src/platform/efi/efi_net6.c:26-145 | hexadecimal digits, in lower case when written and in both when read, and their places |
| `Ip6Laws.GroupBytes` | src/platform/efi/efi_net6.c:26-145 | a group is two bytes, the high one first |
| `Ip6Laws.Mapped` | src/platform/efi/efi_net6.c:42-68 | ::192.0.2.1 is read as the groups 0xC000 and 0x0201 behind six zeros |
| `Ip6Laws.WrittenAndRead` | src/platform/efi/efi_net6.c:26-145 | 2001:db8::1 is written and read as such |
| `Ip6.HexForm` | src/platform/efi/efi_net6.c:142 | a group is in lower case without leading zeros and reads back |
| `Ip6.BestIsUnique` | src/platform/efi/efi_net6.c:119-131 | there is only one leftmost longest run of two or more zero groups |
| `Ip6.TextForm` | src/platform/efi/efi_net6.c:114-145 | the text is the form of section 4 of RFC 5952: the leftmost longest run of at least two zero groups is `::` |
| `Ip6Accepted.ParseCompressed` | src/platform/efi/efi_net6.c:26-111 | an address with any of its zero runs compressed, or none, is read |
| `Ip6Accepted.ParseOfText` | src/platform/efi/efi_net6.c:26-145 | every address reads back from its text |
| `Ip6Accepted.ParseStable` | src/platform/efi/efi_net6.c:26-145 | every accepted text reads the same after printing; two texts name the same address exactly when they print the same |
| `Ip6Text.Ip6Parse` | src/platform/efi/efi_net6.c:26-111 | the scanner with head and tail arrays computes the specified parse, and stores nothing when it refuses |
| `Ip6Text.Scanner.ScanGroup` | src/platform/efi/efi_net6.c:69-101 | one group and the colons behind it, as specified |
| `Ip6Text.Ip6Str` | src/platform/efi/efi_net6.c:114-145 | the run search and the printing loop compute the text |
| `Ip6Accepted.ParseMapped` | src/platform/efi/efi_net6.c:42-68 | a dotted IPv4 address at the end of any accepted groups, with or without a gap, is read as the last two groups |
| `Ip6Accepted.GrammarAccepted` | src/platform/efi/efi_net6.c:26-111 | every text of the grammar of section 2.2 of RFC 4291 is accepted and read as the grammar says |
| `Ip6Accepted.AcceptedExactly` | src/platform/efi/efi_net6.c:26-111 | the texts of the standard for an address are exactly the accepted ones without brackets, signs, spaces and numbers of more than three digits |
| `Ip6Grammar.ScanDigits` | src/lib/libc.c:255-292 | digits are scanned as their value modulo 2^64, as a signed number |
| `Ip6Accepted.LooseAccepted` | src/platform/efi/efi_net6.c:47-59 | whatever the scanner takes for four numbers up to 255 is accepted as a dotted address |
| `Ip6Accepted.LongScans` | src/lib/libc.c:255-283 | digits of any number count as their value modulo 2^64 |
| `Ip6Accepted.SpaceScans` | src/lib/libc.c:255-259 | a space before a number is taken |
| `Ip6Accepted.SignsAreNumbers` | src/platform/efi/efi_net6.c:47-59 | a text of signs and dots is accepted as an address and is not plain |
| `Ip6Accepted.BracketsAccepted` | src/platform/efi/efi_net6.c:28-32 | every address of the standard is accepted in square brackets as well |

## Left out

- The `cp` and `rm` commands themselves, wildcard expansion and the loop of `mv` over several sources: each source is one `FileMove.Move`, and the copy and remove steps are shared.
- FileCopy.CopyTree: the entries of a directory are those it has when it is opened; what a driver lists when the copy goes into an ancestor of the source is not modelled.
- File attributes and times, open handles, and the difference between a failing close and a failing write.
- FileSystem.Volumes.Rename: a target that exists is refused, as firmware does; a host that replaces it is not modelled, and `mv` never asks for it.
- The lexer and the statement parser of BASIC: programs are trees that satisfy what the statement parser guarantees (`BasicSyntax.BlockOk`).
- Built-in functions that write to arrays, and RUN, RUN$, INPUT, SLEEP, CLS, COLOR, LOCATE and PAUSE; a built-in is any function on values. What RUN$ does to its text is in `Records`.
- Duplicate parameter names of a procedure: the last one wins here, while the chain order in the hash table of the source depends on its size. `VarTables.VarTable.Add` requires a new name.
- Redefinition of procedures in the interactive shell, and `register_procs`, which refuses duplicate names.
- Firmware calls, console, editors, network, disks and device listings: plumbing over services that cannot be seen.
- `bootmgr backup`, `restore`, `list`, `check` and `timeout`, and `bcfg mod`, `modf`, `modp`, `modh` and `-opt`, which rewrite one entry as `bootmgr edit` does.
- Building device paths from files, checking EFI applications and parsing entry numbers: their results are parameters.
- Interpreter.Interp.ExecStmt: RUN, INPUT and the console statements of the same switch are not among the statements.
- `map_alias_set`: an alias list may be any list; no property needs more.
- Huffman.HuffLengths: after a flattening the lengths are the best ones for the flattened histogram only; how far that is from the best for the histogram itself is not said.
- The libc subset, environment and alias tables, documentation generators and scripts: textbook routines or simple maps.
