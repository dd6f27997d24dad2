# An ALGOL 60 system for the Electrologica X1: a model and its proofs

The system translates ALGOL 60 in two scans over the source text, loads the object program into the
store it was translated in, and runs it on a simulated X1 with the run-time orders of the "complex".
This project models its hard parts in Dafny and proves them right.

* **Object code.** The translator appends variable-length codes to words that grow upwards; the loader
  reads the same digits from the top down and writes the relocated program into the store that still
  holds them. `ObjectCode` has the codes, `CompilerStore` the writer with the lists that slide in front
  of it, `DigitReader` and `ProgramLoader` the reader, `ObjectFile`, `TapeFormat` and `TapeRoundTrip`
  the library tape. The stream is a sequence of digits in reading order, so appending is putting a code
  in front. Every instruction comes back relocated, or the loader stops with 98, and exactly when it
  does is stated. The test that leads to this stop refuses one more word than it has to: it also stops
  when a word would go right behind the future list (`ProgramLoader.Collides`).
* **Expressions.** `ExpressionTranslator` is the translator's handling of operators, parentheses and
  conditional expressions with its t-list and future list. `ExpressionCode` shows which code that is,
  `ExpressionRun` that the machine runs the relocated words as the tree says, `Expressions` gives the
  grammar and the values after sections 3.3 and 3.4 of the Revised Report on ALGOL 60, and
  `ExpressionMeaning` connects both ends. `CodeGeneration` takes what the translator made
  into its store, and `CompileLoadRun` adds the loader.
* **The run-time stack.** `RunTimeState` and class `Processor` (module `Processing`) have frames, the
  display, implicit subroutines and formal parameters; `Activations` says what a stack in order is, and
  `RunTimeSafety` that every step keeps it so, `RunTimeRuns` what follows for whole runs from the empty
  stack on, and for what happens between a call and its end. `FormalParameters` adds parameters that
  were passed on.
* **Statements and data.** `ForStatement`; `CallSite`, `ParameterDescriptors` and `CallRun` for calls
  and their actual parameters, from the code to the frame; `ArrayStorage` for storage functions, and `ArrayFrames` and `ArrayDeclarations`
  for arrays that get their bounds and their place at run time.
* **Scanning and numbers.** `SymbolText`, `PrescanList`, `IdentifierKeys`, `NameSearch`, `DecimalScaling`,
  `RealNumbers` and `X1Integers`.

The modules below these are arithmetic: `Bits`, `Shifting`, `Parity`, `DigitSupply`, `WordStore`.

Where the system stops with a numbered message, the model returns the number; 0 means that it goes on.
Proof-only parameters and fields are marked `ghost`.

## Where the code does not do what it is for

Nine promises do not hold for all inputs. Each is stated with the exact condition under which it does,
and with an input that breaks it.

* A sign directly behind a binary logical operator is taken for a binary operator, because only the
  other operators set `oflag` (`compiler/x1algc.c:2004-2012`). `ExpressionMeaning.Correct` has the
  condition, `ExpressionMeaning.SignAfterAnd` an expression that is always wrong.
* FOR7 assigns the controlled variable after the limit has been evaluated, and the first step is
  evaluated before the first assignment (`simulator/opcodes.cpp:189-224`), unlike section 4.6.4.2 of
  the Report. `ForStatement.SteadyExactly` has the condition, `ForStatement.LimitNamesVariable` a
  statement that is left too early.
* The search for a real constant can match across the end of the constant list
  (`compiler/x1algc.c:1812-1822`): `ConstantSearch.RealLookup` has the condition,
  `ConstantSearch.RealLookupFails` two literals that make it happen.
* The skip over an identifier's symbols after the ninth ends at the letter Z
  (`compiler/x1algc.c:547-548`): `IdentifierKeys.ScanIdentifier` says when the scanner goes on in the
  right place, `IdentifierKeys.ScanLateLetter` has an identifier for which it does not.
* LAP looks for the length of an array in cells 2 to 31 of its storage function
  (`simulator/opcodes.cpp:911-919`), so that an array with computed bounds can have at most 29
  dimensions: `ArrayFrames.LengthFound`, with `ArrayFrames.ThirtyDimensions`. The translator has no such
  limit.
* The indexer cuts addresses off at 20 digits (`simulator/opcodes.cpp:542-544`), while those of the stack
  go on: `ArrayStorage.IndexerRight` says which elements it accepts, `ArrayStorage.HighArray` has one it
  refuses.
* The future list grows by sixteen places whenever a label behind its end gets its goal
  (`compiler/x1algc.c:1295-1310`), even when the label is further away:
  `CompilerStore.Compiler.FillFutureList` says for which places that is enough, and with 33 conditional
  expressions nested as in `CodeGeneration.LastLabelFirst` the goal goes over the first constant
  (`CodeGeneration.OverwriteConstant`).
* A formal procedure that was passed on as a parameter cannot be called by the procedure it was passed
  to (`simulator/processor.cpp:587-597` knows no descriptor but that of a routine), although the name
  replacement of section 4.7.3.2 of the Report would call it: `CallRun.ProcedurePassed`, with
  `CallRun.PassedOnRefused`.
* The cell that tells a formal parameter the place of the call has fifteen digits for the frame
  (`simulator/processor.cpp:374-385`): `FormalParameters.CallPlaceExactly` and
  `FormalParameters.HighFrame`.

## Model

| member | source | states |
|---|---|---|
| ObjectCode.AddressReads | compiler/x1algc.c:2916-2978 | Decoding an address code, with anything behind it, gives the address modulo 2^15 and the exact length of its code, for each mix of the short and long group codes. |
| ObjectCode.OpReads | compiler/x1algc.c:3088-3125 | For every order 8..112 the look at the leading digits gives the length of its code, and the table gives the order back. |
| ObjectCode.OpTableInverts | compiler/x1algc.c:1035-1286 | The loader's order table undoes the code table of the translator. |
| ObjectCode.MaskReads | compiler/x1algc.c:2980-3080 | A mask code is recognised with its length by its leading digits. |
| ObjectCode.MaskInverts | compiler/x1algc.c:1005-1034 | The mask number, or the escape with the order half spelled out, gives the opc and the upper 12 digits back. |
| ObjectCode.InstrOpens | compiler/x1algc.c:3082-3154 | The first digits of an instruction's code tell an order from a word and a mask, so that no code is taken for another. |
| Shifting.StockFits | compiler/x1algc.c:922-936 | Codes that fit are put in front of the digits in stock, whatever they are. |
| Shifting.StockSpills | compiler/x1algc.c:937-953 | When a code overflows the stock, the full word and the digits left over are together exactly the old digits with the code in front. |
| CompilerStore.Compiler.BitStringMaker | compiler/x1algc.c:922-954 | One code more at the head of the digit stream; stops with 25 exactly when a word gets full, the text is reached and eight places are missing; every list keeps its contents. |
| CompilerStore.Compiler.AddressCoder | compiler/x1algc.c:956-1003 | The three codes of an address stand at the head of the stream, the lowest group innermost. |
| CompilerStore.Compiler.FillResultList | compiler/x1algc.c:1005-1287 | One instruction more in the object code, whose digits are those of all the instructions so far; lists unchanged. |
| CompilerStore.Compiler.MakeRoom | compiler/x1algc.c:937-953 | When the object code has reached the unread text, text and lists move up by eight words and lose nothing; stop 25 exactly when there is no room. |
| CompilerStore.Compiler.FillFutureList | compiler/x1algc.c:1295-1310 | Stop 6 exactly when there is no room; otherwise, for a place less than 16 behind the end of the list, only that entry changes and the other lists are as before, and for a place further on the value is written behind the list. |
| CodeGeneration.LastLabelFirst | compiler/x1algc.c:2032-2068 | When n conditional expressions are nested in parentheses behind then, the first goal to be entered is that of the last of their n labels. |
| CodeGeneration.OverwriteConstant | compiler/x1algc.c:1295-1310 | At the beginning of a program the goal of label 32, entered first, replaces the first constant. |
| CompilerStore.Compiler.FillConstantList | compiler/x1algc.c:1312-1331 | The constant, in one's complement, is appended; nothing else changes; stop 18 exactly when there is no room. |
| CompilerStore.Compiler.LookForConstant | compiler/x1algc.c:1796-1829 | The place of the first occurrence in the list with the constant behind it, and the list with the constant appended if that was the first; stop 5 exactly when there is no room. |
| ConstantSearch.IntegerLookup | compiler/x1algc.c:1806-1811 | An integer is at the returned place afterwards, was not at an earlier one, and is never entered twice. |
| ConstantSearch.RealLookup | compiler/x1algc.c:1812-1822 | For a real this holds exactly unless its two words and the last word of the list are equal and it is not in the list: then the search matches across the end. |
| ConstantSearch.RealLookupFails | compiler/x1algc.c:1812-1822 | The search goes wrong for the literal 33556532 followed by the literal 2251940775854080: the place found for the second is the last word of the list, which is no place of it. |
| CompilerStore.Compiler.FillNameList | compiler/x1algc.c:1468-1478 | A name of one or two words with its descriptor is appended, other lists unchanged; stop 16 exactly when there is no room. |
| CompilerStore.Compiler.StartText | compiler/x1algc.c:470-484 | Before the first symbol the text is empty, and the prescan is in order as soon as the end of the store is where it should be. |
| CompilerStore.Compiler.StoreSymbol | compiler/x1algc.c:441-487 | During the prescan the text has one symbol more. |
| CompilerStore.Compiler.PrepareMainScan | compiler/x1algc.c:3673-3748 | Between the scans the text is left as it is, and what the main scan will read begins with all that was stored. |
| CompilerStore.Compiler.ReadNextSymbol | compiler/x1algc.c:441-487 | The main scan delivers the first symbol of what is still to be read, and leaves the rest. |
| SymbolText.TextComesBack | compiler/x1algc.c:441-487 | Unpacking the packed words gives the symbols of the text back, in order. |
| SymbolText.PackOneMore | compiler/x1algc.c:441-487 | Adding a symbol to the last word, or opening a new one, is the packing of the longer text. |
| DigitReader.Reader.CompleteBitstock | compiler/x1algc.c:2803-2852 | Completing the stock, from the store or the tape, takes the digits of the stream in their order; the parity test only fails on a damaged tape. |
| DigitReader.Reader.TakeHeptade | compiler/x1algc.c:2826-2846 | Whatever is on the tape: a heptade is added to its group, or opens a new one, and then stop 105 comes exactly if the group before has an even number of ones. |
| DigitReader.Reader.WhereReading | compiler/x1algc.c:2803-2852 | How far the reader has gone down in the store follows from the number of digits still unread: no word is fetched too early. |
| DigitReader.Reader.ReadBitString | compiler/x1algc.c:2854-2868 | The next n digits of the stream, as a number, and the stream without them. |
| DigitReader.Reader.AddressDecoding | compiler/x1algc.c:2916-2978 | Reads back an address the translator coded. |
| DigitReader.Reader.ReadMask | compiler/x1algc.c:2980-3080 | Reads back the mask of an instruction, escape included. |
| DigitReader.Reader.ReadInstr | compiler/x1algc.c:3082-3136 | Reads one instruction back as the opc and word it was emitted with, and leaves the stream behind it. |
| DigitReader.Reader.PrepareFromStore | compiler/x1algc.c:2870-2881 | The reader starts on exactly the digits the translator left, stock first. |
| DigitReader.Reader.FindHeader | compiler/x1algc.c:2894-2914 | Behind blank tape and the header the reader starts on the words of the routine; stop 106 exactly when another heptade comes first. |
| DigitReader.Reader.SkipFilling | compiler/x1algc.c:2894-2914 | The zeros that fill the last word and the marker are skipped, whatever their number. |
| ProgramLoader.Loader.Relocate | compiler/x1algc.c:3137-3154 | The relocated word of an instruction, for each of the four opcs. |
| ProgramLoader.LibraryReference | compiler/x1algc.c:3144-3148 | A word of a library routine that refers to routine n keeps its operation part, and its address part is the place where routine n was loaded. |
| ProgramLoader.FutureReference | compiler/x1algc.c:3137-3143 | A word that refers to the future list has the place from its entry as its address part; the operation part loses digit 17 if it has it and gains digit 19 otherwise. |
| ExpressionRun.StepLibrary | compiler/x1algc.c:3144-3148 | The relocated instruction that takes the address of a library routine leaves the place of this routine in register B. |
| ProgramLoader.HighestBase | compiler/x1algc.c:3250-3250 | A program that fits begins at the highest multiple of 32 that leaves room for it and its constants. |
| ProgramLoader.Loader.ReadBinaryWord | compiler/x1algc.c:3082-3154 | The relocation of the next instruction of the stream. |
| ProgramLoader.Loader.SlideFutureList | compiler/x1algc.c:3178-3186 | Sliding the future list down to the unread object code keeps every entry and changes no other word. |
| ProgramLoader.Loader.PlaceWord | compiler/x1algc.c:3178-3189 | Stop 98 exactly when the word would touch the future list and this cannot move; otherwise the future list moves only then, right to the unread object code, and the word is written above both. |
| ProgramLoader.RoomAbove | compiler/x1algc.c:3172-3190 | No instruction collides when the whole list goes above the future list. |
| ProgramLoader.Loader.LoadNext | compiler/x1algc.c:3172-3190 | Stop 98 exactly if the place of the instruction collides with the future list moved down to the unread object code; otherwise one instruction more is in place, with stream, future list and constants intact. |
| ProgramLoader.Loader.ReadList | compiler/x1algc.c:3172-3190 | The list comes out as the relocation of every instruction at its index, and the loader stops with 98 if and only if some instruction collides, which the lengths of the codes decide; the test for the terminator never fails, and nothing below the unread object code or above the list is written. |
| ProgramLoader.Loader.TestBitStock | compiler/x1algc.c:3156-3164 | After the last instruction only the terminator is left, so the test never stops; the reader stands at the end of the stream. |
| ProgramLoader.Loader.LoadRoutine | compiler/x1algc.c:3339-3376 | A routine is loaded from the tape without a parity failure or stop 107, with 98 exactly if there is no room, and the tape is left right behind it. |
| ProgramLoader.PrepareLists | compiler/x1algc.c:3250-3260 | Future list entries become addresses, the constants go to their place; object code and lists do not run into each other. |
| ProgramLoader.LoadProgram | compiler/x1algc.c:3241-3311 | For every program the translator can emit: the loaded program is its relocation word by word with the constants behind it; stop 98 if and only if an instruction collides, never when the program lies above the future list; stop 101 exactly if it does not begin with START. |
| Parity.FoldedTest | compiler/x1algc.c:2788-2868 | The loader's folded test of a group tells whether its number of ones is even. |
| TapeFormat.DamageDetected | compiler/x1algc.c:2803-2852 | The test rejects a group of four heptades exactly if an odd number of its digits was read wrongly. |
| ObjectFile.OddParityOf | library/objfile.cc:20-25 | The parity digit makes the number of ones odd. |
| ObjectFile.Punch.FillResultList | library/objfile.cc:103-380 | The writer of the library tape appends the same digits as the translator. |
| ObjectFile.PunchRoutine | library/objfile.cc:432-495 | The tape holds the header and, behind the filling, length, number, instructions and terminator. |
| TapeRoundTrip.ReadRoutineHeader | compiler/x1algc.c:2894-2914 | For every number and length below 2^13, what was punched is read back as the same length and number, without a parity failure, and the stream left is that of the instructions. |
| TapeRoundTrip.PunchAndLoad | library/objfile.cc:432-495 | A routine that was punched, behind any stretch of blank tape, is loaded as its own relocation under its own number, and the tape is left right behind it; stop 98 exactly under the condition given, and no store is written outside the list. |
| TapeRoundTrip.RoomFromTape | compiler/x1algc.c:3172-3190 | For a list from the tape the condition of stop 98 in closed form. |
| TapeRoundTrip.ReadDamaged | compiler/x1algc.c:2826-2846 | Reading a group in which some digits are wrong, and the heptade behind it, ends with stop 105 exactly if an odd number of digits is wrong. |
| PrescanList.Prescan.FillPrescanList | compiler/x1algc.c:686-718 | A name of one or two words comes to the front of segment 2 * bc + n, every other segment keeps its names, nothing outside the list is written, and segments stay lists of names when the last three digits of the first word tell whether there is a second. |
| PrescanList.Prescan.constructor | compiler/x1algc.c:739-753 | The prescan begins with the two empty segments of the program at the end of the store. |
| PrescanList.Prescan.AugmentPrescanList | compiler/x1algc.c:720-727 | Two empty segments more at the end. |
| PrescanList.Prescan.IntroNewBlock | compiler/x1algc.c:875-905 | The names of the first two segments go to the name list in order, each with what is known of it, without overwriting a name still to be read; otherwise stop 15. |
| PrescanList.Prescan.MoveName | compiler/x1algc.c:886-900 | One name is moved; stop 15 exactly when it would not stay below what is still to be read. |
| PrescanList.Entered | compiler/x1algc.c:686-718 | Lowering the links in front of a head and moving the cells below it down is the list with the longer segment. |
| DecimalScaling.Normalize | compiler/x1algc.c:615-626 | The result is normalized and exactly the same number; the loop ends. |
| DecimalScaling.DivideByTen | compiler/x1algc.c:641-656 | One factor of ten costs at most one unit of 2^-50, and the mantissa stays normalized. |
| DecimalScaling.ScaleDown | compiler/x1algc.c:615-656 | For a non-zero number and exponent -k: normalized, never above the true value, and below it by at most k * 2^-50 of it. |
| IdentifierKeys.ScanIdentifier | compiler/x1algc.c:525-549 | The scanner packs an identifier of any length into the words a library name is entered with; it goes on right behind the identifier if and only if the letter Z is not among the symbols after the ninth. |
| IdentifierKeys.ScanLateLetter | compiler/x1algc.c:547-548 | An identifier of eleven letters, the last of them Z, behind which the scanner does not go on. |
| IdentifierKeys.KeysTellNames | compiler/x1algc.c:1765-1794 | Two identifiers have the same entry if and only if their first nine symbols agree. |
| IdentifierKeys.ShortOrLong | compiler/x1algc.c:3401-3425 | The last three digits of the first word tell names of up to four symbols from longer ones. |
| IdentifierKeys.TypeLabel | compiler/x1algc.c:1387-1414 | A label is typed back as its first nine symbols. |
| IdentifierKeys.Rotated | compiler/x1algc.c:1401-1413 | The six-place rotation of the two words brings the next symbol to the front. |
| NameSearch.LookForName | compiler/x1algc.c:1765-1794 | The search from the end of the name list stops with 7 exactly when the name is not declared; otherwise it delivers the descriptor of the latest declaration, its place, and its flags. |
| NameSearch.DeclarationFound | compiler/x1algc.c:1765-1794 | The declaration found for an identifier is the last one of an identifier with the same first nine symbols; nothing is found exactly when there is none. |
| NameSearch.BlockFound | compiler/x1algc.c:875-905 | After the entry of a block every name of its two segments is found as a label or as a procedure of this block, whatever it means outside, and every other name means what it meant before. |
| NameSearch.NameEntered | compiler/x1algc.c:1468-1478 | A name appended to the name list is the one found from then on. |
| ExpressionTranslator.Translator.ProductionOfObjectProgram | compiler/x1algc.c:1599-1692 | The pending operand and all operators of at least the given priority become code: the loop computes the recursive specification. |
| ExpressionTranslator.Translator.EmptyTListThroughThenElse | compiler/x1algc.c:1708-1715 | Everything that ends with the expression is closed, conditional expressions included, and a sign may follow. |
| ExpressionTranslator.Translator.CloseExpression | compiler/x1algc.c:2034-2036 | The same loop where oflag is left alone, as for then and the closing parenthesis. |
| ExpressionTranslator.Translator.CloseThenElse | compiler/x1algc.c:1694-1706 | A then or else on top gives its label the present place and restores eflag; nothing else is taken off. |
| ExpressionTranslator.Translator.Then | compiler/x1algc.c:2032-2044 | The condition is closed and tested, and a jump to a new label is left open. |
| ExpressionTranslator.Translator.Else | compiler/x1algc.c:2046-2068 | The first part is closed, its jump finds its goal, and a jump past the second part is left open. |
| ExpressionTranslator.Translator.MainScan | compiler/x1algc.c:1831-2068 | A stretch of symbols is translated as the symbol-by-symbol specification says, stops included. |
| ExpressionCode.Reading | compiler/x1algc.c:1974-2012 | Whatever waits on the t-list with lower priority, the symbols of an expression become the code of its tree, before any operator of no higher priority. |
| ExpressionCode.ReadingToEnd | compiler/x1algc.c:1599-2068 | The same for conditional expressions, up to the end of the expression: code, labels and t-list. |
| ExpressionCode.ReadingChoice | compiler/x1algc.c:2019-2068 | A conditional expression becomes condition, jump, first part, jump, second part, with both labels at their goals and the t-list as before. |
| ExpressionRun.Runs | simulator/processor.cpp:40-242 | The machine, fetching the relocated words one by one, leaves on the stack what the tree says, jumps and fused operands included, or stops where the tree has no result. |
| ExpressionRun.StepBranch | simulator/processor.cpp:86-102 | The relocated conditional jump goes to the goal of its label exactly on a false condition. |
| ExpressionRun.FusedOrder | simulator/opcodes.cpp:310-430 | An operation fused with its operand does what loading the operand and the plain operation would. |
| ExpressionMeaning.CombineApplies | simulator/opcodes.cpp:581-707 | Each order computes the operator of the language on encoded values, and stops where there is no value. |
| ExpressionMeaning.MachineDivides | simulator/opcodes.cpp:613-620 | The order for integer division has no result exactly for a divisor of zero; otherwise its result q satisfies a = b * q + r with a remainder r smaller than b in magnitude that is zero or has the sign of a. |
| ExpressionMeaning.DivisionMeans | simulator/opcodes.cpp:613-620 | The same law for the operator of the language, whose value is defined after section 3.3.4.2 of the Report by signs and magnitudes. |
| X1Integers.DivisionUnique | simulator/opcodes.cpp:613-620 | There is only one number that satisfies this law. |
| Expressions.ParsedText | compiler/x1algc.c:1974-2012 | The tree the translator sees has exactly the symbols of the expression, a minus sign before a term bound to its first factor. |
| Expressions.Precedence | compiler/x1algc.c:1974-2012 | The precedences of sections 3.3.5.1 and 3.4.6.1 of the Report are those the translator works with. |
| Expressions.ParsedReadable | compiler/x1algc.c:1974-2012 | Every expression of the grammar is one the translator's reading is defined for. |
| ExpressionMeaning.CorrectNegated | compiler/x1algc.c:1974-1983 | Binding a minus sign to the first factor of a term, and not to the term, leaves the value of every term. |
| ExpressionMeaning.Correct | compiler/x1algc.c:1599-2068 | From any stack the code of a typed expression adds exactly its value, if and only if no sign the value depends on directly follows a binary logical operator; otherwise it leaves at least one item too few. |
| ExpressionMeaning.Translated | compiler/x1algc.c:1599-2068 | Wherever an expression may begin, also behind := or then: when it ends, the translator is exactly where it would be had it added the code of the tree, labels and all, before everything the end itself adds. |
| ExpressionMeaning.GoalsLink | compiler/x1algc.c:1295-1310 | The future list the translator filled links every jump of the expression. |
| ExpressionMeaning.Evaluated | compiler/x1algc.c:1599-2068 | From symbols to stack, wherever the expression stands: its code, once in store with its jumps, ends behind itself with the value added and the rest of the stack untouched, under the exact condition above. |
| ExpressionMeaning.EvaluatedInPlace | compiler/x1algc.c:1599-2068 | With no sign directly behind a binary logical operator the value is right for all variables, and the machine goes on behind the code. |
| CompileLoadRun.GoalsWithin | compiler/x1algc.c:1295-1310 | Every label of an expression gets a goal within its code or right behind it. |
| CodeGeneration.OrderedGoals | compiler/x1algc.c:1694-1706 | The goals of an expression, entered in the order in which they become known, are the ones the translator keeps. |
| CodeGeneration.EnterGoals | compiler/x1algc.c:1295-1310 | A sequence of goals goes into the future list, nothing else in the lists changes, when each label is less than 16 places behind the end of the list at its time. |
| CompileLoadRun.StoreExpression | compiler/x1algc.c:1599-2068 | What the translator makes of an expression goes into object code and future list and is part of the stored program afterwards, under this condition. |
| CompileLoadRun.LoadExpression | compiler/x1algc.c:3241-3311 | A loaded program has the code of each of its expressions in store, with the jumps linked. |
| CompileLoadRun.ConstantLoaded | compiler/x1algc.c:1796-1829 | The identifier of an integer constant leads, in the loaded program, to the word the constant was looked up with, wherever the program was loaded and whatever constants came later. |
| CompileLoadRun.CompiledLoadedRun | compiler/x1algc.c:1599-2068 | Translated as part of a program, loaded where the loader puts it and run there, an expression adds its value to the stack, under the exact condition above. |
| ExpressionMeaning.SignAfterAnd | compiler/x1algc.c:2004-2012 | The typed expression a and -b < c has a value, but its code leaves too few items on the stack whatever the variables hold, because oflag is not set behind the operator. |
| X1Integers.IntComesBack | simulator/x1_arch.cpp:110-136 | Every integer that fits comes back from its word. |
| X1Integers.NegatedValue | simulator/x1_arch.cpp:338-342 | Inverting a word negates its value, both zeros included. |
| Processing.Processor.FrameCreate | simulator/processor.cpp:364-392 | The new frame has its five links and, for each parameter, the level and frame of the call; frame pointer, base and recorded operation are set. |
| Processing.Processor.FrameRelease | simulator/processor.cpp:398-414 | The frame is gone, the links of the caller are in force, and the display is unwound from its frame. |
| Processing.Processor.UpdateDisplay | simulator/processor.cpp:871-878 | The loop unwinds the display along the static links. |
| Processing.Processor.ShortCircuit | simulator/opcodes.cpp:868-881 | The frame gets its level and static link, and the display becomes its own. |
| Processing.Processor.EnterFor | simulator/opcodes.cpp:857-881 | FOR0 does what two legal events of a run do: it reserves one cell, and enters the level behind that of the block around the for statement. |
| Processing.Processor.Return | simulator/opcodes.cpp:74-87 | RET releases the frame, drops an empty result or applies the recorded operation, which OperationMeant and TakenAlike determine. |
| Processing.Processor.EndOfImplicit | simulator/opcodes.cpp:88-102 | EIS delivers the value into the result cell and applies the recorded operation. |
| Processing.Processor.LeaveFor | simulator/opcodes.cpp:63-87 | FOR8 drops the address of the controlled variable, replaces result and return address and returns. |
| Processing.Processor.ApplyOperation | simulator/processor.cpp:767-800 | Each recorded operation, with or without dereferencing, combines the right two cells. |
| Processing.Processor.Combine | simulator/virtual_stack.cpp:180-272 | Two integers have an integer result where it fits; other operands and quotients have the result the parameter of the model gives. |
| Processing.Processor.LoadValue | simulator/processor.cpp:315-339 | The number at an address, an integer or a real as the address says, from the stack or the store. |
| Activations.UnwindCaches | simulator/processor.cpp:871-878 | Unwinding from the frame of any active block makes the display describe that block. |
| Activations.EnclosingFrame | simulator/processor.cpp:855-878 | A described display holds for every level the frame of an active procedure of that level on the static chain. |
| RunTimeSafety.StepKeeps | simulator/opcodes.cpp:19-102 | Every call, entry of a level, reservation, implicit subroutine, change of the return address, end and return that is legal can be carried out and keeps the invariant of stack, display and recorded operations. |
| RunTimeRuns.RunKeeps | simulator/opcodes.cpp:19-102 | Every sequence of legal events can be carried out to its end and keeps the invariant, also when it returns to the global level and calls again. |
| RunTimeRuns.StartRuns | simulator/processor.cpp:364-414 | Every legal run from the reset machine can be carried out: it never gets stuck. |
| RunTimeRuns.RunCell | simulator/processor.cpp:364-414 | While an activation stays, every cell below it that nothing is stored into keeps its contents. |
| RunTimeSafety.EnterKeeps | simulator/opcodes.cpp:868-881 | Entering a level takes the static link from the caller's display and leaves a correct one. |
| RunTimeSafety.EndKeeps | simulator/opcodes.cpp:88-102 | The end of an implicit subroutine returns to the recorded place and applies the operation it was entered with. |
| RunTimeRuns.RunLocal | simulator/processor.cpp:364-414 | However calls nest above an activation, nothing below it in the list of activations changes, and it keeps its place, its operation and, unless it is a for statement that resumes elsewhere, its return address. |
| RunTimeRuns.BalancedRun | simulator/processor.cpp:608-800 | From a call or by-name evaluation, however it was entered, to its end: frame pointer, base, display and return address are those of before, the stack is the old height with the result of the recorded operation, and no cell below has changed that was not stored into. |
| RunTimeRuns.ForLeaves | simulator/opcodes.cpp:63-87 | After FOR8 the stack of the caller is back without the address, and the machine goes on at the given place. |
| RunTimeRuns.ForStatementBalanced | simulator/opcodes.cpp:63-87 | From the call of a for statement to its FOR8 the block, the height of the stack and all cells not stored into are those of before. |
| RunTimeRuns.DisplayAlwaysRight | simulator/processor.cpp:805-878 | In every state reachable from the reset machine display[k] is the frame that so many DISPLAY links from the current frame lead to, for all levels up to the current one. |
| RunTimeRuns.LinksAlwaysPointDown | simulator/processor.cpp:364-392 | In every reachable state the FP, SP and DISPLAY links of every frame point strictly down the stack, the bases of active calls rise strictly, and each has its own recorded operation. |
| RunTimeSafety.ForLevel | simulator/opcodes.cpp:857-866 | FOR0 finds the level of its caller; at the global level it reads a cell that is no level, and still finds 0 when the stack was empty. |
| RunTimeRuns.ForEntered | simulator/opcodes.cpp:857-881 | The two events of FOR0 are possible in every state in which a for statement has been called, and the level they enter is the one the order reads from the stack and adds one to. |
| FormalParameters.StepBack | simulator/processor.cpp:633-643 | Following a parameter that was passed on leads to a parameter of a frame strictly further down, with the display of that block. |
| FormalParameters.CallPlace | simulator/processor.cpp:374-385 | The second cell of a parameter names the level and frame of the place of the call, for frames below 2^15. |
| FormalParameters.CallPlaceExactly | simulator/processor.cpp:374-385 | For any height of the stack: level and frame can be told apart in the cell if and only if the frame of the caller lies below 2^15. |
| FormalParameters.HighFrame | simulator/processor.cpp:374-385 | Level 2 and frame 2^15 are read back as level 3 and frame 0. |
| FormalParameters.ReachesFrame | simulator/processor.cpp:468-485 | The walk for an actual parameter in the stack ends at the frame of the enclosing block it belongs to. |
| Processing.Processor.FollowFormals | simulator/processor.cpp:608-643 | The chain of passed-on parameters ends, at the actual parameter that resolving it in the list of activations gives. |
| Processing.Processor.ArgAddress | simulator/processor.cpp:468-485 | The address of a variable in an enclosing block, found exactly when the level exists. |
| Processing.Processor.TakeFormal | simulator/processor.cpp:608-679 | Thrown exactly for an unknown kind, a level that does not exist or a string read through an address routine; otherwise a variable or string is used at once with the display of the user restored, or the routine is entered in the block of its call with the operation recorded, on the unchanged stack and its new frame. |
| FormalParameters.FormalEvaluated | simulator/processor.cpp:608-800 | By-name evaluation from take_formal to its end, through any number of passed-on parameters and nested calls: block, place and cells of the user are back, and the requested operation was done with the result; DeliveredMeans says which cell that leaves. |
| FormalParameters.TakenAlike | simulator/processor.cpp:683-800 | A requested operation has the same result whether the parameter is used at once, its routine delivers the value, or its routine delivers the address of a variable. |
| FormalParameters.OperationMeant | simulator/virtual_stack.cpp:180-264 | In all three ways x + f, x - f and x * f, in this order, take the place of x, as encoded integers, where they fit. |
| FormalParameters.DeliveredMeans | simulator/processor.cpp:767-800 | When a call or implicit subroutine that was entered with x on top of the stack ends, however it ends, and delivers the integer f or the address of a variable with this value, x op f stands in the place of x and the cells below are untouched. |
| FormalParameters.VariableLoaded | simulator/processor.cpp:315-339 | What is loaded from the address of a cell in the stack is the number this cell holds. |
| FormalParameters.OrDigit | simulator/processor.cpp:374-385 | Level and frame are put together digit by digit. |
| ParameterDescriptors.SameVariable | simulator/processor.cpp:456-485 | A variable passed as a parameter is, wherever it is used, at the address and of the type that the orders TRAD, TRAS, TIAD and TIAS give the caller itself. |
| ForStatement.Machine.For6 | simulator/opcodes.cpp:189-208 | The value to be tested: the initial one, or the variable plus the step; overflow exactly when the sum does not fit. |
| ForStatement.Machine.For7 | simulator/opcodes.cpp:209-224 | The variable gets its value, and the element is over exactly when the value has passed the limit in the direction of the step. |
| ForStatement.Machine.Visit | simulator/opcodes.cpp:138-224 | One visit to an element: exactly one address on the stack at its entry and at that of the next, none while the body runs. |
| ForStatement.Machine.Execute | simulator/opcodes.cpp:63-224 | For every list of elements and any number of repetitions the orders make the assignments and executions of the once-evaluated semantics, and restore the stack. |
| ForStatement.OverIsReport | simulator/opcodes.cpp:209-224 | The machine's test is the Report's (V - C) * sign(B) > 0. |
| ForStatement.SteadyAgrees | simulator/opcodes.cpp:138-224 | For steady elements this is section 4.6.4 of the Revised Report on ALGOL 60. |
| ForStatement.SteadyExactly | simulator/opcodes.cpp:189-224 | A step element agrees with the Report for all initial values, stores and bodies if and only if its test does not depend on whether the variable already has its new value. |
| ForStatement.IndependentAgrees | simulator/opcodes.cpp:189-224 | A for statement whose steps and limits do not look at the controlled variable follows the Report, whatever its body does to what they look at. |
| ForStatement.LimitNamesVariable | simulator/opcodes.cpp:209-224 | for i := 5 step 1 until i, begun with i = 0, is left at once instead of being repeated. |
| ArrayStorage.Index | simulator/opcodes.cpp:501-561 | The indexer computes base plus the sum of index times stride modulo 2^20, and accepts exactly the words of the array. |
| ArrayStorage.IndexerRight | simulator/opcodes.cpp:501-561 | Any indices lead to the place of their element modulo 2^20 and are accepted exactly if that is a word of the array; an element within the bounds is accepted, at its place, if and only if the array has less than 2^20 words and the element lies below address 2^20. |
| ArrayStorage.HighArray | simulator/opcodes.cpp:535-544 | An array with one element, at address 2^20 of a stack that has room for it, whose element is refused. |
| ArrayStorage.ElementsApart | simulator/opcodes.cpp:501-561 | Different elements of an array of any dimensions are at least one element apart. |
| ArrayStorage.ElementsDisjoint | simulator/opcodes.cpp:501-561 | For an array below address 2^20 the addresses of different elements differ by at least the size of an element. |
| ArrayStorage.ElementInside | simulator/opcodes.cpp:501-561 | Every element lies wholly within the array. |
| ArrayStorage.StaticStorage | compiler/x1algc.c:2610-2658 | The translator's arithmetic modulo 2^26 gives the strides, the length and the base of the array. |
| ArrayStorage.StaticDescribes | compiler/x1algc.c:2643-2658 | These words are a storage function of the array. |
| ArrayStorage.StaticArrays | compiler/x1algc.c:2597-2658 | One storage function for each identifier, the arrays one behind the other. |
| ArrayStorage.ArraysDisjoint | compiler/x1algc.c:2643-2658 | Arrays laid out one behind the other share no word. |
| Processing.Processor.MakeStorageFunctionFrame | simulator/processor.cpp:880-913 | RSF and ISF: from the bounds on the stack to one storage function for each array, with strides, offset and negated length; an exception exactly when the offset or the length is no machine integer. In terms of the cells: OnCells and DeclareArrays. |
| ArrayDeclarations.OnCells | simulator/processor.cpp:880-913 | Length and offset of the storage function as the cells say, the bounds of the first dimension lowest in the stack: the size times all extents, and minus the distance of the element with all indices zero. |
| Processing.Processor.PositionArray | simulator/opcodes.cpp:902-925 | LAP: an exception exactly when the storage function was positioned before or none of its cells 2 to 31 is a negative number; otherwise base and first place are entered and the array gets its cells. |
| ArrayFrames.LengthFound | simulator/opcodes.cpp:909-919 | For every array the Report defines, the search for the length ends at the length if and only if there are at most 29 dimensions; with more it finds nothing. |
| ArrayFrames.ThirtyDimensions | simulator/opcodes.cpp:909-919 | For thirty dimensions from 1 to 1 it finds nothing. |
| ArrayFrames.PositionedDescribes | simulator/opcodes.cpp:919-925 | The positioned array has a storage function of it, which leads to the cells it was given. |
| ArrayFrames.FramesKeep | simulator/processor.cpp:880-913 | Building storage functions keeps the invariant of stack, display and recorded operations. |
| ArrayFrames.PositionKeeps | simulator/opcodes.cpp:902-925 | So does positioning an array. |
| ArrayDeclarations.DeclareArrays | simulator/opcodes.cpp:902-925 | A whole declaration, stated on the cells of the bounds: it succeeds if and only if offset and length are machine integers and there are at most 29 dimensions; then the indexer accepts every index within the bounds at the place of the array plus, for each dimension, the index less the lower bound times the extents of the dimensions before and the size, as long as the array ends below address 2^20; the arrays lie one behind the other, with addresses of their type, nothing below has changed, and the stack is in order. |
| ArrayDeclarations.DeclaredApart | simulator/opcodes.cpp:501-561 | The addresses the indexer finds for two different elements, of one or of two arrays of a declaration, differ by at least the size of an element. |
| CallSite.CallTranslator.OpenParameters | compiler/x1algc.c:2323-2345 | The address of the procedure is loaded, the flags are saved, a jump past the parameters is emitted, and the first parameter waits, inside which calls expect a result. |
| CallSite.CallTranslator.UnloadPords | compiler/x1algc.c:2189-2200 | The descriptors leave the t-list, the last parameter first, and are counted. |
| CallSite.CallTranslator.CloseParameters | compiler/x1algc.c:2187-2213 | Descriptors, count and call are emitted, the jump finds the count, and t-list and flags are those of before; which call it is, KindOfCall says. |
| CallSite.DescriptorFound | simulator/processor.cpp:499-507 | Counting back from the return address in the loaded program gives the descriptor of every parameter, and register A their number. |
| CallRun.KindOfCall | compiler/x1algc.c:1593-1597 | The order emitted behind the parameters leaves a place for a result if and only if the saved eflag is 1, and calls through a formal parameter if and only if the saved fflag is 1. |
| CallRun.CallExecuted | simulator/opcodes.cpp:19-62 | The loaded call, run from the instruction that gives the address: the machine arrives at the procedure, or at the actual parameter of the formal procedure, with as many parameters as were written, the return address behind the call and, below the frame, a result cell or an empty one as the flag said; an exception comes exactly when the actual parameter is no procedure. |
| CallRun.ProcedurePassed | simulator/processor.cpp:587-597 | A formal procedure can be called if and only if its actual parameter is a procedure and not itself a formal parameter, and the call goes to its place. |
| CallRun.PassedOnRefused | simulator/processor.cpp:587-597 | A procedure that is a formal parameter itself and was passed on is refused. |
| Processing.Processor.CallProcedure | simulator/opcodes.cpp:19-62 | ETMR, ETMP, FTMR and FTMP as the orders of the model, and nothing changed when an exception is thrown. |
| ParameterDescriptors.ConstructPord | compiler/x1algc.c:2145-2164 | The tests on digits of the identifier build its descriptor. |
| ParameterDescriptors.DynamicRead | simulator/processor.cpp:468-485 | The descriptor of a variable or formal parameter in a frame, once loaded, has its kind, block level and place, as its dynamic address has. |
| ParameterDescriptors.StaticRead | simulator/processor.cpp:608-679 | The descriptor of a variable, constant or procedure in store, once loaded, has its kind and the place its address is relocated to, from each of the lists. |
| ParameterDescriptors.RoutineRead | simulator/processor.cpp:608-679 | The descriptor of a parameter with a routine has the kind of this routine and the place where it was loaded. |
| ParameterDescriptors.ActualRead | simulator/processor.cpp:499-507 | In a loaded call the run-time system finds for every parameter a descriptor of the kind and the place of the identifier that was written there. |
| RealNumbers.FromHostRight | simulator/x1_arch.cpp:32-78 | Normalized and within half a unit of the last digit, with a carry taken up by the exponent; overflow exactly when the rounded exponent is too large; a zero of the same sign when it is too small. |
| RealNumbers.DecodedPacked | simulator/x1_arch.cpp:71-105 | A packed number is read back with sign, mantissa and exponent. |
| RealNumbers.NormalizedPacked | simulator/x1_arch.cpp:84-105 | Every normalized word is the packing of what it is read as. |
| RealNumbers.RoundTrip | simulator/x1_arch.cpp:32-105 | No normalized number and neither zero changes on the way to the host and back. |

## Left out

- Processing.Processor.CallProcedure: the place ETMP and FTMP store for PRINTTEXT is left out.
- NameSearch.LookForName: an empty name list is left out, because the list begins with the names of the standard functions.
- Input and output: the reading of UTF-8 text and underlined words, listings, the typewriter and punch as devices, tracing, console switches, clock and random numbers.
- The parser of `main_scan` outside expressions, parameter lists and the scanning of names and numbers: declarations, own variables, switches, specifications, labels and goto.
- The code sequence the translator lays out around a for statement: `ForStatement` starts from the orders at each element, with elements and body as functions of the variables.
- Real arithmetic, `/` and the power operator: the machine of `StackMachine` stops where a result is not an integer, and the value of such an expression is undefined.
- Subscripted variables, function calls and formal parameters inside expressions: operands are simple variables and constants of type integer or Boolean.
- The need analysis of library routines and the cross-reference list of the loader, and loading routines that stand in the store in front of the tape.
- Word output of the tape writer, and its reading of the text that describes a routine.
- Goto out of a procedure (GTA), TFP, and value arrays (RVA, IVA, VAP): nothing is claimed for the stack there.
- The frame that a for statement has: in `ForStatement` only the cells above its base are modelled, its end is `RunTimeRuns.ForLeaves`.
- Positive decimal exponents, and the final rounding and packing of a real constant.
- The 32-digit overflow of C arithmetic: sizes and addresses are unbounded integers, cut off only where the code masks them.
- Comparison, exponentiation and real arithmetic of stack cells, and the values of variables in the store; they are parameters of the run-time model (`RunTimeState.Values`).
- Identifier symbols are numbers from 0 to 62; the table from characters to symbols is not part of this model.
- RunTimeSafety.StepKeeps: that a level is entered once and first of all in a procedure, and that implicit subroutines reserve no variables, is what the translator emits and is required of the events.
- ExpressionTranslator.Translator.ProductionOfObjectProgram: operands that are procedures, labels, formal parameters or subscripted variables are left out with the flags that mark them.
- ExpressionTranslator.Translator.Else: an else behind a for statement or a block, which closes these first, is left out.
- ExpressionTranslator.Translator.MainScan: any delimiter that does not belong to an expression ends the modelled part.
- Processing.Processor.EndOfImplicit: the operation of TFP, which takes an argument away, is left out.
- TapeRoundTrip.PunchAndLoad: that the loader refuses numbers above 50 and lengths of 0 or above 1024, and takes 7680 and more for the end of the tape, is left out; the codec is right for all of them.
- ProgramLoader.Loader.LoadRoutine: the refusal of numbers above 50 and of lengths 0 or above 1024 is left out.
- ProgramLoader.LoadProgram: the need analysis, which enters the addresses of library routines in the future list, is left out.
- ForStatement.Machine.Execute: FOR1 with its cell for the resume point, and the order in which the translator lays the orders out, are supplied by the model.
- ForStatement.Machine.Visit: the place behind an order is a parameter.
- Processing.Processor.MakeStorageFunctionFrame: bounds that are real numbers, which it rounds, are left out.
- FormalParameters.Wired: that a parameter passed on belongs to a procedure around the call is what the translator's block structure gives, and a hypothesis of the by-name theorems.
- DecimalScaling.ScaleDown: holds for a number of at most 52 digits, which the scanner sees to while it reads them.
