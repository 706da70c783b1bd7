# Verified models of the NSL compiler tool chain

A Dafny model of the parts of the NSL tool chain whose correctness is not
visible from any single function, with proofs over all inputs, all runs or all
reachable states. `dafny verify dfyconfig.toml` checks everything.

| files | system part |
|---|---|
| `EditScript`, `LineDiff`, `Hunks`, `UnifiedDiff` | the formatter's unified diff: longest common subsequence table, traceback, hunks, text, and a reference patch reader |
| `ExprSyntax`, `PrattParser`, `OperatorGrouping`, `ExprPrinter`, `ExprFormatter`, `ExprParser` | the precedence-climbing expression parser, the trees it can build, how operators group, a parenthesising printer and the formatter's own rules for operator trees |
| `Scheduler`, `PublicationOrder`, `ClosedDocuments`, `LspServer`, `DispatchReplies` | the language server's diagnostics scheduler and request handling as step systems: a run is any interleaving of atomic steps |
| `LayoutRenderer` | the document renderer and its fits check |
| `Powers`, `BitVectors`, `BitLaws`, `Literals`, `Lowering`, `LoweringMeaning`, `ExpressionLaws`, `LoweringBuilder` | numeric literals, and the lowering of expressions to SSA ops with its width rules and meaning |
| `TextLines`, `SourceLines`, `Lexer`, `LexicalForm`, `TokenSource`, `DirectiveSplitter`, `Utf16Columns` | line tables and `#line` replay, the lexer with its peek cache, source recovery from tokens, the directive splitter, UTF-16 columns |
| `TokenSets`, `Recovery` | the recovery bitsets and the parser's item loops |

Code that works in place is modelled as classes and loops (`LcsTable`,
`ExprParser.Parser`, `Emitter`, `Builder`, `Buffer`, `Scanner`, `Recorder`,
`Recovery.Parser`), each proved to do what a specification function does; the
properties are then proved of the functions. Calls into code outside the model
are parameters: an item parser is any function from a position to an outcome,
the compare-exchange may fail spuriously at any step, threads interleave freely.

## Where the code and its comments or documentation differ

The model follows the code in each case.

- Hunks: the comment above `groupIntoHunks` merges change runs whose context gap is at most six lines. The code compares index differences, so it merges at most five context lines; with six the two hunks abut (`Hunks.SameHunkIff`).
- Formatter: operator nodes are printed without parentheses, and a unary operator directly against its operand. An operator tree survives exactly when it needs no parentheses and no operator meets its own character (`ExprFormatter.FormatKeepsTreeIff`); `(a + b) * c` becomes another tree (`ExprFormatter.FormatLosesParentheses`) and `- -a` a decrement (`ExprFormatter.NegationsGlue`).
- Scheduler: the stale check does not order publications. Version 1 can be published after version 2, with the state of version 2 (`Scheduler.StalePublicationLast`). The exact conditions are in `PublicationOrder`: what happens between a worker's reparse or check and its publish decides. A version below -1, the register's start value, is never published (`Scheduler.DrainedPublishesNewest`, `Scheduler.LowVersionDropped`).
- Lowering: numbers are not always taken as written. A width, index or count that is not a plain run of decimal digits silently becomes 1 or 0 (`Literals.IndexIsWrittenIff`, `LoweringMeaning.SizedIndexIsZero`); a literal's value is taken in 64 bits and its size in 32 (`LiteralValueWraps`, `LiteralSizeWraps`); a slice's width is taken in 32 bits, and the verifiers check a concatenation's width in 32 bits and a repetition's in 64, where the dialect's documentation has the plain sum and product (`SliceWidthWraps`, `ConcatWidthWraps`, `RepeatWidthWraps`). All of these are accepted. What is accepted has the meaning written exactly when its numbers are written out and in range and its widths fit (`LoweringMeaning.MeansIff`).
- Literals: the lowering reads `0x1F` correctly because it takes the `x` for an unknown digit worth 0, and refuses every C-style binary literal (`Literals.ScannedIsRead`).
- Directive splitter: the comment on `decodeOpcode` says a line with an unknown opcode becomes a fragment; the code emits a directive labelled `Include` (`DirectiveSplitter.Split`).
- Line replay: the comment on an empty virtual path says the current path is reused; the code goes back to the buffer's own path. At the very end of a buffer that ends in a `#line` without a newline, the code already counts by that directive; it then agrees with a plain scan exactly when the directive changes nothing (`SourceLines.ReplayAgreesIff`); in the buffer `#line 5 "f"` it changes the line (`SourceLines.OpenDirectiveDiffers`).

## Model

| member | source | states |
|---|---|---|
| EditScript.LcsIsLongest | lib/Fmt/Diff.cpp:77-92 | the table's recurrence is the length of a longest common subsequence: some common subsequence has it and none is longer |
| EditScript.LcsStep | lib/Fmt/Diff.cpp:101-107 | dropping a line from either side changes the recurrence by at most one, the bound behind the tie-break |
| EditScript.ScriptTransforms | lib/Fmt/Diff.cpp:108-135 | the traced script projects to the old lines and to the new lines and keeps exactly a longest common subsequence |
| EditScript.ScriptIsOptimal | lib/Fmt/Diff.cpp:108-135 | no script between the same two files removes and adds fewer lines |
| EditScript.ScriptRemovesFirst | lib/Fmt/Diff.cpp:101-135 | between an addition and a later removal there is always a kept line: in a run of changes removals come first |
| EditScript.ScriptIsPreferred | lib/Fmt/Diff.cpp:108-135 | of the cheapest scripts it is, read from the end, the one that keeps before it adds and adds before it removes; any other differs first by a later choice |
| LineDiff.LcsTable.Set | lib/Fmt/Diff.cpp:55-75 | writing one entry of the flat table changes that entry and no other |
| LineDiff.FillLcs | lib/Fmt/Diff.cpp:77-92 | after the nested loops every entry is the longest-common-subsequence length of its pair of prefixes |
| LineDiff.TraceDiff | lib/Fmt/Diff.cpp:108-135 | walking the filled table back yields the script that transforms, is minimal, removes before it adds and is preferred among the minimal ones |
| Hunks.LineCursors | lib/Fmt/Diff.cpp:158-181 | the per-edit cursors count the old and new lines before each edit |
| Hunks.ChangeIndices | lib/Fmt/Diff.cpp:183-193 | the index list holds exactly the changes, in order |
| Hunks.GroupIntoHunks | lib/Fmt/Diff.cpp:155-243 | the hunks carry the ranges of a grouping: padded by context, more than six apart, holding every change, with starts and counts that name exactly the lines carried |
| Hunks.SpansOrdered | lib/Fmt/Diff.cpp:195-243 | hunks are in order and never overlap |
| Hunks.ChangeInOneSpan | lib/Fmt/Diff.cpp:195-243 | every change lies in one hunk and in no other |
| Hunks.SameHunkIff | lib/Fmt/Diff.cpp:199-201 | neighbouring changes share a hunk if and only if their indices differ by at most six; one more and the hunks abut |
| Hunks.PatchApplies | lib/Fmt/Diff.cpp:155-264 | a patch reader that checks every header position and every context and removed line turns the old file into the new one |
| Hunks.PatchReverses | lib/Fmt/Diff.cpp:155-264 | the same hunks with sides exchanged turn the new file into the old one |
| Hunks.HunksShow | lib/Fmt/Diff.cpp:155-243 | the hunks hold all the script's removals and additions and leave out only context; each opens and ends with three context lines or with all the files have there, has at most five between changes, and keeps a line between an addition and a later removal |
| UnifiedDiff.SplitLines | lib/Fmt/Diff.cpp:30-46 | the loop's lines are the text's lines |
| UnifiedDiff.SameLinesIff | lib/Fmt/Diff.cpp:30-46 | two texts split into the same lines if and only if they differ at most in a final newline |
| UnifiedDiff.EmitHunk | lib/Fmt/Diff.cpp:245-283 | the appended text is the hunk's header and marked lines |
| UnifiedDiff.ReadBackHunks | lib/Fmt/Diff.cpp:245-283 | an independent reader of headers and bodies recovers exactly the hunks that were written |
| UnifiedDiff.NoChangeIff | lib/Fmt/Diff.cpp:303-315 | a minimal script holds a change if and only if the two files' lines differ |
| UnifiedDiff.ComputeUnifiedDiff | lib/Fmt/Diff.cpp:287-327 | the output is empty exactly for equal texts; otherwise, after the lines `---` with the old name and `+++` with the new, its text read back patches each file's lines into the other's, removes and adds no more lines than any script between them, and shows each change in a hunk with three lines of context, removals first |
| ExprSyntax.ClosersStop | lib/Parse/ParseExpr.cpp:532-560 | no open right edge can take a closing token |
| PrattParser.ExprSound | lib/Parse/ParseExpr.cpp:532-666 | on success the tree's tokens followed by the rest are the input, the tree is well formed at the floor and nothing open on its right edge takes the next token |
| PrattParser.ExprComplete | lib/Parse/ParseExpr.cpp:532-666 | every well-formed tree is what its tokens parse to, consuming exactly those tokens |
| PrattParser.ParsesIff | lib/Parse/ParseExpr.cpp:148-666 | the parser returns a tree and a rest if and only if they are a well-formed reading of the input |
| PrattParser.UniqueReading | lib/Parse/ParseExpr.cpp:532-666 | a token stream has at most one well-formed reading at a floor |
| OperatorGrouping.ChainGroups | lib/Parse/PrecedenceTable.h:51-67 | any chain of operands and infix operators before a closing token parses to the tree whose root is the last of the loosest operators, by the order of operators written out, and so on for both sides |
| OperatorGrouping.TwoOperatorsGroup | lib/Parse/PrecedenceTable.h:51-67 | of `a op b op c` the first operator takes `b` if it stands no earlier in the order, otherwise the second does |
| OperatorGrouping.ConditionalIsLoosest | lib/Parse/ParseExpr.cpp:632-652 | every infix operator binds tighter than `?:`, on all three sides |
| OperatorGrouping.ConditionalNests | lib/Parse/ParseExpr.cpp:632-652 | a second `?` belongs to the third operand of the first |
| OperatorGrouping.TailGroups | lib/Parse/ParseExpr.cpp:575-630 | `#` and `'` take a product to their left but only the operand of any looser operator; a postfix step takes only its operand |
| OperatorGrouping.AfterTailGroups | lib/Parse/ParseExpr.cpp:575-630 | an operator after such a form takes the whole of it |
| OperatorGrouping.PrefixGroups | lib/Parse/ParseExpr.cpp:319-385 | each prefix operator, by the token it is written with, takes a product that follows it and only the operand before any looser operator |
| OperatorGrouping.PrefixTakesTail | lib/Parse/ParseExpr.cpp:319-385 | a prefix operator applies to its operand with any `#`, `'` or postfix step after it |
| OperatorGrouping.ElseTakesOperators | lib/Parse/ParseExpr.cpp:386-432 | the last branch of an `if` takes every infix operator after it and leaves a `?` |
| PrattParser.PrefixSound | lib/Parse/ParseExpr.cpp:319-366 | a prefix operator takes an operand parsed at the multiplicative floor |
| PrattParser.PostfixSound | lib/Parse/ParseExpr.cpp:436-526 | the postfix loop stops only where no postfix form can follow |
| ExprPrinter.PrintThenParse | lib/Fmt/LayoutPlanner.cpp:706-734 | printing any tree with parentheses where needed parses back to that tree and consumes exactly those tokens |
| ExprPrinter.ParenthesesOnlyWhereNeeded | lib/Fmt/LayoutPlanner.cpp:706-734 | the printer leaves a tree alone if and only if the parser could have built it |
| ExprFormatter.GluesIff | lib/Lex/Lexer.cpp:283-400 | an operator glues to a token exactly if it is a minus, plus, ampersand or bar and the token is that operator or that operator doubled |
| ExprFormatter.TreeOfStripped | lib/Parse/ParseExpr.cpp:251-318 | the AST's tree is the tree without parentheses, both concatenation forms being one |
| ExprFormatter.FormatKeepsTreeIff | lib/Fmt/LayoutPlanner.cpp:706-734 | for every tree of leaves, unary and binary operators, slices and concatenations, what the formatter writes comes back as that tree if and only if the tree is well formed without parentheses and no unary operator stands before its own character |
| ExprFormatter.FormatShortens | lib/Fmt/LayoutPlanner.cpp:724-734 | the written tokens are never more than the tree's, and fewer if anything glues |
| ExprFormatter.FormatIsPrinted | lib/Fmt/LayoutPlanner.cpp:1551-1576 | where nothing needs parentheses and nothing glues, the formatter's tokens are the parenthesising printer's |
| ExprFormatter.FormatLosesParentheses | lib/Fmt/LayoutPlanner.cpp:706-722 | the formatter's tokens for `(a + b) * c` parse to another tree |
| ExprFormatter.NegationsGlue | lib/Fmt/LayoutPlanner.cpp:724-734 | the formatter's tokens for `- -a` are one decrement token and `a`, and parse to a decrement |
| ExprParser.Parser.ParseExprAtPrecedence | lib/Parse/ParseExpr.cpp:532-666 | the parser object's result and cursor are those of the parse function |
| ExprParser.Parser.ParseNudExpr | lib/Parse/ParseExpr.cpp:148-432 | the same for the start of an expression |
| ExprParser.Parser.ParsePostfix | lib/Parse/ParseExpr.cpp:436-526 | the same for the loop that rebuilds the head with each postfix form |
| ExprParser.Parser.ParseOperators | lib/Parse/ParseExpr.cpp:565-666 | the same for the loop that rebuilds the left operand with each operator |
| Scheduler.RegisterIsNewest | lib/LSP/NslTU.h:87-96 | in every run, for a document not closed, the register is the greatest version received |
| Scheduler.PassesOnlyIfNewest | lib/LSP/TUScheduler.cpp:155-164 | a worker of an unclosed document passes the stale check if and only if its version is then the greatest received |
| Scheduler.DrainedPublishesNewest | lib/LSP/TUScheduler.cpp:75-168 | once everything for an unclosed document has drained, its newest version has been published if and only if it is at least -1 |
| Scheduler.DrainedPublishesOnce | lib/LSP/TUScheduler.cpp:75-168 | with distinct versions the newest is published exactly once |
| Scheduler.StalePublicationLast | lib/LSP/TUScheduler.cpp:153-168 | there is a run that publishes version 2 and then version 1, the latter with the state of version 2 |
| Scheduler.LowVersionDropped | lib/LSP/TUScheduler.cpp:163-164 | there is a run in which everything has drained, the newest version is -2 and nothing was published |
| PublicationOrder.TraceOfRun | lib/LSP/TUScheduler.cpp:68-168 | every run has a trace: the states it goes through, each a step from the one before |
| PublicationOrder.CameThrough | lib/LSP/TUScheduler.cpp:136-168 | a worker about to publish has made its reparse and its check |
| PublicationOrder.PublishesNewestIff | lib/LSP/TUScheduler.cpp:155-167 | for an unclosed document, what a worker publishes is the newest version received if and only if no exchange raised the register between its check and its publish |
| PublicationOrder.OutOfOrderIff | lib/LSP/TUScheduler.cpp:155-167 | a publication follows a newer one of the same document if and only if a newer version was received and published between its check and its publish |
| PublicationOrder.OwnStateIff | lib/LSP/TUScheduler.cpp:153-167 | a publication hands over the state of its own version if and only if that is the version of the last reparse of its unit before it |
| PublicationOrder.OwnStateIffUndisturbed | lib/LSP/TUScheduler.cpp:153-167 | with a version of its own, it does so if and only if no other reparse of the unit came between its reparse and its publish |
| ClosedDocuments.HasUnitIff | lib/LSP/TUScheduler.cpp:68-125 | at any moment of any run a document has a unit if and only if some step opened it and none has closed it since |
| ClosedDocuments.GivesUpIff | lib/LSP/TUScheduler.cpp:143-150 | a worker gives up at its lookup if and only if its document is not open at that moment |
| ClosedDocuments.ClosedWorkerGivesUp | lib/LSP/TUScheduler.cpp:93-96 | after a close, while nothing opens the document again, a worker that had not looked up its unit, or whose call came later, never gets one: if finished, it gave up |
| ClosedDocuments.OnlyHeldUnitsPublish | lib/LSP/TUScheduler.cpp:136-168 | what is published of the document in that time comes only from workers that had found their unit before the close |
| Scheduler.RunKeepsInv | lib/LSP/TUScheduler.cpp:68-168 | every step of every interleaving keeps the invariant of heap, registers, jobs and publications |
| LspServer.AtMostOneReply | lib/LSP/NslLSPServer.cpp:87-439 | in every run, at every moment, no message has had more than one reply |
| LspServer.ExactlyOneReply | lib/LSP/NslLSPServer.cpp:87-439 | when the server's main loop has returned, every request owed a reply has had exactly one |
| LspServer.ReturnedIsDone | lib/LSP/NslLSPServer.cpp:87-133 | when the main loop has returned no worker has anything left to do |
| LspServer.CancelledIff | lib/LSP/NslLSPServer.cpp:370-439 | a folding-range request that entered the in-flight table under an id of its own is answered RequestCancelled if and only if a cancel or the final drain reached its entry before the worker's erase |
| DispatchReplies.RepliesIff | lib/LSP/NslLSPServer.cpp:135-227 | in every run, by the messages read before it: a request gets NotInitialized if and only if it is a document, folding-range or unknown one and no `initialized` came before it and before any answered `shutdown`; InvalidRequest if and only if it passed that, a `shutdown` with an id came before it and it is neither `exit` nor a `$/` method; and Result and MethodNotFound by its method |
| DispatchReplies.RegistersIff | lib/LSP/NslLSPServer.cpp:370-420 | a message enters the in-flight table if and only if it is a well-formed folding-range request past both gates |
| DispatchReplies.FoldsIff | lib/LSP/NslLSPServer.cpp:370-419 | once the main loop has returned, exactly the folding-range requests past both gates have had folds or a cancellation, and those without parameters had folds |
| DispatchReplies.ExitIsLast | lib/LSP/NslLSPServer.cpp:87-110 | `exit` is the last message read |
| DispatchReplies.CancelsGoThrough | lib/LSP/NslLSPServer.cpp:420-439 | every well-formed cancel goes through the table, before, between and after both gates, in the order read |
| DispatchReplies.DrainsBeforeJoining | lib/LSP/NslLSPServer.cpp:111-133 | the final drain goes through the table before the workers are joined and at no other time |
| LayoutRenderer.FitsIff | lib/Fmt/LayoutRenderer.cpp:57-103 | the budgeted simulation accepts exactly the documents without a hardline whose flat text is within the budget |
| LayoutRenderer.GroupLayout | lib/Fmt/LayoutRenderer.cpp:131-138 | an accepted group is emitted as its flat text, every group in it flat, ending within the width; a refused one is emitted broken |
| LayoutRenderer.FlatIsOneLine | lib/Fmt/LayoutRenderer.cpp:109-130 | the flat text of newline-free texts is one line |
| LayoutRenderer.ColumnIsTrue | lib/Fmt/LayoutRenderer.cpp:109-157 | for newline-free texts and non-negative nests the tracked column is the length of the last output line |
| LayoutRenderer.RenderIsLayout | lib/Fmt/LayoutRenderer.cpp:109-157 | the output is one of the layouts the document denotes: inside a flat group all is flat, and a group with a hardline is broken |
| LayoutRenderer.ContentKept | lib/Fmt/LayoutRenderer.cpp:41-157 | the non-blank characters do not depend on width, indent, column or mode |
| LayoutRenderer.BreakIsIndented | lib/Fmt/LayoutRenderer.cpp:41-55 | a broken line is a newline and one blank per column of indent: spaces if a number of spaces is configured, tabs otherwise |
| LayoutRenderer.OneKindOfBlank | lib/Fmt/LayoutRenderer.cpp:41-157 | whatever the document, no indent brings in a tab when spaces are configured, nor a space when tabs are |
| LayoutRenderer.MeasureFlat | lib/Fmt/LayoutRenderer.cpp:61-98 | the summing loop computes the budgeted flat width |
| LayoutRenderer.Emitter.EmitIndent | lib/Fmt/LayoutRenderer.cpp:41-55 | the loops append one blank per column of indent, tabs in tab mode |
| LayoutRenderer.Emitter.RenderInto | lib/Fmt/LayoutRenderer.cpp:109-157 | the emitter appends what the rendering function says and ends at its column |
| LayoutRenderer.RenderDoc | lib/Fmt/LayoutRenderer.cpp:161-174 | the rendered text is a layout of the document and carries exactly its non-blank characters |
| Literals.ScanNumberAt | lib/Lex/NumberLiteral.cpp:143-203 | the scanner's loops return the kind, end and marker flags of the longest run of its form |
| Literals.ConsumeValueRun | lib/Lex/NumberLiteral.cpp:78-111 | the run ends at the first byte that is not a digit of the base, a marker or an underscore, and the flags are the markers met |
| Literals.PositionalAppends | lib/Lower/ASTToMLIR.cpp:227-250 | one more digit multiplies the positional sum by the base and adds the digit |
| Literals.ParseNumericLiteral | lib/Lower/ASTToMLIR.cpp:173-256 | the reader's loops return the positional sum in 64 bits and the explicit width in 32, or refuse |
| Literals.ScannedIsRead | lib/Lower/ASTToMLIR.cpp:173-256 | every scanned token is read at its face value, exactly when below 2^63, except the C-style binary ones, all of which are refused |
| Literals.DigitIsPlace | lib/Lower/ASTToMLIR.cpp:210-245 | a digit is worth its place in `0123456789abcdef`, in either case |
| Literals.LetterIsBase | lib/Lex/NumberLiteral.cpp:143-203 | a sized literal is one token, read in base 2 after `b`, 8 after `o`, 10 after `d` and 16 after `h`, in either case |
| Literals.PlainIsBaseTen | lib/Lex/NumberLiteral.cpp:143-203 | digits with neither a tick nor a prefix are one token, read in base ten |
| Literals.PrefixIsBaseSixteen | lib/Lex/NumberLiteral.cpp:143-203 | digits after `0x` are one token with it, read in base sixteen |
| Literals.MinUnsignedWidth | lib/Lower/ASTToMLIR.cpp:259-270 | the shifting loop returns the bit length: for positive v the w with 2^(w-1) <= v < 2^w, otherwise 1 |
| Literals.BitLengthUnique | lib/Lower/ASTToMLIR.cpp:259-270 | those bounds determine the width |
| Literals.ResolveWidth | lib/Lower/ASTToMLIR.cpp:103-124 | the width before an extension: the decimal number in 32 bits, 1 for zero and for anything else |
| Literals.ResolveDecimalLiteral | lib/Lower/ASTToMLIR.cpp:131-148 | an index or count: the decimal number in 64 bits, 0 for anything else |
| Literals.ReadAsWritten | lib/Lower/ASTToMLIR.cpp:173-256 | what the reader makes of a spelling is determined by the value, size and plainness written |
| Literals.IndexIsWrittenIff | lib/Lower/ASTToMLIR.cpp:131-148 | the index taken is the number written, in whatever base and size, if and only if it is a plain decimal below 2^63, or zero |
| Literals.WidthIsWrittenIff | lib/Lower/ASTToMLIR.cpp:103-124 | the width taken is the number written if and only if it is a plain decimal from 1 to 2^32 - 1, or one |
| BitVectors.SignExtensionKeepsValue | lib/Dialect/NSL/IR/NSLOps.td:829-840 | sign extension keeps the two's-complement value |
| BitVectors.AboveThenExtract | lib/Dialect/NSL/IR/NSLOps.td:882-925 | a concatenation holds its first operand above its second: extraction gives each back |
| BitVectors.BinaryInRange | lib/Dialect/NSL/IR/NSLOps.td:549-715 | every binary op's result fits its result width |
| BitLaws.NumberIsSum | lib/Dialect/NSL/IR/NSLOps.td:912-930 | a number is the sum of its extracted bits, each at its power of two |
| BitLaws.BitsDetermine | lib/Dialect/NSL/IR/NSLOps.td:912-930 | two numbers of a width with the same bits are the same |
| BitLaws.ArithmeticLaws | lib/Dialect/NSL/IR/NSLOps.td:549-573 | a sum is the sum of the numbers or 2^w less, a difference added to the second operand gives the first, a product is a repeated sum |
| BitLaws.BitwiseLaws | lib/Dialect/NSL/IR/NSLOps.td:574-596 | and, or and exclusive or by the truth table of each bit |
| BitLaws.ShiftLaws | lib/Dialect/NSL/IR/NSLOps.td:597-614 | every bit of a shift is the bit that far below or above, or zero |
| BitLaws.ComparisonLaws | lib/Dialect/NSL/IR/NSLOps.td:649-696 | less by the highest bit where the operands differ, equal by all bits, and the other comparisons as their negations and converses |
| BitLaws.LogicalLaws | lib/Dialect/NSL/IR/NSLOps.td:697-782 | the logical ops ask whether an operand has a bit set |
| BitLaws.UnaryLaws | lib/Dialect/NSL/IR/NSLOps.td:754-808 | negation cancels under addition; the reductions ask for all, any and an odd number of the bits |
| BitLaws.UnaryBitLaws | lib/Dialect/NSL/IR/NSLOps.td:746-753 | complement flips every bit and plus keeps every bit |
| BitLaws.SignExtendedBit | lib/Dialect/NSL/IR/NSLOps.td:829-839 | sign extension keeps the bits there are and copies the top one above them |
| BitLaws.ExtractedBit | lib/Dialect/NSL/IR/NSLOps.td:912-930 | bit i of an extracted range is the bit i above its lowest |
| BitLaws.RepeatedCopies | lib/Dialect/NSL/IR/NSLOps.td:931-945 | every copy in a repetition is the operand |
| Lowering.LowerAppends | lib/Lower/ASTToMLIR.cpp:888-1419 | lowering only appends ops, every operand is defined earlier, and the value returned is defined |
| Lowering.LowersIffTyped | lib/Lower/ASTToMLIR.cpp:888-1419 | lowering succeeds with every appended op accepted by its verifier, in the verifier's own 32- and 64-bit arithmetic, if and only if the expression type-checks, and the value has the checked type |
| Lowering.OkStable | lib/Dialect/NSL/IR/NSLOps.cpp:385-630 | an op's width rule depends only on its operands, so appending never breaks it |
| LoweringMeaning.LowerComputes | lib/Lower/ASTToMLIR.cpp:888-1419 | in any execution of a block that holds the lowered ops, the value returned is the expression's bit-vector meaning, its literals at the value and size written |
| LoweringMeaning.LoweringCorrect | lib/Lower/ASTToMLIR.cpp:888-1419 | in a well-formed block, an expression with a meaning lowers to appended, ordered, rule-abiding ops whose run ends in that meaning |
| ExpressionLaws.ArithmeticMeans | lib/Lower/ASTToMLIR.cpp:970-1060 | the meaning of a sum or difference by the meanings of its operands in the order written |
| ExpressionLaws.ShiftMeans | lib/Lower/ASTToMLIR.cpp:970-1060 | the first operand is shifted by as many places as the second says |
| ExpressionLaws.ComparisonMeans | lib/Lower/ASTToMLIR.cpp:970-1060 | a comparison is one bit, set by the highest bit where the operands differ, in the order written |
| ExpressionLaws.ConditionalMeans | lib/Lower/ASTToMLIR.cpp:1154-1185 | a conditional means its first branch exactly when the condition's bit is set |
| ExpressionLaws.ExtensionMeans | lib/Dialect/NSL/IR/NSLOps.td:829-850 | extension keeps the bits there are and adds copies of the top one, or zeros |
| ExpressionLaws.ConcatenationMeans | lib/Dialect/NSL/IR/NSLOps.td:882-911 | every operand of a concatenation lies above the ones written after it |
| ExpressionLaws.LiteralTakesLeftWidth | lib/Lower/ASTToMLIR.cpp:978-996 | a literal without a size takes the width of the operand to its left, exactly if its value fits there |
| ExpressionLaws.LiteralTakesBranchWidth | lib/Lower/ASTToMLIR.cpp:1154-1185 | as a second branch it takes the width of the first |
| ExpressionLaws.LoneLiteralIsNarrow | lib/Lower/ASTToMLIR.cpp:892-923 | on its own it takes the fewest bits that hold its value |
| LoweringMeaning.MeaningIsTyped | lib/Lower/ASTToMLIR.cpp:888-1419 | an expression with a meaning type-checks at the meaning's type |
| LoweringMeaning.MeansIff | lib/Lower/ASTToMLIR.cpp:888-1419 | an expression has a meaning, by the numbers written in it, if and only if it type-checks, its literals' values are below 2^63 and their sizes from 1 to 2^32 - 1, its widths, indices and counts are plain decimals in range or parameters, and no concatenation or repetition reaches 2^32 bits |
| LoweringMeaning.MeaningFits | lib/Dialect/NSL/IR/NSLOps.td:549-945 | where the names' values fit their widths so does every meaning |
| LoweringMeaning.RunIsExecution | lib/Dialect/NSL/IR/NSLOps.td:549-945 | an ordered block has an execution, its run in order |
| LoweringMeaning.ExecutionIsRun | lib/Dialect/NSL/IR/NSLOps.td:549-945 | and no other |
| LoweringMeaning.SliceWidthWraps | lib/Lower/ASTToMLIR.cpp:1186-1209 | bits 2^32 down to 0 of any signal type-check as one bit although they have no meaning |
| LoweringMeaning.LiteralResolves | lib/Lower/ASTToMLIR.cpp:892-923 | a literal within the bounds is read at its face value and size, and its constant is accepted exactly if the value fits the width |
| LoweringMeaning.LiteralValueWraps | lib/Lower/ASTToMLIR.cpp:250-250 | 2^64 + 1 written in eight bits is accepted as 1, without a meaning |
| LoweringMeaning.LiteralSizeWraps | lib/Lower/ASTToMLIR.cpp:193-199 | 1 written in 10^10 bits is accepted in 1410065408 bits, without a meaning |
| LoweringMeaning.SizedIndexIsZero | lib/Lower/ASTToMLIR.cpp:1186-1209 | an index that is not a plain decimal is lowered as bit 0, whatever it says, and has no meaning |
| LoweringMeaning.ConcatWidthWraps | lib/Dialect/NSL/IR/NSLOps.cpp:555-580 | two operands of 2^31 bits are accepted as no bits, without a meaning |
| LoweringMeaning.RepeatWidthWraps | lib/Dialect/NSL/IR/NSLOps.cpp:604-624 | 2^62 copies of four bits are accepted as no bits, without a meaning |
| Powers.TimesIsProduct | lib/Lower/ASTToMLIR.cpp:1411-1414 | the repeated addition the widths of repetitions are stated with is the product |
| LoweringBuilder.Builder.LowerExpr | lib/Lower/ASTToMLIR.cpp:888-1419 | the visitor's appended ops and result are those of the lowering function |
| LoweringBuilder.Builder.LowerConcat | lib/Lower/ASTToMLIR.cpp:1210-1240 | the loop over the parts gathers operands and total width as the function does |
| SourceLines.TableFindsLine | lib/Basic/SourceManager.cpp:182-196 | searching the line table gives the line by its newlines and the column by the line's start |
| SourceLines.Buffer.BuildLineOffsetsIfNeeded | lib/Basic/SourceManager.cpp:53-71 | the lazy loop leaves the table of line starts |
| SourceLines.Buffer.GetLineCol | lib/Basic/SourceManager.cpp:182-196 | line and column of an offset by newline count and line start |
| SourceLines.Buffer.GetLine | lib/Basic/SourceManager.cpp:198-222 | the text of the line that holds an offset, without its newline |
| SourceLines.Buffer.ResolveVirtual | lib/Basic/SourceManager.cpp:224-264 | the path and line of the last override not above the offset, counted on in 32 bits |
| SourceLines.Buffer.AddLineDirective | lib/Basic/SourceManager.cpp:266-275 | an insertion beyond the last override appends it |
| SourceLines.ParseDirective | lib/Driver/EmitAST.cpp:101-128 | the scanning loops read the number and the quoted path of a `#line` line, or nothing |
| SourceLines.DirectiveReadsBack | lib/Driver/EmitAST.cpp:101-128 | a directive in the preprocessor's canonical form reads back as its number, in 32 bits, and its path |
| SourceLines.ReplayLineDirectives | lib/Driver/EmitAST.cpp:86-133 | replay inserts one override per directive, and every insertion meets the ascending rule |
| SourceLines.ReplayAscends | lib/Driver/EmitAST.cpp:86-133 | the overrides stay strictly ascending and within the buffer |
| SourceLines.ReplayAgreesIff | lib/Basic/SourceManager.cpp:224-264 | after replay an offset of a buffer under 16 MiB resolves as a plain line-by-line scan says, if and only if it is not the end of a buffer that ends in an open `#line`, or that directive changes nothing |
| SourceLines.ReplayAgrees | lib/Basic/SourceManager.cpp:224-264 | every other offset resolves as the plain scan says |
| SourceLines.ScanAtOpenEnd | lib/Driver/EmitAST.cpp:86-133 | at the end of an open `#line` the plain scan still has the number and path of the line's start |
| SourceLines.OpenTextDiffers | lib/Driver/EmitAST.cpp:128-131 | at the end of any canonical directive without a newline, with a number other than 1, the two differ |
| SourceLines.OpenDirectiveDiffers | lib/Driver/EmitAST.cpp:128-131 | at the end of the buffer `#line 5 "f"` the two differ |
| SourceLines.OpenDirectiveResolves | lib/Basic/SourceManager.cpp:224-264 | at the end of an open `#line` the code answers with the number and path of that last directive |
| Lexer.WordEnd | lib/Lex/Lexer.cpp:171-205 | an identifier is as long as it can be: neither a body byte nor a splice marker follows it |
| Lexer.GapsAreTrivia | lib/Lex/Lexer.cpp:112-157 | every token starts at or after the end of the one before, with only white space and comments between; all but end-of-file tokens are non-empty |
| Lexer.TokensAreDisjoint | lib/Lex/Lexer.cpp:417-464 | tokens are ordered and disjoint |
| Lexer.StreamEnds | lib/Lex/Lexer.cpp:417-464 | the end of the file comes within as many steps as there are bytes |
| Lexer.EofStays | lib/Lex/Lexer.cpp:417-423 | after the first end-of-file token come only end-of-file tokens |
| LexicalForm.PieceIff | lib/Lex/Lexer.cpp:112-157 | what is skipped at a place is exactly a white-space byte, two slashes up to the newline, or a block comment up to its first closing mark, and all of it |
| LexicalForm.TokenAfterGap | lib/Lex/Lexer.cpp:112-157 | before every token lie such pieces one after another, and the token starts with none |
| LexicalForm.LongestOperator | lib/Lex/Lexer.cpp:283-400 | of the listed operators the longest spelled at a place is taken; a byte that spells none is an unknown token |
| LexicalForm.StringEnds | lib/Lex/Lexer.cpp:207-243 | a string literal ends at the first quote or newline that no backslash takes along; only a quote completes it |
| LexicalForm.WordIff | lib/Lex/Lexer.cpp:165-205 | a word is letters, digits, underscores and splices `%NAME%`, and as long as it can be |
| LexicalForm.KindByFirstByte | lib/Lex/Lexer.cpp:417-464 | the first byte of a token decides its kind |
| TokenSource.Scanner.NextImpl | lib/Lex/Lexer.cpp:417-464 | the scanner's loops take exactly one step of the stream |
| TokenSource.Scanner.SkipWhitespaceAndComments | lib/Lex/Lexer.cpp:112-157 | the cursor and the line-start flag after white space and comments |
| TokenSource.Scanner.Next | lib/Lex/Lexer.cpp:476-483 | whatever was peeked at, the token handed out is the next of the stream |
| TokenSource.Scanner.Peek | lib/Lex/Lexer.cpp:485-493 | peeking shows the token the stream has in that place and takes nothing |
| TokenSource.Recorder.Serialize | lib/Fmt/CSTBuilder.cpp:43-72 | over any tokens in order the serialised text is the source |
| TokenSource.StreamIsInOrder | lib/Fmt/CSTBuilder.cpp:27-29 | any first tokens of the stream are in order |
| TokenSource.RoundTrip | lib/Fmt/CSTBuilder.cpp:43-72 | lexing any number of tokens with any peeks and serialising what was recorded gives the source back |
| DirectiveSplitter.Split | lib/Fmt/DirectiveSplitter.cpp:170-216 | the slices follow one another over the whole source, no two fragments adjoin, no fragment holds a `#`-led line, and every directive is one, ends where it must and is labelled with the opcode named after its `#`, or `Include` when none is |
| DirectiveSplitter.PartitionIsUnique | lib/Fmt/DirectiveSplitter.cpp:170-216 | there is only one such partition, labels included |
| DirectiveSplitter.ChainedText | lib/Fmt/DirectiveSplitter.cpp:170-216 | slices that follow one another spell the source, every byte once and in order |
| DirectiveSplitter.FindDirectiveLineEnd | lib/Fmt/DirectiveSplitter.cpp:96-126 | the end is just after the first line break that is neither escaped by a backslash nor the tail of a CRLF, or the end of the text |
| DirectiveSplitter.EndIsUnique | lib/Fmt/DirectiveSplitter.cpp:96-126 | that determines the end |
| DirectiveSplitter.FindNextDirectiveStart | lib/Fmt/DirectiveSplitter.cpp:131-154 | the first `#`-led line at or after a line start, or the end |
| DirectiveSplitter.DecodeOpcode | lib/Fmt/DirectiveSplitter.cpp:67-91 | the opcode found is the one named there, and none is found only if none is |
| Utf16Columns.MasksAreRanges | lib/LSP/PositionEncoding.cpp:17-37 | the lead-byte masks of the source are the byte ranges of the model |
| Utf16Columns.ByteToUtf16Column | lib/LSP/PositionEncoding.cpp:42-66 | the loop counts the UTF-16 units of the whole characters before the offset |
| Utf16Columns.Utf16ToByteOffset | lib/LSP/PositionEncoding.cpp:68-92 | the loop finds where that many units end, rounded down to a character |
| Utf16Columns.ByteRoundTrip | lib/LSP/PositionEncoding.cpp:42-92 | to a column and back is the greatest character boundary not above the offset |
| Utf16Columns.ColumnRoundTrip | lib/LSP/PositionEncoding.cpp:42-92 | to an offset and back is the greatest column of a boundary not above the column |
| Utf16Columns.Monotone | lib/LSP/PositionEncoding.cpp:42-92 | both conversions are monotone |
| Utf16Columns.ColumnIsUtf16Length | lib/LSP/PositionEncoding.cpp:17-66 | after any valid UTF-8 text (section 3 of RFC 3629) the column is the text's length in UTF-16 (section 2.1 of RFC 2781), whatever bytes follow |
| TokenSets.SetOfIsPlain | lib/Parse/Recovery.h:56-75 | a bitset built from kinds has exactly those members, numbers out of range dropped |
| TokenSets.UnionOfIsAnyOf | lib/Parse/Recovery.h:82-95 | merging bitsets word by word is merging the plain sets |
| TokenSets.WithIsInsertion | lib/Parse/Recovery.h:56-75 | setting a bit inserts that kind and nothing else |
| TokenSets.MakeSet | lib/Parse/Recovery.h:56-67 | the constructor's loop builds the set of the listed kinds |
| TokenSets.CurrentRecoverySet | lib/Parse/ParserImpl.h:178-184 | the merge loop returns the union of the active guards |
| Recovery.Parser.SkipUntil | lib/Parse/Recovery.cpp:24-35 | with a bitset, stops at the first token of the set it stands for or the end of the file and consumes all before it |
| Recovery.Parser.ItemStep | lib/Parse/ParseDecl.cpp:570-597 | one iteration consumes a token or leaves the loop, if and only if it is not stuck: an item that takes nothing and either claims success or stands on its own list's resumption keyword; what it skips follows a failed item |
| Recovery.Parser.ItemList | lib/Parse/ParseStmt.cpp:620-680 | the declare, module and seq loops end for all items that never get stuck, at a `}`, the end of the file or a token of an enclosing guard; every token in between is a line marker, is taken by an item, or follows a failed item and is no keyword to resume at |
| Recovery.DeclareNeverStuck | lib/Parse/ParseDecl.cpp:244-273 | no failing item can hold up a declare list |
| Recovery.ModuleStuckIff | lib/Parse/ParseDecl.cpp:570-597 | a module list gets stuck exactly where an item takes nothing on one of the thirteen keywords the list resumes at |
| Recovery.SeqStuckIff | lib/Parse/ParseStmt.cpp:620-680 | the same for a seq list and `if`, `for`, `while`, `goto`, `return` |
| Recovery.Parser.ParallelBlock | lib/Parse/ParseStmt.cpp:350-429 | with its progress guard the loop ends for any items at all, at a `}` or the end of the file; besides line markers and the tokens of its items it skips only after a failed one, and one token where an item took nothing |
| Recovery.Parser.CompilationUnit | lib/Parse/Parser.cpp:155-209 | if items take at least their own keyword the loop ends with the whole file consumed and no item keyword skipped: each was handed to an item parser or taken by one |

## Left out

- Machine sizes: `size_t`, `int` and 32-bit columns are unbounded except where a wrap-around is written out (widths, literals, `#line` numbers) or bounded by a precondition (the diff table's size, the 16 MiB buffer). Signed overflow in the literal readers, undefined in C++, is modelled as two's-complement wrap-around.
- Weak memory orderings and the scheduler's map mutex: atomics are sequentially consistent steps, and critical sections may interleave, which only adds runs.
- Versions across a close: the per-version results are for documents not closed in the run. A reopened document starts a new unit, whose register knows nothing of the versions before.
- ExprFormatter.FormatKeepsTreeIff: covers the nodes the formatter writes from the tree. Conditionals, extensions, repetitions, calls, fields, casts and increments are copied with the source text between their operands, whose ranges omit parentheses; that text is not modelled. Spaces are, by which tokens are written together.
- Expression trees keep the surface forms (parentheses, `?:`, `if`) that the source's AST merges; positions and the names of AST classes are not kept.
- Struct casts, field access, ports, statements and declarations in the lowering, and the CIRCT conversion behind it: they depend on dialect classes outside these files.
- Memory-typed names in the lowering: a name is bits, a struct or nothing.
- Keyword and punctuation kinds: a lexeme records its class and its bytes; the tables that map spellings to token kinds are not listed.
- Recovery.Parser.ItemList: the alt, any, while, for and `_init` body loops have no progress guard and are not covered.
- Diagnostics text, CST node frames, include stacks, JSON transport, configuration and file loading: input and output without the properties above.
- The rest of the layout planner and whole-formatter idempotence: node ranges omit parentheses and leading comments, so these do not hold of the code as written.
