# Verification model of msprechecker and msmodelslim

A Dafny model of the parts of the two tools that compute something intricate, with proofs about all
inputs, all runs and all reachable states. `dafny verify dfyconfig.toml` checks it.

**The rule language of msprechecker.** Rules are texts with operators, calls, literals and `${path}`
references, checked against configuration files. `Evaluator` models the conversion to reverse Polish
notation and the stack machine, as loops that change their lists in place and as the functions they
compute. `ShuntingYard`, `ExpressionMeaning` and `Printing` prove that this small compiler is correct:
any sufficiently parenthesised printing of a tree is evaluated to the value of that tree, and
`SufficiencyExact` that no other printing is read as that tree. `Precedence` gives the language as a
layered grammar: the printings that are read as their trees are exactly its sentences. `TokenLists` and `TokenIdentity` say what
happens to arbitrary token lists, `Scanner` and `ScanRoundTrip` model the tokenizer and show
that it reads back what was written, and `MacroPaths` and `MacroExpander` resolve and substitute
references and show that substitution keeps the meaning.

**Checking a document.** `Traverser` flattens a document breadth-first into a table of paths, and
`NodeChecker` walks the rule tree breadth-first and looks each rule up in that table. `Positions` and
`RulePaths` hold the theory of rendered paths, with the percent signs of missing nodes. The main result
about the walk holds for any table: each check runs once, against what the original table has under its
path or None. `DocumentLookup` says what that is for a document and variables, whatever keys they have:
by name a variable, and otherwise a node of the document with the same path. That is the rule's own
position when no other node has its path, as in a document made of several files under dotted names.

**Comparing dumps.** `Comparator` flattens dumps with an explicit stack, `Canonical` says exactly what
the flat form can tell apart, `Compare` proves that the report is empty exactly when the dumps agree,
`Unflatten` proves that the nested dicts built in place from the flat form hold what they should,
`ListNesting` says what is lost where the paths run through lists, and `NestedReport` puts them together.

**Contexts of lines.** `ContextHierarchy` proves for which texts the one-pass stack of the configuration
collector is bracket matching: after each line it should hold the lines with an unclosed bracket.

**msmodelslim.** `Permutations` and `Combinations` model the memoised permutation generator and the
mixed-radix counter. `Bits` and `PackedWords` hold the arithmetic of or, shift, mask and wrap-around,
`Gptq` and `Awq` the packing of quantised weights with their round trips. `Sharding` is the greedy
writer of safetensors files with the bound on how many it writes. `HookManager` and `FunctionHijacker`
are state machines over a heap of attributes that has to come back as it was.

`PyValues`, `Json` and `Text` hold values, documents and string functions. A Python dict is a map whose
iteration order is left open, so what is proved holds for every insertion order. The functions of
Python's `operator` module, the constructors `int`, `str`, `float` and `Version`, and the evaluation of
a rule block are parameters: the theorems hold for whatever they do, including raising.

## Where code and documentation differ

The model follows the code. Each of these is a lemma.

- `**` is left-associative; a comment in the operator table calls it right-associative
  (`Printing.SameLevelGroupsLeft`).
- `not` does not nest: `not not x` raises at the beginning of an expression, and behind a binary operator
  its first `not` is applied to the operand on the left (`Printing.DoubledNotUnderflows`,
  `Printing.DoubledNotNegatesTheLeft`).  A printing is read as the tree it was printed from exactly when
  its parentheses are enough (`SufficiencyExact.ConvertsIffSufficient`).
- A minus directly in front of digits is a sign, never the operator, unless a word character follows the
  digits (`ScanRoundTrip.MinusLex`); `&` and `|` are in the operator table but not in the token pattern, so
  they never become tokens (`ScanRoundTrip.OnlyLexedOps`).
- A string literal spelled like an operator is taken for the operator
  (`ExpressionMeaning.PlainLiteralsExactly`).
- `${.c}` is a child of the node being checked, while the user guide's example means its sibling
  (`MacroPaths.OneDotIsChildTwoDotsSibling`).
- Counts of zero or less yield the digit 0, although no index lies below such a count
  (`Combinations.AllCombinationsIff`).
- An empty dict or list is not told from a missing one when dumps are compared
  (`Compare.EmptyContainerIsInvisible`, exactly by `Canonical.CanonDecides`).
- A GPTQ zero point of 0 is not decoded as 0 (`Gptq.QzerosRoundTripIff`).
- Of several keys that differ inside one item of a list, the nested report keeps only the one inserted
  last (`ListNesting.FirstOfTwoIsLost`, exactly by `NestedReport.NestedListsLosslessIff`).
- The context of a line after the last closed block stays that of the block
  (`ContextHierarchy.ContextIsOpenLinesIff`), and behind a line that closes a block and opens another it is
  that of the closed one (`ContextHierarchy.ClosedBlockStays`, exactly by
  `ContextHierarchy.StackIsOpenLinesIff`).

## Model

| member | source | states |
|---|---|---|
| ShuntingYard.ConversionIsPostorder | msprechecker/msprechecker/utils/evaluator.py:90-162 | For every expression tree and every printing of it with enough parentheses, minimal or redundant, the conversion outputs exactly the postorder of the tree. |
| ShuntingYard.ConvertExpr | msprechecker/msprechecker/utils/evaluator.py:95-162 | The induction behind it: in the middle of any conversion, on any stack whose top an operator of this tightness does not pop, the tokens of a tree leave its pending operators on the stack and the rest of its postorder in the output. |
| ShuntingYard.DoneThenPending | msprechecker/msprechecker/utils/evaluator.py:122-126 | What is already in the output and what popping the pending operators will add make up the postorder, and every pending operator binds at least as tightly as the tree. |
| ExpressionMeaning.RunPostorder | msprechecker/msprechecker/utils/evaluator.py:165-195 | Running the postorder of a tree from any stack pushes exactly the value of the tree, or stops with its exception, and never reaches below that stack. |
| ExpressionMeaning.EvaluatePrinted | msprechecker/msprechecker/utils/evaluator.py:81-87 | Compiler and machine together: evaluating a printed tree gives its value; the unchanged text if the tree raises a type, value or zero-division error; and any other exception goes through. |
| ExpressionMeaning.PlainLiteralsExactly | msprechecker/msprechecker/utils/evaluator.py:182-194 | The machine returns the value of a tree that has one if and only if no string literal in it is spelled like an operator; if one is, the machine always raises. |
| ExpressionMeaning.RunHeight | msprechecker/msprechecker/utils/evaluator.py:165-199 | A run that does not raise changes the height of the stack by the net effect of its elements, whatever list it is given. |
| ExpressionMeaning.NetPostorder | msprechecker/msprechecker/utils/evaluator.py:165-199 | The net effect of a tree's postorder is one if and only if no string literal is spelled like an operator. |
| Printing.MinimalIsSufficient | msprechecker/msprechecker/utils/evaluator.py:33-49 | Every tree has a printing that the converter understands: parentheses placed by precedence alone are enough. |
| Printing.TokensDetermineTree | msprechecker/msprechecker/utils/evaluator.py:90-162 | The language is unambiguous: two sufficient printings with the same tokens are printings of the same tree. |
| Printing.RebuildPostorder | msprechecker/msprechecker/utils/evaluator.py:165-195 | A postorder can be turned back into its tree, by a stack machine on trees. |
| Printing.SameLevelGroupsLeft | msprechecker/msprechecker/utils/evaluator.py:152-162 | Operators of one level group from the left and never from the right, `**` included, although the comment in the table (line 37) says it is right-associative. |
| SufficiencyExact.ConvertsIffSufficient | msprechecker/msprechecker/utils/evaluator.py:90-162 | For every expression tree with plain literals and every printing of it, sufficient or not: the conversion outputs its postorder if and only if the printing has enough parentheses; so `not` does not nest unless the inner one is parenthesised. |
| SufficiencyExact.Exact | msprechecker/msprechecker/utils/evaluator.py:95-162 | The induction behind it, in the middle of any conversion: if the output goes on with the postorder of what is being read, that is printed with enough parentheses and pops nothing from below. |
| SufficiencyExact.FirstItem | msprechecker/msprechecker/utils/evaluator.py:95-162 | The first element put out while an expression is read is a literal or a `not` pushed out by its own prefixes. |
| SufficiencyExact.LeftOperandEnds | msprechecker/msprechecker/utils/evaluator.py:152-162 | The operator behind a left operand pops exactly that operand's pending operators, when the output goes on as it should. |
| Printing.DoubledNotUnderflows | msprechecker/msprechecker/utils/evaluator.py:182-184 | A text that is `not not` followed by an operand raises an IndexError, which the caller does not catch. |
| Printing.DoubledNotNegatesTheLeft | msprechecker/msprechecker/utils/evaluator.py:152-162 | `a op not not b` does not raise: it has the value of `(not a) op (not b)`, for every binary operator and operands printed with enough parentheses. |
| Precedence.SentenceIff | msprechecker/msprechecker/utils/evaluator.py:33-49 | The parentheses that are enough, without any number of a level: a printing is sufficient exactly when it is a sentence of the layered grammar whose groups are `**`, then `* / // %`, `+ -`, the comparisons, `and`, `or`, each chain associating to the left, with `not` in front of an atom below them all. |
| Precedence.ReadExactlyBySentences | msprechecker/msprechecker/utils/evaluator.py:90-162 | The converter reads a printing with plain literals as its tree if and only if it is a sentence of that grammar. |
| Precedence.SentenceEvaluates | msprechecker/msprechecker/utils/evaluator.py:81-195 | And every such sentence is evaluated to the value of its tree, or gives its text back, or raises. |
| Precedence.TighterFirst | msprechecker/msprechecker/utils/evaluator.py:36-48 | Of two operators beside one another the one of an earlier group is applied first, on whichever side it stands: `1 + 2 * 3` is 1 2 3 * +. |
| Precedence.OneGroupFromLeft | msprechecker/msprechecker/utils/evaluator.py:36-48 | Two operators of one group are applied from the left. |
| Precedence.NotFirst | msprechecker/msprechecker/utils/evaluator.py:35 | `not` is applied before any binary operator, on both its sides. |
| Precedence.OneOperator | msprechecker/msprechecker/utils/evaluator.py:20-29 | A text with one operator: the operands reach it in the order written, `and` and `or` choose one of them by the truth of the first, and a type, value or zero-division error gives the text back. |
| Precedence.OnePrefix | msprechecker/msprechecker/utils/evaluator.py:165-189 | `not` gives the opposite of the truth of its operand, and a call applies the constructor. |
| Precedence.CommaBehind | msprechecker/msprechecker/utils/evaluator.py:108-111 | A comma behind an expression raises an UnboundLocalError if operators of it are pending, and is passed over otherwise. |
| Precedence.TwoArguments | msprechecker/msprechecker/utils/evaluator.py:171-198 | A call with two arguments never is one: it gives the text back, or lets an exception of the constructor through. |
| Precedence.NoArgument | msprechecker/msprechecker/utils/evaluator.py:178-179 | A call without arguments gives the text back. |
| Precedence.UnbalancedRaises | msprechecker/msprechecker/utils/evaluator.py:81-87 | Unbalanced parentheses raise; that error is not turned into the text. |
| TokenLists.ConvertRaisesExactly | msprechecker/msprechecker/utils/evaluator.py:95-150 | A comma-free token list, well-formed or not, is refused with a ValueError if and only if its parentheses do not balance. |
| TokenIdentity.LiteralsByIdentity | msprechecker/msprechecker/utils/evaluator.py:95-150 | With each literal replaced by the number of its place: conversion succeeds if and only if it did before, and raises the same otherwise; the outputs differ only in those numbers, every literal comes out once and in the order written, and the rest is the other tokens, some function names having become calls. |
| TokenLists.OutputRearrangesTokens | msprechecker/msprechecker/utils/evaluator.py:95-150 | Whenever conversion succeeds the output is, as a multiset by spelling, the tokens other than parentheses and commas; a call counts as its function's name. |
| TokenLists.OperandsKeepOrder | msprechecker/msprechecker/utils/evaluator.py:95-150 | The literals that are not spelled like an operator or a function come out in the order in which they were written. |
| Evaluator.RpnBuilder.ProcessOp | msprechecker/msprechecker/utils/evaluator.py:153-162 | The popping loop in place: afterwards stack and output are those of the specification the theorems are about. |
| Evaluator.RpnBuilder.ProcessParenthese | msprechecker/msprechecker/utils/evaluator.py:131-150 | The parenthesis handling in place, with the mismatch error and the call made of a function name below the parenthesis. |
| Evaluator.RpnBuilder.ProcessToken | msprechecker/msprechecker/utils/evaluator.py:98-121 | The dispatch on the token kind, with the unbound counter a comma runs into. |
| Evaluator.ConvertRpn | msprechecker/msprechecker/utils/evaluator.py:90-128 | The whole conversion loop, with the final draining of the stack and its error. |
| Evaluator.ValueStack.Execute | msprechecker/msprechecker/utils/evaluator.py:167-194 | One element of the machine, on a stack changed in place, with the underflow errors of each kind of element. |
| Evaluator.EvaluateRpn | msprechecker/msprechecker/utils/evaluator.py:165-199 | The machine loop, with the error for a final stack that does not hold one value. |
| Evaluator.Evaluate | msprechecker/msprechecker/utils/evaluator.py:81-87 | Conversion outside the handler, evaluation inside it: which exceptions give the text back and which go through. |
| ScanRoundTrip.LexToken | msprechecker/msprechecker/utils/evaluator.py:52-62 | Every spelling of every token, decimal numerals included, is recognised as that token where it stands between delimiters, whatever alternatives come before it in the pattern. |
| ScanRoundTrip.FloatLex | msprechecker/msprechecker/utils/evaluator.py:54 | A numeral with a point is read as one number, up to its last digit. |
| ScanRoundTrip.ScanRoundTrip | msprechecker/msprechecker/utils/evaluator.py:95-121 | The tokenizer reads back every token list, however its literals are spelled and spaced, with blanks left out anywhere next to parentheses and commas. |
| ScanRoundTrip.OperatorIsRead | msprechecker/msprechecker/utils/evaluator.py:55 | Each of the sixteen written operators, between literals in any spelling, is read as the operator of that name. |
| ScanRoundTrip.EveryOtherOperatorIsLexed | msprechecker/msprechecker/utils/evaluator.py:34-48 | Every operator of the table except the two bitwise ones can be written. |
| ScanRoundTrip.CallIsRead | msprechecker/msprechecker/utils/evaluator.py:53 | A call of one of the four constructors on a literal is read as one. |
| ScanRoundTrip.OnlyLexedOps | msprechecker/msprechecker/utils/evaluator.py:48-55 | No text ever yields one of the bitwise operators as a token, although the operator table has them. |
| ScanRoundTrip.MinusLex | msprechecker/msprechecker/utils/evaluator.py:54-55 | In any text, at any place: a minus sign is read as the operator if and only if it is not the case that a digit follows and the digits are not followed by a word character; otherwise a number is read. |
| ScanRoundTrip.TightMinusIsASign | msprechecker/msprechecker/utils/evaluator.py:54 | The text `m-n` for naturals m and n is read as two numbers: the minus becomes the sign of the second. |
| MacroExpander.TightMinusGivesTextBack | msprechecker/msprechecker/utils/evaluator.py:81-87 | So the value of the text `m-n` is the text itself, for all naturals m and n. |
| MacroPaths.BuildFullPath | msprechecker/msprechecker/utils/macro_expander.py:59-78 | The split, stack and join loop, with the error of climbing above the root, computes the path the resolution theorems are about; a path without a leading dot is the full path, whatever the context. |
| MacroPaths.RelativeResolution | msprechecker/msprechecker/utils/macro_expander.py:63-76 | For any context of names and any number of dots before any names: the result is the context shortened by the levels climbed followed by the names, and it raises exactly when it would climb above the root. |
| MacroPaths.RootHasNoRelatives | msprechecker/msprechecker/utils/macro_expander.py:67-74 | From the root no relative reference but the lone dot resolves. |
| MacroPaths.OneDotIsChildTwoDotsSibling | msprechecker/msprechecker/utils/macro_expander.py:60-76 | `${.c}` names the child of the node being checked and never its sibling, which needs two dots; the user guide (msprechecker/README.md lines 255 to 271) means a sibling by it. |
| MacroExpander.ExpandLayOut | msprechecker/msprechecker/utils/macro_expander.py:37-56 | Expanding a laid-out template gives the layout in which exactly the references are replaced by their texts. |
| MacroExpander.ReferenceStands | msprechecker/msprechecker/utils/macro_expander.py:43-56 | A reference to an integer, boolean, None or non-empty plain string is expanded to a spelling of that value; one to a float is when its text is a decimal numeral that reads back. |
| MacroExpander.ExpandRaisesExactly | msprechecker/msprechecker/utils/macro_expander.py:43-56 | Expanding any text raises an ExpandError if and only if one of its references climbs above the root or has nothing stored at its path, and nothing else is ever raised. |
| MacroExpander.AbsoluteReference | msprechecker/msprechecker/utils/macro_expander.py:37-56 | A reference without a leading dot is replaced by the text of what is stored under that very path, whatever node is being checked, and raises an ExpandError if nothing is. |
| MacroExpander.TextWithoutReferences | msprechecker/msprechecker/utils/macro_expander.py:37-38 | A text in which no dollar sign stands in front of a brace is left as it is. |
| MacroExpander.SubstitutionPreservesMeaning | msprechecker/msprechecker/utils/macro_expander.py:31-56 | Expanding a rule text, with literals in any spelling, and evaluating the result equals evaluating the expression tree in which each reference is the value it refers to, with the same errors. |
| MacroExpander.LoneReference | msprechecker/msprechecker/utils/macro_expander.py:43-56 | `${path}` alone evaluates back to the stored value it stands for, and raises exactly for a string spelled like an operator. |
| MacroExpander.EmptyStringReference | msprechecker/msprechecker/utils/macro_expander.py:52-54 | A stored empty string does not survive: the two quotes come back instead. |
| Traverser.Traverse | msprechecker/msprechecker/utils/traverser.py:20-38 | The work loop terminates and stores every position of the document and nothing else, whatever its keys, and where positions share a path the node of a deepest one; a document that is neither dict nor list is refused. |
| Traverser.TraverseDict | msprechecker/msprechecker/utils/traverser.py:40-44 | Each child of a dict is queued exactly once, under its extended path, behind what was queued before. |
| Traverser.TraverseList | msprechecker/msprechecker/utils/traverser.py:46-50 | The same for the items of a list, in order. |
| Traverser.FlattenedIff | msprechecker/msprechecker/utils/traverser.py:20-50 | The table holds exactly the non-root positions, each under its own path with its own node, if and only if every non-root position has a non-empty path and those that share a path hold equal nodes. |
| Traverser.TraversalIsFaithful | msprechecker/msprechecker/utils/traverser.py:20-50 | That is so when no key is empty or has a `.` or `[`. |
| Traverser.DottedKeyLosesANode | msprechecker/msprechecker/utils/traverser.py:40-44 | One way to fail: a dotted key that spells the path of another position with a different node. |
| Positions.RenderInjective | msprechecker/msprechecker/utils/traverser.py:40-50 | Different positions have different rendered paths, when no key is empty or has a `.` or `[`. |
| Positions.FrontierStep | msprechecker/msprechecker/utils/traverser.py:28-36 | Taking the first position from the queue and queueing its children never visits a position twice. |
| Positions.ByDepthStep | msprechecker/msprechecker/utils/traverser.py:28-36 | The queue stays in the order of depth, spans at most two depths, and nothing deeper than its head has been visited. |
| NodeChecker.NodeChecker.Check | msprechecker/msprechecker/checkers/base.py:138-149 | For any document, any variables and any rules whose keys do not end in a percent sign: every reached `expected` node is evaluated exactly once, against what the flattened and overridden table has under its wanted path or None, nodes nearer to the root first, the errors recorded are those of these evaluations in order, and the table ends as it was but for the placeholders. When a block raises, the walk ends there, with all errors kept that were recorded before, by that block too. |
| NodeChecker.ReportsAccount | msprechecker/msprechecker/checkers/base.py:165-180 | Over a whole log: the errors recorded are, evaluation by evaluation in their order, the block's own and exactly one more for each that fails. |
| NodeChecker.ChecksAreOutermost | msprechecker/msprechecker/checkers/base.py:156-163 | What is checked: exactly the outermost nodes with an `expected` entry. |
| NodeChecker.NodeChecker.ValidateNodes | msprechecker/msprechecker/checkers/base.py:151-163 | The same from any table whatever: the queue walk terminates, every lookup is defined, and it stops early only when a block raises or the root itself is a check without an entry. |
| NodeChecker.NodeChecker.Visit | msprechecker/msprechecker/checkers/base.py:156-163 | One turn of the loop keeps what every queued rule will find in the table. |
| NodeChecker.NodeChecker.ValidateExpect | msprechecker/msprechecker/checkers/base.py:165-180 | The block is evaluated on the table. If it passes, nothing but its own errors is recorded; if it fails, exactly one more, with the path, what is asked for, what was found or `<missing>` for None, and the reason and severity of the node before those of the block. What a block records before it raises stays recorded. |
| NodeChecker.NodeChecker.Note | msprechecker/msprechecker/checkers/base.py:327-329 | A missing path gets a percent sign and a None entry; a present one changes nothing. |
| NodeChecker.NodeChecker.ValidateDict | msprechecker/msprechecker/checkers/base.py:324-330 | The children of a rule dict are each queued once, under a path that is in the table and holds what the original table has under the wanted path, or None. |
| NodeChecker.NodeChecker.ValidateList | msprechecker/msprechecker/checkers/base.py:332-338 | The same for the items of a rule list. |
| NodeChecker.ChildLookup | msprechecker/msprechecker/checkers/base.py:324-338 | The lookup of a child succeeds if and only if the original table has its wanted path, whatever placeholders have been made, and the placeholder made otherwise changes nothing that any rule is looked up under. |
| NodeChecker.HoldsGrows | msprechecker/msprechecker/checkers/base.py:324-338 | What a rule finds in the table stays what it finds there, whatever is queued later. |
| NodeChecker.OriginalsKept | msprechecker/msprechecker/checkers/base.py:327-329 | An original entry is never changed, unless its own path ends in a percent sign. |
| DocumentLookup.LookupExact | msprechecker/msprechecker/checkers/base.py:138-163 | What a rule is checked against, for arbitrary keys in document and rules: None unless its path and those of all rules above it are in the table; otherwise the variable its path names, or the node of some document position with its path. |
| DocumentLookup.DeepestIsFound | msprechecker/msprechecker/checkers/base.py:138-163 | Where several positions of the document share the path of a rule that names no variable, it is checked against the node of a deepest of them. |
| DocumentLookup.RelativeReferences | msprechecker/msprechecker/utils/macro_expander.py:59-78 | From the rule at a position of nested keys, `.c` is the path of the position below it and `..c` that of the position beside it, as the document walk writes them. |
| DocumentLookup.LookupMeaning | msprechecker/msprechecker/checkers/base.py:138-147 | For document keys without dots and brackets, and any rule keys: the variable its path names, if the rules above it are in the table too; otherwise the node of the one document position with its path; and None if there is none. |
| DocumentLookup.StructuralLookup | msprechecker/msprechecker/checkers/base.py:138-163 | For arbitrary keys: a rule that names no variable is checked against the document's value at the very same position, or None, as soon as no other position has its path with another node. |
| DocumentLookup.FilesAreTold | msprechecker/msprechecker/commands/coordinator.py:224-240 | In a document of several files under dotted names, none of which continues another with a separator, no other position has the path of a rule for one of the files. |
| DocumentLookup.FileLookup | msprechecker/msprechecker/commands/coordinator.py:224-245 | So a rule for a file, such as one under `conf/ms_coordinator.json`, is checked against the value at its own position, or None. |
| DocumentLookup.SamePathUnique | msprechecker/msprechecker/utils/traverser.py:40-50 | At most one position has a given path, when document keys have no dots and brackets. |
| DocumentLookup.OwnPathListed | msprechecker/msprechecker/utils/traverser.py:20-50 | A position of the document is in the table together with all positions above it, whatever the keys. |
| DocumentLookup.VariableIsChecked | msprechecker/msprechecker/checkers/base.py:138-147 | A rule at the top whose key names a variable checks that variable. |
| DocumentLookup.BracketKeyIsItem | msprechecker/msprechecker/checkers/base.py:324-338 | A rule key that ends in an index in brackets has the path of the list item. |
| DocumentLookup.AllAboveListed | msprechecker/msprechecker/utils/traverser.py:20-50 | When the document has a position with a rule's path, the table has the paths of all rules above it. |
| DocumentLookup.CutAtSep | msprechecker/msprechecker/utils/traverser.py:40-50 | A position's path, cut in front of any separator, is the path of a shorter position. |
| RulePaths.StripMarked | msprechecker/msprechecker/checkers/base.py:327-329 | Deleting the percent signs from a lookup path recovers the rendered rule path, whatever the table holds. |
| RulePaths.FoundIffListed | msprechecker/msprechecker/checkers/base.py:324-338 | In a table without percent signs a rule is found if and only if its rendered path and those of all rules above it are in the table, and then it is looked up under its rendered path. |
| RulePaths.MarkedInjective | msprechecker/msprechecker/checkers/base.py:324-338 | Different rule positions are looked up under different paths, when no rule key is empty or has a dot, bracket or percent sign. |
| Comparator.Table.Flatten | msprechecker/msprechecker/comparators/__init__.py:27-45 | The stack loop terminates; afterwards a file's entries are exactly the scalars of its tree under their paths, with list indices counted from the end and the device-id value whole, and no other file's entries have changed. |
| Comparator.EntryIff | msprechecker/msprechecker/comparators/__init__.py:27-45 | Which nodes become entries: exactly the scalars and the values under the key `npuDeviceIds`, which are taken whole, and nothing inside these. |
| Canonical.CanonDecides | msprechecker/msprechecker/comparators/__init__.py:27-45 | Injectivity of the flatten, exactly: two trees have the same flat form if and only if they have the same canonical form, in which parts that hold no scalar are dropped. |
| Canonical.CanonOfFull | msprechecker/msprechecker/comparators/__init__.py:27-45 | A tree without empty containers is its own canonical form. |
| Canonical.NothingContributes | msprechecker/msprechecker/comparators/__init__.py:33-45 | A tree writes no entry at all if and only if its canonical form is the empty dict. |
| Compare.AnyReferenceDecides | msprechecker/msprechecker/comparators/__init__.py:69-75 | Whichever file's value is taken as the reference, the test says whether all files have the path with equal values. |
| Compare.Compare | msprechecker/msprechecker/comparators/__init__.py:77-97 | The flat report, over all files and sections: a path is reported if and only if two files disagree on it or one lacks it, with every file's value, or the text `missing` where a file lacks it. |
| NestedReport.CompareNested | msprechecker/msprechecker/comparators/__init__.py:77-102 | The report as it is handed on, for dumps whose differing paths are keys and do not begin one another, whatever lists and dicts they agree on: each section's nested dicts hold exactly the flat differences. |
| NestedReport.NestedListsLosslessIff | msprechecker/msprechecker/comparators/__init__.py:77-102 | For dumps whose files agree on what is a list and what a dict on the way to their differences, lists included: nesting a section raises nothing in any order of the rows, and every row is found in the nested report if and only if no two differing paths go on below the same item of a list. |
| ListNesting.RowFoundIff | msprechecker/msprechecker/comparators/__init__.py:48-66 | After any insertions in any order, a row is found if and only if no later path goes on below an item of a list that the row lies in. |
| ListNesting.LosslessIff | msprechecker/msprechecker/comparators/__init__.py:48-66 | All rows are found if and only if no two paths go on below the same item of a list. |
| ListNesting.PutElsewhere | msprechecker/msprechecker/comparators/__init__.py:51-64 | What one insertion does to every other row: it is gone exactly when both paths go on below one list item, because an index is never found in a list. |
| ListNesting.FirstOfTwoIsLost | msprechecker/msprechecker/comparators/__init__.py:53-64 | Of two differing keys in one list item only the one inserted last is handed on. |
| NestedReport.NestedReportEmptyIff | msprechecker/msprechecker/comparators/__init__.py:77-102 | That report is empty in every section if and only if all files have the same canonical tree in every section. |
| NestedReport.NestedEmptyIff | msprechecker/msprechecker/comparators/__init__.py:87-97 | A section's nested dicts are empty exactly when it has no differences. |
| Compare.DifferencesAreDisagreements | msprechecker/msprechecker/comparators/__init__.py:87-97 | The filter of one section, in both directions. |
| Compare.NothingReportedIff | msprechecker/msprechecker/comparators/__init__.py:77-97 | Nothing is reported if and only if in every section all files have the same canonical tree, for any number of dumps. |
| Compare.NothingReportedIffEqual | msprechecker/msprechecker/comparators/__init__.py:77-97 | For dumps without empty containers: nothing is reported if and only if all files have the same sections with equal trees. |
| Compare.EmptyContainerIsInvisible | msprechecker/msprechecker/comparators/__init__.py:33-45 | That condition is needed: a dict with an additional empty dict in it is not told from one without. |
| Unflatten.Unflatten | msprechecker/msprechecker/comparators/__init__.py:48-66 | From any prefix-free table of key paths, in any order of insertion, the loop builds nested dicts that hold each value at its path, no other value, and no dict that is on the way to none. |
| Unflatten.Insert | msprechecker/msprechecker/comparators/__init__.py:51-64 | One entry in place: the dicts on the way are found or made, and everything stored before stays. |
| Unflatten.Descend | msprechecker/msprechecker/comparators/__init__.py:53-63 | One step down, making the dict if it is missing. |
| Unflatten.UnflattenRebuilds | msprechecker/msprechecker/comparators/__init__.py:48-66 | Unflattening undoes flattening for trees of non-empty dicts. |
| Unflatten.LeavesArePrefixFree | msprechecker/msprechecker/comparators/__init__.py:48-66 | The leaf paths of any tree of dicts meet the condition of the loop. |
| Unflatten.FlattenWritesLeaves | msprechecker/msprechecker/comparators/__init__.py:27-45 | On such trees the comparator's flatten writes exactly the leaves. |
| Permutations.PermutationCache.GetAllPermutations | msmodelslim/ascend_utils/common/utils.py:28-49 | Over any sequence of calls, cached or not, small or large, the result is that of the uncached recursion, filled slots stay as they are, and negative sizes raise. |
| Permutations.PermutationCache.Generate | msmodelslim/ascend_utils/common/utils.py:85-90 | The generator, run to its end on the memoised smaller lists, yields the uncached recursion's sequence and leaves the cache valid. |
| Permutations.Insertions | msmodelslim/ascend_utils/common/utils.py:87-90 | The inner loop yields the insertions of the new number at every place, in order. |
| Permutations.PermsAreAllPermutations | msmodelslim/ascend_utils/common/utils.py:28-49 | For every n the list holds each permutation of 0, ..., n - 1, nothing else, none twice, and n! in all. |
| Permutations.EntryAt | msmodelslim/ascend_utils/common/utils.py:28-49 | The order of the list: in entry k the largest number stands at place k modulo n, and the rest is entry k divided by n of the list for n - 1. |
| Combinations.GetAllCombinations | msmodelslim/ascend_utils/common/utils.py:52-82 | The loop terminates, and the k-th vector yielded is the little-endian mixed-radix numeral of k, for k below the product of the counts. |
| Combinations.CarryLoop | msmodelslim/ascend_utils/common/utils.py:75-82 | The carry in place adds one to the number the vector stands for, or reports that it was the last. |
| Combinations.FastStep | msmodelslim/ascend_utils/common/utils.py:71-73 | The first-digit fast path does what the carry loop would do. |
| Combinations.RankInjective | msmodelslim/ascend_utils/common/utils.py:67-82 | A vector in range is determined by its number. |
| Combinations.RankBound | msmodelslim/ascend_utils/common/utils.py:67-82 | The numbers of vectors in range lie below the product of the counts. |
| Combinations.EachVectorOnce | msmodelslim/ascend_utils/common/utils.py:52-82 | Each vector in range is yielded exactly once, at the place its numeral says. |
| Combinations.FirstDigit | msmodelslim/ascend_utils/common/utils.py:70-73 | The first digit of the k-th vector is k modulo its count, and the others are the numeral of the quotient. |
| Combinations.AllCombinationsIff | msmodelslim/ascend_utils/common/utils.py:53-63 | The result is every vector below the counts, as the documentation says, if and only if no count is zero or negative; such a digit is yielded as 0. |
| Bits.FieldOr | msmodelslim/example/ms_to_vllm.py:76 | Extracting a field commutes with or, for all numbers. |
| Bits.OrIsSum | msmodelslim/example/ms_to_vllm.py:38-76 | Or with a number shifted above the other is their sum. |
| PackedWords.OrIsSumWord | msmodelslim/example/ms_to_vllm.py:38-76 | A whole word of fitting fields is the same whether they are or-ed or summed. |
| PackedWords.UnpackWord | msmodelslim/example/ms_to_vllm.py:38-79 | Every field that fits is read back from the packed word, after its reinterpretation as a signed one. |
| PackedWords.SignedWord | msmodelslim/example/ms_to_vllm.py:38-79 | A packed word is a signed 32-bit number, congruent to the number that its entries spell as digits. |
| Bits.ToInt32Is | msmodelslim/example/ms_to_vllm.py:44-79 | The reinterpretation gives the one signed 32-bit number that is congruent modulo 2 to the power of 32. |
| PackedWords.OnesStay | msmodelslim/example/ms_to_vllm.py:99 | A field or-ed with all ones stays all ones, whatever else is or-ed into the word. |
| Gptq.ToFieldFits | msmodelslim/example/ms_to_vllm.py:124-127 | Clamp and offset put every entry into its field: x + half in the signed range, 0 below it and the largest field above it. |
| Gptq.GptqQweightPack | msmodelslim/example/ms_to_vllm.py:66-81 | The loop never reads out of range, and each word is the or of its group of rows, as a signed 32-bit word: modulo 2 to the power of 32 the number that its entries spell with base 16 or 256. |
| Gptq.PackRow | msmodelslim/example/ms_to_vllm.py:75-76 | The inner loop, on one row of words in place. |
| Gptq.QweightRoundTrip | msmodelslim/example/ms_to_vllm.py:66-81 | Unpacking gives back every entry of rows 0 up to the last complete group of 32. |
| Gptq.GptqQzerosPack | msmodelslim/example/ms_to_vllm.py:84-105 | The caller's zero points are decremented in place, and each word is the or of its group of columns, as a signed 32-bit word: where no decremented entry is negative, the number that they spell, modulo 2 to the power of 32. |
| Gptq.PackCol | msmodelslim/example/ms_to_vllm.py:98-99 | The inner loop, on one column of words in place. |
| Gptq.ZeroDecodesIff | msmodelslim/example/ms_to_vllm.py:91-105 | For each single zero point: it is decoded as it was if and only if it was not 0, and it is 2 to the power of the width or no field below it in its word was 0. |
| Gptq.ZeroDecodes | msmodelslim/example/ms_to_vllm.py:91-105 | A zero point of at least 1 in a matrix without zeros is decoded as it was, as the field plus one. |
| PackedWords.FieldOfWord | msmodelslim/example/ms_to_vllm.py:91-99 | Each field of a word or-ed from fitting entries and all-ones entries: all ones from the lowest such entry on, and its own entry below. |
| Gptq.MinusOneDecodesWrong | msmodelslim/example/ms_to_vllm.py:91-99 | A zero point of 0 is decoded as 2 to the power of the width, whatever stands beside it. |
| Gptq.QzerosRoundTripIff | msmodelslim/example/ms_to_vllm.py:84-105 | All zero points of complete groups are decoded as they were if and only if none of them was 0. |
| Awq.PackedNibble | msmodelslim/example/ms_to_vllm.py:29-45 | Nibble k of a packed word is the low nibble of entry k of its group, for any entries. |
| Awq.AwqNibble | msmodelslim/example/ms_to_vllm.py:26-57 | With the AWQ order, nibble k of each word is entry 0, 2, 4, 6, 1, 3, 5, 7 of its group, for k from 0 to 7. |
| Awq.AwqRoundTrip | msmodelslim/example/ms_to_vllm.py:26-57 | Unpacking and the reverse order restore every 4-bit matrix whose column count is a multiple of 8. |
| Awq.RegroupUndone | msmodelslim/example/ms_to_vllm.py:54-57 | Regrouping by an order and by one that undoes it changes nothing, for any order. |
| Awq.OrderSuitsFourBits | msmodelslim/example/ms_to_vllm.py:48-62 | For every width from 1 to 32 and every matrix with entries: the AWQ order is accepted if and only if the weights are four-bit ones that divide into words of eight; an IndexError is raised if and only if the width is greater and the entries divide into its words, as eight-bit ones do in fours; otherwise a view raises another error. A matrix without entries comes back as it is. |
| Awq.OrdinalOrderIsIdentity | msmodelslim/example/ms_to_vllm.py:25-57 | The ordinal order leaves every entry where it is. |
| Awq.AwqWordIsGptqWord | msmodelslim/example/ms_to_vllm.py:25-79 | With entries in their order, the AWQ sum of shifts is the word that the GPTQ loop builds by or-ing the same nibbles. |
| Awq.AwqWordIsNumber | msmodelslim/example/ms_to_vllm.py:29-45 | Each packed word is the signed 32-bit number that the low nibbles of its eight entries spell with base 16. |
| Sharding.ShardWriter.AddTensors | msmodelslim/msmodelslim/tools/add_safetensors.py:84-137 | The whole loop: the shards concatenated are copies of exactly the tensors whose names do not have `weight_scale_inv` in them, in the order of the names, converted with the scale of their module where that is listed and stored, and counted with their stored size; each shard fits the limit by that size or holds one tensor, none is empty, the files are numbered from 1, index and description are those of the shards, and the total grows by the exact sum; it raises a KeyError if and only if such a tensor is missing. |
| Sharding.EntriesAreCopies | msmodelslim/msmodelslim/tools/add_safetensors.py:94-107 | The selection behind it, by induction over the names: which names are copied, in which order, and when one is missing. |
| Sharding.WroteMeans | msmodelslim/msmodelslim/tools/add_safetensors.py:112-135 | Every tensor in a shard is described as `FLOAT`, every other description is as it was, and file k has number k. |
| Sharding.ShardWriter.AddEntry | msmodelslim/msmodelslim/tools/add_safetensors.py:110-125 | One tensor: the open shard is closed first exactly when the tensor does not fit behind it. |
| Sharding.ShardWriter.CloseCurrent | msmodelslim/msmodelslim/tools/add_safetensors.py:128-135 | The open shard is written and recorded like the others. |
| Sharding.ShardWriter.SaveShard | msmodelslim/msmodelslim/tools/add_safetensors.py:112-119 | A shard is written under the next number, and all its names are recorded in the index and in the description. |
| Sharding.HalfTheShardsAreFull | msmodelslim/msmodelslim/tools/add_safetensors.py:110-125 | With two or more shards, half their number (rounded down) times the limit is less than what they hold. |
| Sharding.LessThanTwiceOptimal | msmodelslim/msmodelslim/tools/add_safetensors.py:110-125 | Any other placement of the same tensors into files within the limit needs more than half as many files. |
| Sharding.NeighboursExceed | msmodelslim/msmodelslim/tools/add_safetensors.py:110-125 | Two neighbouring shards together always exceed the limit. |
| Sharding.IndexIsRight | msmodelslim/msmodelslim/tools/add_safetensors.py:117-135 | The index sends every written tensor to the file of the shard that holds it, and leaves every other name as it was. |
| Sharding.ShardsOfListed | msmodelslim/msmodelslim/tools/add_safetensors.py:84-125 | No name is in two shards when no name is listed twice. |
| Sharding.EntriesListed | msmodelslim/msmodelslim/tools/add_safetensors.py:85-99 | Names taken from a dict's keys are listed once, and all come from the index. |
| Sharding.FileNamesDistinct | msmodelslim/msmodelslim/tools/add_safetensors.py:112 | Different numbers make different file names. |
| HookManager.RunKeepsInvariant | msmodelslim/msmodelslim/utils/hook_utils.py:64-148 | After any run of adding hooks, restoring one target and restoring all: a hooked attribute is the one wrapper over the function that was there at the start, every other attribute is as it was, both tables of targets have the same keys, and only hooked targets have hooks. |
| HookManager.HooksAreExpected | msmodelslim/msmodelslim/utils/hook_utils.py:64-92 | After any run an existing attribute has exactly the hooks added since it was last restored, in their order, and it is hooked if and only if it has some. |
| HookManager.ExpectedInOrder | msmodelslim/msmodelslim/utils/hook_utils.py:43-92 | Which hooks these are, by the places of the steps: exactly the hooks of this kind added to the target with no restore of it behind them, in the order of the steps. |
| HookManager.RestoreAllIsStart | msmodelslim/msmodelslim/utils/hook_utils.py:82-85 | From any reachable state, restoring all gives back exactly the initial attributes and empty tables. |
| HookManager.CallUsesExpected | msmodelslim/msmodelslim/utils/hook_utils.py:111-148 | A call of any attribute after any run, whatever its hooks do: the call of the function that was there at the start, wrapped in exactly the hooks added since the last restore, or in none. |
| HookManager.CallAfterRun | msmodelslim/msmodelslim/utils/hook_utils.py:111-146 | With hooks that do not raise, but may change the arguments for one another: the before-hooks in order, the original with the caller's arguments, then the fold of the after-hooks over its result, or all error-hooks and the original's exception again. |
| HookManager.RaisingBeforeHook | msmodelslim/msmodelslim/utils/hook_utils.py:130-131 | A before-hook that raises on the arguments that reach it: the later hooks and the original are not run, and its exception goes out. |
| HookManager.RaisingLaterHook | msmodelslim/msmodelslim/utils/hook_utils.py:133-146 | An after-hook that raises makes the call raise although the original returned; an error-hook that raises replaces the original's exception; no later hook is run. |
| HookManager.StaleWrapperIsTransparent | msmodelslim/msmodelslim/utils/hook_utils.py:111-148 | A wrapper kept past a restore and not hooked again behaves as the function it wraps. |
| HookManager.HookManager.Invoke | msmodelslim/msmodelslim/utils/hook_utils.py:111-146 | The wrapper's three loops: the first hook that raises ends the call, and an error-hook's exception replaces the original one. |
| HookManager.LoopBefore | msmodelslim/msmodelslim/utils/hook_utils.py:130-131 | The loop over the before-hooks, left at the first that raises. |
| HookManager.LoopAfter | msmodelslim/msmodelslim/utils/hook_utils.py:143-146 | The loop over the after-hooks, each given the result of the one before. |
| HookManager.LoopError | msmodelslim/msmodelslim/utils/hook_utils.py:138-139 | The loop over the error-hooks, all given the original exception. |
| HookManager.HookManager.WrapTarget | msmodelslim/msmodelslim/utils/hook_utils.py:96-148 | The original is recorded and replaced by its wrapper; a missing attribute raises and nothing has changed. |
| HookManager.HookManager.AddBeforeHook | msmodelslim/msmodelslim/utils/hook_utils.py:43-48 | Tables and attributes become those of the step in the run theorems; it raises exactly for a missing attribute that is not hooked. |
| HookManager.HookManager.AddAfterHook | msmodelslim/msmodelslim/utils/hook_utils.py:50-55 | The same for after-hooks. |
| HookManager.HookManager.AddErrorHook | msmodelslim/msmodelslim/utils/hook_utils.py:57-62 | The same for error-hooks. |
| HookManager.HookManager.RestoreTarget | msmodelslim/msmodelslim/utils/hook_utils.py:64-80 | Attribute put back and all entries of the target dropped, or nothing if it is not hooked. |
| HookManager.HookManager.RestoreAll | msmodelslim/msmodelslim/utils/hook_utils.py:82-85 | The loop over a copy of the keys restores all targets, whatever their order. |
| FunctionHijacker.RunIsIntended | msmodelslim/msmodelslim/utils/function_hijacker.py:48-84 | After every run of hijacks, repeated hijacks and restores, attributes and tables are exactly what the steps intend: one wrapper over the initial function with the latest replacement since the last restore, and everything else untouched. |
| FunctionHijacker.LatestIff | msmodelslim/msmodelslim/utils/function_hijacker.py:48-84 | The replacement in force is the one of a hijack of the target behind which no step hijacks or restores it. |
| FunctionHijacker.OneLayer | msmodelslim/msmodelslim/utils/function_hijacker.py:52-66 | A hijacked attribute has exactly one layer more than the function that was there at the start; wrappers never pile up. |
| FunctionHijacker.OthersUntouched | msmodelslim/msmodelslim/utils/function_hijacker.py:48-78 | Steps on other targets do not change an attribute. |
| FunctionHijacker.RestoreAllIsStart | msmodelslim/msmodelslim/utils/function_hijacker.py:80-84 | From every reachable state, restoring all gives back the initial attributes and empty tables. |
| FunctionHijacker.OriginalIsKnown | msmodelslim/msmodelslim/utils/function_hijacker.py:86-88 | Asking for the original gives the initial function exactly while a replacement is in force. |
| FunctionHijacker.FunctionHijacker.HijackFunction | msmodelslim/msmodelslim/utils/function_hijacker.py:48-66 | First and repeated hijack in place, and the missing attribute that raises before anything has changed. |
| FunctionHijacker.FunctionHijacker.RestoreFunction | msmodelslim/msmodelslim/utils/function_hijacker.py:68-78 | One target put back, or nothing. |
| FunctionHijacker.FunctionHijacker.RestoreAll | msmodelslim/msmodelslim/utils/function_hijacker.py:80-84 | The loop over a copy of the keys restores all targets, whatever their order. |
| ContextHierarchy.StackIsOpenLinesIff | msprechecker/msprechecker/collectors/config.py:35-46 | For any text: the stack is the increasing list of the lines with an unclosed bracket after every line, if and only if every line is proper: one that leaves a bracket of its own unclosed closes no open line completely and ends deeper than the innermost of them did; one that leaves none changes no depth or closes exactly one open line. |
| ContextHierarchy.OpenIff | msprechecker/msprechecker/collectors/config.py:69-77 | A line has an unclosed bracket, character by character, if and only if it ends above its lowest depth and no later line comes down to that depth. |
| ContextHierarchy.OpenAfter | msprechecker/msprechecker/collectors/config.py:69-77 | The open lines after one more line: those whose lowest depth it stays above, and itself if it leaves a bracket of its own unclosed. |
| ContextHierarchy.OneBlockIff | msprechecker/msprechecker/collectors/config.py:35-46 | In a text with at most one block opened or closed net on each line and nothing closed that was not opened: the stack is right after every line if and only if no line closes an earlier block and opens one in its place. |
| ContextHierarchy.ClosedBlockStays | msprechecker/msprechecker/collectors/config.py:37-55 | One way to fail, on a well-bracketed text: after the lines `[`, `{`, `},{` the open lines are 0 and 2, and the context is 0 and 1. |
| ContextHierarchy.StepIsExact | msprechecker/msprechecker/collectors/config.py:37-44 | The same for one line, from a stack that is right: it stays right if and only if the line is proper. |
| ContextHierarchy.OneBlockContexts | msprechecker/msprechecker/collectors/config.py:30-55 | When each line opens one block, or closes one, or neither, stack and context are the open lines, and stack entry j stands at depth j + 1. |
| ContextHierarchy.ContextIsOpenLinesIff | msprechecker/msprechecker/collectors/config.py:48-55 | While all lines are proper, a line's context is the list of the open lines if and only if some line is open, or no line has changed the depth yet; where the last block has closed it stays what it was. |
| ContextHierarchy.StackIncreases | msprechecker/msprechecker/collectors/config.py:35-46 | Whatever the depth changes are, the stack holds earlier lines in increasing order, each deeper than the one below it. |
| ContextHierarchy.StaysWhileDeep | msprechecker/msprechecker/collectors/config.py:40-44 | For any text: a line on the stack stays there as long as every line since ends at least as deep as it did. |
| ContextHierarchy.DepthAtMostInnermost | msprechecker/msprechecker/collectors/config.py:67-77 | For any text: the depth never exceeds the depth after the innermost line with an unclosed bracket, nor 0 when there is none. |
| ContextHierarchy.BuildContextHierarchy | msprechecker/msprechecker/collectors/config.py:30-55 | Both loops: each line's context is the stack after the latest line that changed the depth and left something open. |
| ContextHierarchy.CollectDepths | msprechecker/msprechecker/collectors/config.py:67-93 | Counting brackets character by character gives exactly the depths that the theorems are about. |
| ContextHierarchy.ContextsOfText | msprechecker/msprechecker/collectors/config.py:57-99 | From text to contexts: as long as all lines are proper, the context of a line after which some line is open is the increasing list of the open lines; for texts whose lines each open one block, or close one, or neither, that holds throughout. |

## Left out

- File, network and device access, command lines, logging, colours and banners: no part of the model.
- `evaluate` and `expand` on lists and dicts: element-wise recursion over containers, with nothing to prove beyond the string case.
- Scanner: ASCII only. Digits, word characters and blanks of other scripts, which the pattern also accepts, are not modelled; `float` parsing, the `str` of floats and containers, and the `repr` of strings that need escapes are parameters.
- Evaluator: floats are exact reals, so rounding, infinities and NaN are not modelled.
- NodeChecker.NodeChecker.ValidateExpect: evaluating a block (`_process_block`, with the `absent` and `present` keywords, search blocks and the nesting budget) is a parameter that may return anything or raise; errors that a search block adds, also before it raises, are part of its result.
- NodeChecker.NodeChecker.Check: the built-in and reference variables are a parameter; how they are computed (`_get_builtins`, `_get_temp_variables`) is not modelled. Rule keys that end in a percent sign are excluded: whether such a key is found can depend on the order of its siblings, because it can spell the placeholder of one of them.
- DocumentLookup.LookupMeaning: document keys that are empty or have a dot or a bracket are excluded here; `DocumentLookup.LookupExact`, `DocumentLookup.StructuralLookup` and `DocumentLookup.FileLookup` cover them.
- DocumentLookup.LookupExact: percent signs in document keys and variable names are excluded, because they spell placeholders; for them the table is characterised by `Traverser.Traverse` and the walk over it by `NodeChecker.NodeChecker.Check`.
- Comparator: two scalars are equal when they are the same value; Python's equality across types (`True == 1 == 1.0`) is not modelled.
- NestedReport.CompareNested: differing paths with list indices, and differing paths that run through another file's scalar, are excluded here; `Compare.Compare` covers them in flat form, and `NestedReport.NestedListsLosslessIff` the indices.
- NestedReport.NestedListsLosslessIff: nesting with lists is modelled on values, not in place, with each row opaque; paths that run through another file's row, or on which one file has a list and another a dict, are excluded.
- Permutations.PermutationCache.GetAllPermutations: cached lists are values here; a caller who changes a returned list in place would change the cache in the original. Generators are run to their end.
- Gptq.GptqQweightPack: widths other than 4 and 8 are excluded, because the loop does not end for them; inputs are matrices of integers, so the dtype conversions and the error for fewer than two dimensions are not modelled. Rows and columns beyond the last multiple of 32 are not packed by the code.
- Awq.AwqPack: only the column direction is modelled, for column counts the view into words accepts (positive multiples of 8); packing of 8-bit weights is not, since their order raises first.
- Sharding.ShardWriter.AddTensors: written files are recorded in a list; reading files, the prefix filter, umask and the final dump of the two JSON files are not modelled. Dequantisation is a parameter.
- HookManager: hooks that themselves add or restore hooks, writes to the attributes from elsewhere, the reuse of object identities and inherited attributes are not modelled; a target is a pair of container and name. Exceptions that are not `Exception` (an interrupt) skip the error-hooks and are not modelled.
- HookManager.CallAfterRun: stated for hooks that do not raise; `HookManager.CallUsesExpected` and `HookManager.HookManager.Invoke` cover all hooks.
- FunctionHijacker: how the wrapper hands arguments to the replacement is not modelled; the same limits on containers apply.
- ContextHierarchy.CollectDepths: the parent-key and key-location heuristic and the parsing of the file as JSON are not modelled.
- Other parts of the two tools (rank tables, version ordering, metrics, dependency lists) would only add easy members.
