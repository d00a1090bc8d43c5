# the-super-tiny-compiler-go, modelled in Dafny

The compiler turns a Lisp-style call expression such as `(add 2 (sub 3 4))` into C-style call
syntax, `add(2,sub(3,4));`. It does this in four stages, all in `main.go`, and each stage is
modelled in its own Dafny module:

| stage | Go | Dafny |
|---|---|---|
| tokenizer | `tokenizer` | `tokens.dfy`, module `Tokens` |
| parser | `walk`, `parser` | `parser.dfy`, module `Parsing` |
| traversal and transformer | `traversalNode`, `traversalArray`, `traversal`, `transformer` | `transformer.dfy`, module `Transform` |
| code generator | `codeGenerator` | `generator.dfy`, module `Generation` |
| the pipeline in `main` | `main` | `compiler.dfy`, module `Compiler` |
| reading the output back | (none) | `reader.dfy`, module `Reading` |

`Reading` has no counterpart in the Go program. It is a reader for the generated C-style text,
used only to prove that the intended output determines the program.

`results.dfy` holds the `Result` and `Option` types, and `ast.dfy` holds the two trees: the
parser's `Node` (module `SourceAst`) and the transformer's `NodeNew` (module `TargetAst`).

Each stage that works by stepping an index or by mutating state is a Dafny method with that
shape:

- `Tokens.Tokenizer` is the outer scanning loop.
- `Parsing.Walk` and `Parsing.Parser` are the parsing loops.
- `Transform.TransformState` is a class whose fields are the global visitor map and the output
  slices. Its methods are the traversal.
- `Generation.CodeGenerator` builds strings in loops.

Each of these methods is proved equal to a recursive function that states what it computes:
`Lex`, `ParseNode`/`Parse`, `Lower` and `Emit`. The properties are proved as lemmas about
those functions.

The transformer's `_context` pointers are modelled as an arena:

- Slice 0 is `astNewBody`, the root's `_context`.
- Every call visitor allocates one new slice for its `arguments`.
- A stored call records the index of its `arguments` slice.
- Each visitor appends to its parent's slice.

`Transform.EmitProgramLowers` proves that this arena, read through the indices, is
`Transform.Lower` of the source tree.

Fatal paths become `Fail` results:

- `log.Fatalf` in the tokenizer gives `UnknownCharacter`.
- `log.Fatalf` in `walk` gives `UnknownToken`.
- Reading past the end of the input gives `InputExhausted`.
- Reading past the end of the tokens gives `TokensExhausted`.

## Model

| member | source | states |
|---|---|---|
| Tokens.Tokenizer | main.go:48-125 | the scanner's result is `Lex` of the input: the tokens in input order, or the failure of the first pass that fails |
| Tokens.ScanToken | main.go:52-122 | one pass of the outer loop does what `ScanOne` says for the character at `current`: one paren token, nothing for whitespace, a run or literal token, or a failure |
| Tokens.ReadWhile | main.go:78-82 | the inner loop stops at the end of the maximal run and returns exactly the run's characters; it reports reading past the end exactly when the run reaches the end |
| Tokens.LexParenAndSpace | main.go:53-74 | `(` and `)` each give one paren token holding that character, and whitespace gives no token |
| Tokens.LexNumberRun | main.go:76-88 | a maximal digit run gives one number token holding the whole run |
| Tokens.LexStringLiteral | main.go:90-105 | a quoted string gives one string token holding exactly the characters between the quotes, and the closing quote gives no token |
| Tokens.LexNameRun | main.go:108-120 | a maximal letter run gives one name token holding the whole run |
| Tokens.LexWellFormed | main.go:53-120 | every token of a successful scan has its kind's shape: paren `(`/`)`, non-empty digits, non-empty letters, or a string without a quote |
| Tokens.LexLength | main.go:51-123 | a scan gives at most one token per input character |
| Tokens.LexAppend | main.go:51-123 | scanning goes left to right: once a prefix scans, the whole input's tokens are the prefix's tokens followed by the rest's |
| Tokens.LexRejectsUnknown | main.go:122 | a character in no recognised class fails the scan with that character once the scanner reaches it |
| Tokens.LexUnterminatedString | main.go:90-98 | a string literal without its closing quote fails by reading past the end |
| Tokens.LexTrailingRunFails | main.go:76-122 | any input whose last character is a digit or a letter fails |
| Tokens.LexTrailingRunExhausts | main.go:76-120 | an input of recognised characters whose last character is a digit or a letter fails with `InputExhausted`: the run (or unterminated string) holding it reads past the end |
| Tokens.LexSpell | main.go:48-125 | scanning inverts spelling: every list of well-formed tokens, each followed by a space, scans back to exactly that list |
| Parsing.Walk | main.go:127-167 | `walk` at index `start` gives `ParseNode`: a literal, or a call read up to its matching `)`, with the index after it, or the failure |
| Parsing.Parser | main.go:169-182 | `parser` gives `Parse`: the successive top-level expressions in order, an empty program for no tokens, or the first failure |
| Parsing.ParseNode | main.go:127-166 | a successful `walk` returns an index strictly after the one it was given and no further than the end of the tokens |
| Parsing.ParseNodeShape | main.go:127-166 | a literal advances by exactly one token; a call starts at `(`, takes at least three tokens and ends just past a `)`; any other token at entry fails with that token |
| Parsing.ParseArgsShape | main.go:153-161 | the parameter loop stops at a `)`, and an empty parameter list stops where it started |
| Parsing.ParseBodyLength | main.go:176-180 | each top-level expression takes at least one token |
| Parsing.ParseTokensOf | main.go:127-182 | parsing inverts printing: the tokens of any tree parse back to that tree |
| Parsing.ParseRejectsStrayClose | main.go:165 | a `)` where an expression should start fails after any number of complete expressions |
| Parsing.ParseRejectsUnclosed | main.go:153-161 | a call whose `)` never comes fails by running out of tokens |
| Parsing.ParseUncheckedCallee | main.go:140-151 | the token after `(` becomes the callee's name whatever its kind: `( 5 2 )` parses to a call of `5` with the argument `2` |
| Transform.TransformerVisitors | main.go:218-274 | the visitor map `transformer` installs has an entry for every node type the parser makes |
| Transform.TransformState.constructor | main.go:38-44 | the state starts with an empty visitor map and one empty slice, `astNewBody` |
| Transform.TransformState.InstallVisitors | main.go:218-274 | the three visitors are added to the map and no slice changes |
| Transform.TransformState.Enter | main.go:218-271 | a literal visitor appends one literal to the parent's slice; the call visitor allocates a new `arguments` slice, returns it as the node's context, and appends the call to the parent's slice, wrapped in a statement exactly when the parent is not a call |
| Transform.Placed | main.go:258-270 | the call appended is an expression statement exactly when the parent's node type is not "CallExpression" |
| Transform.TransformState.TraversalNode | main.go:184-203 | visiting a node runs its visitor first and then its parameters, leaving the arena as `EmitNode` says |
| Transform.TransformState.TraversalArray | main.go:205-209 | visiting a list visits each node in order under the same parent, leaving the arena as `EmitSeq` says |
| Transform.TransformState.Traversal | main.go:211-213 | the root's body is visited with the root as parent, whose context is slice 0 |
| Transform.EmitNodeResolves | main.go:184-277 | visiting a node appends exactly one item to its parent's slice and changes no other existing slice, and that item resolves to the lowered node |
| Transform.EmitSeqResolves | main.go:205-209 | visiting siblings appends one item per sibling to the parent's slice, in order, and the items resolve to the lowered siblings |
| Transform.EmitProgramLowers | main.go:215-277 | the whole traversal from an empty `astNewBody` builds an arena whose slice 0 resolves to `Lower` of the program |
| Transform.Transformer | main.go:215-277 | `transformer` produces `Lower(ast)` |
| Transform.LowerShape | main.go:258-270 | lowering wraps exactly the top-level calls in expression statements, and calls inside arguments are bare |
| Transform.RaiseLowerNode | main.go:218-270 | lowering loses nothing: literal values, callee names and argument order are recovered from the lowered node |
| Transform.LowerInjective | main.go:215-277 | two programs with the same lowering are equal |
| Generation.CodeGenerator | main.go:279-317 | `codeGenerator` on a node gives `Emit`, the printer as written |
| Generation.CodeGeneratorProgram | main.go:281-286 | `codeGenerator` on the root gives each statement's text followed by a line break |
| Generation.Close | main.go:298-299 | the argument text keeps its length: the last character is replaced by `)` and the rest is unchanged |
| Generation.EmitAgrees | main.go:287-310 | the printer as written gives the intended text on every tree whose calls all have arguments |
| Generation.EmitLinesAgree | main.go:281-286 | the same agreement holds for a program body |
| Generation.EmptyCallMisprinted | main.go:294-299 | a call without arguments prints as `f)` as written and as `f()` as intended |
| Generation.EmitCounts | main.go:290-301 | as written, one `)` per call but only one `(` per call with arguments |
| Generation.GenerateCounts | main.go:287-310 | the intended printer writes exactly one `(` and one `)` per call and no line break |
| Generation.GenerateLinesCount | main.go:281-286 | the intended program text has exactly one line per statement |
| Reading.ReadGenerate | main.go:287-310 | the intended text of a node with well-formed leaves reads back to exactly that node, leaving what follows it untouched, when what follows does not start with a digit |
| Reading.ReadLinesGenerate | main.go:281-310 | the intended text of a list of statements reads back to exactly that list |
| Reading.GenerateLinesInjective | main.go:281-310 | two lists of readable statements with the same intended text are equal |
| Compiler.Compile | main.go:319-325 | the four stages in sequence give `CompiledAsWritten`; the first stage that fails decides the error |
| Compiler.MainCompiles | main.go:320-324 | `(add 2 (sub 3 (test 4 5)))` compiles to `add(2,sub(3,test(4,5)));` and a line break |
| Compiler.CompileSpelled | main.go:48-182 | every program with scannable leaves, spelled as tokens separated by spaces, compiles to the printed text of its lowering |
| Compiler.CompileText | main.go:319-324 | every single call written as in `main`'s input (one space before each parameter, none before `)`) compiles to the printed text of its lowering |
| Compiler.CompiledAgrees | main.go:294-299 | the compiler as written fails exactly when the intended one does, and gives the same text whenever every parsed call has a parameter |
| Compiler.EmptyCallCompiles | main.go:294-299 | `(f)` compiles to `f);` as written and to `f();` as intended |
| Compiler.EmptyCompiles | main.go:169-182 | empty input compiles to empty output |
| Compiler.TrailingNumberFails | main.go:78-82 | `(add 2 3` fails with `InputExhausted` under both the as-written and the intended compiler: the tokenizer's last number run reads past the end before the parser could report the missing `)` |
| Compiler.GeneratedReadsBack | main.go:215-317 | the intended text of a lowered program with scannable leaves reads back to the lowered body |
| Compiler.GeneratedInjective | main.go:215-317 | two programs with scannable leaves whose lowerings print to the same intended text are equal: the output determines the program |

## Left out

- `main`'s printing with `fmt.Println` (main.go:324) is output. `Compiler.Compile` returns the text instead, and its input is a parameter instead of the fixed string.
- `log.Fatalf` ends the process. Here it is a `Fail` result carrying the offending character or token. There is no stage or position in the error.
- Go index-out-of-range panics are `Fail(InputExhausted)` in the tokenizer and `Fail(TokensExhausted)` in `walk`.
- The tokenizer works on bytes, and `unicode.IsSpace`/`IsDigit`/`IsLetter` classify each byte as a code point below 0x100. Each `char` of the input stands for one byte, and the predicates in `Tokens` are those classes for Latin-1.
- Characters above 0xFF stand for no byte of the Go input. Outside a string literal the model rejects them as unknown characters, inside one it keeps them, and lemmas over arbitrary strings (such as `Tokens.LexSpell` and `Compiler.CompileSpelled`) also hold for token values that contain them.
- `string(ch)` re-encodes a byte of 0x80 or above as two UTF-8 bytes in token values. This is not modelled: a token value holds the input characters themselves.
- The globals `visitors` and `astNewBody` persist across calls (main.go:38-44). A second `transformer` call in the same process would append to the first one's output. `Transform.Transformer` starts from a fresh `TransformState`, as `main`'s single call does.
- `codeGenerator`'s Program case iterates the global `astNewBody` (main.go:283), not its argument. `Generation.CodeGeneratorProgram` iterates its argument's body, which is the same slice when called as `main` does.
- The unused global `codeGeneString` (main.go:46), the `exit` callbacks (always nil) and the placeholder `callee: &NodeNew{}` on literal and statement nodes are not modelled.
- The `default` branches of `traversalNode` (main.go:200-201) and `codeGenerator` (main.go:312-313) fail on an unknown node type. The node datatypes have no such variant, so those branches cannot be reached in the model.
- The Program case of `traversalNode` (main.go:191-193) only runs for the root. `Transform.TransformState.Traversal` handles the root, and the root has no visitor.
- `walk` does not check that the token after `(` is a name (main.go:142-149). The model takes its value, whatever its kind, as `Parsing.ParseNode` and `Parsing.Walk` do.
- `Tokens.ScanToken` and `Tokens.ReadWhile` are the scanner loop's body and its three inner loops, factored out of `tokenizer`. `ReadWhile` is shared by the digit, string and letter loops.

## Findings

| source | as written | input that shows it | evidently intended | confidence | as-written member | corrected member |
|---|---|---|---|---|---|---|
| main.go:294-299 | a call's argument text drops its last character before adding `)`; with no arguments that character is the opening `(`, so the call prints as `f)` | `(f)` compiles to `f);` and a line break | `f();` and a line break: a call without arguments prints with `()` | not executed | Generation.EmptyCallMisprinted | Generation.GenerateCounts |
