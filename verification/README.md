# A verified model of the da4qi4 web framework's hard cores

da4qi4 is a C++ web framework. This project models the parts of it that are automata, protocols or compilers, and proves
what they are for:

* **inja templates** - the lexer, the one-pass compiler that fuses pushes and back-patches jumps, and the stack machine
  that renders the bytecode. The centre is: written template source, lexed, parsed and run, prints exactly what a direct
  recursive evaluation of the template's tree prints, and throws exactly when that throws. Where the compiler gets
  `default` wrong, the evaluated tree is not the written one but the one its code amounts to, which is given for every
  expression. What the evaluation itself does is stated by laws of its own: which branch is taken, what the operators, the
  type tests and dotted lookups give, and what a loop's variables are.
* **multipart bodies** - the resumable byte automaton with its lookbehind and re-examined byte, and the connection's
  callbacks. It finds exactly the first `CR LF boundary` although it restarts without a failure function, it delivers the
  same data for every cut of the stream, the same headers for all but the exactly described ones, and written parts come
  back, whatever their header names.
* **HTTP body framing** - the states of the generated HTTP parser from "headers complete" to "message complete", against a
  plain decoder of chunked coding (section 4.1 of RFC 7230) and the framing rules (section 3.3.3 of RFC 7230); the
  response's chunk encoder round trips with the receiver, and so do
  chunks as other senders write them.
* **the logging queue** - a bounded queue with two condition variables and any number of threads, as atomic steps: no
  lost wake-up, nothing lost or reordered, messages dropped exactly by calls that do not wait and find the queue full,
  delivery and flushing at shutdown.
* **URLs** - the two character automata (section 3 of RFC 3986, zone identifiers of section 2 of RFC 6874): a text is
  accepted if and only if it is written in one of the forms a request can ask for, and then exactly its components come
  back.
* **routing and interceptors** - longest-prefix lookup in a map ordered from the greatest key down, and the interceptor
  chain as nested calls.

## How it is organised

A specification module gives each component as functions (`ParserSpec`, `Machine`, `MultipartSpec`, `BodyMachine`,
`UrlSpec`, `Lexing`, ...). Where the source changes state in place there is a class whose methods, with the source's own
loops and fields, are proved equal to those functions (`TemplateParser.Parser`, `Machine.Renderer`,
`MultipartParser.Parser`, `BodyParser.Parser`, `UrlParser.HttpParserUrl`, `TemplateLexer.Lexer`, ...). The theorems are
lemmas about the functions. The modules `TemplateLaws`, `ParserLaws`, `LexerLaws`, `BodyLaws` and `UrlForms`, and the last
parts of `BoundedQueue`, `AsyncLog` and `PrefixMaps`, say what the functions that specifications and methods have in common
compute, in terms of the characters, values and states themselves.

| files | content |
|---|---|
| `Json`, `Bytecode`, `Compiler`, `Swaps`, `Renderer`, `Correctness`, `Discipline`, `Halting` | templates, the code they compile to, the machine, and compiler correctness |
| `TemplateLaws` | what conditions, operators, lookups and loops mean |
| `Breakdowns` | for the template that prints one expression: exactly when it prints its value, and what it does otherwise |
| `Lexer`, `Scanner`, `LexerProofs`, `LexerLaws`, `Parser`, `ParserLaws`, `ParserCorrectness`, `Pipeline`, `SourcePipeline`, `Writer` | from source text to code, and end to end |
| `Buffers`, `Multipart`, `MultipartProofs`, `MultipartCuts` | multipart bodies |
| `Http`, `HttpBody`, `HttpProofs`, `HttpLaws` | digits, chunk encoder, body framing |
| `Queue`, `AsyncLog` | bounded queue and log worker |
| `Url`, `UrlParser`, `UrlFields`, `UrlProofs`, `UrlForms` | URLs |
| `Routing`, `Interceptors` | lookup by prefix, interceptor chain |

`dafny verify dfyconfig.toml` checks everything.

## Where the code does not do what one would expect

* `default(a, b)` swaps the last two instructions, which are those of its two arguments only when both are single. With a
  one-instruction `b` it is right if and only if `a` is a literal or a lookup; otherwise `default` has no operand, and the
  run breaks on all data: it throws before, or reads that operand, which is undefined. With a longer `b` the swap moves the last but one argument `y` of the call
  `b = f(..., y, z)` out of it when that is a literal or a lookup: the code does `default(y, f(a, ..., z))`. So
  `default(x, at(y, 0))` silently prints the value of `y` when both are there (`WrongValue`), and throws when `x` is not
  (`FallbackExact`). If there is no such argument, `default` again has no operand. `Actual` is this for all expressions,
  with misused defaults nested anywhere. For every template without an operandless `default` the run prints the meaning of
  the actual template (`CodeDoesActual`); for every expression the grammar can write and all data on which it has a value,
  `PrintExact` says when the parsed template prints that value, and `DefaultExact` says it for one `default` on two
  expressions that fit.
* A call without arguments merges into a literal push right before it. For every expression the grammar can write whose
  defaults fit, the parsed template prints its value if and only if nowhere an argument that begins with such a call
  follows a literal argument (`NullaryExact`); otherwise the run breaks on all data, or the parse itself is undefined. The
  run throws at the merged call when no such callback is registered, and takes an argument too many from the stack, which
  is undefined, when it is (`CallJams`).
* The comment in `inja/bytecode.hpp:95` calls the argument of a loop start the address after the loop's end; the parser
  stores the address of the end itself, and the renderer relies on that. The model follows the code.
* `truthy` of an empty string is true and of a non-empty array or object throws, because `json::empty` is false for every
  string and `get<bool>` rejects containers (`inja/renderer.hpp:99-114`); `exists` looks only in the root data
  (`inja/renderer.hpp:389-395`).
* A second plain `else` in one `if` indexes the code with the largest unsigned number (`inja/parser.hpp:318-319`); the
  model calls this `Crashes`. The same goes for `default` when the code has fewer than two instructions.
* A multipart message of the closing boundary alone is refused (`NoPartsRefused`).
* A buffer end inside a header name shows in the parser's state exactly if the line ends without a colon or the line
  before had an empty name (`BufferEndShowsExactly`). The first case is forgotten; in the second the finished parts can
  differ: behind a line like `:v`, the name `abcd` cut after `ab` becomes two headers (`NamelessLineShows`, for all names,
  values, boundaries and data). `CutsShowExactly` says for accepted streams when some cut of the stream or of a beginning
  of it shows in what lasts: while header lines are read this counts the line being read as well, past them the filed
  headers, the data and the finished parts. A later line may still cover up the difference, so two cuts can give the same
  parts all the same; that they do whenever no name follows a line without one is `CutsSameParts`.
* An empty body pushed before the last one is sent as the bytes that end the message (`EmptyChunkIsLast`); `WireDecodes`
  says what the receiver then gets.
* The addition check of the chunk size cannot fail after the multiplication check, because 2^64 is a multiple of 16; the
  model keeps both.
* A repeated header name leaves the collected name in place, so that the next name is filed behind it (`RepeatedName`).
* An application whose URL root equals an earlier one, ignoring case, is dropped although adding it succeeds
  (`NewEntryFoundExact`).
* A string in a tag ends at the first quote without a backslash right before it, so one that ends in an escaped backslash
  runs on (`LexerLaws.StringExact`).
* A chunked response, or one with a length, has a body whatever its status, also with 204 or 304; section 3.3.3 of RFC 7230
  gives it none (`ResponseBodyFramed`).
* Several `#` before a fragment are taken for one (`AcceptedExactly`).
* A closing sequence configured as empty lets a scan return a token without moving on, if its opening sequence can be met
  at all (`ProgressExact`, for configurations whose opening sequences are not empty).

## Model

| member | source | states |
|---|---|---|
| `Correctness.CodeDoesActual` | inja/parser.hpp:186-189 | for every template in which no `default` is left without an operand, well used or not: the run of its code halts, prints the meaning of the template it actually amounts to, throws exactly when that meaning throws, and otherwise leaves both stacks empty |
| `Correctness.CompiledMeansTemplate` | inja/renderer.hpp:174-576 | for every template the one-pass scheme fits, the run of its code halts, prints the template's meaning, throws exactly when the meaning throws, and otherwise leaves the operand stack and the loop stack empty; no instruction reads below the stack |
| `Correctness.ExprRuns` | inja/parser.hpp:73-271 | fused post-order code of an expression, run from any state, pushes exactly the value of what the expression actually does on the stack it finds, or throws when that has none |
| `Correctness.RotatedRuns` | inja/parser.hpp:186-189 | `default` behind a fallback of several instructions: the run computes the fallback's call with the first argument in place of the moved one, and leaves the moved one's value when it has one |
| `Swaps.RotatedCode` | inja/parser.hpp:186-189 | what the swap makes of the code: the fallback's call without its last but one push, behind the first argument's code, and that push as the operand of `default` |
| `Swaps.PenultimatePush` | inja/parser.hpp:186-189 | the last instruction but one of a compiled expression is a push if and only if what the expression does is a call whose last but one argument, or unfused last one, is a literal or a lookup, or a `default` with such a fallback |
| `Swaps.FitsExact` | inja/parser.hpp:186-189 | an expression fits, every `default` on a leaf and a fallback whose instructions but the last all push that leaf, if and only if it compiles, its callbacks' arguments can be counted, and what its code does is the expression itself |
| `Correctness.FusedReady` | inja/renderer.hpp:36-67 | a call whose last argument was fused into it finds the same arguments as one that pops them all |
| `Correctness.DefaultFinish` | inja/renderer.hpp:446-459 | `default` leaves the first argument's value when it has one and the fallback below otherwise, and never throws |
| `Correctness.ChainRuns` | inja/renderer.hpp:473-483 | if / else-if / else code takes exactly the branch the conditions choose and ends behind the whole chain |
| `Correctness.IterationsRun` | inja/renderer.hpp:539-570 | from any iteration on, the loop's code renders the remaining iterations in order and restores the outer data |
| `Correctness.LoopFromStart` | inja/renderer.hpp:484-538 | a loop start skips an empty value, throws on one of the wrong kind, and otherwise begins with the first element |
| `Correctness.BodyRuns` | inja/renderer.hpp:174-188 | the code of a body at any address prints what the body means and arrives right behind itself with nothing else changed |
| `Json.EntriesSortedAndComplete` | inja/renderer.hpp:505-511 | a key/value loop meets every member exactly once, in strictly ascending key order |
| `Bytecodes.LoopInfoOverwrites` | inja/renderer.hpp:122-126 | updating the `loop` record of the previous iteration in place is the same as building it afresh |
| `Bytecodes.RebindItem` | inja/renderer.hpp:116-126 | updating the loop data in place for the next element equals binding that element in the original data |
| `Bytecodes.RebindEntry` | inja/renderer.hpp:127-130 | the same for the key and the value of a key/value loop |
| `Compiler.DefaultSwapExact` | inja/parser.hpp:186-189 | swapping the last two instructions yields the intended `default` code if and only if every instruction of the fallback but the last is the push of the first argument |
| `Discipline.TargetsInside` | inja/parser.hpp:282-378 | every jump target lies in the program or right behind it, jumps of conditions go forward, and a loop's start and end name each other; also in code that does not mean its template |
| `Halting.TemplateHalts` | inja/renderer.hpp:174-576 | the run of every template that compiles, whatever its defaults, comes to an end: at the end of the code, with an exception, or in undefined behaviour |
| `Machine.RunSplits` | inja/renderer.hpp:174-180 | running m and then n instructions is running m + n |
| `Machine.Renderer.RenderTo` | inja/renderer.hpp:174-576 | the interpreter loop with its jumps computes the machine's run: same text, same status |
| `Machine.Renderer.Print` | inja/renderer.hpp:181-197 | printing text and values, as the machine's step says |
| `Machine.Renderer.Operand` | inja/renderer.hpp:198-201 | pushing a literal or a lookup, and `default`, as the machine's step says, including the throw for a missing variable |
| `Machine.Renderer.Call` | inja/renderer.hpp:202-472 | a builtin or callback consumes exactly its stack arguments and pushes one result, or throws; a callback that is not registered throws before its arguments are taken |
| `Machine.Renderer.Control` | inja/renderer.hpp:473-570 | jumps, conditional jumps, loop starts and loop ends act on program counter, operand stack and loop stack as the machine's step says |
| `Machine.Renderer.GetArgs` | inja/renderer.hpp:36-58 | the arguments are the top stack values in order followed by the immediate, or the fault of reading it |
| `Machine.Renderer.PopArgs` | inja/renderer.hpp:60-67 | only the stack arguments are removed, not the immediate one |
| `TemplateLaws.TruthExact` | inja/renderer.hpp:99-114 | a condition holds exactly for true, for every text, the empty one included, and for every number but 0; it fails exactly for null, false, 0 and the empty containers; every other container throws |
| `TemplateLaws.BranchTaken` | inja/renderer.hpp:477-483 | a chain with a condition of value true renders its first branch, and one of value false what follows it: the next condition, the else branch, or nothing |
| `TemplateLaws.OtherBranches` | inja/renderer.hpp:477-483 | the same for numbers, texts, null and empty containers; a condition that cannot be judged ends the rendering |
| `TemplateLaws.ChoicePrints` | inja/renderer.hpp:477-483 | the compiled code of `if`, text, `else`, text prints the first text when the condition has the value true and the second when it has the value false, on all data |
| `TemplateLaws.AndOr` | inja/renderer.hpp:312-325 | `and` is true exactly when both arguments are, `or` when the first is or else the second; the second argument is not judged when the first decides |
| `TemplateLaws.NotExact` | inja/renderer.hpp:306-311 | `not` has exactly the opposite truth of its argument, and throws where that has none |
| `TemplateLaws.EqualExact` | inja/renderer.hpp:334-340 | `==` is true exactly for equal values and false for others |
| `TemplateLaws.DifferentIsNotEqual` | inja/renderer.hpp:369-375 | `!=` means `not` of `==`, also where an argument throws |
| `TemplateLaws.InExact` | inja/renderer.hpp:326-333 | `in` is true exactly for the elements of a list and the values of an object, never for null, and on any other value for that value itself |
| `TemplateLaws.ExistsExact` | inja/renderer.hpp:389-403 | `exists` is whether the root data have the member, whatever the current data; `existsIn` whether its first argument does |
| `TemplateLaws.TypeTests` | inja/renderer.hpp:404-445 | each value passes exactly the one test for its type; null passes none |
| `TemplateLaws.OutsideInOrder` | inja/renderer.hpp:202-305 | a builtin of the environment gets its arguments in the order they are written |
| `TemplateLaws.CallbackInOrder` | inja/renderer.hpp:463-472 | so does a callback, if one of that name and number of arguments is registered; otherwise it throws |
| `TemplateLaws.PrintShows` | inja/renderer.hpp:188-197 | a text is printed as it is, any other value as its JSON |
| `TemplateLaws.LookupFollows` | inja/renderer.hpp:21-30 | in either notation a lookup by a path finds the member of the member, the element of the list, and so on, or else asks the callback of that name; an empty last part of a dotted name is dropped |
| `TemplateLaws.EveryNameWritten` | inja/renderer.hpp:21-30 | every name without slashes is such a path in dot notation |
| `TemplateLaws.IndexExact` | inja/renderer.hpp:86-95 | an element of a list is asked for by exactly the decimal text of its index: no sign, no leading zero, nothing behind it |
| `TemplateLaws.ItemBindings` | inja/renderer.hpp:116-126 | in iteration k of n the data hold the k-th item under its name, and under `loop` the values k, k+1, k = 0 and k = n-1 |
| `TemplateLaws.EntryBindings` | inja/renderer.hpp:127-130 | in an iteration over pairs they hold the key and the value |
| `TemplateLaws.ParentLoop` | inja/renderer.hpp:526-531 | the variables of the enclosing loop are found under `loop.parent`, in both kinds of loops |
| `TemplateLaws.OthersStay` | inja/renderer.hpp:484-538 | every other name means in the loop what it means outside |
| `TemplateLaws.BindingsExact` | inja/renderer.hpp:116-130 | an iteration throws exactly when the data, or the `loop` it has to write into, is neither an object nor null |
| `TemplateLaws.ForPrintsAll` | inja/renderer.hpp:539-570 | a loop that prints its item prints all items of the list in order, on all data that can hold its variables |
| `TemplateLaws.PairsPrinted` | inja/renderer.hpp:539-570 | a loop over pairs that prints its key and its item prints them for all pairs in order |
| `TemplateLaws.EachExpression` | inja/parser.hpp:443-494 | a template fits, is sound or compiles if and only if each expression it prints, tests or goes through does; texts, comments and the shape of the blocks do not matter |
| `TemplateLaws.KeyLessExact` | inja/renderer.hpp:510-511 | the order of the keys is that of a dictionary: the first difference decides, and a beginning comes before what it begins |
| `TemplateParser.Parser.ParseExpression` | inja/parser.hpp:73-80 | consumes and emits what the grammar function says: one optional `or` |
| `TemplateParser.Parser.ParseExpressionAnd` | inja/parser.hpp:82-89 | the same for one optional `and` |
| `TemplateParser.Parser.ParseExpressionNot` | inja/parser.hpp:91-100 | the same for any number of `not` |
| `TemplateParser.Parser.ParseExpressionComparison` | inja/parser.hpp:102-137 | the same for one optional comparison or `in` |
| `TemplateParser.Parser.ParseExpressionDatum` | inja/parser.hpp:139-271 | the same for parentheses, names, calls, keywords and literals |
| `TemplateParser.Parser.ParseCall` | inja/parser.hpp:160-196 | arguments are counted and parsed in order, a builtin needs the right number of them, `default` swaps, anything else becomes a callback |
| `TemplateParser.Parser.ParseStatement` | inja/parser.hpp:273-408 | all statements but `include`, with their effect on code, if stack and loop stack |
| `TemplateParser.Parser.Endif` | inja/parser.hpp:287-305 | patches the pending conditional jump and all jumps of earlier branches to the current end |
| `TemplateParser.Parser.Else` | inja/parser.hpp:306-333 | ends the branch with a jump, patches the pending one, and for `else if` opens the next; a second plain `else` crashes |
| `TemplateParser.Parser.For` | inja/parser.hpp:334-366 | a loop start with the names of its item and, for pairs, its key |
| `TemplateParser.Parser.EmitFunction` | inja/parser.hpp:410-423 | appends an operator, fused with a trailing push |
| `TemplateParser.Parser.EmitCallback` | inja/parser.hpp:425-441 | appends a callback, fused with a trailing literal push only |
| `TemplateParser.Parser.ParseItem` | inja/parser.hpp:446-492 | one text, tag or comment, with the closing token it needs |
| `TemplateParser.Parser.ParseInto` | inja/parser.hpp:443-494 | the whole loop; unmatched `if` or `for` at the end is an error |
| `ExpressionParsing.ParsesExpr` | inja/parser.hpp:73-271 | every expression the grammar can write, printed with only the parentheses it needs and parsed behind any code, emits exactly the code of its tree, fused and swapped into what stands before it where the parser does that, or crashes where the swap has too little code |
| `ExpressionParsing.CompilesBehind` | inja/parser.hpp:410-441 | behind any code that does not end in a literal its start could swallow, an expression without a zero-argument call right after a literal adds exactly its own post-order code |
| `ExpressionParsing.ParsesArgs` | inja/parser.hpp:162-181 | the arguments of a call are compiled one behind the other, and their number is counted |
| `Breakdowns.NullaryExact` | inja/parser.hpp:425-441 | for every expression the grammar can write whose defaults fit and which has a value: the parsed template prints that value if and only if no zero-argument call follows a literal argument |
| `Breakdowns.NullaryBreaks` | inja/parser.hpp:425-441 | where one does, parsing is undefined or the code breaks on all data |
| `Breakdowns.CallJams` | inja/renderer.hpp:463-472 | and when the arguments before it have values, the run gets to the merged call: it throws there when no callback of that name without arguments is registered, and otherwise takes one argument too many from the stack, undefined behaviour |
| `Breakdowns.PrintsActual` | inja/parser.hpp:443-494 | for every expression the grammar can write that compiles: the template that prints it, parsed and run, prints the value of what the expression actually does, throws when that has none, and breaks on all data when some `default` is left without an operand |
| `Breakdowns.PrintExact` | inja/parser.hpp:443-494 | for every expression the grammar can write and all data on which it has a value: the parsed template prints that value if and only if no zero-argument call follows a literal argument, no `default` is left without an operand, and what the code does shows the same value |
| `Breakdowns.DefaultExact` | inja/parser.hpp:186-189 | `default(a, b)` on fitting expressions, literals included, where it has a value: the parsed template prints that value if and only if, with a one-instruction `b`, `a` is a literal or a lookup, and, with a longer `b`, the `default` with the moved argument first shows the same |
| `Breakdowns.WrongValue` | inja/renderer.hpp:446-459 | `default(x, at(y, k))` on any data that has both means the value of `x`, and the parsed template prints that of `y` |
| `Breakdowns.FallbackExact` | inja/parser.hpp:186-189 | when a fitting first argument has no value and the fallback, whatever its own defaults, has one: the parsed template prints the fallback if and only if the first argument is a lookup and the fallback compiles to one instruction; otherwise it breaks, and with a longer fallback it throws |
| `Breakdowns.PlainDefaultBreaks` | inja/renderer.hpp:446-459 | a first argument that is no leaf, with a one-instruction fallback, breaks on all data: `default` gets no value of its own |
| `Breakdowns.StraightPasses` | inja/renderer.hpp:174-180 | code without jumps gets to each of its instructions unless it stops before |
| `ExpressionParsing.BuiltinFound` | inja/function_storage.hpp:34-39 | every builtin is found again under its printed name and arity |
| `ParserLaws.BuiltinExact` | inja/parser.hpp:25-52 | a call names an operation if and only if it has one of 26 names and the number of arguments that goes with it; which, is written out |
| `ParserLaws.WordMeans` | inja/parser.hpp:195-208 | a word with no parenthesis behind it pushes true, false or null for these three words, and otherwise looks its name up in the notation that is set |
| `ParserLaws.ThirtyBits` | inja/bytecode.hpp:120-120 | a call's number of arguments is kept modulo 2^30, whether or not it merges into a push |
| `ParserCorrectness.BranchesParse` | inja/parser.hpp:287-333 | back-patching: from behind a condition's jump to the end of the chain all pending jumps get exactly the addresses of the compiled chain, with code, if stack and loop stack of the outside kept |
| `ParserCorrectness.LoopParses` | inja/parser.hpp:334-378 | parsing a loop gives a start and an end with each other's addresses around the body's code |
| `ParserCorrectness.BodyParses` | inja/parser.hpp:443-494 | a printed body is parsed in any surrounding state to its code at the current address and nothing else changes |
| `ParserCorrectness.ParsesTemplate` | inja/parser.hpp:443-494 | parsing any printed template, whatever its defaults, gives exactly its compiled code and empty if and loop stacks |
| `Pipeline.RenderTokens` | inja/parser.hpp:443-494 | parser object and renderer object together print the meaning of what the written template actually does, its own when it fits, and fail exactly when that fails |
| `Lexing.UpdatedIsUsable` | inja/config.hpp:35-49 | after `update_open_chars`, and by default, every opening sequence starts with an open character |
| `Lexing.OpenerNeedsOpenChar` | inja/lexer.hpp:55-82 | where no open character stands none of the four opening sequences starts |
| `Lexing.ScanConsumes` | inja/lexer.hpp:47-133 | each scan keeps the lexer ready, its token lies between the old and the new position, what it leaves out is blank, and it moves on unless it answers end of input |
| `Lexing.ProgressExact` | inja/lexer.hpp:47-226 | for every configuration whose opening sequences are not empty and start with open characters, as `update_open_chars` makes them: no scan of any source, started at its beginning, finds a token without moving on, if and only if everything that can be opened has a closing sequence |
| `Lexing.EmptyCloseStalls` | inja/lexer.hpp:111-131 | otherwise the opening sequence with one character behind it stalls on the second scan |
| `Lexing.NothingSkipped` | inja/lexer.hpp:47-226 | over the whole source no character is in two tokens, and every one that is not a blank or line end is in one |
| `LexerLaws.NameExact` | inja/lexer.hpp:228-240 | a name is read exactly where a letter or an underscore stands, up to the first character that is no letter, digit, point, slash, underscore or hyphen |
| `LexerLaws.NumberExact` | inja/lexer.hpp:242-255 | a number is read exactly where a digit or a hyphen stands, up to the first character that is no digit, sign, point or `e` |
| `LexerLaws.StringExact` | inja/lexer.hpp:257-271 | a string is read exactly where a quote stands, up to the first quote behind it without a backslash right before it, or to the end |
| `LexerLaws.SignExact` | inja/lexer.hpp:171-225 | each mark and operator is read exactly where its text stands, a longer one before a shorter |
| `LexerLaws.UnknownExact` | inja/lexer.hpp:171-225 | one unknown character is read exactly where no name, number, string, mark or operator starts |
| `LexerLaws.BlanksExact` | inja/lexer.hpp:138-163 | in a tag exactly the spaces, tabs and line ends are passed over, unless the closing sequence begins with the line feed |
| `LexerLaws.TrimExact` | inja/lexer.hpp:277-288 | with `trim_blocks` exactly the line end behind a statement or a comment is passed over as well, and none behind an expression or a line statement |
| `LexerLaws.ClearExact` | inja/lexer.hpp:290-303 | the text loses exactly the spaces and tabs of its last line if there is nothing else on it, and nothing otherwise |
| `LexerLaws.StripExact` | inja/lexer.hpp:84-106 | with `lstrip_blocks` a text loses its indentation before a statement or a comment, and before nothing else |
| `TemplateLexer.Lexer.Scan` | inja/lexer.hpp:47-133 | the `find_first_of` scan finds the same opener, token and state as testing all four openers at every position |
| `TemplateLexer.Lexer.ScanClosed` | inja/lexer.hpp:138-226 | skipping blanks, recognising the closing sequence and trimming, as specified |
| `TemplateLexer.Lexer.ScanWord` | inja/lexer.hpp:164-271 | identifiers, numbers, strings and operators end where specified |
| `TemplateLexer.Lexer.ClearLine` | inja/lexer.hpp:290-303 | spaces and tabs are cut off the text only if they are all of its last line |
| `TemplateLexer.SkipToOpenChar` | inja/lexer.hpp:56-63 | jumping to the next open character passes no opening sequence |
| `LexerRoundTrip.WordsLex` | inja/lexer.hpp:138-226 | the words of a tag, written with spaces, come back one by one, then the closing token, and the text goes on behind it or behind the line end that is trimmed |
| `LexerRoundTrip.StrippedComes` | inja/lexer.hpp:84-92 | before a statement or comment that takes the indentation, the text token is the text without the blanks of an otherwise blank last line; if nothing is left there is no text token |
| `LexerRoundTrip.TrailerPassed` | inja/lexer.hpp:277-288 | the line end that is written behind a statement or a comment is the one that is trimmed |
| `LexerRoundTrip.WrittenSourceLexes` | inja/lexer.hpp:47-226 | whether or not `trim_blocks` and `lstrip_blocks` are set: any sequence of texts, tags and comments that can be written at all, with a line end behind each statement and comment when they are trimmed, lexes back to exactly the written tokens, the texts without the indentation that is stripped |
| `SourcePipeline.LexAll` | inja/lexer.hpp:47-133 | collecting tokens until the end of input gives the tokens of the whole source; it fails on brackets and braces |
| `SourcePipeline.KindsStayApart` | inja/parser.hpp:139-271 | two kinds of tokens are never taken for the same one, but for the two kinds of literals, and names and texts keep their characters |
| `SourcePipeline.RenderSource` | inja/renderer.hpp:174-576 | source text of any chunks that list to a template's tokens renders to the meaning of what the template actually does, its own when it fits, and fails exactly when that fails |
| `TemplateWriter.BodyPrinted` | inja/parser.hpp:443-494 | the pieces a template is written in are its tokens, in order |
| `TemplateWriter.PiecesUnderstood` | inja/lexer.hpp:138-226 | the written pieces list to exactly those tokens, names, literals and operators included |
| `TemplateWriter.DefaultIsStandard` | inja/config.hpp:22-33 | the default delimiters are the ones the templates are written with, and nothing is trimmed by default |
| `TemplateWriter.WordReads` | inja/lexer.hpp:164-225 | every name made of letters, digits and `_./-` that starts with a letter or underscore, every operator and mark, and every literal that reads as itself, is written as a word that is read as that token |
| `TemplateWriter.PiecesWritable` | inja/lexer.hpp:55-88 | texts without open characters and tags of all styles can be written in any order with no two texts side by side and line statements at the start of lines |
| `TemplateWriter.RenderWritten` | inja/renderer.hpp:174-576 | end to end, whether or not `trim_blocks` and `lstrip_blocks` are set: for every template without an operandless `default` whose names, literals and texts can be lexed, its own source text renders to the meaning of what it actually does, its own when it fits, and fails exactly when that fails |
| `MultipartParser.Parser.constructor` | multipart-parser/multipart_parser.c:80-97 | boundary, lookbehind and state at the start |
| `MultipartParser.Parser.Execute` | multipart-parser/multipart_parser.c:111-306 | one call on any buffer is the automaton's run with the held bytes handed out at its end; it stops early at exactly the byte the automaton refuses |
| `MultipartParser.Parser.Byte` | multipart-parser/multipart_parser.c:117-303 | one turn of the loop is one byte of the automaton, or it only releases the lookbehind and the same byte is looked at again |
| `MultipartParser.Parser.DataState` | multipart-parser/multipart_parser.c:216-262 | the same for the four part-data states, with the bytes between `mark` and `i` and the lookbehind buffer |
| `MultipartParser.Parser.OtherState` | multipart-parser/multipart_parser.c:121-215 | the same for boundary, header and end states |
| `MultipartParser.Connection.HeaderField` | src/connection.cpp:373-388 | a name that follows a value files the pending header, then collects |
| `MultipartParser.Connection.HeaderValue` | src/connection.cpp:390-412 | a value that follows a name starts afresh, then collects |
| `MultipartParser.Connection.HeadersComplete` | src/connection.cpp:414-427 | files the last header |
| `MultipartParser.Connection.DataBegin` | src/connection.cpp:429-440 | clears what belongs to the previous part |
| `MultipartParser.Connection.DataEnd` | src/connection.cpp:451-460 | adds the part with its headers and data |
| `MultipartParser.Connection.AppendPartHeader` | src/request.cpp:78-90 | files or replaces the header under its name, ignoring case |
| `Delimiters.OnePrefix` | multipart-parser/multipart_parser.c:236-262 | without CR in the boundary at most one proper prefix of the delimiter ends any text, so the matcher needs no failure function |
| `Delimiters.ScanStep` | multipart-parser/multipart_parser.c:216-262 | after each byte the part has ended if and only if the bytes so far end in the delimiter; otherwise all bytes are delivered, held or in the lookbehind |
| `Delimiters.PartEndsAtFirstDelimiter` | multipart-parser/multipart_parser.c:216-262 | the part ends at exactly the first delimiter and its data are exactly the bytes before it |
| `Delimiters.NoDelimiterNoEnd` | multipart-parser/multipart_parser.c:216-262 | without a delimiter the part never ends, and delivered plus held plus lookbehind bytes are the input |
| `Fragments.CutsSameData` | multipart-parser/multipart_parser.c:111-306 | for every input and every cut: accepted alike, same state, same data for the same parts |
| `Fragments.BufferEndShowsExactly` | multipart-parser/multipart_parser.c:169-176 | for every state and byte: a buffer end changes parser and connection if and only if part of a header name is held and its line ends there without a colon or the line before had no name |
| `Fragments.CutsAlike` | multipart-parser/multipart_parser.c:111-306 | when every header line has a non-empty name and a colon, any cut gives everything the uncut stream gives, headers and unfinished ones included |
| `Fragments.CutsAgree` | multipart-parser/multipart_parser.c:111-306 | any two cuts of such a stream leave the same parser and connection |
| `HeaderCuts.BufferEndLastsExactly` | src/connection.cpp:373-427 | for every state and byte: a buffer end changes what lasts if and only if it is inside a name behind a line without one, and the line goes on, or ends there and the name so far is not filed with the waiting value already; what lasts is, past the header lines, the filed headers, the data and the parts, and before their end also the line being read |
| `HeaderCuts.CutsSameParts` | src/connection.cpp:373-460 | for every stream in which no name follows a line without one, colonless lines or not, every cut is accepted alike and gives the same parts, headers included |
| `HeaderCuts.CutsShowExactly` | src/connection.cpp:373-460 | for every accepted stream: no cut of it or of any beginning of it shows in what lasts, the line being read included, if and only if no name follows a line without one, other than a colonless one of a single character that is filed with the waiting value already |
| `HeaderCuts.NamelessLineShows` | src/connection.cpp:373-412 | for all boundaries, names, values and data: two cuts of the same message whose first header line has no name give different parts, and which ones |
| `MultipartRoundTrip.PartsComeBack` | src/connection.cpp:313-336 | any non-empty list of parts, with any header names of letters and hyphens, repeated or not, any spaces before the values, any values without CR and any data without the delimiter, written and fed in any cut, comes out as exactly those parts in order, with the headers that `Filing` gives |
| `MultipartRoundTrip.HeaderMapExact` | src/request.cpp:78-90 | of names distinct up to case the filed headers hold each with its value, found under the name with its letters in lower case, and nothing else |
| `MultipartRoundTrip.KeyExact` | src/request.cpp:78-90 | two names share a header if and only if they are of one length and agree up to the case of the ASCII letters |
| `MultipartRoundTrip.RepeatedName` | src/request.cpp:82-85 | a name given again keeps its first spelling and takes the new value; since it is not cleared, the name after it is filed with the repeated one in front |
| `MultipartRoundTrip.RefusedExactly` | multipart-parser/multipart_parser.c:127-303 | for every state and byte: the parser gives up if and only if it is at a wrong byte of the opening boundary, a byte in a name that is no letter, hyphen, colon or CR, a wrong one of two line end bytes, or a wrong one behind a closing boundary |
| `MultipartRoundTrip.NoPartsRefused` | multipart-parser/multipart_parser.c:127-148 | a message without parts is not accepted |
| `Digits.AccumulateExact` | llhttp/llhttp.c:554-578 | digits of any number give the exact value, or an error if and only if it exceeds the bound; also for the decimal Content-Length |
| `Digits.AccumulateStatusExact` | llhttp/llhttp.c:808-837 | the status code is exact up to 999 and an error beyond, whichever of its checks reports it |
| `Digits.DecIntToHexStr` | src/utilities/string_utilities.cpp:196-222 | collecting remainders and reversing them gives the hexadecimal text |
| `Digits.HexTextValue` | src/utilities/string_utilities.cpp:196-222 | the text has hexadecimal digits only and its value is the number |
| `BodyLaws.HexDigitExact` | llhttp/llhttp.c:1030-1138 | a character has the value d if and only if it is at place d of the sixteen digits in lower or in upper case |
| `BodyLaws.HexNumberIs` | llhttp/llhttp.c:1030-1138 | a text of such digits, in either case and with leading zeros, has the value of place times power |
| `ChunkSender.ChunkedBodies.PushBack` | src/response.cpp:104-128 | adds the chunk, or the last chunk and the end mark |
| `ChunkSender.ChunkedBodies.PopFront` | src/response.cpp:130-145 | takes the oldest entry; an empty queue gives an empty body that is not the last |
| `ChunkSender.ChunkedBodies.WriteAll` | src/connection.cpp:751-800 | draining writes all chunks in order up to the end mark |
| `BodyParser.Parser.constructor` | llhttp/llhttp.c:1328-1344 | the body state the headers lead to |
| `BodyParser.Parser.Execute` | llhttp/llhttp.c:6330-6362 | one call restarts the open span, runs the states and hands out the open span at the end, as the automaton says |
| `BodyParser.Parser.BodyBytes` | llhttp/llhttp.c:1296-1327 | the three span states start their span at the first body byte |
| `BodyParser.Parser.ConsumeContentLength` | llhttp/llhttp.c:930-947 | skipping over the remaining length at once is the same as one byte at a time |
| `BodyParser.Parser.StateByte` | llhttp/llhttp.c:910-929 | the states between chunks |
| `BodyParser.Parser.SizeByte` | llhttp/llhttp.c:5001-5010 | one digit of the chunk size or its overflow error |
| `BodyMachine.RunCounted` | llhttp/llhttp.c:1278-1295 | a body of known length takes exactly that many bytes, whatever they are |
| `BodyProofs.CutsSameBody` | llhttp/llhttp.c:6338-6359 | for every cut the callbacks have received the same body and the same events |
| `BodyProofs.ChunksDecode` | llhttp/llhttp.c:910-1277 | for every text the chunk states deliver what the plain decoder of chunked coding says: complete, partial or malformed |
| `BodyProofs.WireDecodes` | src/response.cpp:104-145 | the decoder gets from the sent bytes the concatenation of the bodies before the first empty one, and what is left over; for all bodies, empty ones included |
| `BodyProofs.EmptyChunkIsLast` | src/response.cpp:113-119 | an empty body is sent as the last chunk |
| `BodyProofs.ChunkedRoundTrip` | src/response.cpp:104-145 | non-empty bodies, drained and cut anywhere, arrive as their concatenation; the message completes once, with the length back at zero |
| `BodyLaws.WrittenChunksArrive` | llhttp/llhttp.c:910-1277 | chunks whose sizes are written in either case, with leading zeros and extensions, cut anywhere, arrive as their concatenation; every chunk is announced and completed once and the message once |
| `BodyLaws.SizeRefusedExactly` | llhttp/llhttp.c:4990-5015 | a size beyond 64 bits, or one that begins with no digit, is refused and nothing of it is delivered |
| `BodyProofs.RequestBodyFramed` | llhttp/http.c:36-105 | for each body mode a request can get and every cut, the callbacks get exactly the framed bytes, and `finish` is unsafe until completion and never the value for reading to the end |
| `BodyLaws.ResponseBodyFramed` | llhttp/http.c:36-69 | for each body mode a response can get and every cut, the callbacks get exactly the framed bytes; the body lasts until the connection closes if and only if nothing else delimits it |
| `BodyLaws.NeedsEofExact` | llhttp/http.c:87-105 | the end of input delimits exactly the body of a response whose status allows one and whose headers give neither chunks nor a length |
| `BodyLaws.RunFinishFits` | llhttp/http.c:72-84 | at every byte `finish` says what the end of the connection means there: safe once complete, safe with completion while reading to the end, unsafe otherwise |
| `BodyLaws.BeginFlags` | llhttp/http.c:36-69 | a body begins with the flags of its message |
| `BodyLaws.MessageFlags` | llhttp/http.c:79-80 | over every message only the trailer mark is added to the flags, and at its end all are reset but leniency |
| `BoundedQueue.StepKeepsWakeUps` | spdlog/details/mpmc_blocking_q.h:32-73 | every atomic step of any thread keeps: if a producer sleeps, items plus woken producers plus due notifications reach the limit; and dually for consumers |
| `BoundedQueue.SleepersAreRight` | spdlog/details/mpmc_blocking_q.h:32-73 | in every reachable state with nothing in flight a sleeping producer means a full queue and a sleeping consumer an empty one |
| `BoundedQueue.StepConserves` | spdlog/details/mpmc_blocking_q.h:32-73 | every step keeps accepted = delivered followed by queued, without duplicates |
| `BoundedQueue.NothingLost` | spdlog/details/mpmc_blocking_q.h:32-73 | in every reachable state messages come out first in, first out and once each, and every issued message is accepted, dropped by a call that does not wait, or held by one that waits |
| `BoundedQueue.DropsExactly` | spdlog/details/mpmc_blocking_q.h:43-56 | a step drops a message if and only if it is a call that does not wait, made while the queue is full, and then its own; with room its message becomes the last one accepted |
| `BoundedQueue.DroppedWhenFull` | spdlog/details/mpmc_blocking_q.h:43-56 | over every run the dropped messages are exactly those given to a call that did not wait and found the queue full |
| `BoundedQueue.RoomMeansNoDrop` | spdlog/details/mpmc_blocking_q.h:43-56 | as long as no more messages were issued than the queue has room for, nothing was dropped |
| `BoundedQueue.PopsExactly` | spdlog/details/mpmc_blocking_q.h:60-73 | a consumer that looks at a queue with messages takes the oldest, and no other step takes any |
| `BoundedQueue.SleepsExactly` | spdlog/details/mpmc_blocking_q.h:32-73 | a producer goes to sleep exactly when it finds the queue full, a consumer exactly when it finds it empty and its time is not out |
| `BoundedQueue.CallsComeBack` | spdlog/details/mpmc_blocking_q.h:32-73 | a call comes back without a notification exactly in two cases: refused by a full queue, or timed out at an empty one |
| `BoundedQueue.TimedOutComesBack` | spdlog/details/mpmc_blocking_q.h:60-73 | a consumer whose time is out comes back at its next look, with a message if there is one, whatever the other threads did in between |
| `BoundedQueue.OthersStay` | spdlog/details/mpmc_blocking_q.h:32-73 | a step changes no thread but its own and the sleeper it wakes |
| `BoundedQueue.EveryThreadGoesOn` | spdlog/details/mpmc_blocking_q.h:32-73 | in every state every thread has a step: no call is stuck but by sleeping, and every notification finds its target or nobody |
| `AsyncLog.AsyncLogHelper.ProcessNextMsg` | spdlog/details/async_log_helper.h:253-293 | a message is offered, flushed for or ends the loop, by its kind; a timeout only looks at the flush interval |
| `AsyncLog.AsyncLogHelper.WorkerLoop` | spdlog/details/async_log_helper.h:230-249 | the loop goes on until the terminate message |
| `AsyncLog.AsyncLogHelper.FlushSinks` | spdlog/details/async_log_helper.h:321-333 | every sink is flushed once and the time is noted |
| `AsyncLog.AsyncLogHelper.HandleInterval` | spdlog/details/async_log_helper.h:306-318 | flushes when the interval is set and over |
| `AsyncLog.AsyncLogHelper.OfferToSinks` | spdlog/details/async_log_helper.h:277-287 | each sink whose level admits the message gets it once |
| `AsyncLog.SinksGetAdmitted` | spdlog/details/async_log_helper.h:253-293 | over any run each sink is offered exactly what it admits of the popped messages, in order |
| `AsyncLog.FlushedWhenDue` | spdlog/details/async_log_helper.h:253-333 | over any run each sink is flushed once in each turn that pops a flush request or the terminate message, or finds the interval since the last flush over, and in no other |
| `AsyncLog.TurnFlushes` | spdlog/details/async_log_helper.h:253-333 | one turn flushes every sink once and notes the time if it is due, and none otherwise |
| `AsyncLog.IntervalKept` | spdlog/details/async_log_helper.h:306-318 | with an interval no turn leaves it over; with none, a turn without a request flushes nothing |
| `AsyncLog.EndFlushes` | spdlog/details/async_log_helper.h:253-275 | the last turn offers nothing and flushes every sink |
| `AsyncLog.ShutdownDelivers` | spdlog/details/async_log_helper.h:192-202 | for every run in which the destructor's terminate message is enqueued while no producer is in a call and nobody enqueues after it: once the worker has ended, the queue is empty, that message was accepted last, and every sink was offered exactly the accepted messages it admits, in queue order |
| `AsyncLog.RunLastComes` | spdlog/details/mpmc_blocking_q.h:32-40 | from that call on, through any steps, the terminate message is held by its caller alone or is the last one accepted |
| `AsyncLog.BlockingAcceptsAll` | spdlog/details/async_log_helper.h:210-222 | under `block_retry` every message whose caller has returned was accepted |
| `UrlParser.HttpParserUrl.Parse` | llhttp/helper/http_url_def.c:517-638 | accepts and fills in exactly what the automata say |
| `UrlParser.HttpParserUrl.ScanFields` | llhttp/helper/http_url_def.c:534-590 | the loop over the whole URL marks the fields, the authority in one piece |
| `UrlParser.HttpParserUrl.SplitHost` | llhttp/helper/http_url_def.c:270-350 | the loop over the authority splits it into user info, host and port |
| `UrlParser.HttpParserUrl.CollectHostByte` | llhttp/helper/http_url_def.c:290-330 | one byte extends or opens the field of the new state and touches no other |
| `UrlParser.HttpParserUrl.ReadPort` | llhttp/helper/http_url_def.c:610-635 | the decimal value of the port's digits, or failure if and only if it exceeds 65535 |
| `UrlSpec.PortValueExact` | llhttp/helper/http_url_def.c:620-632 | a digit string of any length is accumulated to exactly the number it writes, or refused if and only if that exceeds 65535 |
| `UrlParser.TooLongPort` | llhttp/helper/http_url_def.c:624-632 | a port beyond the limit stays beyond it with more digits, so stopping early is right |
| `UrlStructure.FieldsStayInside` | llhttp/helper/http_url_def.c:617-622 | the assertion about the port's position cannot fail and its text is digits only |
| `UrlStructure.AcceptedFields` | llhttp/helper/http_url_def.c:517-638 | in every accepted URL the fields are non-empty, in bounds, disjoint and in left-to-right order, a schema comes with a host, the authority's fields lie between the schema and the next `/` or `?`, and it holds at most one `@`, exactly one if there is user info |
| `UrlStructure.HostScans` | llhttp/helper/http_url_def.c:283-347 | over the authority the fields stay in order and the only `@` is the one that ends the user info |
| `UrlRoundTrip.UrlComesBack` | llhttp/helper/http_url_def.c:188-638 | for every form a request can ask for - path with optional query and fragment, `*`, absolute URL, and under CONNECT name or bracketed address with port - within 65535 bytes: the written text is accepted, its fields are exactly the non-empty components, and the port is the number written |
| `UrlRoundTrip.AuthorityParses` | llhttp/helper/http_url_def.c:270-350 | the written authority, with user info that may be empty, name or bracketed address with optional zone, and optional port, is split exactly into its components |
| `UrlRoundTrip.UrlScans` | llhttp/helper/http_url_def.c:534-590 | any written text with an authority of the right characters is scanned exactly into schema, authority, path, query and fragment |
| `UrlRoundTrip.Classes` | llhttp/helper/http_url_def.c:64-86 | the characters of schema, host, user info, zone, address and path, written out |
| `UrlForms.OnlyForms` | llhttp/helper/http_url_def.c:517-638 | every accepted text of up to 65535 bytes has one of those forms |
| `UrlForms.AcceptedExactly` | llhttp/helper/http_url_def.c:517-638 | a text of up to 65535 bytes is accepted if and only if it has one of those forms, and then its fields and port are those of the form |
| `PrefixMaps.FirstPrefixIsLongest` | src/application.cpp:108-139 | the first prefix met from `lower_bound(url)` on, or from any earlier entry, is the one the search through all entries for the longest prefix finds |
| `PrefixMaps.FullSearchIsLongest` | src/application.cpp:108-139 | that search gives a prefix longer than every other one, or none if and only if there is none |
| `PrefixMaps.FoldExact` | src/utilities/string_utilities.cpp:24-58 | two characters count as equal if and only if they are, or are the two cases of one ASCII letter |
| `PrefixMaps.StartsWithExact` | src/utilities/string_utilities.cpp:30-33 | a key starts a URL if and only if the URL is, up to case, the key followed by some text |
| `PrefixMaps.LessExact` | src/utilities/string_utilities.cpp:55-58 | the order is the dictionary order that ignores case |
| `PrefixMaps.LongestIsUnique` | src/application.cpp:108-139 | the longest prefix does not depend on the order of the entries |
| `PrefixMaps.LongerIsGreater` | include/daqi/utilities/string_utilities.hpp:30-37 | of two prefixes of one text the longer one comes first in the descending map |
| `PrefixMaps.PrefixNotAfter` | src/application.cpp:110-110 | no prefix of a text comes before its lower bound |
| `PrefixMaps.InsertKeepsOrder` | include/daqi/application.hpp:481-482 | insertion keeps the map descending, adds a new key and leaves the map alone when the key, ignoring case, is there |
| `PrefixMaps.NewEntryFoundExact` | src/application.cpp:67-72 | a new entry answers for its own key if and only if no key equal to it, ignoring case, was there before |
| `Routing.ApplicationMgr.MountApplication` | src/application.cpp:58-75 | succeeds if and only if nothing is mounted yet and the name is new, and then inserts under the URL root |
| `Routing.ApplicationMgr.IsExists` | src/application.cpp:97-100 | whether the name is taken |
| `Routing.ApplicationMgr.FindByURL` | src/application.cpp:108-139 | the application with the longest URL root that starts the URL |
| `Routing.StartsWithRoutingTable.Match` | src/router.cpp:64-80 | the route of the longest prefix; `url_exists` is raised when there is one and never lowered |
| `Routing.StartsWithRoutingTable.Insert` | include/daqi/router.hpp:225-230 | adds the route in the map's order |
| `Interceptors.WalkIsNested` | src/context.cpp:519-628 | however each call is answered, the resumable walk makes exactly the calls of the nested form and then ends the response once |
| `Interceptors.LayersWalk` | src/context.cpp:540-606 | the same from any layer inwards |
| `Interceptors.ResponsesMirror` | src/context.cpp:555-628 | interceptors are entered in order up to the first that stops, and respond in the reverse order, all of them unless cut short |
| `Interceptors.CutsAndHandling` | src/context.cpp:572-620 | the response phase is cut if and only if the last call answered stop, and the handler runs if and only if no interceptor stops the request |
| `Interceptors.Context.Start` | src/context.cpp:519-528 | begins with the first interceptor, or the handler when there is none |
| `Interceptors.Context.Continue` | src/context.cpp:572-587 | an answer moves the walk on by one step |
| `Interceptors.Context.NextOnRequest` | src/context.cpp:589-606 | on to the next interceptor or the handler, or back through the one that stopped |
| `Interceptors.Context.StartOnResponse` | src/context.cpp:608-620 | on with the response phase or the end |
| `Interceptors.Context.NextOnResponse` | src/context.cpp:622-628 | one interceptor back |

## Left out

- Include, loading templates from files: filesystem access; recursive includes have no bound in the code.
- Machine.Renderer.RenderTo: the instruction for includes, and what the numeric, ordering and string builtins compute.
- Machine.Renderer.Call: numeric, ordering and string builtins are functions of their arguments that the environment gives; callbacks are pure functions as well.
- TemplateParser.Parser.ParseExpressionDatum: bracketed array and object literals, and string escapes; a literal is one token with its JSON value, because JSON parsing is a foreign library.
- TemplateParser.Parser.ParseStatement: `include` is declined like any unknown word.
- TemplateLaws.LookupFollows: the escapes `~0` and `~1` of JSON pointers, so names with a `~`; in dot notation parts with a slash, which separates as well.
- JSON numbers are reals, so 1 and 1.0 are one value; the original's `dump` and `isInteger` tell them apart.
- Correctness.CompiledMeansTemplate: requires that the template fits, `FitsBody`; the other templates are covered by `Correctness.CodeDoesActual`, and by `Halting.TemplateHalts` where a `default` has no operand. The renderer's pointer to the current loop data is taken as the innermost level or the root: that it dangles when the loop stack's vector reallocates, from the seventeenth nested loop on (`inja/renderer.hpp:171` reserves sixteen), is not modelled.
- Correctness.CodeDoesActual: as to nested loops, the same.
- Breakdowns.PrintExact: callbacks with fewer than 2^30 arguments, the width of the field; the same for `PrintsActual` and `DefaultExact`.
- Compiler.DefaultSwapExact: about the code only; `Swaps.FitsExact` and `Breakdowns.DefaultExact` are about what it does.
- Breakdowns.CallJams: for a call that is no `default`, and whose zero-argument call is not the first argument of one; the other cases break as `Breakdowns.NullaryBreaks` says, by an exception or in undefined behaviour.
- ParserCorrectness.ParsesTemplate: requires a program of fewer than 2^30 instructions, the width of an address in the code, and no zero-argument call right behind a literal argument; `ExpressionParsing.ParsesExpr` is without that.
- Lexing.ProgressExact: configurations with an empty opening sequence, which the source accepts and which can stall as well.
- SourcePipeline.LexAll: opening brackets and braces, which the source's parser reads as larger literals.
- SourcePipeline.RenderSource: one space before each word of a tag; `LexerLaws.BlanksExact` says what else is passed over.
- TemplateWriter.RenderWritten: the default delimiters, and texts without `{` and `#`; other sources are covered by `SourcePipeline.RenderSource`.
- HeaderCuts.CutsShowExactly: not about the finished parts alone, which can agree although a cut has shown in between.
- HeaderCuts.BufferEndLastsExactly: the same.
- Character classes of the lexer: letters and digits are the ASCII ones of the C locale.
- Moved-from strings and maps are taken as empty.
- Multipart: the field `_multipart_parse_part`, the size limit, non-zero results of callbacks, the repair of a missing boundary, and the path of a buffered body into the parser (an accepted call is one `Execute` on the whole buffer).
- HTTP: methods, URLs, status lines, header names and values, pausing, non-zero results of callbacks, keep-alive, and the call that reports the end of input; `BodyLaws.RunFinishFits` says what it would find. Whether a message is an upgrade is given, as the headers' callback may set it too.
- BodyParser.Parser.Execute: stops at the end of a message, where the original goes on to the next one, and starts without a pending error.
- BodyParser.Parser.StateByte: trailer fields; the first byte of one leads to a state that is not part of this model.
- ChunkSender.ChunkedBodies.WriteAll: waiting while the queue is empty, its timeout and write errors are not modelled; draining starts when the end mark has been pushed.
- BoundedQueue.SleepersAreRight: safety only; that a woken thread is scheduled at all is not stated.
- Log formatting and what sinks do with a message; a formatter that throws loses its message.
- URL strict mode, in which a tab or form feed is refused.
- Case folding in routing is the ASCII one; routes by equality and by regular expression, handlers by method and template names.
- Sockets, TLS, timers, Redis, WebSocket, sessions, cookies, start and stop of the server.
- Answering an interceptor twice, or after the end: the code would step its iterator outside the chain.
