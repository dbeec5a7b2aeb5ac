# A verified model of a small Scheme interpreter

This project models `interpreter.py`, a single-file Scheme interpreter, in
Dafny and proves properties of the model. It covers the whole pipeline from
source text to value:

- **Lexer** (`lexer.dfy`): `tokenize`. It splits the source into lines,
  drops each line from `;` onward, pads parentheses with spaces and splits on
  whitespace. It comes with a one-pass reference scanner `Lex` and a
  printer `Unwords`.
- **Numerals** (`numerals.dfy`): the integer branch of `number_or_symbol`,
  i.e. what the host's `int()` accepts (surrounding whitespace, a sign,
  decimal digits with single underscores between them).
- **Syntax** (`syntax.dfy`): the AST `Expr` (`Number`, `Symbol`, `Form`),
  `parse` with `get_ind` and `parse_tok`, and a printer `Serialize` that
  acts as the parser's inverse.
- **Values** (`values.dfy`): runtime values. These are integers and host
  strings (the booleans are the strings `#t` and `#f`), the empty list,
  pairs, closures and tagged builtins.
- **Lists** (`lists.dfy`): the cons-list runtime (`cons`, `car`, `cdr`,
  `list`, `list?`, `length`, `list-ref`, `copy_list`, `append`).
- **Builtins** (`builtins.dfy`): the arithmetic builtins, `begin`, the
  comparison table and the builtin table. It models the host's `*` on
  strings (repetition) and its string ordering.
- **Frames** (`frames.dfy`): the `Frame` environment. Frames live in a
  store (a map from frame numbers to a parent link and a variable table).
  Frame 0 is the builtin frame and frame 1 the top-level frame.
- **Evaluator** (`evaluator.dfy`): `evaluate`, `compare`, `combinator` and
  `condition`. Evaluation is bounded by fuel and threads the store through.
  Its result is a value with the new store, or an error.
- **EvaluatorProps** (`evaluator_props.dfy`): properties of the evaluator's
  special forms and of applying closures and builtins.
- **Driver** (`driver.dfy`): `remove_space`, `get_line`, `evaluate_exp`,
  and `evaluate_file` on the file's text.

Errors are the `Errors.Error` datatype. `SyntaxError`, `NameError` and
`EvaluationError` are the interpreter's three Scheme errors. The other
constructors are outcomes that are not Scheme errors:

- `HostError`: a host exception, such as a missing operand, an unhashable
  key or a failed unpacking.
- `Unsupported`: behaviour the model leaves out (floating point, identity of
  pairs).
- `OutOfFuel`: the evaluation budget ran out.

Several quirks of the code are modelled as written:

- `set!` evaluates its value before it searches for the name. Its search
  can reach the builtin frame, so a builtin can be reassigned.
- `lambda` also binds the name `lambda` in the current frame.
- `if` takes the false branch for anything other than `#t`.
- `and` stops at `#f` and `or` stops at `#t`. The shared combinator acts as
  `or` under any name other than `not` or `and`.
- `compare` evaluates its inner operands twice and stops at the first pair
  that fails.
- The unary list builtins evaluate their operand twice.
- A symbol in a `let` binding list or a parameter list is iterated
  character by character, as the host iterates strings.

Two of these deserve a closer look:

- `set!` can rebind a builtin. Its search (interpreter.py:375-383) runs up
  to the frame whose table is `scheme_builtins` (interpreter.py:307-308).
  `EvaluatorProps.SetBuiltin` proves that `(set! car 5)` rebinds `car`.
- `lambda` binds the new closure to the name `lambda` in the current frame
  (interpreter.py:368). `EvaluatorProps.LambdaBinds` and
  `EvaluatorProps.DefineProcedure` state this.

## Model

| member | source | states |
|---|---|---|
| Lexer.Lines | interpreter.py:69 | splitting on newlines gives at least one piece, and no piece holds a newline |
| Lexer.LinesRoundTrip | interpreter.py:69 | joining the pieces with newlines gives back the source exactly |
| Lexer.Code | interpreter.py:72-74 | the kept part of a line is a prefix with no `;`, and it stops exactly at the first `;` when there is one |
| Lexer.LineTokensIsLex | interpreter.py:70-79 | padding the parentheses and splitting on whitespace gives the same tokens as a one-pass scanner that emits parentheses alone and ends atoms at whitespace |
| Lexer.TokenizeConcat | interpreter.py:68-80 | the tokens, concatenated, are exactly the non-whitespace characters of every line cut at its first `;`, in order |
| Lexer.TokenizeWellFormed | interpreter.py:68-80 | every token is a lone parenthesis or a non-empty run of characters that are not whitespace, parentheses or `;` |
| Lexer.TokenizeUnwords | interpreter.py:59-80 | tokenizing well-formed tokens joined by spaces gives those tokens back |
| Numerals.ParseShowInt | interpreter.py:50-51 | `int()` reads the decimal rendering of every integer back to that integer |
| Syntax.ReadableAtom | interpreter.py:44-56 | an atom's printed token is not a parenthesis text, and `number_or_symbol` classifies it back to the same atom |
| Syntax.MatchFromSpec | interpreter.py:100-109 | the depth scan returns the first position where the depth returns to zero, and fails only when no such position exists before the last token |
| Syntax.GetIndSpec | interpreter.py:100-109 | `get_ind(s)` is the first index after `s` where the group opened at `s` closes; a syntax error means it closes nowhere before the last token |
| Syntax.GetIndSerialized | interpreter.py:100-109 | on a printed group, `get_ind` finds the group's own closing parenthesis |
| Syntax.ParseTokSerialized | interpreter.py:111-122 | `parse_tok` over the printed tokens of any sequence of readable forms gives back that sequence |
| Syntax.ParseTokErrors | interpreter.py:111-122 | a stray `)`, or a `(` that never closes before the last token, is a syntax error |
| Syntax.ParseBadShape | interpreter.py:93-98 | a lone parenthesis token, or several tokens not starting with `(` and ending with `)`, is a syntax error |
| Syntax.ParseSerialize | interpreter.py:83-124 | `parse` inverts the printer on every readable expression, so nesting mirrors the parentheses |
| Syntax.ReadBack | interpreter.py:59-124 | tokenizing and then parsing the printed text of a printable expression gives the expression back |
| Lists.Car | interpreter.py:196-199 | `car` succeeds exactly on pairs; otherwise it is an evaluation error |
| Lists.Cdr | interpreter.py:202-205 | `cdr` succeeds exactly on pairs; otherwise it is an evaluation error |
| Lists.CarCdrCons | interpreter.py:192-205 | `car` and `cdr` of `cons(a, d)` give back `a` and `d` |
| Lists.IsListReachesNil | interpreter.py:217-222 | `list?` is `#t` exactly when following `cdr` some number of times reaches the empty list |
| Lists.MakeListElements | interpreter.py:208-214 | `list` builds a proper list whose elements are its arguments, in order |
| Lists.Length | interpreter.py:225-230 | `length` succeeds exactly on proper lists, with their element count; otherwise it is an evaluation error |
| Lists.GetAt | interpreter.py:233-242 | `list-ref` on a proper list gives the element at an in-range index; an index at or past the end, or one that is not an integer, is an evaluation error; a negative one fails in the host. On a non-list only a pair at index 0 succeeds, with its `car` |
| Lists.MakeListLengthGetAt | interpreter.py:208-242 | `length` and `list-ref` read back what `list` was given |
| Lists.CopyList | interpreter.py:245-248 | the copy's elements are those of the first list followed by those of the second; the copy is proper exactly when the second list is |
| Lists.AppendList | interpreter.py:251-258 | `append` fails with an evaluation error exactly when some argument is not a proper list; otherwise it gives a proper list of all the arguments' elements in order (the empty list for no arguments) |
| Lists.AppendLength | interpreter.py:251-258 | the length of an append is the sum of the arguments' lengths |
| Builtins.SumSpec | interpreter.py:266 | `+` on integers is their total; any other operand is a host error |
| Builtins.Sub | interpreter.py:267 | `-` negates a single integer and otherwise subtracts the total of the rest from the first; no operands or a non-integer is a host error |
| Builtins.MultiplyCommutes | interpreter.py:141-145 | the host's `*`, including string repetition, gives the same outcome in either operand order |
| Builtins.MulSpec | interpreter.py:141-145 | `*` on integers is their product, 1 for none |
| Builtins.Div | interpreter.py:148-149 | `/` with one operand returns it; with integer operands it is a floating-point division (unsupported) or a division by zero (host error) |
| Builtins.HoldsSymmetry | interpreter.py:152-158 | `equal?` is symmetric, `>` and `>=` are `<` and `<=` with the operands swapped, and on two integers or two strings `<=` together with `>=` is `equal?` |
| Builtins.BelowTransitive | interpreter.py:152-158 | `<` is transitive, on integers and on the host's string order |
| Builtins.BuiltinTable | interpreter.py:265-283 | every builtin is bound under a symbol that is not a comparison name, to a builtin procedure |
| Frames.LookupNearest | interpreter.py:297-304 | `get_var` of a symbol gives the binding in the nearest frame of the chain that defines it, or a name error when none does; a number is an evaluation error |
| Frames.NearestSpec | interpreter.py:377-381 | the frame the `set!` search stops at is the first frame in the parent chain that defines the name, and no frame in the chain defines it when the search fails |
| Frames.AddVar | interpreter.py:294-295 | `add_var` changes only the current frame's table, by that one binding |
| Frames.AddVarLookup | interpreter.py:294-304 | after `add_var`, the name looks up to the new value and every other lookup is unchanged |
| Frames.Assign | interpreter.py:375-383 | the `set!` update succeeds exactly when some frame in the chain defines the name; it overwrites that nearest frame's binding, leaves every other frame unchanged, and is a name error otherwise |
| Frames.AssignLookup | interpreter.py:375-383 | after `set!`, the name looks up to the new value |
| Frames.Delete | interpreter.py:360-365 | `del` succeeds exactly when the current frame itself binds the name, returns that value and changes no other frame; otherwise it is a name error, even when an ancestor binds the name |
| Frames.DeleteLookup | interpreter.py:360-365 | after `del`, the name looks up as it did from the parent frame |
| Frames.PushFrame | interpreter.py:289-292 | a new frame gets a fresh number, the given parent and no bindings, and no other frame changes |
| Frames.PushFrameLookup | interpreter.py:289-304 | from a new, empty frame every name looks up as it does from the parent |
| Frames.InitialStoreSpec | interpreter.py:307-312 | from the top-level frame a symbol finds its builtin, or is a name error when it names none |
| Evaluator.Evaluate | interpreter.py:334-419 | evaluation never removes a frame or changes a parent link, and the value it returns only refers to frames that exist |
| Evaluator.CompareChain | interpreter.py:161-166 | a comparison always answers `#t` or `#f` when it finishes, and with fewer than two operands it answers `#t` in the unchanged store, whatever the operands are |
| EvaluatorProps.CompareShort | interpreter.py:161-166 | a comparison form with zero or one operand evaluates to `#t` without evaluating its operand, so an operand that would fail or define a name has no effect |
| Evaluator.EvaluateExpression | interpreter.py:461-462 | evaluating a text keeps the store well formed and only grows it |
| EvaluatorProps.EvalArgsAtoms | interpreter.py:393-395 | operands that are atoms evaluate left to right to their values, without changing the store |
| EvaluatorProps.EvalArgsSnoc | interpreter.py:393-395 | operands are evaluated left to right, each in the store the previous one left: one more operand extends the values by its value, or fails with its error |
| EvaluatorProps.CompareValuesChained | interpreter.py:161-166 | comparing values pair by pair answers true exactly when every adjacent pair is related, and answers at all when every pair can be compared |
| EvaluatorProps.AtomsSteady | interpreter.py:343-348 | numbers and names evaluate, at any fuel, without changing the store |
| EvaluatorProps.CompareSteady | interpreter.py:161-166 | on operands without side effects, `compare` is `#t` exactly when every adjacent pair is related, `#f` at the first pair that is not, and the error of the first pair that cannot be compared |
| EvaluatorProps.ComparePair | interpreter.py:161-166 | on any operands, once the first two are evaluated, an unrelated pair answers `#f` without evaluating the rest, and a related pair continues from the second operand, evaluated again in the store its first evaluation left |
| EvaluatorProps.AndSkip | interpreter.py:175-179 | operands that evaluate to anything but `#f` are passed over, and `and` carries on in the store they left |
| EvaluatorProps.AndSpec | interpreter.py:175-179 | on any operands evaluated left to right: `#t` when none gives `#f`; at the first operand that gives `#f`, `#f` with the later operands never evaluated; an operand's error ends `and` |
| EvaluatorProps.OrSkip | interpreter.py:180-183 | operands that evaluate to anything but `#t` are passed over, and `or` carries on in the store they left |
| EvaluatorProps.OrSpec | interpreter.py:180-183 | on any operands evaluated left to right: `#f` when none gives `#t`; at the first operand that gives `#t`, `#t` with the later operands never evaluated; an operand's error ends `or` |
| EvaluatorProps.ShortCircuit | interpreter.py:175-183 | `and` stops at a first operand that evaluates to `#f` and `or` at one that evaluates to `#t`, in the store that operand left, without evaluating the rest |
| EvaluatorProps.CombinatorByName | interpreter.py:169-183 | the shared combinator acts by the operator's name: `not` checks for exactly one operand before evaluating it (else an evaluation error) and gives `#t` only for `#f`; `and` is `and`; any other name is `or`; a form whose head symbol is looked up to the combinator evaluates to exactly this |
| EvaluatorProps.IfBranches | interpreter.py:186-189 | `if` evaluates its test, then only the second operand when the test gives `#t` and only the third for any other value, in the store the test left; fewer than three operands is a host error before anything is evaluated; a form whose head symbol is looked up to `if` evaluates to exactly this |
| EvaluatorProps.CallByName | interpreter.py:384-391 | a form headed by a symbol that is neither a special-form keyword nor a comparison name looks the symbol up along the frame chain and applies what it finds to the unevaluated operands, or fails with the lookup's error |
| EvaluatorProps.BindAllSpec | interpreter.py:400-401 | binding parameters one after another changes only the target frame: each bound name holds the value paired with its last occurrence (so a repeated name keeps the later value), and every other name keeps its binding |
| EvaluatorProps.FreshFrameLookup | interpreter.py:397-401 | in the callee frame each parameter looks up to the argument at its last occurrence (its own argument when the parameters are distinct), and every other name looks up as in the captured frame |
| EvaluatorProps.EnterSpec | interpreter.py:391-403 | calling a closure with the wrong number of arguments is an evaluation error; otherwise its body runs in a new frame whose parent is the captured frame, where each parameter looks up to the argument at its last occurrence and every other name as in the captured frame |
| EvaluatorProps.LetBindStep | interpreter.py:372-373 | each `let` initializer, of any shape, is evaluated in the outer frame, its value is bound to the name in the new frame, and the next binding follows in the resulting store; a failing initializer stops the rest |
| EvaluatorProps.LetFrame | interpreter.py:370-374 | `let` first makes one new frame, a child of the current frame; a failing binding is the answer, and otherwise the body is evaluated in that frame |
| EvaluatorProps.LetBindAtoms | interpreter.py:372-373 | atom initializers are evaluated in the outer frame, unaffected by earlier bindings, and bound in order in the new frame |
| EvaluatorProps.LetSpec | interpreter.py:370-374 | with atom initializers, the body runs in a new child frame where distinct bound names hold their initial values and every other name looks up as outside |
| EvaluatorProps.LetOneSpec | interpreter.py:370-374 | e.g. `(let () n)` gives `n` and makes exactly one frame |
| EvaluatorProps.CompareEvaluatesTwice | interpreter.py:163-165 | e.g. in `(<= 1 (let () 1) 1)` the middle operand is evaluated twice, making two frames |
| EvaluatorProps.CompareStopsEarly | interpreter.py:163-165 | e.g. in `(< 2 (let () 1) (let () 1))` the last operand is never evaluated, so one frame is made |
| EvaluatorProps.UnaryEvaluatesTwice | interpreter.py:412-418 | e.g. `(list? (let () 1))` evaluates its operand twice, making two frames, and gives `#f` |
| EvaluatorProps.DefineBinds | interpreter.py:356-359 | `(define x e)` returns the value of `e`, binds it to `x` in the current frame, whose other bindings stay as `e` left them, and changes no other frame beyond what `e` did; an error in `e` propagates |
| EvaluatorProps.LambdaBinds | interpreter.py:366-369 | `lambda` returns a new closure over the current frame and also binds it to the name `lambda` |
| EvaluatorProps.DefineProcedure | interpreter.py:352-355 | `(define (f params...) body)` binds `f` to a closure over those parameters and that body |
| EvaluatorProps.SetSpec | interpreter.py:375-383 | `set!` evaluates the value first; it then fails with a name error when no frame defines the name, and otherwise returns the value and the name looks up to it |
| EvaluatorProps.SetAfterDefine | interpreter.py:375-383 | because the value is evaluated first, `(set! x (define x n))` succeeds on an unbound `x` |
| EvaluatorProps.SetInAncestor | interpreter.py:377-382 | `set!` overwrites the binding in the nearest defining ancestor frame |
| EvaluatorProps.SetBuiltin | interpreter.py:375-383 | `set!` from the top-level frame can overwrite a builtin's binding |
| EvaluatorProps.DelSpec | interpreter.py:360-365 | `del` returns the current frame's binding and then the name looks up as from the parent frame; it is a name error when the current frame does not bind the name |
| EvaluatorProps.ApplySpec | interpreter.py:391-419 | on any operands: variadic builtins and closures get the operands' values, evaluated left to right; `cons` and `list-ref` check for exactly two operands before evaluating any; unary builtins evaluate every operand before checking for exactly one; a non-procedure is a host error after the operands are evaluated |
| EvaluatorProps.UnaryTwice | interpreter.py:412-418 | a unary builtin evaluates its operand, then evaluates it again in the store the first evaluation left and applies itself to that second value |
| EvaluatorProps.CompoundOperator | interpreter.py:386-390 | a compound operator is evaluated and then applied: `((lambda (x) x) 5)` is 5 |
| Driver.RemoveSpace | interpreter.py:422-432 | the output holds no `;` and no newline |
| Driver.RemoveSpaceNoComment | interpreter.py:422-432 | on text without `;` the output is the text with its newlines removed |
| Driver.GetLineSpec | interpreter.py:435-458 | the pieces followed by the unfinished remainder give back the input exactly; every piece is non-empty and ends with `)` or holds no parenthesis |
| Driver.GetLineForms | interpreter.py:435-458 | on text alternating parenthesis-free stretches and balanced groups, the pieces are exactly those stretches and groups; trailing parenthesis-free text is dropped |
| Driver.GetLineStrayClose | interpreter.py:435-458 | because the counts are never reset, a stray `)` throws the split off: `)((a))` gives `)`, `((a)` and `)` |
| Driver.RunChunks | interpreter.py:468-471 | running the pieces keeps the store well formed, and there is a result exactly when there is some piece |
| Driver.RunChunksLast | interpreter.py:468-471 | running one more piece evaluates it in the store the earlier pieces left, and its value is the result |
| Driver.EvaluateFile | interpreter.py:465-471 | evaluating a file keeps the store well formed and only grows it |
| Driver.EvaluateFileForms | interpreter.py:465-471 | on comment-free text of top-level forms, evaluating the file runs exactly those forms in order |

## Left out

- File I/O: `evaluate_file` is modelled on the file's text, not a file name.
- The example block at the end of the file (interpreter.py:473-493): it
  reads test files and prints.
- The recursion limit (interpreter.py:2) and host stack depth: evaluation
  takes fuel, and `OutOfFuel` stands for the host's recursion error.
- Floats: the `float()` branch of `number_or_symbol` (interpreter.py:53-54)
  is not modelled. A token that is not an integer becomes a symbol.
- `int()` on non-ASCII decimal digits: only the ASCII digits `0`-`9` count
  as digits.
- The default frames kept across calls (interpreter.py:334, 461-462, 465):
  `evaluate` and `evaluate_exp` share one default frame, and
  `evaluate_file` has a separate one of its own. The caller passes the
  store and the frame explicitly.
- The `"()N"` binding and per-frame counter for a compound operator
  (interpreter.py:386-390). The model evaluates the operator and then
  applies it.
- EvaluatorProps.CompoundOperator: proved only for one closure, because the
  general form would repeat `Apply`. The model does not create the source's
  extra `"()N"` binding.
- The mutable `myframe` field of a closure (interpreter.py:321, 402):
  closures are immutable records, and the body runs in the new frame
  directly.
- Identity-based builtin dispatch (interpreter.py:404-418): builtins carry a
  tag. The source compares the operator's value with the current entries
  of `scheme_builtins`, so the two differ once `set!` rebinds any builtin's
  name, to any value. After `(set! cons 7)`, `(cons 1)` is an evaluation
  error in the source and a host error in the model. After `(set! if 5)`,
  the source fails in the host without evaluating the operands, while the
  model evaluates them first. A builtin reached under another name after
  its own name is rebound takes the source's variadic call.
- `equal?` on two pairs compares host object identity. The model answers
  `Unsupported`.
- Builtins.Div: floating-point division is `Unsupported`, not a float
  result.
- The store after an error: errors carry no store, because no caller reuses
  one.
- `get_ind` keeps separate open and close counters. The model keeps their
  difference, which decides the same answer.
- EvaluatorProps.LetBindAtoms: states the values bound only for atom
  initializers; LetBindStep and LetFrame cover any initializer one binding
  at a time.
- EvaluatorProps.LetSpec: states the lookups in the new frame only for atom
  initializers, because a general initializer can change the frames the
  lookups pass through.
- EvaluatorProps.CompareSteady: states the whole comparison only for
  operands without side effects; for any operands, CompareShort covers zero
  or one operand and ComparePair covers each later pair in turn.
- EvaluatorProps.SetBuiltin: proved for `car` on the initial store only, not
  for every builtin name.
