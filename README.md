# autodiff recorder, modelled in Dafny

`include/autodiff/autodiff.h` is a source-to-source reverse-mode
automatic-differentiation recorder. Arithmetic on `ADVar` handles does not
compute numbers. It appends records to a tape: an id, a scalar `Type`, a
forward template, a backward template and up to four dependency slots.
`stop_recording` then turns the tape into C++ text. It writes two
zero-initialised declarations per entry and one forward statement per
entry, in tape order. `set_gradient` seeds an adjoint. `backward` walks
the tape from the last entry to the first and writes the adjoint updates
of the floating-point entries. `codegen` returns the three buffers
concatenated. Templates use `$v` for the entry itself and `$0`..`$3` for
its dependencies. `replace` substitutes the generated names `v<id>` for
them.

The model has eight modules, one file each:

- `ScalarTypes` (`types.dfy`): the `Type` enumeration, `is_float`,
  `is_int` and `type_to_str`. `type_to_str` returns `None` for the one
  kind it aborts on, `Int8`.
- `Wrappers` (`wrappers.dfy`): the `Option` type shared by `find` and
  `type_to_str`.
- `Text` (`text.dfy`): `std::to_string` on ids, `std::string::find`,
  `replace_one` and the `replace` loop. It also holds the lemmas that pin
  down what `replace` does to sigil-led placeholders. A template can be
  written as pieces: runs of `$`-free text and two-character holes `$c`.
  `replace` of one hole then fills every occurrence of it at once.
- `Tape` (`tape.dfy`): the `Var` record, the slot padding of the four
  `append` overloads, the tape invariant (ids dense and equal to position,
  dependencies strictly earlier and packed from slot 0) and the operator
  template catalog, copied character for character. The catalog includes
  the `cos` backward rule with its `+` sign.
- `Emit` (`emit.dfy`): the text each emission pass writes, as functions
  of the tape. These are the specifications the recorder's loops are
  proved against. Lemmas cover declaration completeness, order, reverse
  order, float-only backward emission, and what substitution does to any
  template written as pieces.
- `Templates` (`templates.dfy`): every catalog template written as pieces
  and proved equal, character for character, to the string the header
  records. From that come the exact emitted statements of every operator:
  leaves, binary operators and comparisons, `select`, negation and the
  math functions, forward and backward.
- `Recording` (`recorder.dfy`): the static `recorder` as one `Recorder`
  object with the tape and the three buffers as fields. Every handle
  operation is a method that appends exactly its entries. The two emission
  passes are loops proved to append exactly the `Emit` text.
- `Scenarios` (`scenarios.dfy`): the session of `tests/simple_test.cpp`
  driven through the recorder's methods, with its generated code fixed
  character by character, and the empty session.

## Model

| member | source | states |
|---|---|---|
| ScalarTypes.IsFloat | include/autodiff/autodiff.h:55 | computes whether a kind is `Float32` or `Float64`, the kinds the sweep emits code for |
| ScalarTypes.IsInt | include/autodiff/autodiff.h:55-56 | integer kinds are exactly `Bool`, `Int8`, `Int32`, `UInt32`; no integer kind is floating point |
| ScalarTypes.TypeToStr | include/autodiff/autodiff.h:37-54 | the name is missing (the abort) exactly for `Int8`; every name is a non-empty single line without `$`; the float kinds are named `float`/`double` |
| Tape.NewEntry | include/autodiff/autodiff.h:110-131 | the appended record has the given id, kind and templates, the dependencies in slots 0.. in argument order, and -1 in every later slot |
| Tape.AppendKeepsValid | include/autodiff/autodiff.h:110-131 | appending an entry whose dependencies are existing entries keeps ids dense and dependencies earlier and packed |
| Tape.HandleSurvivesAppend | include/autodiff/autodiff.h:111-112 | `push_back` leaves every earlier entry in place, so existing handles stay valid |
| Tape.ArithForwardShape | include/autodiff/autodiff.h:161-180 | the forward template of `+ - * /` is `$v = $0 <op> $1;` with the operator's own spelling |
| Tape.ArithBackwardAdditive | include/autodiff/autodiff.h:161-170 | the `+` and `-` backward templates differ only in the sign of the second operand's update |
| Tape.ArithForward | include/autodiff/autodiff.h:161-180 | the forward template each of `+ - * /` records, as written in the header |
| Tape.ArithBackward | include/autodiff/autodiff.h:161-180 | the backward template each of `+ - * /` records, as written in the header |
| Tape.UnaryForward | include/autodiff/autodiff.h:181-215 | the forward template of negation and of `sin`, `cos`, `log`, `exp`, `sqrt` |
| Tape.UnaryBackward | include/autodiff/autodiff.h:181-215 | the backward template of negation and of the five math functions, the `cos` rule with its `+` sign |
| Tape.CmpForward | include/autodiff/autodiff.h:216-218 | the forward template `$v = $0 <op> $1;` that `CMP_OP` pastes together |
| Tape.Pad | include/autodiff/autodiff.h:110-131 | computes the four slots of an `append` overload: the given dependencies in slots 0.. in order, and -1 in every slot after them |
| Tape.SelectForward | include/autodiff/autodiff.h:187 | computes the forward template `$v = $0 ? $1 : $2;` of `select`: condition in slot 0, the two choices in slots 1 and 2 |
| Tape.SelectBackward | include/autodiff/autodiff.h:188 | computes the backward template of `select`: the result's adjoint goes to slot 1 when the condition holds and to slot 2 otherwise |
| Tape.LeafForward | include/autodiff/autodiff.h:149 | the forward template `$v=<symbol>;` of a leaf |
| Text.NatToStrDigits | include/autodiff/autodiff.h:263-264 | `to_string` of an id is a non-empty run of decimal digits, one digit exactly below ten |
| Text.IntToStrPlain | include/autodiff/autodiff.h:268 | a rendered id contains neither `$` nor a line break |
| Text.NatToStrInjective | include/autodiff/autodiff.h:302 | distinct ids render as distinct digit strings |
| Text.IntToStr | include/autodiff/autodiff.h:268 | computes `std::to_string` of an id: a `-` for a negative number, then its decimal digits |
| Text.Find | include/autodiff/autodiff.h:246-247 | computes the first occurrence of the pattern, or `None` for `npos`; a reported position leaves room for the whole pattern |
| Text.FindSpec | include/autodiff/autodiff.h:246-247 | `find` is `npos` exactly when the pattern does not occur, and otherwise an occurrence with none before it |
| Text.ReplaceOne | include/autodiff/autodiff.h:245-251 | a successful step that replaces a `$`-led pattern by `$`-free text strictly lowers the `$` count, which is the termination measure of `replace` |
| Text.ReplaceOneSpec | include/autodiff/autodiff.h:245-251 | `replace_one` fails exactly when `from` does not occur; otherwise it splices `to` in at the first occurrence, so the length changes by the length of `to` minus that of `from` |
| Text.ReplaceOneAt | include/autodiff/autodiff.h:245-251 | with the first occurrence known at `p`, the step is the splice at `p` |
| Text.ReplaceAllSpec | include/autodiff/autodiff.h:252-255 | after `replace` no occurrence of `from` is left; text without `from` is unchanged; the `$` count never grows |
| Text.ReplaceAll | include/autodiff/autodiff.h:252-255 | computes what `replace` leaves: `replace_one` applied until it finds nothing |
| Text.Replace | include/autodiff/autodiff.h:252-255 | the `while (replace_one(...))` loop terminates with the `ReplaceAll` result, which holds no occurrence of `from` |
| Text.PlainTextUnchanged | include/autodiff/autodiff.h:252-255 | `replace` leaves text without a `$` unchanged |
| Text.ReplaceHoleAfter | include/autodiff/autodiff.h:252-255 | after a text that holds no `$c` and does not end with `$`, `replace` of `$c` fills every occurrence of that hole in a template of pieces, however many there are, and changes nothing else |
| Text.ReplaceHole | include/autodiff/autodiff.h:252-255 | `replace` of a hole `$c` in a template of pieces is the template with all its `$c` holes filled at once |
| Text.BindTwice | include/autodiff/autodiff.h:267-274 | filling holes by two successive substitutions is one substitution by the union of the names, the first one winning |
| Emit.VarNamePlain | include/autodiff/autodiff.h:268 | a generated name `v<id>` never contains the sigil, so it is a valid replacement text |
| Emit.VarName | include/autodiff/autodiff.h:268 | computes the generated name `v<id>` that replaces `$v` and the `$j` of a dependency |
| Emit.Placeholder | include/autodiff/autodiff.h:273 | the slot placeholder `$<i>` contains the sigil |
| Emit.Gradients | include/autodiff/autodiff.h:300-303 | computes the adjoint name `dv<id>` of a handle |
| Emit.GradientsInjective | include/autodiff/autodiff.h:300-303 | `gradients` gives distinct entries distinct adjoint names |
| Text.RenderAppend | include/autodiff/autodiff.h:267-274 | the text of a concatenation of piece lists is the concatenation of their texts |
| Text.BindAppend | include/autodiff/autodiff.h:267-274 | filling the holes of a concatenation of piece lists fills each part separately |
| Emit.SubstDeps | include/autodiff/autodiff.h:269-274 | computes the slot loop from slot `i` on: `replace` of `$i` by the dependency's name, stopping at the first -1 |
| Emit.Substituted | include/autodiff/autodiff.h:267-274 | computes an entry's substituted template: `replace` of `$v`, then the slot loop |
| Emit.SlotNamesSpec | include/autodiff/autodiff.h:269-274 | on packed slots, the slot loop names `$j` exactly when slot `j` is used, and then by that dependency's `v<id>` |
| Emit.HoleNamesSpec | include/autodiff/autodiff.h:267-274 | an entry's holes are named `$v` by `v<id>` and `$j` by the `v<id>` of dependency `j` for every used slot, and no other hole is named |
| Emit.SubstDepsRender | include/autodiff/autodiff.h:269-274 | the slot loop over a template of pieces fills the holes of all used slots at once |
| Emit.SubstitutedRender | include/autodiff/autodiff.h:267-274 | for any template of pieces, however often each hole occurs, substitution fills every hole with the name `HoleNamesSpec` describes and keeps the literal text and the holes of unused slots |
| Emit.SubstDepsSigils | include/autodiff/autodiff.h:269-274 | substituting the dependency slots never adds a `$` |
| Emit.SubstitutedPlain | include/autodiff/autodiff.h:266-274 | a template without `$` (such as the empty backward template of a leaf or a comparison) is emitted unchanged |
| Emit.Substitute | include/autodiff/autodiff.h:267-274 | the substitution loop (`$v` first, then `$0`..`$3` up to the first unused slot) computes `Substituted` and never adds a `$` |
| Emit.InOrderAppend | include/autodiff/autodiff.h:262-277 | emitting in tape order over a concatenation emits the first part first |
| Emit.InReverseAppend | include/autodiff/autodiff.h:286-298 | emitting in reverse over a concatenation emits the second part first |
| Emit.DeclPair | include/autodiff/autodiff.h:263-264 | computes an entry's two declarations, or nothing for an `Int8` entry |
| Emit.DeclText | include/autodiff/autodiff.h:262-265 | computes the declaration block: the pairs in tape order |
| Emit.ForwardLine | include/autodiff/autodiff.h:267-276 | computes an entry's forward line: the substituted template and a newline, or nothing when it is empty |
| Emit.ForwardText | include/autodiff/autodiff.h:266-277 | computes the forward block: the lines in tape order |
| Emit.DeclLineCount | include/autodiff/autodiff.h:262-265 | without an `Int8` entry, the declaration block has exactly two lines per entry |
| Emit.DeclPairLines | include/autodiff/autodiff.h:263-264 | each entry contributes exactly two declaration lines |
| Emit.DeclPairSplit | include/autodiff/autodiff.h:263-264 | an entry's pair is `<type> v<id> = 0;\n` followed by `<type> dv<id> = 0;\n` |
| Emit.GradientDeclared | include/autodiff/autodiff.h:263-264 | the adjoint name that `gradients` returns for a handle of the tape is declared in the declaration block |
| Emit.ForwardOrder | include/autodiff/autodiff.h:266-277 | entry `k`'s forward statement comes after those of all earlier entries and before all later ones |
| Emit.BackwardLine | include/autodiff/autodiff.h:288-297 | computes an entry's backward line: the substituted template and a newline when it is non-empty and the kind is floating point, otherwise nothing |
| Emit.BackwardText | include/autodiff/autodiff.h:286-298 | computes the reverse sweep: the lines from the last entry down to the first |
| Emit.BackwardOrder | include/autodiff/autodiff.h:286-298 | entry `k`'s backward statement comes after those of all later entries and before all earlier ones |
| Emit.BackwardSkipsNonFloat | include/autodiff/autodiff.h:296-297 | a tape without a floating-point entry has an empty reverse sweep |
| Emit.NonFloatSilent | include/autodiff/autodiff.h:296-297 | an entry of any non-floating-point kind contributes nothing to the reverse sweep |
| Emit.ComparisonSilent | include/autodiff/autodiff.h:284-298 | a `Bool` (comparison) entry contributes nothing to the reverse sweep |
| Emit.DeclTextStep | include/autodiff/autodiff.h:262-265 | declaring one more entry appends its value line, then its adjoint line |
| Emit.ForwardTextStep | include/autodiff/autodiff.h:266-277 | replaying one more entry appends its statement and a newline, or nothing when the statement is empty |
| Emit.BackwardTextStep | include/autodiff/autodiff.h:286-298 | sweeping one more entry appends its statement only when it is non-empty and the entry is floating point |
| Templates.ExactlyTwoNames | include/autodiff/autodiff.h:269-274 | for an entry with exactly two dependencies, the holes named are `$v`, `$0` and `$1`, by `v<id>` and the two dependencies' names |
| Templates.LeafForwardRender | include/autodiff/autodiff.h:149 | for a `$`-free symbol, the pieces `$v` and `=<symbol>;` spell the leaf template exactly and `$v` is its only hole |
| Templates.LeafSubstituted | include/autodiff/autodiff.h:266-274 | for a `$`-free symbol, a leaf's forward statement is `v<id>=<symbol>;` |
| Templates.BinaryForwardRender | include/autodiff/autodiff.h:161-180 | the binary forward template of any `$`-free operator spelling is spelled exactly by the pieces `$v`, ` = `, `$0`, ` <op> `, `$1`, `;` |
| Templates.BinaryStatement | include/autodiff/autodiff.h:266-274 | the forward statement of a binary operator or comparison is `v<id> = v<a> <op> v<b>;` for its own id and its two dependencies |
| Templates.AdditiveBackwardRender | include/autodiff/autodiff.h:161-170 | the `+`/`-` backward template is spelled exactly by its pieces, every `$` starting a hole |
| Templates.AdditiveAdjoint | include/autodiff/autodiff.h:288-295 | the backward statement of `+`/`-` is `dv<a> += dv<id>;dv<b> <sign>= dv<id>;` |
| Templates.MulBackwardRender | include/autodiff/autodiff.h:171-175 | the `*` backward template is spelled exactly by its pieces, every `$` starting a hole |
| Templates.MulAdjoints | include/autodiff/autodiff.h:171-175 | the backward statement of `*` is `dv<a> += dv<id> * v<b>;dv<b> += dv<id> * v<a>;` |
| Templates.DivBackwardRender | include/autodiff/autodiff.h:176-180 | the `/` backward template is spelled exactly by its pieces, every `$` starting a hole |
| Templates.DivAdjoints | include/autodiff/autodiff.h:176-180 | the backward statement of `/` is `dv<a> += dv<id> / v<b>;dv<b> += dv<id> * v<a> / (v<b> * v<b>);` as the header writes it |
| Templates.SelectForwardRender | include/autodiff/autodiff.h:187 | the `select` forward template is spelled exactly by its pieces, every `$` starting a hole |
| Templates.SelectStatement | include/autodiff/autodiff.h:186-190 | the forward statement of `select` is `v<id> = v<c> ? v<a> : v<b>;` for the condition and the two choices |
| Templates.SelectBackwardRender | include/autodiff/autodiff.h:188 | the `select` backward template is spelled exactly by its pieces, every `$` starting a hole |
| Templates.SelectAdjoints | include/autodiff/autodiff.h:186-190 | the backward statement of `select` is `if(v<c>){dv<a> += dv<id>;}else{dv<b> += dv<id>;}`: only the chosen operand's adjoint is updated |
| Templates.UnaryForwardRender | include/autodiff/autodiff.h:181-215 | each unary forward template is `$v = <open>$0<close>;` with `-` or `std::<fn>(` and `)`, spelled exactly by its pieces |
| Templates.UnaryStatement | include/autodiff/autodiff.h:181-215 | the forward statement of negation is `v<id> = -v<a>;` and that of a math function `v<id> = std::<fn>(v<a>);` |
| Templates.UnaryBackwardRender | include/autodiff/autodiff.h:181-215 | each unary backward template is spelled exactly by its pieces, every `$` starting a hole |
| Templates.UnaryAdjoints | include/autodiff/autodiff.h:181-215 | the backward statement of each unary operation is `dv<a> += <rule>;` with the rule of `UnaryAdjoint`: `-dv<id>`, `dv<id> * std::cos(v<a>)`, `dv<id> * std::sin(v<a>)` for `cos` as written, `dv<id> / v<a>`, `dv<id> * v<id>`, `dv<id> * 0.5 / v<id>` |
| Recording.DeclarePass | include/autodiff/autodiff.h:262-265 | the first loop of `stop_recording` yields the declaration block; it aborts exactly when an `Int8` entry exists, and then holds the pairs of the entries before the first one |
| Recording.ForwardPass | include/autodiff/autodiff.h:266-277 | the second loop of `stop_recording` yields the forward block |
| Recording.BackwardPass | include/autodiff/autodiff.h:286-298 | the reverse-iterator loop of `backward` yields the reverse sweep |
| Recording.Recorder.constructor | include/autodiff/autodiff.h:97-109 | the static recorder starts with an empty tape and empty buffers |
| Recording.Recorder.StartRecording | include/autodiff/autodiff.h:256-259 | the tape and all three buffers are empty afterwards |
| Recording.Recorder.Append | include/autodiff/autodiff.h:110-131 | the new id is the old tape length; the tape grows by exactly that entry; earlier entries and the buffers are unchanged; the invariant is kept when the dependencies exist |
| Recording.Recorder.Symbol | include/autodiff/autodiff.h:149 | appends the leaf `$v=<symbol>;` with an empty backward template and no dependencies |
| Recording.Recorder.Literal | include/autodiff/autodiff.h:148 | a literal becomes a leaf holding its rendered text |
| Recording.Recorder.Default | include/autodiff/autodiff.h:150 | the default handle is the leaf `$v=0;` |
| Recording.Recorder.Arith | include/autodiff/autodiff.h:161-180 | appends one entry with the operator's template pair and the operands as dependencies, in order |
| Recording.Recorder.Unary | include/autodiff/autodiff.h:181-215 | appends one entry with the function's template pair and one dependency |
| Recording.Recorder.Select | include/autodiff/autodiff.h:186-190 | appends one entry depending on condition, then branch, then else branch |
| Recording.Recorder.Compare | include/autodiff/autodiff.h:216-227 | appends a `Bool` entry with `$v = $0 <op> $1;` and an empty backward template |
| Recording.Recorder.CompareLiteralLeft | include/autodiff/autodiff.h:220 | `lit op b` appends the literal's leaf, then the comparison of leaf and `b` |
| Recording.Recorder.CompareLiteralRight | include/autodiff/autodiff.h:221 | `a op lit` appends the literal's leaf, then the comparison of `a` and leaf |
| Recording.Recorder.ArithLiteralLeft | include/autodiff/autodiff.h:229 | `lit op b` appends the literal's leaf, then the operator on leaf and `b` |
| Recording.Recorder.ArithLiteralRight | include/autodiff/autodiff.h:230 | `a op lit` appends the literal's leaf, then the operator on `a` and leaf |
| Recording.Recorder.ArithAssign | include/autodiff/autodiff.h:235-238 | `a op= b` rebinds `a` to the newly appended entry `a op b` |
| Recording.Recorder.ArithAssignLiteral | include/autodiff/autodiff.h:231-234 | `a op= lit` appends the leaf, then `a op leaf`, and rebinds `a` to the latter |
| Recording.Recorder.StopRecording | include/autodiff/autodiff.h:260-278 | appends the declaration block and then the forward block; on an `Int8` entry it stops after the pairs before it, and the forward buffer stays untouched |
| Recording.Recorder.SetGradient | include/autodiff/autodiff.h:279-283 | appends exactly `dv<id> =<symbol>;\n` to the backward buffer |
| Recording.Recorder.Backward | include/autodiff/autodiff.h:284-298 | appends exactly the reverse sweep to the backward buffer and changes nothing else |
| Recording.Recorder.Codegen | include/autodiff/autodiff.h:304-307 | the result is the declarations, then the forward code, then the backward code |
| Scenarios.SumDeclarations | tests/simple_test.cpp:6-10 | the `x`, `y`, `x + y` trace declares `v0`, `dv0`, `v1`, `dv1`, `v2`, `dv2` as floats, in that order |
| Scenarios.SumForwardCode | tests/simple_test.cpp:6-10 | its forward block is `v0=x;\nv1=y;\nv2 = v0 + v1;\n` |
| Scenarios.SumBackwardCode | tests/simple_test.cpp:6-12 | its reverse sweep is `dv0 += dv2;dv1 += dv2;\n`; the leaves emit nothing |
| Scenarios.SumSession | tests/simple_test.cpp:6-13 | the whole session generates the declarations, the forward block, `dv2 =1;\n` and the sweep, character by character |
| Scenarios.EmptySession | include/autodiff/autodiff.h:256-307 | a session that records nothing generates the empty string |

## Left out

- The conversion constructor `ADVar(const ADVar<T>&)` (`autodiff.h:152-159`) is not modelled. It adds a `Type` to a `std::string`, so it does not compile when instantiated. It also never records `rhs` as a dependency.
- `size_of` is not modelled: nothing calls it.
- `from_cpp_type` is not modelled. Every recording method takes the scalar `Type` explicitly.
- C++ static typing of handles is modelled as preconditions: both operands have one kind, and a `select` condition is `Bool`.
- `ADVar::to_string` is not modelled: it formats floating point with `max_digits10`. Literal handles take the rendered text as a parameter. `ADVar()` renders `Scalar()` as `0`.
- Recording.Recorder.Append: ids are unbounded integers. The source's `int32_t` cast of the tape length would wrap past 2^31 - 1 entries, which is not modelled.
- The `std::ostringstream` buffers are plain strings. Each pass builds its text and appends it once, rather than streaming piece by piece. The final buffers are the same.
- The static global `recorder` is one `Recorder` object passed around explicitly. There is no concurrency to model.
- Recording.Recorder.StopRecording: `abort()` on an `Int8` entry ends the process. The model instead returns `aborted` with the buffers as they stood at that point.
- Text.Replace: defined only for a `$`-led pattern and a `$`-free replacement, the only calls the emitters make. The source loop does not terminate when `to` re-creates `from`, and that divergence is not modelled.
- Repeated `replace_one` is not a single left-to-right pass. Text such as `$$v` is rewritten more than once. `Text.ReplaceHole` and `Emit.SubstitutedRender` describe templates written as pieces, where every `$` starts a hole. Every operator template has that form, and so does every leaf with a `$`-free symbol.
- A leaf whose symbol holds a `$` is not given an exact emitted statement: `replace` would also rewrite the symbol's text.
- Whether the emitted derivative formulas are correct is not modelled: templates are text. For example, the `cos` rule adds `d$v * std::sin($0)` as written.
- `tests/simple_test.h` and `tests/simple_test_cg.cpp` are not part of this model. The operand evaluation order in `simple_test.h` is unspecified by C++, so its tape ids are not fixed. The file output of `simple_test_cg.cpp` is I/O.
