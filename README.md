# kkj / cbc in Dafny

A model of the "code by contract" core of the kkj JavaScript library:

- **`cbc.assert`** (`cbc_assert.dfy`): the four value checks and their exact
  messages, and the fluent chain `cbc.assert.param(name, value).is.defined().and.notNull().and.string()...`.
  After each check, `newIs` recomputes which checks are still on offer. It
  does this from the append-only `stack` of checks that have passed. The
  assert object is a class whose `stack` field grows. `newIs` is a method
  with the source's loops, proved against a replay function over the stack.
- **`cbc.parse`** (`cbc_parse.dfy`): reading a function's source text.
  - The two declaration patterns are greedy scanners, proved equivalent to
    the regular expressions they replace.
  - `stripFuncDeclaration`.
  - `getDoc`: the leading run of `///` lines.
  - `replaceParam` and its inverse.
  - `parseParamList`.
  - The attribute-to-record step of `parseDoc`, with the browser's parser
    as a parameter.
  - `parseFunc`, which aligns the documentation entries with the parameters
    by position. It carries the last entry found over to later parameters.
  - The help text of `FuncInfo.toString` and `ParamInfo.toString`.
  - The argument check of `cbc.parse.func`.
- **`cbc.contract`** (`cbc_contract.dfy`):
  - `assertionString`, whose emitted chain is proved to be a legal path
    through `newIs` that admits exactly the documented values.
  - `wrap`, which builds the wrapper's source text. Reading that text back
    gives the original documentation and parameter text.
  - The `contracts` registry, which `new Contract` appends to and `all`
    returns.
- **`kkj.evt.Deferred`** (`kkj_evt.dfy`): the fallback deferred used without
  jQuery. It is a class over its closure state. Callbacks are identities, and
  their calls are recorded in a log. A lemma covers every sequence of
  `then`/`resolve` calls: each accepted callback is called exactly once, in
  registration order, with the first `resolve`'s arguments.

Supporting modules:

- `js.dfy` holds JavaScript values, `typeof` and exceptions.
- `strings.dfy` holds the string operations the source relies on:
  - the `\s` class and `trim`;
  - `split`, `join`, `indexOf` and a first-match `replace`;
  - ASCII lower-casing.

The regular expressions `^\s*|\s*$`, `/\s/g` and the others used by the
source are written out as scans over `seq<char>`.

## Model

| member | source | states |
|---|---|---|
| CbcAssert.Check | src/cbc.assert.js:111-159 | a check throws nothing exactly when the value meets it: not undefined for `defined`; not null for `notNull`; for a type check, undefined, null, or a value whose `typeof` is the type; for `notEmpty`, anything but `""`. Otherwise it throws that check's exact message |
| CbcAssert.OfferedCharacterization | src/cbc.assert.js:161-194 | after any stack of passed checks: `defined` is offered iff it has not passed, `notNull` likewise, each type check iff no type check has passed, `notEmpty` iff a `string` check passed with no `notEmpty` after it |
| CbcAssert.StringPendingSnoc | src/cbc.assert.js:179-191 | `notEmpty` becomes pending with a `string` check, stops being pending with a `notEmpty` check, and no other check changes that |
| CbcAssert.ChainEnds | src/cbc.assert.js:195-202 | `newIs` answers `null` exactly when `defined`, `notNull` and a type check have passed and `notEmpty` is not pending |
| CbcAssert.NameChainEnds | src/cbc.assert.js:220-224 | the chain `defined, notNull, string, notEmpty` leaves nothing on offer |
| CbcAssert.ComputeNewIs | src/cbc.assert.js:166-194 | the copy loop and the switch over the stack compute the replay of the stack on the initial checks, `string` re-adding `notEmpty` before all type checks go |
| CbcAssert.RemoveTypeAsserts | src/cbc.assert.js:186-188 | the loop deletes every type check from the offered checks and keeps every other check |
| CbcAssert.CountKeys | src/cbc.assert.js:195-198 | the counting loop counts every key once |
| CbcAssert.Assert.constructor | src/cbc.assert.js:27-29 | a fresh assert keeps the name and value and has an empty stack |
| CbcAssert.Assert.NewIs | src/cbc.assert.js:161-203 | pushes exactly one entry and answers with the checks left, or `null` when none is left |
| CbcAssert.Assert.Apply | src/cbc.assert.js:32-96 | a failing check throws its message and leaves the stack alone; a passing one is pushed and answers as `newIs` |
| CbcAssert.RunChainStep | src/cbc.assert.js:32-96 | one more offered link keeps an earlier error, else passes or throws as its check decides |
| CbcAssert.LegalPathShape | src/cbc.assert.js:174-192 | in a chain that calls only offered checks, no check appears twice, at most one type check appears, and `notEmpty` comes after `string` |
| CbcAssert.ChainPassesIff | src/cbc.assert.js:111-203 | a legal chain throws nothing iff the value meets every check in it; otherwise it throws the message of the first check the value fails |
| CbcAssert.NameCheck | src/cbc.assert.js:220-224 | the name is rejected if undefined, null, not a string or `""`, with the matching message, in that order |
| CbcAssert.Param | src/cbc.assert.js:210-231 | throws the name check's error, or hands out a fresh assert on the value, named by the name, with an empty stack |
| CbcParse.FuncPatternIsRegex | src/cbc.parse.js:10-11 | the scan for `funcPattern` finds a match iff the regular expression has one, and every match of the expression captures the name and parameters the scan captures |
| CbcParse.FuncPattern2IsRegex | src/cbc.parse.js:12-13 | the same for `funcPattern2`, `name : function (params` |
| CbcParse.StripCloseTail | src/cbc.parse.js:304 | the closing pattern removes `)`, whitespace, `{` and whitespace, leaving the body; `funcPattern2` does not match that text |
| CbcParse.StripKeywordDeclaration | src/cbc.parse.js:291-305 | on `function name(params) {` + body, the keyword pattern is the one used and `stripFuncDeclaration` leaves exactly the body |
| CbcParse.StripPropertyDeclaration | src/cbc.parse.js:291-305 | on `name : function (params) {` + body, the second pattern is the one used and `stripFuncDeclaration` leaves exactly the body |
| CbcParse.DocLineCapture | src/cbc.parse.js:280-281 | a doc line's capture holds no line terminator and neither starts nor ends with whitespace |
| CbcParse.DocLineOf | src/cbc.parse.js:280-283 | a line `///` + text gives back the text, when it has no surrounding whitespace and no line terminator |
| CbcParse.LeadingDocRun | src/cbc.parse.js:279-287 | the run holds the captures of the first lines in order, and the line after the run is not a `///` line |
| CbcParse.LeadingDocRunUnique | src/cbc.parse.js:279-287 | the run is the only sequence with those properties, so later `///` lines are never included |
| CbcParse.DocTextLines | src/cbc.parse.js:288 | splitting the documentation at newlines gives back the captured lines |
| CbcParse.GetDoc | src/cbc.parse.js:265-289 | the loop with its early `break` joins exactly the leading run of captures |
| CbcParse.RenameOpenWithoutGt | src/cbc.parse.js:364 | text with no `>` holds no opening tag and is left unchanged |
| CbcParse.RenameOpenStep | src/cbc.parse.js:364 | `<param` + attributes + `>` becomes `<parameter` + the same attributes + `>` |
| CbcParse.RestoreRenameOpen | src/cbc.parse.js:364 | renaming opening tags loses nothing: the inverse renaming gives the text back |
| CbcParse.RenameOpenKeepsNoClose | src/cbc.parse.js:364-365 | renaming opening tags never creates a `</parameter>` |
| CbcParse.RestoreRenameClose | src/cbc.parse.js:365 | renaming `</param>` loses nothing in a text without `</parameter>` |
| CbcParse.ReplaceParamRoundTrip | src/cbc.parse.js:359-366 | undoing both renamings gives back any documentation that did not already hold `</parameter>` |
| CbcParse.ParseParamListJoin | src/cbc.parse.js:368-383 | the names hold no whitespace and no comma; there are none iff the list is all whitespace; otherwise joined by `,` they give the list without its whitespace |
| CbcParse.IsTrueFlag | src/cbc.parse.js:325-328 | a flag attribute counts as set iff it is present and equals `true` ignoring letter case |
| CbcParse.ParamDocOf | src/cbc.parse.js:323-338 | `optional` and `mayBeNull` hold iff the attribute is present and reads `true` in any letter case; the type is absent for a missing or empty attribute |
| CbcParse.ParseDoc | src/cbc.parse.js:307-357 | the loop over the `<parameter>` elements and the `returns` branch give what the browser's elements describe |
| CbcParse.FirstDoc | src/cbc.parse.js:244-250 | the entry found is in the list and has the parameter's name; none is found iff no entry has it, and an undefined name matches none |
| CbcParse.FindParamDoc | src/cbc.parse.js:244-250 | the inner loop, stopping at the first match, finds that first entry |
| CbcParse.CarriedDocIsNearest | src/cbc.parse.js:241-255 | a parameter's entry is its own or that of the nearest earlier parameter with one; it has none iff no parameter up to it has one, and then its description is `""` and its type absent |
| CbcParse.AlignParams | src/cbc.parse.js:241-255 | exactly `func.length` records; the i-th is named by the i-th listed name (`""` past the end) and carries the entry above |
| CbcParse.ParseFunc | src/cbc.parse.js:224-263 | a `TypeError` when neither pattern matches; otherwise the name (null when empty), the summary (`""` when none), the aligned parameters and the return type and description |
| CbcParse.FuncInfoToString | src/cbc.parse.js:91-127 | the loop collects one syntax entry and one help entry per parameter, in order, into the NAME/SYNOPSIS/SYNTAX/PARAMETERS/OUTPUTS text |
| CbcParse.OutputsTypeLine | src/cbc.parse.js:124 | the OUTPUTS type is `<T>` for a non-empty return type and empty otherwise |
| CbcParse.IndentsFirstBreakOnly | src/cbc.parse.js:110 | `replace("\n", ...)` indents only the line after the first newline; later newlines are kept as they are |
| CbcParse.HelpEntryShape | src/cbc.parse.js:192-204 | a parameter's help entry is its `-name <type>` line indented by four and its description below it indented by eight |
| CbcParse.FuncCheck | src/cbc.parse.js:400-401 | `cbc.parse.func` rejects an undefined, a null and a non-function argument, with those messages, in that order |
| CbcParse.CheckFuncArgument | src/cbc.parse.js:400-401 | the chained checks yield exactly the chain's first error, and none exactly when the argument is a function |
| CbcParse.Func | src/cbc.parse.js:390-404 | the argument checks' error, or what `parseFunc` gives for the function's source and `length` |
| CbcContract.TypeCheckOfTag | src/cbc.contract.js:28-34 | a type whose lower-cased name is a `typeof` tag calls that tag's check: `Function` gives `func`, `Boolean` gives `bool` |
| CbcContract.AssertionText | src/cbc.contract.js:10-44 | `""` exactly when the parameter is optional, may be null and untyped; otherwise a text that starts with the `c` of `cbc.assert.param` and ends with `;` |
| CbcContract.PresenceOps | src/cbc.contract.js:21-26 | `defined` is present exactly when the parameter is not optional and comes first, then `notNull` exactly when it may not be null; nothing else |
| CbcContract.AssertionsSpellChain | src/cbc.contract.js:20-35 | for a known type, the calls written out are the chain's checks, one by one and in order |
| CbcContract.AssertionsForTag | src/cbc.contract.js:27-34 | a type named by a `typeof` tag adds its check after the presence checks |
| CbcContract.EmittedChainIsLegal | src/cbc.contract.js:20-35 | every chain `assertionString` writes calls only checks on offer: a legal path through `newIs` from a fresh assert |
| CbcContract.MeetsChainIff | src/cbc.contract.js:20-35 | a value meets every check in the chain iff the documentation admits it: defined unless optional, not null unless it may be null, of the documented type |
| CbcContract.EmittedChainChecks | src/cbc.contract.js:36-41 | the emitted chain lets a value through iff the documentation admits it; otherwise it throws the message of the first check the value fails |
| CbcContract.ParamListText | src/cbc.contract.js:56 | group 1 of `paramPattern` holds no `)` |
| CbcContract.ParamListOfKeyword | src/cbc.contract.js:150 | on a `function name(...)` source, `paramPattern` captures the same parameter text that `parseFunc` reads |
| CbcContract.ParamListOfProperty | src/cbc.contract.js:150 | the same on a `name : function (...)` source whose name holds no `(` |
| CbcContract.JoinDocLines | src/cbc.contract.js:140 | `"///" + lines.join("\n///")` writes each line as a `///` line |
| CbcContract.WrapperDeclaration | src/cbc.contract.js:149-155 | the wrapper is an unnamed keyword declaration with the original parameter text; stripping it leaves the `///` lines and what follows |
| CbcContract.BodyDocRun | src/cbc.contract.js:149-155 | the leading `///` lines of the wrapper's body are exactly the documentation's lines |
| CbcContract.WrapperKeepsDoc | src/cbc.contract.js:136-155 | `getDoc` on the wrapper's source gives back the original's documentation |
| CbcContract.WrapperReadsBack | src/cbc.contract.js:136-155 | the wrapper's documentation and parameter text read back as the original's, so the wrapper keeps the arity |
| CbcContract.AssertionLines | src/cbc.contract.js:145-148 | one assertion line per parameter, each empty or starting with `c` |
| CbcContract.CollectAssertions | src/cbc.contract.js:144-148 | the loop collects the assertion lines of the parameters in declared order |
| CbcContract.Registry.constructor | src/cbc.contract.js:48 | the registry starts empty |
| CbcContract.Registry.NewContract | src/cbc.contract.js:90-106 | the parse result is stored; the contract is appended at the end of the registry and set as the function's `_contract`; a parse that throws changes nothing |
| CbcContract.Registry.Wrap | src/cbc.contract.js:125-160 | without documentation, the function itself and no new contract. Otherwise exactly one fresh contract for the function is appended, holding what `parseFunc` reads from it, and earlier ones are kept; the wrapper's source is built from the parameter text, the documentation and one assertion line per parsed parameter, in declared order |
| KkjEvt.ThenAccepts | src/kkj.evt.js:42-50 | `then` accepts exactly one argument, a function |
| KkjEvt.ThenErrorKeepsState | src/kkj.evt.js:42-50 | a rejected `then` throws and leaves the queue and the log unchanged |
| KkjEvt.Deferred.constructor | src/kkj.evt.js:15-17 | a new deferred is pending with no callbacks and no calls made |
| KkjEvt.Deferred.State | src/kkj.evt.js:27-32 | `resolved` iff resolved, `pending` otherwise |
| KkjEvt.Deferred.Then | src/kkj.evt.js:34-57 | a rejected argument list throws and changes nothing; after resolution the callback is called at once with the stored arguments and `undefined` is returned; before it, the callback is queued and the deferred returned |
| KkjEvt.Deferred.Resolve | src/kkj.evt.js:59-77 | the first call stores the arguments, calls every queued callback in order and returns the deferred; later calls change nothing and return `undefined` |
| KkjEvt.Deferred.Promise | src/kkj.evt.js:79-97 | throws for any argument; otherwise a view of this deferred with `then` and `state` and without `resolve` |
| KkjEvt.Deferred.CallStub | src/kkj.evt.js:19-25 | every stub throws `Not implemented.` |
| KkjEvt.RunInvokesEachOnce | src/kkj.evt.js:34-77 | for any sequence of calls: resolved iff `resolve` was called; before that, no callback runs and the accepted ones wait in order; after it, every accepted callback has been called exactly once, in registration order, with the first `resolve`'s arguments |
| KkjEvt.StateAfterRun | src/kkj.evt.js:27-32 | `state()` is `pending` until the first `resolve` and `resolved` from then on |
| KkjEvt.ResolveOnce | src/kkj.evt.js:67-69 | a second `resolve` changes nothing, calls nothing and returns `undefined` |

## Left out

- The DOM behind `parseDoc` is a parameter, `dom`: element creation, `innerHTML` and `getElementsByTagName`. It maps the renamed documentation to the `<summary>`, `<parameter>` and `<returns>` elements and their attributes and `innerText`. Only the step from those elements to records is modelled.
- `Function.prototype.toString` and `length` are the `source` and `arity` of a function object. The wrapper's `eval`, the `_func` property and `get_func` on it are left out. So is the run-time forwarding of `this` and `arguments`. What `wrap` returns is the wrapper's source text and the original function.
- `func.get_contract`, `Contract.get_func` and `get_funcInfo` are plain field reads: the `func`, `funcInfo` and `contract` fields.
- `Registry.All` returns the list as it stands. That it only grows, in creation order, is stated by `NewContract` and `Wrap`.
- The jQuery hook-ups (`$.assert`, `jQuery.Deferred` when present) are left out. So are the namespace set-up and `cbc.assert.that`.
- src/kkj.data.js is network I/O. src/kkj.param.js generates code with `new Function`. Neither is part of this model.
- Numbers are integers: no floating point. `toLowerCase` and `toLocaleLowerCase` are modelled on ASCII letters only.
- What a `then` callback does when called is not modelled. Only the call, with its arguments, is recorded. Two consequences are out of scope:
  - a callback that calls `then` or `resolve` on the same deferred while `resolve` runs;
  - a callback that throws inside `resolve`'s loop (src/kkj.evt.js:73-74). In the code that stops the loop, so the later queued callbacks are never called, although the deferred is already resolved. `RunInvokesEachOnce` ("every accepted callback called exactly once") holds only for callbacks that return.
- Getters are fields of records: the `getName`, `getType` and `getDesc` closures of `ParamInfo`, and those of `FuncInfo`. The `ParamInfo` record covers both the `get...` accessors the contract code calls and the ones `cbc.parse` defines.
- The loops of `parseFunc` are the methods `FindParamDoc` (the inner loop) and `AlignParams` (the outer loop). Both are called from `ParseFunc`.
- The loop of `toString` builds its entry lists as `SyntaxEntries`/`HelpEntries` describe them.
- The code is followed where the library's tests expect a neighbouring version's behaviour:
  - `getDoc` on a block of empty `///` lines yields newlines, not `null`;
  - the wrapper calls the original without returning its result;
  - accessor and namespace names follow the code.
- CbcContract.Registry.Wrap: reads the documentation with the parser's own `getDoc` (src/cbc.parse.js:265-289). The `wrap` shown calls `cbc.parse.getDoc` (src/cbc.contract.js:136), but this version of src/cbc.parse.js exports only `func` on `cbc.parse` (388-406); `getDoc` lives on the private `priv.parse` object (216). As written, every call of `wrap` would therefore throw a `TypeError` at line 136 before registering anything. The model follows the library's tests (src/cbc.contract.tests.js:123), which call `cbc.parse.getDoc` as a neighbouring version exports it, and does not model that throw.
- CbcContract.EmittedChainChecks: it speaks about the checks that exist. A documented type that names no check of `cbc.assert` (say `Date`) makes `assertionString` write `date()`. When evaluated, that call throws a `TypeError`, because `.and` has no such member. `ChainOps` leaves that call off, so the lemma covers the checks before it.
- CbcContract.AssertionsSpellChain: stated only for types that name an existing check, for the same reason.
- CbcParse.StripKeywordDeclaration: stated when at least one whitespace character separates `)` from `{`. Without it, a body that itself starts with `: function (` would be matched again by the second pattern.
- CbcParse.StripPropertyDeclaration: stated for a name that does not begin with `function`, which the keyword pattern would claim first.
- CbcContract.ParamListOfProperty: stated for a name without `(`; `paramPattern` stops at the first `(` of the source.
