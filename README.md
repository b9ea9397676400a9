# XRef lint: uninitialised variables, and the Git file provider

This project models two parts of XRef, a static analyser for PHP.

**The lint `XRef_Lint_UninitializedVars`** walks the token stream of one parsed PHP file. It reports three things:

- variables that are read before anything could have assigned them;
- autovivification (`$a[] = 1`, `$n++` on an unknown name);
- a few malformed declarations.

The lint keeps a stack of variable scopes. The bottom one is the file scope, which is always *relaxed*. Every `function` or closure pushes a *strict* scope, which is dropped at the matching `}`. A strict scope reports an unknown variable as an Error; a relaxed one reports it as a Warning. `extract(...)`, `$$v = ...` and `include`/`require` arm a *pending switch*: when the statement ends, the current scope becomes relaxed. Calls to functions that take arguments by reference declare those arguments. The signature tables come from three sources:

- the file's own functions and methods;
- the `lint.init-by-reference` configuration;
- the interpreter's internal functions, patched by an override table.

At the end of the file, a "not used" notice is meant to be filed for each variable left in the file scope.

The lint is modelled in two layers:

- **LintSpec** is a pure specification. A `ScanState` value holds the stack, the report, the drop point and the pending switch. Each handler of the token loop is a phase function that returns a `Flow`: go on to the next handler, jump past a token, or abort with the exception's message. `ScanFrom` is the token loop, and `Lint` is `getReport`.
- **LintEngine** is the imperative class `UninitializedVarsLint`. Its fields are those of the PHP object, and every handler is a method. Each method is proved to produce exactly the outcome and the new state of its phase function. `GetReport` is proved equal to `Lint`.

Modules **Scopes**, **Signatures** and **Tokens** hold the scope tables, the signature tables and the navigation over the parsed file. **LintProperties** proves what the lint promises, in terms of the specification. **HandlerProperties** states, handler by handler, which names each one declares, which defects it files and when it fails.

**The file provider `XRef_FileProvider_Git`** does four things:

- it turns a revision name into a 40-digit commit id;
- it keeps a table of excluded paths, normalised and keyed with their lengths;
- it lists the files of the revision minus the excluded ones;
- it returns the revision as its persistent id.

It is the class `GitProvider.GitFileProvider`.

Conventions:

- A token is an index into the file's token sequence. An index at or past the end stands for PHP's `null` token (`Tokens.Tok`).
- Every PHP fatal error (a method call on `null`) and every thrown exception is a failure result, `Aborted` or `Err`.
- The scanner's own classes are not modelled. The parsed file gives its tokens, bracket pairs, argument lists, class-at-position and method list as tables, with a `Valid` predicate stating the tokenizer's guarantees: pairs point forward, lists stay in range.

Where the prose description of the lint and the code differ, the model follows the code:

- the status "used" is never assigned, so every variable stays assigned;
- `$this` is counted as a superglobal;
- the comment at line 939 says that `lint.init-by-reference` positions start at 1, but the call handler uses them as indexes into the argument list, which start at 0 (lines 693-695); the model uses them as 0-based, as the code does.

Two lines of the code are evidently wrong (see Findings): the "not used" check of line 813 and the `list` guard of line 558. Each is modelled as written, with a lemma that shows the discrepancy. `Lint`, `GetReport` and the handlers they run use the corrected versions.

## Model

| member | source | states |
|---|---|---|
| LintEngine.UninitializedVarsLint.constructor | plugins/XRef/Lint/UninitializedVars.class.php:84-107 | Starts with report level Warning, an empty report and no scopes. The known globals are `$argv`, `$argc` and the configured ones. The internal table is the reflected one with the overrides. |
| LintEngine.UninitializedVarsLint.SetReportLevel | plugins/XRef/Lint/UninitializedVars.class.php:124-126 | The report level becomes the given one; nothing else changes. |
| LintEngine.UninitializedVarsLint.AddDefect | plugins/XRef/Lint/UninitializedVars.class.php:131-135 | The defect is appended exactly when its severity reaches the report level. |
| Scopes.Filed | plugins/XRef/Lint/UninitializedVars.class.php:131-135 | A defect at or above the level is appended; below it, the report is unchanged. |
| LintEngine.UninitializedVarsLint.AddScope | plugins/XRef/Lint/UninitializedVars.class.php:143-149 | A new empty scope, with the given drop point and mode, goes on top of the stack. |
| Scopes.NewScope | plugins/XRef/Lint/UninitializedVars.class.php:143-149 | A new scope has no variables and satisfies the table invariants. |
| LintEngine.UninitializedVarsLint.RemoveScope | plugins/XRef/Lint/UninitializedVars.class.php:157-159 | Pops and returns the top scope. |
| LintEngine.UninitializedVarsLint.AssignVar | plugins/XRef/Lint/UninitializedVars.class.php:162-177 | The variable is created or updated in the scope at the given depth. No other scope changes. |
| Scopes.Declare | plugins/XRef/Lint/UninitializedVars.class.php:162-177 | The name is in the table afterwards; the scope's drop point and mode are kept. |
| Scopes.DeclareEffect | plugins/XRef/Lint/UninitializedVars.class.php:162-177 | The variable is assigned at the token, and the keys grow by exactly that name. Other variables are unchanged. A new name is listed last. Each declaring construct sets its own flag: by-reference parameter, catch variable or global. |
| Scopes.DeclareKeeps | plugins/XRef/Lint/UninitializedVars.class.php:162-177 | Declaring keeps a scope well formed: each key is listed once, in insertion order. It never produces the status "used". |
| Scopes.DeclareAt | plugins/XRef/Lint/UninitializedVars.class.php:150-177 | Only the scope at that depth changes, and no scope's mode changes. |
| LintProperties.KnownGlobalsOnlyInFileScope | plugins/XRef/Lint/UninitializedVars.class.php:179-189 | A configured global or `$argv` is known only while the file scope is the only scope. |
| LintSpec.CheckVarAndAdd | plugins/XRef/Lint/UninitializedVars.class.php:191-202 | Changes only the variable tables and the report; no mode or drop point changes. |
| LintSpec.CheckVarAndAddEffect | plugins/XRef/Lint/UninitializedVars.class.php:179-202 | A known name leaves the state alone. An unknown one is reported (Error in a strict scope unless forced, otherwise Warning) and then declared. Afterwards the name is known. |
| LintEngine.UninitializedVarsLint.CheckVarAndAddDefectIfMissing | plugins/XRef/Lint/UninitializedVars.class.php:191-202 | The new state is the specification's `CheckVarAndAdd`. |
| LintProperties.CheckVarAndAddOnce | plugins/XRef/Lint/UninitializedVars.class.php:191-202 | A second check of the same name in the same scope changes nothing, so each name is reported once. |
| LintProperties.CheckVarAndAddSeverity | plugins/XRef/Lint/UninitializedVars.class.php:191-202 | At most one defect per check. It is an Error only in a strict scope without forcing. |
| Scopes.KnownGlobals | plugins/XRef/Lint/UninitializedVars.class.php:98-104 | The known globals are exactly `$argv`, `$argc` and the configured names. |
| LintEngine.UninitializedVarsLint.Begin | plugins/XRef/Lint/UninitializedVars.class.php:204-224 | Resets the stack to one relaxed file scope and clears the report and the pending switch. Builds the user-function table from the file and the configuration. |
| LintEngine.UninitializedVarsLint.GetReport | plugins/XRef/Lint/UninitializedVars.class.php:204-819 | The result is the function `Lint`: nothing for a non-PHP file, the scan's exception, the stack-size error, or the defects followed by the corrected end-of-file notices. The configuration fields are unchanged. `LintReport` states what that result holds. |
| LintProperties.FileScopeNotices | plugins/XRef/Lint/UninitializedVars.class.php:807-816 | With the corrected line 813, at the Notice level a successful scan ends with one notice for each non-superglobal variable left in the file scope. |
| LintProperties.LintReport | plugins/XRef/Lint/UninitializedVars.class.php:204-819 | A report exists exactly for a PHP file whose scan succeeds with only the file scope left. It starts with the scan's defects. Every later entry is a "not used" notice on the token of a non-superglobal file-scope variable, and above the Notice level there are none. |
| LintSpec.ScanFrom | plugins/XRef/Lint/UninitializedVars.class.php:226-805 | The token loop keeps the stack invariant in every state it returns. The invariant: the file scope is at the bottom and relaxed; a scope is open whenever a drop point is set; the tables are well formed; no variable is "used". |
| LintSpec.Resume | plugins/XRef/Lint/UninitializedVars.class.php:226-805 | An aborting handler ends the scan with its exception; any other outcome keeps the invariant. |
| LintSpec.StepInv | plugins/XRef/Lint/UninitializedVars.class.php:226-805 | Every token's handlers keep the invariant between tokens. |
| LintSpec.Step | plugins/XRef/Lint/UninitializedVars.class.php:226-805 | A token opens at most one scope, only with a drop point after it, and closes at most one, only at its drop point. Otherwise scopes only gain variables or become relaxed. |
| LintEngine.UninitializedVarsLint.ScanTokens | plugins/XRef/Lint/UninitializedVars.class.php:226-805 | The loop ends in the state `ScanFrom` computes from the initial state, or fails with its exception. |
| LintEngine.UninitializedVarsLint.ScanToken | plugins/XRef/Lint/UninitializedVars.class.php:226-805 | One iteration produces the outcome and state of `Step`. |
| LintEngine.StepAgrees | plugins/XRef/Lint/UninitializedVars.class.php:226-805 | The loop's next position and state after a token are those of the specification loop. |
| LintEngine.ResumeAgrees | plugins/XRef/Lint/UninitializedVars.class.php:226-805 | The same for every flow the loop can resume from. |
| LintEngine.ScanEnd | plugins/XRef/Lint/UninitializedVars.class.php:226 | Past the last token the loop returns the state unchanged. |
| LintSpec.Front | plugins/XRef/Lint/UninitializedVars.class.php:238-509 | The first handlers of a token (switch, assignment, foreach, function, drop point) keep the step's scope discipline. |
| LintEngine.UninitializedVarsLint.ScanFront | plugins/XRef/Lint/UninitializedVars.class.php:238-509 | Produces the outcome and state of `Front`. |
| LintSpec.Back | plugins/XRef/Lint/UninitializedVars.class.php:524-616 | `catch`, `list` and `global` open and close no scope, and jump only forward. |
| LintEngine.UninitializedVarsLint.ScanBack | plugins/XRef/Lint/UninitializedVars.class.php:524-804 | Produces the outcome and state of `Back`. |
| LintSpec.Late | plugins/XRef/Lint/UninitializedVars.class.php:628-804 | `static`, calls, `isset` and reads open and close no scope, and jump only forward. |
| LintEngine.UninitializedVarsLint.ScanLate | plugins/XRef/Lint/UninitializedVars.class.php:628-804 | Produces the outcome and state of `Late`. |
| LintSpec.ApplyPendingSwitch | plugins/XRef/Lint/UninitializedVars.class.php:277-285 | At or past the switch position, the current scope becomes relaxed and the slot is cleared. The notice is filed only if the scope was strict. Before that position, or with nothing pending, nothing changes. |
| LintEngine.UninitializedVarsLint.FirePendingSwitch | plugins/XRef/Lint/UninitializedVars.class.php:277-285 | The new state is `ApplyPendingSwitch`'s. |
| LintProperties.PendingSwitchFiresOnce | plugins/XRef/Lint/UninitializedVars.class.php:277-285 | Once the switch has fired it does not fire again. |
| LintSpec.DollarTrigger | plugins/XRef/Lint/UninitializedVars.class.php:250-265 | `$$v =` changes only the pending-switch slot. `DollarArms` states what it arms. |
| LintEngine.UninitializedVarsLint.ArmDollarSwitch | plugins/XRef/Lint/UninitializedVars.class.php:251-265 | The new state is `DollarTrigger`'s. |
| LintSpec.IncludeTrigger | plugins/XRef/Lint/UninitializedVars.class.php:269-275 | An include or require only arms the switch and touches nothing else. |
| LintEngine.UninitializedVarsLint.ArmIncludeSwitch | plugins/XRef/Lint/UninitializedVars.class.php:269-275 | The new state is `IncludeTrigger`'s. |
| LintProperties.LaterTriggerWins | plugins/XRef/Lint/UninitializedVars.class.php:251-275 | An include statement with an end overwrites whatever switch was pending, with its own token and its `;`. |
| LintSpec.TriggerPhase | plugins/XRef/Lint/UninitializedVars.class.php:238-285 | `extract(`, `$$v =` and include open and close no scope. `ExtractArms`, `DollarArms` and `LaterTriggerWins` state what each of them arms. |
| HandlerProperties.ExtractArms | plugins/XRef/Lint/UninitializedVars.class.php:236-285 | `extract(` jumps back to its own token with the stack and report unchanged. It arms the switch at the matching `)`: nothing fires before it; there the scope becomes relaxed, with the switch notice if it was strict. |
| HandlerProperties.DollarArms | plugins/XRef/Lint/UninitializedVars.class.php:250-285 | Without `$` + variable + `=`, nothing changes. Otherwise only the slot changes: the trigger is the variable, the position is the first `;` after it or none, and firing at or past it leaves the scope relaxed. |
| LintEngine.UninitializedVarsLint.SwitchMode | plugins/XRef/Lint/UninitializedVars.class.php:238-285 | Produces the outcome and state of `TriggerPhase`. |
| LintSpec.WritePhase | plugins/XRef/Lint/UninitializedVars.class.php:312-375 | The variable handler never aborts, opens no scope, and resumes only after its own token. `WriteDeclares`, `ArrayAutovivification`, `ScalarAutovivification` and `EmptyDeclaration` state what each form files and declares. |
| LintEngine.UninitializedVarsLint.HandleAssignment | plugins/XRef/Lint/UninitializedVars.class.php:312-375 | Produces the outcome and state of `WritePhase`. |
| LintEngine.UninitializedVarsLint.AssignmentForms | plugins/XRef/Lint/UninitializedVars.class.php:330-375 | Produces the outcome and state of `WriteForms`. |
| LintProperties.WriteDeclares | plugins/XRef/Lint/UninitializedVars.class.php:312-375 | The assignment handler never reports an Error. Whatever it handles is known in the current scope afterwards. |
| LintProperties.ArrayAutovivification | plugins/XRef/Lint/UninitializedVars.class.php:330-345 | `$v[...] =` on an unknown `$v` files the array-autovivification warning. On a known `$v`, or without an index, nothing is filed. |
| HandlerProperties.ScalarAutovivification | plugins/XRef/Lint/UninitializedVars.class.php:349-362 | For `$v++`, `$v--`, `$v .=`, `$v +=` or a `++`/`--` before `$v`, with or without an index: a known `$v` falls through. An unknown one gets the scalar (or, indexed, the array) autovivification warning on its token and is declared assigned there. |
| HandlerProperties.EmptyDeclaration | plugins/XRef/Lint/UninitializedVars.class.php:364-373 | A statement `$v;` right after `;` or `{` files the empty-declaration notice and declares `$v` assigned at that token. |
| Tokens.SkipIndexGroups | plugins/XRef/Lint/UninitializedVars.class.php:332-335 | The index walk stops at a token that is not `[`. It reports an index exactly when the first token is `[`. |
| LintEngine.SkipBrackets | plugins/XRef/Lint/UninitializedVars.class.php:332-335 | The loop computes `SkipIndexGroups`. |
| LintSpec.ForeachPhase | plugins/XRef/Lint/UninitializedVars.class.php:379-411 | `foreach` opens and closes no scope and jumps only forward. `ForeachBinds` states the declared key and value. |
| HandlerProperties.ForeachBinds | plugins/XRef/Lint/UninitializedVars.class.php:379-411 | Fails with the null-token error exactly when the key, or the value after `=>`, is missing. Otherwise only the current scope changes: it keeps its names, and the key (and the value) are assigned at their tokens. |
| LintEngine.UninitializedVarsLint.HandleForeach | plugins/XRef/Lint/UninitializedVars.class.php:379-411 | Produces the outcome and state of `ForeachPhase`. |
| LintEngine.FindKind | plugins/XRef/Lint/UninitializedVars.class.php:381-383 | The loop computes `SkipTillKind`. |
| Tokens.SkipTillKind | plugins/XRef/Lint/UninitializedVars.class.php:381-383 | The result is `null` or a token of that kind, at or after the start. |
| Tokens.SkipTillKindFirst | plugins/XRef/Lint/UninitializedVars.class.php:381-383 | It is the first non-space token of that kind. |
| LintSpec.DeclareParam | plugins/XRef/Lint/UninitializedVars.class.php:435-450 | A parameter changes only the variable tables, removes no name from any scope, or fails the scan. `DeclareParamBinds` states which name it declares and when it fails. |
| LintEngine.UninitializedVarsLint.DeclareParameter | plugins/XRef/Lint/UninitializedVars.class.php:435-450 | Produces the new state or the failure of `DeclareParam`. |
| LintSpec.DeclareParams | plugins/XRef/Lint/UninitializedVars.class.php:433-451 | The parameters change only the variable tables and remove no name. `DeclareParamsBind` states that each of them is declared. |
| HandlerProperties.DeclareParamBinds | plugins/XRef/Lint/UninitializedVars.class.php:435-450 | A parameter succeeds exactly when its variable is where the code looks for it. Then it is assigned at its token, marked by-reference exactly when written with `&`, and nothing else is lost. |
| HandlerProperties.DeclareParamsBind | plugins/XRef/Lint/UninitializedVars.class.php:433-451 | The list succeeds exactly when every parameter does, and then every parameter is assigned in the current scope. |
| LintEngine.UninitializedVarsLint.DeclareParameters | plugins/XRef/Lint/UninitializedVars.class.php:433-451 | Produces the new state or the failure of `DeclareParams`. |
| LintSpec.DeclareUse | plugins/XRef/Lint/UninitializedVars.class.php:464-490 | An import changes only the variable tables and the report, removes no name, or fails the scan. `ClosureImport` states what it declares in each scope. |
| LintEngine.UninitializedVarsLint.DeclareClosureUse | plugins/XRef/Lint/UninitializedVars.class.php:464-490 | Produces the new state or the failure of `DeclareUse`. |
| LintSpec.DeclareUses | plugins/XRef/Lint/UninitializedVars.class.php:456-491 | The imports change only the variable tables and the report, and remove no name. `DeclareUsesGrowsTop` states that the closure scope keeps what it had. |
| HandlerProperties.DeclareUsesGrowsTop | plugins/XRef/Lint/UninitializedVars.class.php:456-491 | The closure scope keeps every name, assignment and flag it had. |
| HandlerProperties.AfterParametersGrowsTop | plugins/XRef/Lint/UninitializedVars.class.php:452-504 | Imports and the body keep everything the new scope already held, and its mode. |
| LintEngine.UninitializedVarsLint.DeclareClosureUses | plugins/XRef/Lint/UninitializedVars.class.php:456-491 | Produces the new state or the failure of `DeclareUses`. |
| LintProperties.ClosureImport | plugins/XRef/Lint/UninitializedVars.class.php:464-490 | `use ($x)` checks `$x` in the enclosing scope, and `use (&$x)` creates it there without a defect. Both declare it in the closure scope as a by-reference parameter exactly when written with `&`. |
| LintSpec.FunctionBody | plugins/XRef/Lint/UninitializedVars.class.php:494-504 | Only `{` or `;` may follow the declaration; the scan resumes after it, and the `;` form closes the new scope at once. |
| LintSpec.FunctionEnd | plugins/XRef/Lint/UninitializedVars.class.php:417-504 | A declaration with a body opens exactly one scope with a later drop point. The `;` form leaves the stack as it was. |
| LintSpec.FunctionPhase | plugins/XRef/Lint/UninitializedVars.class.php:417-505 | Only a `function` token is handled. It opens one strict scope, dropped after its `}`, or none, and never closes any other. `FunctionDeclaresParams` states the parameters it declares and when it fails. |
| HandlerProperties.FunctionDeclaresParams | plugins/XRef/Lint/UninitializedVars.class.php:417-451 | A missing `(` fails with its error; a malformed parameter fails the scan. A scope that stays open is strict, saves the old drop point and has every parameter assigned. |
| LintSpec.AfterParameters | plugins/XRef/Lint/UninitializedVars.class.php:452-504 | After the parameters, the closure imports and the body keep the one-scope discipline. |
| LintEngine.UninitializedVarsLint.HandleFunction | plugins/XRef/Lint/UninitializedVars.class.php:417-505 | Produces the outcome and state of `FunctionPhase`. |
| LintEngine.UninitializedVarsLint.FinishDeclaration | plugins/XRef/Lint/UninitializedVars.class.php:452-504 | Produces the outcome and state of `AfterParameters`. |
| LintProperties.StepNeverRestricts | plugins/XRef/Lint/UninitializedVars.class.php:226-805 | One token never makes a relaxed scope strict again, and a scope it opens is strict. |
| LintProperties.StepDepth | plugins/XRef/Lint/UninitializedVars.class.php:417-509 | A token changes the depth by at most one. The depth grows only at `function` and shrinks only at the drop point, which then returns to its saved value. |
| LintProperties.StepKeepsDepth | plugins/XRef/Lint/UninitializedVars.class.php:417-509 | Any other token keeps the depth and the drop point. |
| LintProperties.NoDeclarationsKeepDepth | plugins/XRef/Lint/UninitializedVars.class.php:226-805 | Without `function` tokens and drop points ahead, the scan ends at the depth it started from. |
| LintProperties.NoDeclarationsBalanced | plugins/XRef/Lint/UninitializedVars.class.php:807-809 | A file without function declarations never raises the stack-size error. |
| LintProperties.DeclarationOnlyPopsAtOnce | plugins/XRef/Lint/UninitializedVars.class.php:494-500 | `function foo();` leaves the stack as it was. |
| LintSpec.DropPhase | plugins/XRef/Lint/UninitializedVars.class.php:506-509 | At the drop point, the top scope is closed and the saved drop point restored. Anywhere else nothing changes. |
| LintEngine.UninitializedVarsLint.DropScopeIfDue | plugins/XRef/Lint/UninitializedVars.class.php:506-509 | The new state is `DropPhase`'s. |
| LintSpec.CatchPhase | plugins/XRef/Lint/UninitializedVars.class.php:524-551 | `catch` opens and closes no scope and removes no name; its variable is declared, or the scan fails. `CatchDeclares` states the exact failure cases and the declared variable. |
| HandlerProperties.CatchDeclares | plugins/XRef/Lint/UninitializedVars.class.php:524-551 | `catch` always jumps or fails. Without `(` it fails with its error. It succeeds exactly when a type, a variable and `)` follow, and then jumps to the `)` with the variable assigned and marked as caught. |
| LintEngine.UninitializedVarsLint.HandleCatch | plugins/XRef/Lint/UninitializedVars.class.php:524-551 | Produces the outcome and state of `CatchPhase`. |
| LintSpec.ListGuard | plugins/XRef/Lint/UninitializedVars.class.php:556-560 | The corrected guard: anything but `(` after `list` is an error. |
| LintProperties.ListGuardSound | plugins/XRef/Lint/UninitializedVars.class.php:556-563 | With the corrected guard, the walk starts at a `(` whose matching `)` is a later token. |
| LintSpec.AssignListSlots | plugins/XRef/Lint/UninitializedVars.class.php:561-571 | The walk to the `)` changes only the variable tables, removes no name, and resumes at the `)`. `ListSlotsAssign` states that each variable it passes is assigned. |
| HandlerProperties.ListSlotsAssign | plugins/XRef/Lint/UninitializedVars.class.php:561-571 | Every variable between the start and the `)` is assigned in the current scope afterwards, and no name is lost. |
| LintSpec.ListPhase | plugins/XRef/Lint/UninitializedVars.class.php:556-572 | `list(...)` opens and closes no scope. `ListAssigns` states the failure and the assigned variables. |
| HandlerProperties.ListAssigns | plugins/XRef/Lint/UninitializedVars.class.php:556-572 | With the corrected guard, anything but `(` fails. Otherwise the walk resumes at the matching `)` with every variable inside assigned. |
| LintEngine.UninitializedVarsLint.HandleList | plugins/XRef/Lint/UninitializedVars.class.php:556-572 | Produces the outcome and state of `ListPhase`, with the corrected guard of line 558. |
| LintSpec.GlobalEntry | plugins/XRef/Lint/UninitializedVars.class.php:583-605 | One entry moves forward; it keeps every scope's mode and the drop point. `GlobalEntryCases` states each of its three forms. |
| HandlerProperties.GlobalEntryCases | plugins/XRef/Lint/UninitializedVars.class.php:583-605 | A variable is assigned, marked global and the walk moves past it. `$` + variable is checked like a read and arms the switch at the next `;`. Anything else fails with the entry error. |
| LintEngine.UninitializedVarsLint.GlobalEntryAt | plugins/XRef/Lint/UninitializedVars.class.php:583-605 | Produces the state and position, or the failure, of `GlobalEntry`. |
| LintSpec.GlobalNames | plugins/XRef/Lint/UninitializedVars.class.php:582-615 | The entries up to `;` open and close no scope. `GlobalNamesDeclare` states that every name in them is known and marked global. |
| LintSpec.GlobalPhase | plugins/XRef/Lint/UninitializedVars.class.php:580-616 | `global` opens and closes no scope. `GlobalDeclares` states what it declares. |
| HandlerProperties.GlobalNamesDeclare | plugins/XRef/Lint/UninitializedVars.class.php:582-615 | Ending at a `;`, every variable of the entries is known, each plain entry is marked global, and the current scope keeps what it had. |
| HandlerProperties.GlobalDeclares | plugins/XRef/Lint/UninitializedVars.class.php:580-616 | `global` always jumps or fails; when it jumps, it has declared its names as `GlobalNamesDeclare` states. |
| LintEngine.UninitializedVarsLint.HandleGlobal | plugins/XRef/Lint/UninitializedVars.class.php:580-616 | Produces the outcome and state of `GlobalPhase`. |
| LintSpec.StaticVars | plugins/XRef/Lint/UninitializedVars.class.php:633-643 | The declarators change only the variable tables and remove no name. The scan resumes at one of them. `StaticVarsDeclare` states when it fails and what it assigns. |
| LintSpec.StaticPhase | plugins/XRef/Lint/UninitializedVars.class.php:628-645 | `static` opens and closes no scope. `StaticDeclares` states the skipped forms, the failure and the assigned variables. |
| HandlerProperties.StaticVarsDeclare | plugins/XRef/Lint/UninitializedVars.class.php:633-643 | The declarators succeed exactly when each is a variable, else fail with the `static` error. Then each is assigned and the scan resumes at the last. |
| HandlerProperties.StaticDeclares | plugins/XRef/Lint/UninitializedVars.class.php:628-645 | `::`, `new static` and `instanceof static` fall through unchanged. Otherwise `static` fails exactly when a declarator is not a variable, or assigns them all. |
| LintEngine.UninitializedVarsLint.HandleStatic | plugins/XRef/Lint/UninitializedVars.class.php:628-645 | Produces the outcome and state of `StaticPhase`. |
| LintSpec.ByRefArgument | plugins/XRef/Lint/UninitializedVars.class.php:693-727 | One by-reference actual changes only the variable tables and the report. |
| LintEngine.UninitializedVarsLint.PassArgument | plugins/XRef/Lint/UninitializedVars.class.php:693-727 | The new state is `ByRefArgument`'s. |
| LintSpec.KnownCallArgs | plugins/XRef/Lint/UninitializedVars.class.php:688-729 | The by-reference positions of a known callee change only the variable tables and the report, and no mode. |
| LintEngine.UninitializedVarsLint.PassByReference | plugins/XRef/Lint/UninitializedVars.class.php:688-729 | The new state is `KnownCallArgs`'s. |
| LintProperties.ByRefVariableDeclared | plugins/XRef/Lint/UninitializedVars.class.php:700-709 | For a callee that initialises its arguments, a variable at a by-reference position is declared as assigned at its token in the current scope. No other scope changes and nothing is reported. |
| LintProperties.ByRefStaticPropertyIgnored | plugins/XRef/Lint/UninitializedVars.class.php:711-725 | A static property `Name::$var` at a by-reference position changes nothing. |
| LintProperties.KnownCallAssigns | plugins/XRef/Lint/UninitializedVars.class.php:693-727 | A variable at a by-reference position of a callee that initialises it is known after the call. |
| LintProperties.NoInitCalleeChecks | plugins/XRef/Lint/UninitializedVars.class.php:700-710 | For `sort` and the other non-initialising callees, the variable is checked exactly like a read. |
| LintProperties.NonVariableByRefIsError | plugins/XRef/Lint/UninitializedVars.class.php:715-724 | Any other actual at a by-reference position, except `Name::$var`, is an Error on that token. The variables are untouched. |
| LintSpec.UnknownCallArg | plugins/XRef/Lint/UninitializedVars.class.php:736-747 | One actual of an unknown callee changes only the variable tables and the report. |
| LintEngine.UninitializedVarsLint.CheckUnknownCallArg | plugins/XRef/Lint/UninitializedVars.class.php:736-747 | The new state is `UnknownCallArg`'s. |
| LintSpec.UnknownCallArgs | plugins/XRef/Lint/UninitializedVars.class.php:730-748 | The actuals of an unknown callee change only the variable tables and the report, and no mode. |
| LintEngine.UninitializedVarsLint.CheckUnknownCallArgs | plugins/XRef/Lint/UninitializedVars.class.php:730-748 | The new state is `UnknownCallArgs`'s. |
| LintProperties.UnknownCallWarnsOnly | plugins/XRef/Lint/UninitializedVars.class.php:730-748 | An unknown callee only ever adds warnings about possibly undefined variables. |
| LintSpec.CallPhase | plugins/XRef/Lint/UninitializedVars.class.php:673-751 | A call opens and closes no scope and never jumps. |
| LintEngine.UninitializedVarsLint.HandleCall | plugins/XRef/Lint/UninitializedVars.class.php:673-751 | Produces the outcome and state of `CallPhase`. |
| Signatures.QualifiedCallNameCases | plugins/XRef/Lint/UninitializedVars.class.php:971-995 | The lookup key ends with the called name, and is the bare name exactly for a plain call. `->` calls are qualified by the class (`$this` in a class) or `?`. `::` calls are qualified by the written class, with `self` resolved to the enclosing class or `?`. |
| Signatures.Lookup | plugins/XRef/Lint/UninitializedVars.class.php:680-686 | A callee is found when it is in either table. The user table wins over the internal one. |
| LintSpec.IssetPhase | plugins/XRef/Lint/UninitializedVars.class.php:758-779 | `isset`/`empty` open and close no scope. |
| LintEngine.UninitializedVarsLint.HandleIsset | plugins/XRef/Lint/UninitializedVars.class.php:758-779 | Produces the outcome and state of `IssetPhase`. |
| LintProperties.StrictIssetSkipsVariable | plugins/XRef/Lint/UninitializedVars.class.php:758-779 | In a strict scope, `isset($v)` jumps to the `)`; `$v` is neither declared nor checked. |
| LintProperties.RelaxedIssetDeclares | plugins/XRef/Lint/UninitializedVars.class.php:758-779 | In a relaxed scope the same test declares `$v`. |
| LintSpec.ReadPhase | plugins/XRef/Lint/UninitializedVars.class.php:784-804 | A read opens and closes no scope and keeps the drop point. `ReadReports` states what it reports and declares. |
| HandlerProperties.ReadReports | plugins/XRef/Lint/UninitializedVars.class.php:784-804 | A non-variable, a `::$v` or a file-scope read without the global check changes nothing. Otherwise the name is known afterwards: unknown, it files an Error in a strict scope and a Warning in a relaxed one, and is declared at that token. |
| LintEngine.UninitializedVarsLint.CheckRead | plugins/XRef/Lint/UninitializedVars.class.php:784-804 | The new state is `ReadPhase`'s. |
| LintEngine.UninitializedVarsLint.ReportUnused | plugins/XRef/Lint/UninitializedVars.class.php:811-816 | The report gains exactly the corrected end-of-file notices. |
| LintProperties.OneNoticePerName | plugins/XRef/Lint/UninitializedVars.class.php:811-816 | At the Notice level there is one notice per distinct name that is not a superglobal. |
| LintProperties.NoticesAreAboutUnusedVars | plugins/XRef/Lint/UninitializedVars.class.php:811-816 | Each notice has Notice severity, the "not used" message and the token of its variable. |
| LintProperties.EveryUnusedVarNoticed | plugins/XRef/Lint/UninitializedVars.class.php:811-816 | At the Notice level, every reportable name gets a notice. |
| LintProperties.NoNoticesAboveNoticeLevel | plugins/XRef/Lint/UninitializedVars.class.php:811-816 | Above the Notice level there are no notices. |
| LintProperties.ReportableSnoc | plugins/XRef/Lint/UninitializedVars.class.php:813 | Appending a name adds it to the reportable names unless it is a superglobal. |
| LintProperties.AsWrittenNoticesNeverFire | plugins/XRef/Lint/UninitializedVars.class.php:813 | As written, no variable with a truthy name is ever reported. |
| LintProperties.UnusedNoticeDiscrepancy | plugins/XRef/Lint/UninitializedVars.class.php:811-816 | One assigned `$x` in the file scope: the corrected check reports it, the written one does not. |
| LintProperties.ListGuardDiscrepancy | plugins/XRef/Lint/UninitializedVars.class.php:558 | The written guard lets `list foo` through, which the intended one rejects. Both reject an empty text and accept `(`. |
| Tokens.SkipTillText | plugins/XRef/Lint/UninitializedVars.class.php:824-832 | The result is `null` or a token with that text, and the start token is skipped only when its text differs. |
| Tokens.SkipTillTextFirst | plugins/XRef/Lint/UninitializedVars.class.php:824-832 | It is the first non-space token with that text. |
| LintEngine.FindText | plugins/XRef/Lint/UninitializedVars.class.php:824-832 | The loop computes `SkipTillText`. |
| Signatures.InternalFunctions | plugins/XRef/Lint/UninitializedVars.class.php:870-893 | The internal table has the reflected names plus the overridden ones. Overrides win; other entries are kept. |
| LintEngine.WriteOver | plugins/XRef/Lint/UninitializedVars.class.php:891-893 | The loop writes every override over the table. |
| Signatures.AmpPositionsExact | plugins/XRef/Lint/UninitializedVars.class.php:924-931 | The recorded positions are exactly those of the parameters written with `&`, in increasing order. |
| Signatures.AmpPositionsSnoc | plugins/XRef/Lint/UninitializedVars.class.php:926-931 | One more parameter adds its position exactly when it starts with `&`. |
| LintEngine.RefParams | plugins/XRef/Lint/UninitializedVars.class.php:924-931 | The loop computes the `&` positions. |
| Signatures.ParameterSignatureNull | plugins/XRef/Lint/UninitializedVars.class.php:932 | A declared function gets `null` exactly when no parameter is by reference. |
| Signatures.FileSignaturesKeys | plugins/XRef/Lint/UninitializedVars.class.php:912-934 | A key is in the file's table exactly when some declaration with a parameter list has it. |
| Signatures.NoBareConstructorKey | plugins/XRef/Lint/UninitializedVars.class.php:914-918 | A bare `__construct` never gets an entry. |
| LintEngine.DeclaredFunctions | plugins/XRef/Lint/UninitializedVars.class.php:912-934 | The loop computes the file's table. |
| Signatures.WithConfigKeys | plugins/XRef/Lint/UninitializedVars.class.php:941-946 | The configuration entries add exactly their names. |
| Signatures.ConfigLastWins | plugins/XRef/Lint/UninitializedVars.class.php:941-946 | For a configured name, the last entry naming it wins over earlier entries and over the file's declaration. |
| Signatures.ConfigKeepsOthers | plugins/XRef/Lint/UninitializedVars.class.php:941-946 | A name no entry mentions keeps the file's own signature. |
| LintEngine.AddConfigured | plugins/XRef/Lint/UninitializedVars.class.php:941-946 | The loop computes `WithConfig`. |
| LintEngine.GetUserFunctions | plugins/XRef/Lint/UninitializedVars.class.php:907-947 | The result is the file's table overwritten by the configuration. |
| Tokens.ParseType | plugins/XRef/Lint/UninitializedVars.class.php:949-964 | The type has one part per token consumed, from the start up to the token after the type. |
| Tokens.TypePartsRun | plugins/XRef/Lint/UninitializedVars.class.php:956-961 | Every token of the run is a name or a namespace separator, and the run stops at the first that is not. |
| LintEngine.ParseTypeAt | plugins/XRef/Lint/UninitializedVars.class.php:949-964 | The loop computes `ParseType`. |
| GitProvider.CanonicalCases | plugins/XRef/FileProvider/Git.class.php:14-23 | An id is kept whatever the lookup says. Any other name becomes the looked-up head, or fails with "Invalid revision" when the head is falsy. |
| GitProvider.RevisionIdForms | plugins/XRef/FileProvider/Git.class.php:15 | Forty hex digits are an id, also with a final newline. Thirty-nine digits, or forty plus any other character, are not. |
| GitProvider.UpperCaseIsLookedUp | plugins/XRef/FileProvider/Git.class.php:15-20 | Upper-case hex is not an id, so it is looked up. |
| GitProvider.GitFileProvider.Open | plugins/XRef/FileProvider/Git.class.php:11-24 | Construction succeeds exactly when `Canonical` does. It stores the canonical revision with an empty exclude table, or fails with its message. |
| GitProvider.GitFileProvider.constructor | plugins/XRef/FileProvider/Git.class.php:23 | Stores the revision with an empty exclude table. |
| GitProvider.GitFileProvider.GetPersistentId | plugins/XRef/FileProvider/Git.class.php:65-67 | The persistent id is the stored revision. |
| GitProvider.DropSepsSuffix | plugins/XRef/FileProvider/Git.class.php:29 | The leading rewrite keeps a suffix of the path. |
| GitProvider.DropSepsRun | plugins/XRef/FileProvider/Git.class.php:29 | It removes exactly a run of separators and keeps what follows it. |
| GitProvider.TrimSepsSpec | plugins/XRef/FileProvider/Git.class.php:30 | The trailing rewrite removes exactly the trailing run of separators. |
| GitProvider.StripDotPrefixSpec | plugins/XRef/FileProvider/Git.class.php:29 | Only a path starting `./` or `.\` changes. It loses the dot and every separator after it. |
| GitProvider.NormalizeShape | plugins/XRef/FileProvider/Git.class.php:29-30 | A normalised path never ends in a separator and is never longer. |
| GitProvider.NormalizeFixes | plugins/XRef/FileProvider/Git.class.php:29-30 | A path without the prefix and without a trailing separator is kept as is. |
| GitProvider.NormalizeExamples | plugins/XRef/FileProvider/Git.class.php:29-30 | `./src/` gives `src` and `.\\lib\` gives `lib`. `docs/` plus a newline keeps the newline. |
| GitProvider.NormalizeSinglePass | plugins/XRef/FileProvider/Git.class.php:29-30 | Each rewrite runs once, so normalising is not idempotent. |
| GitProvider.WithExcludedKeys | plugins/XRef/FileProvider/Git.class.php:27-32 | The table gains exactly the normalised paths. |
| GitProvider.WithExcludedValues | plugins/XRef/FileProvider/Git.class.php:31 | Each added path is stored with its length; other entries are kept. |
| GitProvider.WithExcludedLengths | plugins/XRef/FileProvider/Git.class.php:31 | The table always maps each key to its own length. |
| GitProvider.WithExcludedAgain | plugins/XRef/FileProvider/Git.class.php:26-33 | Excluding the same paths twice is the same as once. |
| GitProvider.WithExcludedPresent | plugins/XRef/FileProvider/Git.class.php:26-33 | Excluding paths already in the table changes nothing. |
| GitProvider.GitFileProvider.ExcludePaths | plugins/XRef/FileProvider/Git.class.php:26-33 | The table becomes `WithExcluded` of the old one and keeps every key mapped to its length. |
| GitProvider.ExcludedBySpec | plugins/XRef/FileProvider/Git.class.php:43-53 | A path excludes itself and everything under it after a separator. It does not exclude a sibling that only shares its prefix, or anything shorter. |
| GitProvider.GitFileProvider.IsExcluded | plugins/XRef/FileProvider/Git.class.php:42-54 | Holds exactly when some entry excludes the file. |
| GitProvider.KeptSpec | plugins/XRef/FileProvider/Git.class.php:35-59 | A file is kept exactly when it is listed and no entry excludes it. Nothing is added, and an empty table keeps every file. |
| GitProvider.GitFileProvider.GetFiles | plugins/XRef/FileProvider/Git.class.php:35-59 | Corrected: returns the listed files, in order, that no entry excludes. |
| GitProvider.GitFileProvider.GetFilesAsWritten | plugins/XRef/FileProvider/Git.class.php:35-59 | As written: returns every listed file. |
| GitProvider.ContinueDiscrepancy | plugins/XRef/FileProvider/Git.class.php:42-56 | `docs/a.php` under the excluded `docs` is returned as written and dropped by the corrected filter. |

## Left out

- The tokenizer and the parsed-file object are not part of this model. Token navigation (next and previous non-space token, paired brackets, argument lists, class at a position, the method list) is given as tables in `Tokens.ParsedFile`.
- Reflection over the interpreter's internal functions (`initialize_internal_php_function_list`, lines 838-868) is not modelled. The reflected table is a constructor parameter, and the override table is applied to it.
- `XRef::getConfigValue` is a parameter: the report level, `lint.check-global-scope`, `lint.init-by-reference` and the configured globals. The `split` of each `lint.init-by-reference` entry is not modelled; entries arrive as a name and a list of positions.
- The commented-out notice at scope exit (lines 510-519) is not code and is not modelled.
- `getName` and `getId` return constants and are not modelled.
- The exception messages are the fixed texts. The token text that the source appends to some of them is not modelled.
- `getFileContent` and the source-code manager are foreign calls. The revision lookup is the `head` parameter of `Open`, and the file listing is the `listed` parameter of `GetFiles`.
- GitProvider.ExcludedBy: compares strings exactly. It does not model PHP's loose `==` between two numeric strings (`"1.0" == "1"`) or integer-like array keys.
- The "used" status is never assigned by the source, so the model has no transition to it.
- Lint: files the corrected end-of-file notices and applies the corrected `list` guard. As written, line 813 files no "not used" notice (`AsWrittenNoticesNeverFire`), and line 558 lets `list` followed by anything with a truthy text through to the bracket walk. The as-written halves are separate members (see Findings).
- GetReport: computes `Lint`, so it has the same two corrections.
- ReportUnused: appends the corrected notices; as written, line 813 appends none.
- FileScopeNotices: counts the corrected notices; as written there are none.
- LintReport: describes the report with the corrected notices; as written, the report is exactly the scan's defects.
- ListPhase: applies the corrected guard. As written, a truthy text other than `(` after `list` is not rejected, and the walk starts from a token that may have no matching bracket; that path is not modelled.
- HandleList: computes `ListPhase`, so it has the same correction.
- ScalarAutovivification: does not cover `++$v;` and `--$v;`, where the token after the variable is `;`; those follow the same branch of the code.
- GlobalNamesDeclare: assumes the tokenizer spells every variable token `$name` (`DollarNamed`), which `Valid` does not state, so that `$` + variable is never itself a variable.
- GlobalDeclares: assumes the same.

## Findings

| source | as written | input that shows it | evidently intended | confidence | as-written member | corrected member |
|---|---|---|---|---|---|---|
| plugins/XRef/Lint/UninitializedVars.class.php:813 | `in_array($varName, self::$knownSuperglobals)` searches the table's values, which are all `true`. Loose comparison makes every non-empty name match, so the "not used" notice never fires. | A file scope holding one assigned `$x`, at the Notice level | Test the name against the table's keys: one notice per non-superglobal variable | not executed | LintSpec.UnusedNoticesAsWritten (LintProperties.AsWrittenNoticesNeverFire, LintProperties.UnusedNoticeDiscrepancy) | LintSpec.UnusedNotices (LintProperties.OneNoticePerName, LintProperties.EveryUnusedVarNoticed) |
| plugins/XRef/Lint/UninitializedVars.class.php:558 | `!$n->text == "("` parses as `(!$n->text) == "("`, so the error fires only for falsy text | `list foo` | Reject anything after `list` but `(` | not executed | LintSpec.ListGuardAsWritten (LintProperties.ListGuardDiscrepancy) | LintSpec.ListGuard (LintProperties.ListGuardSound) |
| plugins/XRef/FileProvider/Git.class.php:42-56 | Each `continue` only moves the inner `foreach` to its next entry, so every listed file is appended | `docs/a.php` with `docs` excluded | Skip the file when some entry excludes it | not executed | GitProvider.GitFileProvider.GetFilesAsWritten (GitProvider.ContinueDiscrepancy) | GitProvider.GitFileProvider.GetFiles (GitProvider.KeptSpec) |
