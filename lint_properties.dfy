/**
 * Properties of the scanner: the variable store, mode switching, the shape of
 * the scope stack, closure imports, reference arguments and the end-of-file
 * notices.
 */
module LintProperties {
  import opened Wrappers
  import opened Tokens
  import opened Scopes
  import opened Signatures
  import opened LintSpec

  // ---------------------------------------------------------------------------
  // The variable store

  /** Once `checkVarAndAddDefectIfMissing` has run for a name, running it again for
      the same name in the same scope changes nothing: a name is reported once. */
  lemma CheckVarAndAddOnce(e: Env, st: ScanState, name: string, tok: nat, tok2: nat, force: bool, force2: bool, depth: nat)
    requires depth < |st.stack|
    ensures var r := CheckVarAndAdd(e, st, name, tok, force, depth);
            CheckVarAndAdd(e, r, name, tok2, force2, depth) == r
  {
  }

  /** At most one defect per call, and never an Error where the scope is Relaxed or
      a warning is forced. */
  lemma CheckVarAndAddSeverity(e: Env, st: ScanState, name: string, tok: nat, force: bool, depth: nat)
    requires depth < |st.stack|
    ensures var r := CheckVarAndAdd(e, st, name, tok, force, depth);
            && |st.report| <= |r.report| <= |st.report| + 1
            && r.report[..|st.report|] == st.report
            && (|r.report| > |st.report| ==>
                  && r.report[|st.report|].token == tok
                  && (r.report[|st.report|].level == Error <==>
                        (ScopeAt(st.stack, depth).mode == Strict && !force))
                  && Rank(r.report[|st.report|].level) >= Rank(e.reportLevel))
  {
  }

  /** The known globals count only while the file scope is the only scope. */
  lemma KnownGlobalsOnlyInFileScope(e: Env, st: ScanState, name: string)
    requires |st.stack| >= 2 && name !in Superglobals && name !in Top(st).vars
    ensures !CheckVar(e, st, name, 0)
  {
  }

  // ---------------------------------------------------------------------------
  // Mode switching

  /** The pending switch is a single slot: once it has fired, it does not fire again. */
  lemma PendingSwitchFiresOnce(e: Env, st: ScanState, i: nat, j: nat)
    requires |st.stack| >= 1 && st.trigger.Some? && i >= st.switchAt
    ensures var r := ApplyPendingSwitch(e, st, i);
            ApplyPendingSwitch(e, r, j) == r
  {
  }

  /** A later trigger replaces the pending one: after an include statement with an
      end, the slot names the include token and its `;`, whatever was pending. */
  lemma LaterTriggerWins(e: Env, st: ScanState, i: nat)
    requires Valid(e.pf) && i < |e.pf.tokens|
    requires IsIncludeKind(e.pf.tokens[i].kind) && SkipTillText(e.pf, i, ";") < |e.pf.tokens|
    ensures var r := IncludeTrigger(e, DollarTrigger(e, st, i), i);
            r.trigger == Some(i) && r.switchAt == SkipTillText(e.pf, i, ";") && e.pf.tokens[r.switchAt].text == ";"
  {
  }

  /** One token never makes a Relaxed scope Strict again, and a scope it opens is Strict. */
  lemma StepNeverRestricts(e: Env, st: ScanState, i: nat)
    requires Valid(e.pf) && i < |e.pf.tokens| && StackInv(st)
    ensures var f := Step(e, st, i);
            !f.Abort? ==>
              && (forall j :: 0 <= j < |st.stack| && j < |f.st.stack| && st.stack[j].mode == Relaxed ==>
                     f.st.stack[j].mode == Relaxed)
              && (|f.st.stack| > |st.stack| ==> Top(f.st).mode == Strict)
  {
    FlowNeverRestricts(e, i, st, Step(e, st, i));
  }

  /** The same for any flow a step may produce. */
  lemma FlowNeverRestricts(e: Env, i: nat, st: ScanState, f: Flow)
    requires i < |e.pf.tokens| && |st.stack| >= 1 && StepFlow(e, i, st, f)
    ensures !f.Abort? ==>
              && (forall j :: 0 <= j < |st.stack| && j < |f.st.stack| && st.stack[j].mode == Relaxed ==>
                     f.st.stack[j].mode == Relaxed)
              && (|f.st.stack| > |st.stack| ==> Top(f.st).mode == Strict)
  {
    if !f.Abort? {
      var b := f.st;
      if Same(st, b) {
      } else if Popped(st, b, i) {
        forall j | 0 <= j < |st.stack| && j < |b.stack| && st.stack[j].mode == Relaxed
          ensures b.stack[j].mode == Relaxed
        {
          assert st.stack[..|st.stack| - 1][j] == st.stack[j];
        }
      } else {
        var pushed := st.stack + [NewScope(st.dropScopeAt, Strict)];
        forall j | 0 <= j < |st.stack| && j < |b.stack| && st.stack[j].mode == Relaxed
          ensures b.stack[j].mode == Relaxed
        {
          assert pushed[j] == st.stack[j];
        }
      }
    }
  }

  // ---------------------------------------------------------------------------
  // The scope stack

  /** One token changes the depth by at most one: it grows only at a `function`
      token, and shrinks only at the drop point, which restores the saved drop point. */
  lemma StepDepth(e: Env, st: ScanState, i: nat)
    requires Valid(e.pf) && i < |e.pf.tokens| && StackInv(st)
    ensures var f := Step(e, st, i);
            !f.Abort? ==>
              && |st.stack| - 1 <= |f.st.stack| <= |st.stack| + 1
              && (|f.st.stack| == |st.stack| + 1 ==>
                    e.pf.tokens[i].kind == Function && Top(f.st).prevScope == st.dropScopeAt && f.st.dropScopeAt > i)
              && (|f.st.stack| + 1 == |st.stack| ==>
                    i == st.dropScopeAt && f.st.dropScopeAt == Top(st).prevScope)
              && (|f.st.stack| == |st.stack| ==> f.st.dropScopeAt == st.dropScopeAt)
  {
    var f := Step(e, st, i);
    if !f.Abort? {
      var b := f.st;
      if Same(st, b) {
      } else if Popped(st, b, i) {
      } else {
        var pushed := st.stack + [NewScope(st.dropScopeAt, Strict)];
        assert pushed[|st.stack|] == NewScope(st.dropScopeAt, Strict);
      }
    }
  }

  /** A token that is not a `function` token and is not the drop point keeps the
      depth and the drop point. */
  lemma StepKeepsDepth(e: Env, st: ScanState, i: nat, f: Flow)
    requires Valid(e.pf) && i < |e.pf.tokens| && StackInv(st) && StepFlow(e, i, st, f) && !f.Abort?
    requires e.pf.tokens[i].kind != Function && st.dropScopeAt != i
    ensures |f.st.stack| == |st.stack| && f.st.dropScopeAt == st.dropScopeAt
  {
  }

  /** Without `function` tokens and without a drop point ahead, the scan ends at the
      depth it started from. */
  lemma {:induction false} NoDeclarationsKeepDepth(e: Env, st: ScanState, i: nat)
    requires Valid(e.pf) && i <= |e.pf.tokens| && StackInv(st) && st.dropScopeAt < i
    requires forall k :: i <= k < |e.pf.tokens| ==> e.pf.tokens[k].kind != Function
    ensures ScanFrom(e, st, i).Ok? ==> |ScanFrom(e, st, i).value.stack| == |st.stack|
    decreases |e.pf.tokens| - i, 1
  {
    if i < |e.pf.tokens| {
      ScanUnfold(e, st, i);
      NoDeclarationsKeepDepthAfter(e, st, i, Step(e, st, i));
    }
  }

  /** The same, from the flow of the token at `i`. */
  lemma {:induction false} NoDeclarationsKeepDepthAfter(e: Env, st: ScanState, i: nat, f: Flow)
    requires Valid(e.pf) && i < |e.pf.tokens| && StackInv(st) && st.dropScopeAt < i
    requires StepFlow(e, i, st, f)
    requires forall k :: i <= k < |e.pf.tokens| ==> e.pf.tokens[k].kind != Function
    ensures Resumable(e, i, f) && (Resume(e, i, f).Ok? ==> |Resume(e, i, f).value.stack| == |st.stack|)
    decreases |e.pf.tokens| - i, 0
  {
    if !f.Abort? {
      StepInv(e, i, st, f);
      StepKeepsDepth(e, st, i, f);
      NoDeclarationsKeepDepth(e, f.st, if f.Proceed? then i + 1 else f.at + 1);
    }
  }

  /** So a file without function declarations never raises the stack-size error. */
  lemma NoDeclarationsBalanced(e: Env)
    requires Valid(e.pf)
    requires forall k :: 0 <= k < |e.pf.tokens| ==> e.pf.tokens[k].kind != Function
    ensures ScanFrom(e, Init, 0).Ok? ==> |ScanFrom(e, Init, 0).value.stack| == 1
  {
    NoDeclarationsKeepDepth(e, Init, 0);
  }

  /** `function foo();` (the `;` form) leaves the stack as it was. */
  lemma DeclarationOnlyPopsAtOnce(e: Env, st: ScanState, s: ScanState, n: nat)
    requires Valid(e.pf) && |st.stack| >= 1 && Tok(e.pf, n).text == ";"
    requires Shape(PushScope(st).stack, s.stack)
    ensures FunctionBody(e, s, n).Continue?
    ensures |FunctionBody(e, s, n).st.stack| == |st.stack|
  {
  }

  // ---------------------------------------------------------------------------
  // Closure imports

  /** `use ($x)` checks `$x` in the enclosing scope; `use (&$x)` creates it there
      without a defect; both declare it in the closure's scope, with `isRefParam`
      equal to by-reference. */
  lemma ClosureImport(e: Env, st: ScanState, a: nat)
    requires Valid(e.pf) && |st.stack| >= 2 && a < |e.pf.tokens|
    ensures var byRef := e.pf.tokens[a].text == "&";
            var v := if byRef then NextNS(e.pf, a) else a;
            var r := DeclareUse(e, st, a);
            && (r.Err? <==> Tok(e.pf, v).kind != Variable)
            && (r.Ok? ==>
                  var name := e.pf.tokens[v].text;
                  var inner := ScopeAt(r.value.stack, 0);
                  var outer := ScopeAt(r.value.stack, 1);
                  && name in inner.vars && inner.vars[name].status == Assigned
                  && inner.vars[name].isRefParam == byRef
                  && (name in outer.vars || name in Superglobals)
                  && (forall j :: 0 <= j < |st.stack| - 2 ==> r.value.stack[j] == st.stack[j])
                  && (byRef ==> r.value.report == st.report && outer.vars[name].status == Assigned)
                  && (!byRef && CheckVar(e, st, name, 1) ==>
                        r.value.report == st.report && outer == ScopeAt(st.stack, 1))
                  && (!byRef && !CheckVar(e, st, name, 1) ==>
                        r.value.report == Filed(st.report, e.reportLevel,
                          Defect(v, if ScopeAt(st.stack, 1).mode == Relaxed then Warning else Error,
                                 if ScopeAt(st.stack, 1).mode == Relaxed then MsgPossiblyUndefined else MsgUndefined))))
  {
    var byRef := e.pf.tokens[a].text == "&";
    var v := if byRef then NextNS(e.pf, a) else a;
    if Tok(e.pf, v).kind == Variable {
      var name := e.pf.tokens[v].text;
      var s := if !byRef then CheckVarAndAdd(e, st, name, v, false, 1) else Assign(st, 1, name, v, Plain);
      var r := Assign(s, 0, name, v, Param(byRef));
      assert DeclareUse(e, st, a) == Ok(r);
      ImportInEnclosing(e, st, name, v, byRef);
      ImportInClosure(s, name, v, byRef);
    }
  }

  /** The first half of an import: `$x` is checked, or `&$x` declared, in the
      enclosing scope; the scopes below it are untouched. */
  lemma ImportInEnclosing(e: Env, st: ScanState, name: string, v: nat, byRef: bool)
    requires |st.stack| >= 2
    ensures var s := if !byRef then CheckVarAndAdd(e, st, name, v, false, 1) else Assign(st, 1, name, v, Plain);
            var outer := ScopeAt(s.stack, 1);
            && |s.stack| == |st.stack|
            && (name in outer.vars || name in Superglobals)
            && (forall j :: 0 <= j < |st.stack| - 2 ==> s.stack[j] == st.stack[j])
            && (byRef ==> s.report == st.report && outer.vars[name].status == Assigned)
            && (!byRef && CheckVar(e, st, name, 1) ==> s.report == st.report && outer == ScopeAt(st.stack, 1))
            && (!byRef && !CheckVar(e, st, name, 1) ==>
                  s.report == Filed(st.report, e.reportLevel,
                    Defect(v, if ScopeAt(st.stack, 1).mode == Relaxed then Warning else Error,
                           if ScopeAt(st.stack, 1).mode == Relaxed then MsgPossiblyUndefined else MsgUndefined)))
  {
    if !byRef {
      CheckVarAndAddEffect(e, st, name, v, false, 1);
    } else {
      DeclareEffect(ScopeAt(st.stack, 1), name, v, Plain);
    }
  }

  /** The second half: the name is declared in the closure's own scope, as a
      by-reference parameter exactly when written with `&`. */
  lemma ImportInClosure(s: ScanState, name: string, v: nat, byRef: bool)
    requires |s.stack| >= 2
    ensures var r := Assign(s, 0, name, v, Param(byRef));
            && |r.stack| == |s.stack| && r.report == s.report
            && ScopeAt(r.stack, 1) == ScopeAt(s.stack, 1)
            && (forall j :: 0 <= j < |s.stack| - 2 ==> r.stack[j] == s.stack[j])
            && name in ScopeAt(r.stack, 0).vars && ScopeAt(r.stack, 0).vars[name].status == Assigned
            && ScopeAt(r.stack, 0).vars[name].isRefParam == byRef
  {
    DeclareEffect(ScopeAt(s.stack, 0), name, v, Param(byRef));
  }

  // ---------------------------------------------------------------------------
  // Reference arguments

  /** A variable at a by-reference position of a callee that initialises its
      arguments is declared, as assigned at that token, in the current scope; no
      other scope changes and nothing is reported. */
  lemma ByRefVariableDeclared(e: Env, st: ScanState, name: string, a: nat)
    requires Valid(e.pf) && |st.stack| >= 1 && a < |e.pf.tokens|
    requires name !in NoInitFunctions && Tok(e.pf, SkipAmp(e.pf, a)).kind == Variable
    ensures var v := SkipAmp(e.pf, a);
            var r := ByRefArgument(e, st, name, a);
            && r.report == st.report
            && |r.stack| == |st.stack|
            && (forall j :: 0 <= j < |st.stack| - 1 ==> r.stack[j] == st.stack[j])
            && Top(r) == Declare(Top(st), e.pf.tokens[v].text, v, Plain)
  {
    var v := SkipAmp(e.pf, a);
    assert ByRefArgument(e, st, name, a) == Assign(st, 0, e.pf.tokens[v].text, v, Plain);
  }

  /** A static property (`Name::$var`) at a by-reference position changes nothing. */
  lemma ByRefStaticPropertyIgnored(e: Env, st: ScanState, name: string, a: nat)
    requires Valid(e.pf) && |st.stack| >= 1 && a < |e.pf.tokens|
    requires Tok(e.pf, SkipAmp(e.pf, a)).kind != Variable && IsStaticProperty(e.pf, SkipAmp(e.pf, a))
    ensures ByRefArgument(e, st, name, a) == st
  {
  }

  /** A variable passed at a by-reference position of a known callee that
      initialises its arguments is known in the current scope after the call. */
  lemma {:induction false} KnownCallAssigns(e: Env, st: ScanState, name: string, args: seq<nat>, positions: seq<nat>, k: nat)
    requires Valid(e.pf) && |st.stack| >= 1
    requires forall j :: 0 <= j < |args| ==> args[j] < |e.pf.tokens|
    requires k in positions && k < |args| && name !in NoInitFunctions
    requires Tok(e.pf, SkipAmp(e.pf, args[k])).kind == Variable
    ensures e.pf.tokens[SkipAmp(e.pf, args[k])].text in Top(KnownCallArgs(e, st, name, args, positions)).vars
    decreases |positions|
  {
    var s := if |args| > positions[0] then ByRefArgument(e, st, name, args[positions[0]]) else st;
    if positions[0] == k {
      EvolvedTopKeys(s.stack, KnownCallArgs(e, s, name, args, positions[1..]).stack);
    } else {
      KnownCallAssigns(e, s, name, args, positions[1..], k);
    }
  }

  /** For a callee that needs its arguments initialised (such as `sort`), a variable at
      a by-reference position is checked exactly as a read is. */
  lemma NoInitCalleeChecks(e: Env, st: ScanState, name: string, a: nat)
    requires Valid(e.pf) && |st.stack| >= 1 && a < |e.pf.tokens|
    requires name in NoInitFunctions && Tok(e.pf, SkipAmp(e.pf, a)).kind == Variable
    ensures var v := SkipAmp(e.pf, a);
            ByRefArgument(e, st, name, a) == CheckVarAndAdd(e, st, e.pf.tokens[v].text, v, false, 0)
  {
  }

  /** Any other actual at a by-reference position, except `Name::$var`, is an Error
      on that token, and the variables are untouched. */
  lemma NonVariableByRefIsError(e: Env, st: ScanState, name: string, a: nat)
    requires Valid(e.pf) && |st.stack| >= 1 && a < |e.pf.tokens|
    requires Tok(e.pf, SkipAmp(e.pf, a)).kind != Variable && !IsStaticProperty(e.pf, SkipAmp(e.pf, a))
    ensures var r := ByRefArgument(e, st, name, a);
            && r.stack == st.stack
            && r.report == Filed(st.report, e.reportLevel, Defect(SkipAmp(e.pf, a), Error, MsgNonVariableByRef))
  {
  }

  /** `b` is `a` followed by warnings about possibly undefined variables only. */
  ghost predicate WarnedAfter(a: seq<Defect>, b: seq<Defect>) {
    && |a| <= |b|
    && b[..|a|] == a
    && (forall k :: |a| <= k < |b| ==> b[k].level == Warning && b[k].message == MsgPossiblyUndefined)
  }

  lemma WarnedAfterTrans(a: seq<Defect>, b: seq<Defect>, c: seq<Defect>)
    requires WarnedAfter(a, b) && WarnedAfter(b, c)
    ensures WarnedAfter(a, c)
  {
    assert c[..|a|] == c[..|b|][..|a|];
  }

  /** An unknown callee only ever adds warnings about possibly undefined variables. */
  lemma {:induction false} UnknownCallWarnsOnly(e: Env, st: ScanState, args: seq<nat>)
    requires Valid(e.pf) && |st.stack| >= 1
    requires forall j :: 0 <= j < |args| ==> args[j] < |e.pf.tokens|
    ensures WarnedAfter(st.report, UnknownCallArgs(e, st, args).report)
    decreases |args|
  {
    if args == [] {
      assert st.report[..|st.report|] == st.report;
    } else {
      var s := UnknownCallArg(e, st, args[0]);
      UnknownCallArgWarns(e, st, args[0]);
      assert UnknownCallArgs(e, st, args) == UnknownCallArgs(e, s, args[1..]);
      UnknownCallWarnsOnly(e, s, args[1..]);
      WarnedAfterTrans(st.report, s.report, UnknownCallArgs(e, s, args[1..]).report);
    }
  }

  /** One actual of an unknown callee adds at most a warning. */
  lemma UnknownCallArgWarns(e: Env, st: ScanState, a: nat)
    requires Valid(e.pf) && |st.stack| >= 1 && a < |e.pf.tokens|
    ensures WarnedAfter(st.report, UnknownCallArg(e, st, a).report)
  {
    var pf := e.pf;
    var v := SkipAmp(pf, a);
    assert st.report[..|st.report|] == st.report;
    if Tok(pf, v).kind == Variable && IsLoneArgument(pf, v) {
      CheckVarAndAddEffect(e, st, pf.tokens[v].text, v, true, 0);
      assert (st.report + [Defect(v, Warning, MsgPossiblyUndefined)])[..|st.report|] == st.report;
    }
  }

  // ---------------------------------------------------------------------------
  // isset / empty

  /** In a Strict scope, `isset($v)` makes the scan jump to the `)`: `$v` is neither
      declared nor checked. */
  lemma StrictIssetSkipsVariable(e: Env, st: ScanState, i: nat)
    requires Valid(e.pf) && i < |e.pf.tokens| && |st.stack| >= 1 && Top(st).mode == Strict
    requires e.pf.tokens[i].kind == Isset || e.pf.tokens[i].kind == Empty
    requires Tok(e.pf, NextNS(e.pf, i)).text == "("
    requires Tok(e.pf, NextNS(e.pf, NextNS(e.pf, i))).kind == Variable
    ensures var v := NextNS(e.pf, NextNS(e.pf, i));
            var c := NextNS(e.pf, v);
            Tok(e.pf, c).text == ")" ==> IssetPhase(e, st, i) == Continue(st, c) && v < c
  {
  }

  /** In a Relaxed scope the same test declares `$v`. */
  lemma RelaxedIssetDeclares(e: Env, st: ScanState, i: nat)
    requires Valid(e.pf) && i < |e.pf.tokens| && |st.stack| >= 1 && Top(st).mode == Relaxed
    requires e.pf.tokens[i].kind == Isset || e.pf.tokens[i].kind == Empty
    requires Tok(e.pf, NextNS(e.pf, i)).text == "("
    requires Tok(e.pf, NextNS(e.pf, NextNS(e.pf, i))).kind == Variable
    requires Tok(e.pf, NextNS(e.pf, NextNS(e.pf, NextNS(e.pf, i)))).text == ")"
    ensures var v := NextNS(e.pf, NextNS(e.pf, i));
            var f := IssetPhase(e, st, i);
            f.Proceed? && CheckVar(e, f.st, e.pf.tokens[v].text, 0) && f.st.report == st.report
  {
  }

  // ---------------------------------------------------------------------------
  // Assignments

  /** The assignment handler never reports an Error, and whatever it handles
      (everything but a fall-through) is known in the current scope afterwards. */
  lemma WriteDeclares(e: Env, st: ScanState, i: nat)
    requires Valid(e.pf) && i < |e.pf.tokens| && |st.stack| >= 1
    requires e.pf.tokens[i].kind == Variable && (e.pf.classAt[i] == "" || e.pf.methodAt[i])
    requires Tok(e.pf, PrevNS(e.pf, i)).kind != DoubleColon
    ensures var f := WritePhase(e, st, i);
            && (f.Continue? ==> CheckVar(e, f.st, e.pf.tokens[i].text, 0))
            && (f.Continue? ==>
                  && |st.report| <= |f.st.report| <= |st.report| + 1
                  && (forall k :: |st.report| <= k < |f.st.report| ==> f.st.report[k].level != Error))
            && (f.Proceed? ==> f.st == st)
  {
    var pf := e.pf;
    var (n, isArray) := SkipIndexGroups(pf, NextNS(pf, i));
    WriteFormsDeclare(e, st, i, PrevNS(pf, i), n, isArray);
  }

  lemma WriteFormsDeclare(e: Env, st: ScanState, i: nat, p: nat, n: nat, isArray: bool)
    requires Valid(e.pf) && i < |e.pf.tokens| && |st.stack| >= 1
    ensures var f := WriteForms(e, st, i, p, n, isArray);
            && (f.Continue? ==> CheckVar(e, f.st, e.pf.tokens[i].text, 0))
            && (f.Continue? ==>
                  && |st.report| <= |f.st.report| <= |st.report| + 1
                  && (forall k :: |st.report| <= k < |f.st.report| ==> f.st.report[k].level != Error))
            && (f.Proceed? ==> f.st == st)
  {
    var pf := e.pf;
    var name := pf.tokens[i].text;
    var f := WriteForms(e, st, i, p, n, isArray);
    if f.Continue? {
      var d: Defect;
      var s: ScanState;
      if Tok(pf, n).text == "=" {
        d := Defect(i, Warning, MsgArrayAutoviv);
        s := if !CheckVar(e, st, name, 0) && isArray then AddDefect(e, st, d) else st;
      } else if (IsUpdateKind(Tok(pf, n).kind) || Tok(pf, p).kind == Inc || Tok(pf, p).kind == Dec)
                && !CheckVar(e, st, name, 0) {
        d := Defect(i, Warning, if isArray then MsgArrayAutoviv else MsgScalarAutoviv);
        s := AddDefect(e, st, d);
      } else {
        d := Defect(i, Notice, MsgEmptyDecl);
        s := AddDefect(e, st, d);
      }
      assert f.st == Assign(s, 0, name, i, Plain);
      AssignKnows(e, s, name, i);
      FiledNoError(st.report, e.reportLevel, d);
    }
  }

  /** A name assigned in the current scope is known there, and the report is kept. */
  lemma AssignKnows(e: Env, s: ScanState, name: string, tok: nat)
    requires |s.stack| >= 1
    ensures CheckVar(e, Assign(s, 0, name, tok, Plain), name, 0)
    ensures Assign(s, 0, name, tok, Plain).report == s.report
  {
    DeclareEffect(ScopeAt(s.stack, 0), name, tok, Plain);
  }

  /** Filing a defect that is not an Error adds at most that one entry. */
  lemma FiledNoError(report: seq<Defect>, level: Severity, d: Defect)
    requires d.level != Error
    ensures var r := Filed(report, level, d);
            && |report| <= |r| <= |report| + 1
            && (forall k :: |report| <= k < |r| ==> r[k].level != Error)
  {
  }

  /** `$v[...] = ` on an unknown `$v` reports the autovivification; on a known one,
      or without an index, it reports nothing. */
  lemma ArrayAutovivification(e: Env, st: ScanState, i: nat)
    requires Valid(e.pf) && i < |e.pf.tokens| && |st.stack| >= 1
    requires e.pf.tokens[i].kind == Variable && (e.pf.classAt[i] == "" || e.pf.methodAt[i])
    requires Tok(e.pf, PrevNS(e.pf, i)).kind != DoubleColon
    requires Tok(e.pf, SkipIndexGroups(e.pf, NextNS(e.pf, i)).0).text == "="
    ensures var f := WritePhase(e, st, i);
            var indexed := SkipIndexGroups(e.pf, NextNS(e.pf, i)).1;
            && f.Continue? && f.at == i
            && (indexed && !CheckVar(e, st, e.pf.tokens[i].text, 0) ==>
                  f.st.report == Filed(st.report, e.reportLevel, Defect(i, Warning, MsgArrayAutoviv)))
            && (!indexed || CheckVar(e, st, e.pf.tokens[i].text, 0) ==> f.st.report == st.report)
  {
  }

  // ---------------------------------------------------------------------------
  // End-of-file notices

  predicate Distinct(names: seq<string>) {
    forall a, b :: 0 <= a < b < |names| ==> names[a] != names[b]
  }

  /** The names of `names` that are not superglobals. */
  function Reportable(names: seq<string>): set<string> {
    set x | x in names && x !in Superglobals
  }

  /** Adding a name to the end of a list adds it to the reportable names, unless it
      is a superglobal. */
  lemma ReportableSnoc(front: seq<string>, x: string)
    ensures x in Superglobals ==> Reportable(front + [x]) == Reportable(front)
    ensures x !in Superglobals ==> Reportable(front + [x]) == Reportable(front) + {x}
  {
    assert forall y :: y in front + [x] <==> y in front || y == x;
  }

  /** At the Notice level, one notice per distinct name that is not a superglobal. */
  lemma {:induction false} OneNoticePerName(s: Scope, names: seq<string>)
    requires NoUsed(s) && Distinct(names)
    requires forall x :: x in names ==> x in s.vars
    ensures |UnusedNotices(Notice, s, names)| == |Reportable(names)|
    decreases |names|
  {
    if names != [] {
      var x := names[|names| - 1];
      var front := names[..|names| - 1];
      DistinctFront(names);
      assert forall y :: y in front ==> y in names;
      OneNoticePerName(s, front);
      ReportableSnoc(front, x);
      assert x !in Reportable(front);
      var d := Defect(s.vars[x].token, Notice, MsgNotUsed);
      assert UnusedNotices(Notice, s, names) ==
        if x !in Superglobals then UnusedNotices(Notice, s, front) + [d] else UnusedNotices(Notice, s, front);
    }
  }

  /** Dropping the last name of a list without repeats leaves a list without repeats
      that does not hold that name. */
  lemma DistinctFront(names: seq<string>)
    requires Distinct(names) && names != []
    ensures var front := names[..|names| - 1];
            Distinct(front) && names[|names| - 1] !in front && names == front + [names[|names| - 1]]
  {
    var front := names[..|names| - 1];
    forall k | 0 <= k < |front| ensures front[k] != names[|names| - 1] {
      assert names[k] == front[k];
    }
  }

  /** Each notice carries the notice severity and message and the token of the
      variable it is about. */
  lemma {:induction false} NoticesAreAboutUnusedVars(level: Severity, s: Scope, names: seq<string>)
    requires forall x :: x in names ==> x in s.vars
    ensures forall k :: 0 <= k < |UnusedNotices(level, s, names)| ==>
              var d := UnusedNotices(level, s, names)[k];
              && d.level == Notice && d.message == MsgNotUsed
              && (exists x :: x in names && x !in Superglobals && d.token == s.vars[x].token)
    decreases |names|
  {
    if names != [] {
      var x := names[|names| - 1];
      var front := names[..|names| - 1];
      assert forall y :: y in front ==> y in names;
      NoticesAreAboutUnusedVars(level, s, front);
      var r := UnusedNotices(level, s, names);
      var r0 := UnusedNotices(level, s, front);
      forall k | 0 <= k < |r|
        ensures r[k].level == Notice && r[k].message == MsgNotUsed
        ensures exists y :: y in names && y !in Superglobals && r[k].token == s.vars[y].token
      {
        if k < |r0| {
          assert r[k] == r0[k];
          var y :| y in front && y !in Superglobals && r0[k].token == s.vars[y].token;
          assert y in names;
        } else {
          assert Unused(x, s.vars[x]) && r == r0 + [Defect(s.vars[x].token, Notice, MsgNotUsed)];
          assert r[k].token == s.vars[x].token;
        }
      }
    }
  }

  /** At the Notice level every reportable name gets a notice. */
  lemma {:induction false} EveryUnusedVarNoticed(s: Scope, names: seq<string>, x: string)
    requires NoUsed(s) && forall y :: y in names ==> y in s.vars
    requires x in names && x !in Superglobals
    ensures exists k :: 0 <= k < |UnusedNotices(Notice, s, names)| && UnusedNotices(Notice, s, names)[k].token == s.vars[x].token
    decreases |names|
  {
    var front := names[..|names| - 1];
    assert forall y :: y in front ==> y in names;
    var r := UnusedNotices(Notice, s, names);
    if names[|names| - 1] == x {
      assert r[|r| - 1].token == s.vars[x].token;
    } else {
      assert names == front + [names[|names| - 1]];
      assert x in front;
      EveryUnusedVarNoticed(s, front, x);
      var k :| 0 <= k < |UnusedNotices(Notice, s, front)| && UnusedNotices(Notice, s, front)[k].token == s.vars[x].token;
      assert r[k] == UnusedNotices(Notice, s, front)[k];
    }
  }

  /** Above the Notice level there are no notices. */
  lemma {:induction false} NoNoticesAboveNoticeLevel(level: Severity, s: Scope, names: seq<string>)
    requires level != Notice
    requires forall x :: x in names ==> x in s.vars
    ensures UnusedNotices(level, s, names) == []
    decreases |names|
  {
    if names != [] {
      assert forall y :: y in names[..|names| - 1] ==> y in names;
      NoNoticesAboveNoticeLevel(level, s, names[..|names| - 1]);
    }
  }

  /** As written, no variable whose name is truthy (every `$name`) is ever reported. */
  lemma {:induction false} AsWrittenNoticesNeverFire(level: Severity, s: Scope, names: seq<string>)
    requires forall x :: x in names ==> x in s.vars && Truthy(x)
    ensures UnusedNoticesAsWritten(level, s, names) == []
    decreases |names|
  {
    if names != [] {
      assert forall y :: y in names[..|names| - 1] ==> y in names;
      AsWrittenNoticesNeverFire(level, s, names[..|names| - 1]);
    }
  }

  /** A file scope holding one assigned `$x`: the intended check reports it, the
      written one does not. */
  lemma UnusedNoticeDiscrepancy()
    ensures var s := Scope(["$x"], map["$x" := Var(Assigned, 3, false, false, false)], -1, Relaxed);
            && UnusedNotices(Notice, s, s.names) == [Defect(3, Notice, MsgNotUsed)]
            && UnusedNoticesAsWritten(Notice, s, s.names) == []
  {
    var s := Scope(["$x"], map["$x" := Var(Assigned, 3, false, false, false)], -1, Relaxed);
    assert s.names[..0] == [];
    assert "$x" !in Superglobals;
  }

  /** The `list` guard as written lets `list foo` through, while the intended one
      rejects it; both reject an empty text. */
  lemma ListGuardDiscrepancy()
    ensures !ListGuardAsWritten("foo") && ListGuard("foo")
    ensures ListGuardAsWritten("") && ListGuard("")
    ensures !ListGuardAsWritten("(") && !ListGuard("(")
  {
  }

  /** The intended guard lets through exactly `(`, so the matching bracket exists. */
  lemma ListGuardSound(e: Env, n: nat)
    requires Valid(e.pf) && !ListGuard(Tok(e.pf, n).text)
    ensures n < |e.pf.tokens| && n in e.pf.pairs
  {
  }

  // ---------------------------------------------------------------------------
  // The whole file

  /** The cases of `Lint`, spelled out for the engine's `GetReport`. */
  lemma LintUnfold(pf: ParsedFile, cfg: Config)
    requires Valid(pf)
    ensures !pf.isPhp <==> Lint(pf, cfg) == NotPhp
    ensures pf.isPhp ==>
              var sc := ScanFrom(MakeEnv(pf, cfg), Init, 0);
              && (sc.Err? ==> Lint(pf, cfg) == Aborted(sc.error))
              && (sc.Ok? && |sc.value.stack| != 1 ==> Lint(pf, cfg) == Aborted(ErrStackSize))
              && (sc.Ok? && |sc.value.stack| == 1 ==>
                    Lint(pf, cfg) == Defects(sc.value.report + UnusedNotices(cfg.reportLevel, sc.value.stack[0], sc.value.stack[0].names)))
  {
  }

  /** `d` is the scan's defects `scan`, unchanged, followed only by notices that a
      variable of `file` other than a superglobal is not used, and above the Notice
      level by nothing at all. */
  ghost predicate ScanThenNotices(level: Severity, scan: seq<Defect>, file: Scope, d: seq<Defect>) {
    && |scan| <= |d| && d[..|scan|] == scan
    && (forall k :: |scan| <= k < |d| ==>
          && d[k].level == Notice && d[k].message == MsgNotUsed
          && exists x :: x in file.vars && x !in Superglobals && d[k].token == file.vars[x].token)
    && (level != Notice ==> d == scan)
  }

  /** A PHP file gets a report exactly when the scan succeeds and ends back in the
      file scope; the report is then the scan's defects followed by notices about
      the file scope's unused variables. */
  lemma LintReport(pf: ParsedFile, cfg: Config)
    requires Valid(pf)
    ensures var sc := ScanFrom(MakeEnv(pf, cfg), Init, 0);
            var r := Lint(pf, cfg);
            && (r.Defects? <==> pf.isPhp && sc.Ok? && |sc.value.stack| == 1)
            && (r.Defects? ==> ScanThenNotices(cfg.reportLevel, sc.value.report, sc.value.stack[0], r.defects))
  {
    LintUnfold(pf, cfg);
    var sc := ScanFrom(MakeEnv(pf, cfg), Init, 0);
    if pf.isPhp && sc.Ok? && |sc.value.stack| == 1 {
      var file := sc.value.stack[0];
      NoticesFollowScan(cfg.reportLevel, sc.value.report, file);
    }
  }

  /** Appending the file scope's notices to the scan's defects has that form. */
  lemma NoticesFollowScan(level: Severity, scan: seq<Defect>, file: Scope)
    requires forall x :: x in file.names ==> x in file.vars
    ensures ScanThenNotices(level, scan, file, scan + UnusedNotices(level, file, file.names))
  {
    var notices := UnusedNotices(level, file, file.names);
    NoticesAreAboutUnusedVars(level, file, file.names);
    if level != Notice {
      NoNoticesAboveNoticeLevel(level, file, file.names);
    }
    forall k | |scan| <= k < |scan + notices|
      ensures (scan + notices)[k] == notices[k - |scan|]
    {
    }
    assert (scan + notices)[..|scan|] == scan;
  }

  /** At the Notice level, a successful scan ends with one notice per variable left
      in the file scope whose name is not a superglobal. */
  lemma FileScopeNotices(pf: ParsedFile, cfg: Config)
    requires Valid(pf) && pf.isPhp && cfg.reportLevel == Notice
    ensures var sc := ScanFrom(MakeEnv(pf, cfg), Init, 0);
            sc.Ok? && |sc.value.stack| == 1 ==>
              var s := sc.value.stack[0];
              && Lint(pf, cfg).Defects?
              && |Lint(pf, cfg).defects| == |sc.value.report| + |Reportable(s.names)|
  {
    var sc := ScanFrom(MakeEnv(pf, cfg), Init, 0);
    if sc.Ok? && |sc.value.stack| == 1 {
      var s := sc.value.stack[0];
      OneNoticePerName(s, s.names);
    }
  }
}
