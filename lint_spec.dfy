/**
 * The scanner of the uninitialized-variables lint, as functions on a value.
 *
 * `getReport` makes one pass over the tokens. Its state is the stack of scopes,
 * the defect list, the token at which the current function scope ends
 * (`dropScopeAt`, -1 for none) and a single pending Strict-to-Relaxed switch
 * (the token that caused it and the position from which it applies). For each
 * token it runs the construct handlers in the order the source lists them; a
 * handler either lets the token fall through to the next handler (`Proceed`),
 * moves the scan to the token after `at` (`Continue`, the source's
 * `$i = ...; continue`), or fails (`Abort`, a thrown exception or a method call
 * on `null`, after which nothing of the scan survives).
 *
 * The class in `LintEngine` performs the same pass in place and is proved to
 * compute exactly these functions.
 */
module LintSpec {
  import opened Wrappers
  import opened Tokens
  import opened Scopes
  import opened Signatures

  /** The configuration values the engine reads: `lint.report-level` (via
      `setReportLevel`), `lint.check-global-scope`, `lint.globals-vars`,
      `lint.init-by-reference` (already split into a name and positions), and the
      table the constructor builds by reflection over the interpreter's functions. */
  datatype Config = Config(
    reportLevel: Severity,
    checkGlobalScope: bool,
    globalsVars: seq<string>,
    initByReference: seq<ConfigSignature>,
    reflectedFunctions: map<string, Signature>)

  /** Everything the scan reads and does not change. */
  datatype Env = Env(
    pf: ParsedFile,
    reportLevel: Severity,
    knownGlobals: set<string>,
    checkGlobalScope: bool,
    user: map<string, Signature>,
    internal: map<string, Signature>)

  function MakeEnv(pf: ParsedFile, cfg: Config): Env
    requires Valid(pf)
  {
    Env(pf, cfg.reportLevel, KnownGlobals(cfg.globalsVars), cfg.checkGlobalScope,
        UserFunctions(pf, cfg.initByReference), InternalFunctions(cfg.reflectedFunctions))
  }

  /** `trigger` is `$token_caused_mode_switch` (None when unset) and `switchAt` is
      `$switch_to_relaxed_scope_at`. */
  datatype ScanState = ScanState(
    stack: seq<Scope>,
    report: seq<Defect>,
    dropScopeAt: int,
    trigger: Option<nat>,
    switchAt: int)

  datatype Flow = Proceed(st: ScanState) | Continue(st: ScanState, at: nat) | Abort(reason: string)

  /** What `getReport` returns: nothing for a file that is not PHP, an exception, or the defects. */
  datatype LintResult = NotPhp | Aborted(reason: string) | Defects(defects: seq<Defect>)

  const ErrNullToken := "method call on null token"
  const ErrFunctionOpen := "Invalid function decl found: instead of '('"
  const ErrFunctionClose := "Invalid function decl found: instead of ')'"
  const ErrFunctionBody := "found instead of { or ;"
  const ErrCatchOpen := "found instead of '('"
  const ErrCatchType := "No exception type found"
  const ErrCatchVar := "found instead of variable"
  const ErrCatchClose := "found instead of ')'"
  const ErrList := "Invalid list declaration found"
  const ErrGlobal := "Invalid 'global' declaration found"
  const ErrGlobalEntry := "Invalid 'global' decalaraion found"
  const ErrStatic := "Invalid 'static' decalaraion found"
  const ErrStackSize := "internal error: size of stack"

  /** The state at the start of a file: one Relaxed scope and nothing pending. */
  const Init := ScanState([NewScope(-1, Relaxed)], [], -1, None, -1)

  /**
   * What holds of the scan state between tokens: the stack is never empty and its
   * bottom (file) scope is Relaxed; a function scope is open whenever
   * `dropScopeAt` is set; a scope that saved a drop point sits above the first
   * function scope; the tables are well formed; no variable is ever Used.
   */
  ghost predicate StackInv(st: ScanState) {
    && |st.stack| >= 1
    && st.stack[0].mode == Relaxed
    && (st.dropScopeAt >= 0 ==> |st.stack| >= 2)
    && (forall j :: 0 <= j < |st.stack| ==>
          && (st.stack[j].prevScope >= 0 ==> j >= 2)
          && WellFormed(st.stack[j])
          && NoUsed(st.stack[j]))
  }

  /** No scope opened or closed; the open ones are at least as relaxed. */
  ghost predicate Same(a: ScanState, b: ScanState) {
    Evolved(a.stack, b.stack) && b.dropScopeAt == a.dropScopeAt
  }

  /** A Strict scope opened on top, saving the previous drop point, with a drop point after `i`. */
  ghost predicate Pushed(a: ScanState, b: ScanState, i: nat) {
    && |b.stack| == |a.stack| + 1
    && Evolved(a.stack + [NewScope(a.dropScopeAt, Strict)], b.stack)
    && b.stack[|a.stack|].mode == Strict
    && b.dropScopeAt > i
  }

  /** The current scope closed at its drop point `i`, restoring the saved drop point. */
  ghost predicate Popped(a: ScanState, b: ScanState, i: nat) {
    && a.dropScopeAt == i
    && |a.stack| >= 1
    && Evolved(a.stack[..|a.stack| - 1], b.stack)
    && b.dropScopeAt == a.stack[|a.stack| - 1].prevScope
  }

  /** What a handler that opens and closes no scope guarantees. */
  ghost predicate LocalFlow(e: Env, i: nat, a: ScanState, f: Flow) {
    match f
    case Proceed(b) => Same(a, b)
    case Continue(b, at) => Same(a, b) && i <= at < |e.pf.tokens|
    case Abort(_) => true
  }

  lemma SameTrans(a: ScanState, b: ScanState, c: ScanState)
    requires Same(a, b) && Same(b, c)
    ensures Same(a, c)
  {
    EvolvedTrans(a.stack, b.stack, c.stack);
  }

  lemma LocalThen(e: Env, i: nat, a: ScanState, b: ScanState, f: Flow)
    requires Same(a, b) && LocalFlow(e, i, b, f)
    ensures LocalFlow(e, i, a, f)
  {
    match f
    case Proceed(c) => SameTrans(a, b, c);
    case Continue(c, _) => SameTrans(a, b, c);
    case Abort(_) =>
  }

  lemma SameInv(a: ScanState, b: ScanState)
    requires StackInv(a) && Same(a, b)
    ensures StackInv(b)
  {
  }

  // ---------------------------------------------------------------------------
  // The variable store

  function Top(st: ScanState): Scope
    requires |st.stack| >= 1
  {
    st.stack[|st.stack| - 1]
  }

  /** `checkVar($token, $depth)`: superglobals are always known, the known globals
      only while the stack holds the file scope alone, and otherwise the name must
      be in the table of the scope at `depth`. */
  predicate CheckVar(e: Env, st: ScanState, name: string, depth: nat)
    requires depth < |st.stack|
  {
    || name in Superglobals
    || (|st.stack| == 1 && name in e.knownGlobals)
    || name in ScopeAt(st.stack, depth).vars
  }

  /** `addDefect`. */
  function AddDefect(e: Env, st: ScanState, d: Defect): ScanState {
    st.(report := Filed(st.report, e.reportLevel, d))
  }

  /** `getOrCreateVar` at `depth` followed by the caller's assignments to the record. */
  function Assign(st: ScanState, depth: nat, name: string, tok: nat, mark: Mark): ScanState
    requires depth < |st.stack|
  {
    st.(stack := DeclareAt(st.stack, depth, name, tok, mark))
  }

  /** `checkVarAndAddDefectIfMissing`. */
  function CheckVarAndAdd(e: Env, st: ScanState, name: string, tok: nat, force: bool, depth: nat): (r: ScanState)
    requires depth < |st.stack|
    ensures Shape(st.stack, r.stack) && r == st.(stack := r.stack, report := r.report)
  {
    if CheckVar(e, st, name, depth) then st
    else
      var level := if ScopeAt(st.stack, depth).mode == Relaxed || force then Warning else Error;
      var msg := if level == Warning then MsgPossiblyUndefined else MsgUndefined;
      Assign(AddDefect(e, st, Defect(tok, level, msg)), depth, name, tok, Plain)
  }

  /** A known variable leaves the state alone; an unknown one is reported (an Error
      in a Strict scope unless forced, otherwise a Warning, filed only at or above the
      report level) and declared, so that afterwards the name is known. */
  lemma CheckVarAndAddEffect(e: Env, st: ScanState, name: string, tok: nat, force: bool, depth: nat)
    requires depth < |st.stack|
    ensures var r := CheckVarAndAdd(e, st, name, tok, force, depth);
            && (CheckVar(e, st, name, depth) ==> r == st)
            && (!CheckVar(e, st, name, depth) ==>
                  var level := if ScopeAt(st.stack, depth).mode == Relaxed || force then Warning else Error;
                  var msg := if level == Warning then MsgPossiblyUndefined else MsgUndefined;
                  && r.report == Filed(st.report, e.reportLevel, Defect(tok, level, msg))
                  && r.stack == DeclareAt(st.stack, depth, name, tok, Plain))
            && CheckVar(e, r, name, depth)
  {
    if !CheckVar(e, st, name, depth) {
      DeclareEffect(ScopeAt(st.stack, depth), name, tok, Plain);
    }
  }

  /** `addScope($dropScopeAt, MODE_STRICT)`. */
  function PushScope(st: ScanState): ScanState {
    st.(stack := st.stack + [NewScope(st.dropScopeAt, Strict)])
  }

  /** `removeScope()`. */
  function PopScope(st: ScanState): ScanState
    requires |st.stack| >= 1
  {
    st.(stack := st.stack[..|st.stack| - 1])
  }

  /** The value `$s->index` gives for a possibly-null token `s`: PHP makes it `null`,
      and since `$i >= null` holds for every `$i`, -1 behaves the same. */
  function NullableIndex(pf: ParsedFile, k: nat): int {
    if k < |pf.tokens| then k else -1
  }

  // ---------------------------------------------------------------------------
  // Mode switching (extract, $$v =, include/require, and the switch itself)

  /** Marks the current scope Relaxed. */
  function RelaxTop(st: ScanState): ScanState
    requires |st.stack| >= 1
  {
    st.(stack := st.stack[|st.stack| - 1 := Top(st).(mode := Relaxed)])
  }

  /** The pending switch fires once the scan is at or past its position: the current
      scope becomes Relaxed (with the notice if it was not already) and the slot is cleared. */
  function ApplyPendingSwitch(e: Env, st: ScanState, i: nat): (r: ScanState)
    requires |st.stack| >= 1
    ensures st.trigger.None? || i < st.switchAt ==> r == st
    ensures st.trigger.Some? && i >= st.switchAt ==>
              && r.trigger.None? && r.switchAt == -1
              && |r.stack| == |st.stack|
              && r.stack[..|r.stack| - 1] == st.stack[..|st.stack| - 1]
              && Top(r) == Top(st).(mode := Relaxed)
              && (Top(st).mode == Relaxed ==> r.report == st.report)
              && (Top(st).mode == Strict ==>
                    r.report == Filed(st.report, e.reportLevel, Defect(st.trigger.value, Notice, MsgModeSwitch)))
    ensures Same(st, r)
  {
    if st.trigger.Some? && i >= st.switchAt then
      var s1 := if Top(st).mode != Relaxed
        then AddDefect(e, RelaxTop(st), Defect(st.trigger.value, Notice, MsgModeSwitch))
        else st;
      s1.(switchAt := -1, trigger := None)
    else st
  }

  /** `$$v =` and `$$v[...] =`: the switch is armed at the end of the statement. */
  function DollarTrigger(e: Env, st: ScanState, i: nat): (r: ScanState)
    requires Valid(e.pf) && i < |e.pf.tokens|
    ensures r == st.(trigger := r.trigger, switchAt := r.switchAt)
  {
    var pf := e.pf;
    var n := NextNS(pf, i);
    if pf.tokens[i].text == "$" && Tok(pf, n).kind == Variable then
      var nn := SkipIndexGroups(pf, NextNS(pf, n)).0;
      if Tok(pf, nn).text == "=" then
        st.(trigger := Some(n), switchAt := NullableIndex(pf, SkipTillText(pf, n, ";")))
      else st
    else st
  }

  predicate IsIncludeKind(k: Kind) {
    k == Include || k == IncludeOnce || k == Require || k == RequireOnce
  }

  /** include/require: the switch is armed at the end of the statement, if it has one. */
  function IncludeTrigger(e: Env, st: ScanState, i: nat): (r: ScanState)
    requires Valid(e.pf) && i < |e.pf.tokens|
    ensures r == st.(trigger := r.trigger, switchAt := r.switchAt)
  {
    var s := SkipTillText(e.pf, i, ";");
    if IsIncludeKind(e.pf.tokens[i].kind) && s < |e.pf.tokens| then st.(trigger := Some(i), switchAt := s)
    else st
  }

  /** The handlers that run first on every token: `extract(` arms the switch at its
      closing parenthesis and moves on; otherwise `$$v =` and include/require may arm
      it, and then a due switch fires. */
  function TriggerPhase(e: Env, st: ScanState, i: nat): (f: Flow)
    requires Valid(e.pf) && i < |e.pf.tokens| && |st.stack| >= 1
    ensures LocalFlow(e, i, st, f)
  {
    var pf := e.pf;
    var t := pf.tokens[i];
    var n := NextNS(pf, i);
    if t.kind == Name && t.text == "extract" && Tok(pf, n).text == "(" then
      Continue(st.(trigger := Some(i), switchAt := Pair(pf, n)), i)
    else
      var s := IncludeTrigger(e, DollarTrigger(e, st, i), i);
      Proceed(ApplyPendingSwitch(e, s, i))
  }

  // ---------------------------------------------------------------------------
  // Part 1: assignments

  predicate IsUpdateKind(k: Kind) {
    k == Inc || k == Dec || k == ConcatEqual || k == PlusEqual
  }

  /** A variable token: class property declarations and `Foo::$bar` are skipped;
      `$v = ` and `$v[...] = ` assign (an unknown `$v` with an index first gets the
      array-autovivification warning); `++`, `--`, `.=`, `+=` on an unknown name
      autovivify it with a warning; a bare `$v;` after `;` or `{` declares it with
      a notice. Anything else falls through to the read check. */
  function WritePhase(e: Env, st: ScanState, i: nat): (f: Flow)
    requires Valid(e.pf) && i < |e.pf.tokens| && |st.stack| >= 1
    ensures LocalFlow(e, i, st, f)
    ensures f.Continue? ==> f.at == i
    ensures f.Abort? ==> false
  {
    var pf := e.pf;
    var t := pf.tokens[i];
    if t.kind != Variable then Proceed(st)
    else if pf.classAt[i] != "" && !pf.methodAt[i] then Continue(st, i)
    else
      var p := PrevNS(pf, i);
      if Tok(pf, p).kind == DoubleColon then Continue(st, i)
      else
        var (n, isArray) := SkipIndexGroups(pf, NextNS(pf, i));
        WriteForms(e, st, i, p, n, isArray)
  }

  /** The assignment forms of the variable token `i`, given the previous non-space
      token `p`, the token `n` after its index groups, and whether there were any. */
  function WriteForms(e: Env, st: ScanState, i: nat, p: nat, n: nat, isArray: bool): (f: Flow)
    requires Valid(e.pf) && i < |e.pf.tokens| && |st.stack| >= 1
    ensures LocalFlow(e, i, st, f)
    ensures f.Continue? ==> f.at == i
    ensures f.Abort? ==> false
  {
    var pf := e.pf;
    var name := pf.tokens[i].text;
    if Tok(pf, n).text == "=" then
      var s := if !CheckVar(e, st, name, 0) && isArray
        then AddDefect(e, st, Defect(i, Warning, MsgArrayAutoviv)) else st;
      Continue(Assign(s, 0, name, i, Plain), i)
    else if (IsUpdateKind(Tok(pf, n).kind) || Tok(pf, p).kind == Inc || Tok(pf, p).kind == Dec)
            && !CheckVar(e, st, name, 0) then
      var msg := if isArray then MsgArrayAutoviv else MsgScalarAutoviv;
      Continue(Assign(AddDefect(e, st, Defect(i, Warning, msg)), 0, name, i, Plain), i)
    else if Tok(pf, n).text == ";" && !isArray && (Tok(pf, p).text == ";" || Tok(pf, p).text == "{") then
      Continue(Assign(AddDefect(e, st, Defect(i, Notice, MsgEmptyDecl)), 0, name, i, Plain), i)
    else Proceed(st)
  }

  /** `foreach (expr as [&]$k [=> [&]$v])`: the bound variables are assigned. */
  function ForeachPhase(e: Env, st: ScanState, i: nat): (f: Flow)
    requires Valid(e.pf) && i < |e.pf.tokens| && |st.stack| >= 1
    ensures LocalFlow(e, i, st, f)
    ensures f.Continue? ==> false
  {
    var pf := e.pf;
    if pf.tokens[i].kind != Foreach then Proceed(st)
    else
      var a := SkipTillKind(pf, NextNS(pf, i), As);
      if a >= |pf.tokens| then Abort(ErrNullToken)
      else
        var k := SkipAmp(pf, NextNS(pf, a));
        if k >= |pf.tokens| then Abort(ErrNullToken)
        else
          var s := Assign(st, 0, pf.tokens[k].text, k, Plain);
          var n := NextNS(pf, k);
          if Tok(pf, n).kind == DoubleArrow then
            var v := SkipAmp(pf, NextNS(pf, n));
            if v >= |pf.tokens| then Abort(ErrNullToken)
            else
              ShapeTrans(st.stack, s.stack, Assign(s, 0, pf.tokens[v].text, v, Plain).stack);
              Proceed(Assign(s, 0, pf.tokens[v].text, v, Plain))
          else Proceed(s)
  }

  // ---------------------------------------------------------------------------
  // Function and closure declarations

  /** One declared parameter `[type] [&]$name`: assigned in the new scope, with
      `isRefParam` set when it is declared by reference. */
  function DeclareParam(e: Env, st: ScanState, a: nat): (r: Result<ScanState>)
    requires Valid(e.pf) && |st.stack| >= 1
    ensures r.Ok? ==> Shape(st.stack, r.value.stack) && r.value == st.(stack := r.value.stack)
  {
    var pf := e.pf;
    var rest := ParseType(pf, a).rest;
    if rest >= |pf.tokens| then Err(ErrNullToken)
    else
      var n := if pf.tokens[rest].kind == Space then NextNS(pf, rest) else rest;
      var byRef := Tok(pf, n).text == "&";
      var v := if byRef then NextNS(pf, n) else n;
      if Tok(pf, v).kind == Variable then Ok(Assign(st, 0, pf.tokens[v].text, v, Param(byRef)))
      else Err(ErrFunctionClose)
  }

  /** The parameters, in order; the first malformed one fails the scan. */
  function DeclareParams(e: Env, st: ScanState, args: seq<nat>): (r: Result<ScanState>)
    requires Valid(e.pf) && |st.stack| >= 1
    ensures r.Ok? ==> Shape(st.stack, r.value.stack) && r.value == st.(stack := r.value.stack)
    decreases |args|
  {
    if args == [] then Ok(st)
    else match DeclareParam(e, st, args[0])
      case Err(m) => Err(m)
      case Ok(s) =>
        var r := DeclareParams(e, s, args[1..]);
        if r.Ok? then ShapeTrans(st.stack, s.stack, r.value.stack); r else r
  }

  /** One closure import `[&]$name`: by value it must exist in the enclosing scope
      (depth 1); by reference it is created there; either way it is assigned in the
      closure's own scope with `isRefParam` equal to by-reference. */
  function DeclareUse(e: Env, st: ScanState, a: nat): (r: Result<ScanState>)
    requires Valid(e.pf) && |st.stack| >= 2 && a < |e.pf.tokens|
    ensures r.Ok? ==> Shape(st.stack, r.value.stack) && r.value == st.(stack := r.value.stack, report := r.value.report)
  {
    var pf := e.pf;
    var byRef := pf.tokens[a].text == "&";
    var v := if byRef then NextNS(pf, a) else a;
    if Tok(pf, v).kind != Variable then Err(ErrFunctionClose)
    else
      var name := pf.tokens[v].text;
      var s := if !byRef then CheckVarAndAdd(e, st, name, v, false, 1) else Assign(st, 1, name, v, Plain);
      var r := Assign(s, 0, name, v, Param(byRef));
      ShapeTrans(st.stack, s.stack, r.stack);
      Ok(r)
  }

  function DeclareUses(e: Env, st: ScanState, args: seq<nat>): (r: Result<ScanState>)
    requires Valid(e.pf) && |st.stack| >= 2
    requires forall j :: 0 <= j < |args| ==> args[j] < |e.pf.tokens|
    ensures r.Ok? ==> Shape(st.stack, r.value.stack) && r.value == st.(stack := r.value.stack, report := r.value.report)
    decreases |args|
  {
    if args == [] then Ok(st)
    else match DeclareUse(e, st, args[0])
      case Err(m) => Err(m)
      case Ok(s) =>
        var r := DeclareUses(e, s, args[1..]);
        if r.Ok? then ShapeTrans(st.stack, s.stack, r.value.stack); r else r
  }

  /** After the declaration: `;` closes the new scope at once, `{` sets the drop
      point to its matching `}`; the scan goes on after that token. */
  function FunctionBody(e: Env, st: ScanState, n: nat): (f: Flow)
    requires Valid(e.pf) && |st.stack| >= 1
    ensures f.Continue? ==> f.at == n && n < |e.pf.tokens|
    ensures f.Continue? && Tok(e.pf, n).text == ";" ==> f.st == PopScope(st)
    ensures f.Continue? ==> Tok(e.pf, n).text == ";" || Tok(e.pf, n).text == "{"
    ensures f.Continue? && Tok(e.pf, n).text == "{" ==> f.st == st.(dropScopeAt := Pair(e.pf, n))
    ensures f.Proceed? ==> false
  {
    if Tok(e.pf, n).text == ";" then Continue(PopScope(st), n)
    else if Tok(e.pf, n).text == "{" then Continue(st.(dropScopeAt := Pair(e.pf, n)), n)
    else Abort(ErrFunctionBody)
  }

  /** What the declaration handler guarantees: it opens a Strict scope and either
      closes it again or leaves it open until a drop point after the declaration. */
  ghost predicate FunctionFlow(e: Env, i: nat, a: ScanState, f: Flow) {
    match f
    case Proceed(b) => b == a
    case Continue(b, at) => i <= at < |e.pf.tokens| && (Same(a, b) || Pushed(a, b, i))
    case Abort(_) => true
  }

  /** The end of a declaration whose parameters (and imports) have been declared in
      the scope pushed on `st`, giving `s`. */
  lemma FunctionEnd(e: Env, i: nat, st: ScanState, s: ScanState, n: nat)
    requires Valid(e.pf) && i < n
    requires Shape(PushScope(st).stack, s.stack) && s.dropScopeAt == st.dropScopeAt
    ensures |s.stack| >= 1
    ensures FunctionFlow(e, i, st, FunctionBody(e, s, n))
  {
    var f := FunctionBody(e, s, n);
    if f.Continue? {
      if Tok(e.pf, n).text == ";" {
        EvolvedPrefix(PushScope(st).stack, s.stack, |st.stack|);
        assert PushScope(st).stack[..|st.stack|] == st.stack;
        assert Same(st, f.st);
      } else {
        assert Pushed(st, f.st, i);
      }
    }
  }

  /** `function [&][name](params) [use (imports)] {` or `;`: a Strict scope is opened
      and the parameters (and imports) are declared in it. */
  function FunctionPhase(e: Env, st: ScanState, i: nat): (f: Flow)
    requires Valid(e.pf) && i < |e.pf.tokens| && |st.stack| >= 1
    ensures FunctionFlow(e, i, st, f)
    ensures f.Proceed? <==> e.pf.tokens[i].kind != Function
  {
    var pf := e.pf;
    if pf.tokens[i].kind != Function then Proceed(st)
    else
      var s0 := PushScope(st);
      var n := SkipAmp(pf, NextNS(pf, i));
      var isClosure := Tok(pf, n).kind != Name;
      var n := if isClosure then n else NextNS(pf, n);
      if Tok(pf, n).text != "(" then Abort(ErrFunctionOpen)
      else match DeclareParams(e, s0, ListAt(pf, NextNS(pf, n)))
        case Err(m) => Abort(m)
        case Ok(s1) => AfterParameters(e, st, i, s1, isClosure, NextNS(pf, Pair(pf, n)))
  }

  /** The rest of a declaration once its parameters are declared in `s1`: a closure's
      `use (...)` list, then the body or the `;`. */
  function AfterParameters(e: Env, st: ScanState, i: nat, s1: ScanState, isClosure: bool, after: nat): (f: Flow)
    requires Valid(e.pf) && i < after && |st.stack| >= 1
    requires Shape(PushScope(st).stack, s1.stack) && s1.dropScopeAt == st.dropScopeAt
    ensures FunctionFlow(e, i, st, f) && !f.Proceed?
  {
    var pf := e.pf;
    if isClosure && Tok(pf, after).kind == Use then
      var u := NextNS(pf, after);
      if Tok(pf, u).text != "(" then Abort(ErrFunctionOpen)
      else match DeclareUses(e, s1, ListAt(pf, NextNS(pf, u)))
        case Err(m) => Abort(m)
        case Ok(s2) =>
          ShapeTrans(PushScope(st).stack, s1.stack, s2.stack);
          FunctionEnd(e, i, st, s2, NextNS(pf, Pair(pf, u)));
          FunctionBody(e, s2, NextNS(pf, Pair(pf, u)))
    else
      FunctionEnd(e, i, st, s1, after);
      FunctionBody(e, s1, after)
  }

  /** At the drop point the current scope is closed and its saved drop point restored. */
  function DropPhase(e: Env, st: ScanState, i: nat): (r: ScanState)
    requires |st.stack| >= 1 && (st.dropScopeAt >= 0 ==> |st.stack| >= 2)
    ensures |r.stack| >= 1
    ensures i == st.dropScopeAt ==> Popped(st, r, i) && r.report == st.report
    ensures i != st.dropScopeAt ==> r == st
  {
    if i == st.dropScopeAt then PopScope(st).(dropScopeAt := Top(st).prevScope)
    else st
  }

  // ---------------------------------------------------------------------------
  // catch, list, global, static

  /** `catch (Type $e)`: the variable is assigned and marked as a catch variable. */
  function CatchPhase(e: Env, st: ScanState, i: nat): (f: Flow)
    requires Valid(e.pf) && i < |e.pf.tokens| && |st.stack| >= 1
    ensures LocalFlow(e, i, st, f)
  {
    var pf := e.pf;
    if pf.tokens[i].kind != Catch then Proceed(st)
    else
      var n := NextNS(pf, i);
      if Tok(pf, n).text != "(" then Abort(ErrCatchOpen)
      else
        var pt := ParseType(pf, NextNS(pf, n));
        if |pt.parts| == 0 then Abort(ErrCatchType)
        else if pt.rest >= |pf.tokens| then Abort(ErrNullToken)
        else
          var v := if pf.tokens[pt.rest].kind == Space then NextNS(pf, pt.rest) else pt.rest;
          if Tok(pf, v).kind != Variable then Abort(ErrCatchVar)
          else
            var c := NextNS(pf, v);
            if Tok(pf, c).text != ")" then Abort(ErrCatchClose)
            else Continue(Assign(st, 0, pf.tokens[v].text, v, Caught), c)
  }

  /** The guard of the `list` handler as it is written: `!$n->text == "("` parses
      as `(!$n->text) == "("`, which holds exactly when the text is falsy. */
  predicate ListGuardAsWritten(text: string) {
    !Truthy(text)
  }

  /** The guard as intended: anything but `(` after `list` is an error. */
  predicate ListGuard(text: string) {
    text != "("
  }

  /** The walk from `(` to its matching `)`, assigning every variable token on the way. */
  function AssignListSlots(e: Env, st: ScanState, n: nat, close: nat): (f: Flow)
    requires Valid(e.pf) && |st.stack| >= 1 && close < |e.pf.tokens|
    ensures f.Continue? ==> f.at == close
    ensures f.Continue? ==> Shape(st.stack, f.st.stack) && f.st == st.(stack := f.st.stack)
    ensures f.Proceed? ==> false
    decreases |e.pf.tokens| - n
  {
    if n == close then Continue(st, n)
    else if n >= |e.pf.tokens| then Abort(ErrNullToken)
    else
      var s := if e.pf.tokens[n].kind == Variable then Assign(st, 0, e.pf.tokens[n].text, n, Plain) else st;
      var f := AssignListSlots(e, s, NextNS(e.pf, n), close);
      if f.Continue? then ShapeTrans(st.stack, s.stack, f.st.stack); f else f
  }

  /** `list($a, $b) = ...`: every variable inside the parentheses is assigned. */
  function ListPhase(e: Env, st: ScanState, i: nat): (f: Flow)
    requires Valid(e.pf) && i < |e.pf.tokens| && |st.stack| >= 1
    ensures LocalFlow(e, i, st, f)
  {
    var pf := e.pf;
    if pf.tokens[i].kind != List then Proceed(st)
    else
      var n := NextNS(pf, i);
      if ListGuard(Tok(pf, n).text) then Abort(ErrList)
      else AssignListSlots(e, st, n, Pair(pf, n))
  }

  /** One entry of a `global` list: `$v` is imported (assigned and marked global);
      `$$v` checks `$v` and arms the switch at the end of the statement. Gives the
      new state and the token after the entry. */
  function GlobalEntry(e: Env, st: ScanState, n: nat): (r: Result<(ScanState, nat)>)
    requires Valid(e.pf) && |st.stack| >= 1
    ensures r.Ok? ==> n < r.value.1 <= |e.pf.tokens|
    ensures r.Ok? ==> Shape(st.stack, r.value.0.stack) && r.value.0.dropScopeAt == st.dropScopeAt
  {
    var pf := e.pf;
    if Tok(pf, n).kind == Variable then
      Ok((Assign(st, 0, pf.tokens[n].text, n, Imported), NextNS(pf, n)))
    else if Tok(pf, n).text == "$" then
      var v := NextNS(pf, n);
      if Tok(pf, v).kind == Variable then
        var s := CheckVarAndAdd(e, st, pf.tokens[v].text, v, false, 0);
        Ok((s.(trigger := Some(v), switchAt := NullableIndex(pf, SkipTillText(pf, v, ";"))), NextNS(pf, v)))
      else Err(ErrGlobalEntry)
    else Err(ErrGlobalEntry)
  }

  /** The entries of a `global` list, separated by `,` up to the closing `;`. */
  function GlobalNames(e: Env, st: ScanState, n: nat): (f: Flow)
    requires Valid(e.pf) && |st.stack| >= 1 && n <= |e.pf.tokens|
    ensures f.Continue? ==> n < f.at < |e.pf.tokens|
    ensures f.Continue? ==> Shape(st.stack, f.st.stack) && f.st.dropScopeAt == st.dropScopeAt
    ensures f.Proceed? ==> false
    decreases |e.pf.tokens| - n
  {
    match GlobalEntry(e, st, n)
    case Err(m) => Abort(m)
    case Ok((s, m)) =>
      if Tok(e.pf, m).text == "," then
        var f := GlobalNames(e, s, NextNS(e.pf, m));
        if f.Continue? then ShapeTrans(st.stack, s.stack, f.st.stack); f else f
      else if Tok(e.pf, m).text == ";" then Continue(s, m)
      else Abort(ErrGlobal)
  }

  /** `global $a, $$b;`. */
  function GlobalPhase(e: Env, st: ScanState, i: nat): (f: Flow)
    requires Valid(e.pf) && i < |e.pf.tokens| && |st.stack| >= 1
    ensures LocalFlow(e, i, st, f)
  {
    if e.pf.tokens[i].kind != Global then Proceed(st)
    else GlobalNames(e, st, NextNS(e.pf, i))
  }

  /** The declarators of a `static` statement: each must be a variable, which is
      assigned; the scan resumes after the last one (`last` if there is none). */
  function StaticVars(e: Env, st: ScanState, groups: seq<nat>, last: nat): (r: Result<(ScanState, nat)>)
    requires Valid(e.pf) && |st.stack| >= 1
    requires forall j :: 0 <= j < |groups| ==> groups[j] < |e.pf.tokens|
    ensures r.Ok? ==> r.value.1 == last || r.value.1 in groups
    ensures r.Ok? ==> Shape(st.stack, r.value.0.stack) && r.value.0 == st.(stack := r.value.0.stack)
    decreases |groups|
  {
    if groups == [] then Ok((st, last))
    else
      var g := groups[0];
      if e.pf.tokens[g].kind != Variable then Err(ErrStatic)
      else
        var s := Assign(st, 0, e.pf.tokens[g].text, g, Plain);
        var r := StaticVars(e, s, groups[1..], g);
        if r.Ok? then ShapeTrans(st.stack, s.stack, r.value.0.stack); r else r
  }

  /** `static $a, $b = 1;` inside a function; `static::`, `new static` and
      `instanceof static` are left alone. */
  function StaticPhase(e: Env, st: ScanState, i: nat): (f: Flow)
    requires Valid(e.pf) && i < |e.pf.tokens| && |st.stack| >= 1
    ensures LocalFlow(e, i, st, f)
  {
    var pf := e.pf;
    if pf.tokens[i].kind != Static || !pf.methodAt[i] then Proceed(st)
    else
      var n := NextNS(pf, i);
      var p := PrevNS(pf, i);
      if Tok(pf, n).kind == DoubleColon || Tok(pf, p).kind == New || Tok(pf, p).kind == InstanceOf then Proceed(st)
      else match StaticVars(e, st, StmtListAt(pf, n), i)
        case Err(m) => Abort(m)
        case Ok((s, at)) => Continue(s, at)
  }

  // ---------------------------------------------------------------------------
  // Call sites

  /** `Name::$var`, the one non-variable actual accepted at a by-reference position. */
  predicate IsStaticProperty(pf: ParsedFile, v: nat)
    requires Valid(pf)
  {
    && v < |pf.tokens| && pf.tokens[v].kind == Name
    && var c := NextNS(pf, v);
       c < |pf.tokens| && pf.tokens[c].kind == DoubleColon && Tok(pf, NextNS(pf, c)).kind == Variable
  }

  /** The actual at a by-reference position of a known callee: a variable is assigned
      (or, for a callee that needs it initialised, checked); any other expression but
      a static property is an error. */
  function ByRefArgument(e: Env, st: ScanState, name: string, a: nat): (r: ScanState)
    requires Valid(e.pf) && |st.stack| >= 1 && a < |e.pf.tokens|
    ensures Shape(st.stack, r.stack) && r == st.(stack := r.stack, report := r.report)
  {
    var pf := e.pf;
    var v := SkipAmp(pf, a);
    if Tok(pf, v).kind == Variable then
      if name in NoInitFunctions then CheckVarAndAdd(e, st, pf.tokens[v].text, v, false, 0)
      else Assign(st, 0, pf.tokens[v].text, v, Plain)
    else if IsStaticProperty(pf, v) then st
    else AddDefect(e, st, Defect(v, Error, MsgNonVariableByRef))
  }

  /** The by-reference positions of a known callee, in signature order; positions
      past the last actual are ignored. */
  function KnownCallArgs(e: Env, st: ScanState, name: string, args: seq<nat>, positions: seq<nat>): (r: ScanState)
    requires Valid(e.pf) && |st.stack| >= 1
    requires forall j :: 0 <= j < |args| ==> args[j] < |e.pf.tokens|
    ensures Shape(st.stack, r.stack) && r == st.(stack := r.stack, report := r.report)
    decreases |positions|
  {
    if positions == [] then st
    else
      var s := if |args| > positions[0] then ByRefArgument(e, st, name, args[positions[0]]) else st;
      var r := KnownCallArgs(e, s, name, args, positions[1..]);
      ShapeTrans(st.stack, s.stack, r.stack);
      r
  }

  /** The first position of a known callee is handled before the rest. */
  lemma KnownCallArgsFirst(e: Env, st: ScanState, name: string, args: seq<nat>, positions: seq<nat>)
    requires Valid(e.pf) && |st.stack| >= 1 && positions != []
    requires forall j :: 0 <= j < |args| ==> args[j] < |e.pf.tokens|
    ensures KnownCallArgs(e, st, name, args, positions) ==
              KnownCallArgs(e, if |args| > positions[0] then ByRefArgument(e, st, name, args[positions[0]]) else st,
                            name, args, positions[1..])
  {
  }

  /** One actual of an unknown callee: a lone `[&]$v` followed by `,` or `)` is
      checked, at Warning at most. */
  function UnknownCallArg(e: Env, st: ScanState, a: nat): (r: ScanState)
    requires Valid(e.pf) && |st.stack| >= 1 && a < |e.pf.tokens|
    ensures Shape(st.stack, r.stack) && r == st.(stack := r.stack, report := r.report)
  {
    var pf := e.pf;
    var v := SkipAmp(pf, a);
    if Tok(pf, v).kind == Variable && IsLoneArgument(pf, v)
    then CheckVarAndAdd(e, st, pf.tokens[v].text, v, true, 0)
    else st
  }

  /** The actuals of an unknown callee, in order. */
  function UnknownCallArgs(e: Env, st: ScanState, args: seq<nat>): (r: ScanState)
    requires Valid(e.pf) && |st.stack| >= 1
    requires forall j :: 0 <= j < |args| ==> args[j] < |e.pf.tokens|
    ensures Shape(st.stack, r.stack) && r == st.(stack := r.stack, report := r.report)
    decreases |args|
  {
    if args == [] then st
    else
      var s := UnknownCallArg(e, st, args[0]);
      var r := UnknownCallArgs(e, s, args[1..]);
      ShapeTrans(st.stack, s.stack, r.stack);
      r
  }

  /** A variable that is a whole actual: it is followed by `,` or `)`. */
  predicate IsLoneArgument(pf: ParsedFile, v: nat)
    requires Valid(pf) && v < |pf.tokens|
  {
    var nn := Tok(pf, NextNS(pf, v)).text;
    nn == "," || nn == ")"
  }

  /** A name followed by `(`: the callee is resolved and looked up (user functions
      first); a known one's by-reference positions are handled, an unknown one's
      lone variables are checked. */
  function CallPhase(e: Env, st: ScanState, i: nat): (f: Flow)
    requires Valid(e.pf) && i < |e.pf.tokens| && |st.stack| >= 1
    ensures LocalFlow(e, i, st, f)
    ensures f.Continue? ==> false
  {
    var pf := e.pf;
    var t := pf.tokens[i];
    var n := NextNS(pf, i);
    if t.kind != Name || Tok(pf, n).text != "(" then Proceed(st)
    else
      var args := ListAt(pf, NextNS(pf, n));
      var p := PrevNS(pf, i);
      if p >= |pf.tokens| then Abort(ErrNullToken)
      else
        var name := QualifiedCallName(t.text, pf.tokens[p], Tok(pf, PrevNS(pf, p)), pf.classAt[i]);
        match Lookup(e.user, e.internal, name)
        case Some(sig) =>
          Proceed(if sig.Some? && |sig.value| > 0 then KnownCallArgs(e, st, name, args, sig.value) else st)
        case None => Proceed(UnknownCallArgs(e, st, args))
  }

  /** `isset($v)` / `empty($v)`: in a Relaxed scope `$v` becomes known; in a Strict
      scope the scan skips to the `)`, so `$v` is not checked. */
  function IssetPhase(e: Env, st: ScanState, i: nat): (f: Flow)
    requires Valid(e.pf) && i < |e.pf.tokens| && |st.stack| >= 1
    ensures LocalFlow(e, i, st, f)
  {
    var pf := e.pf;
    var n := NextNS(pf, i);
    if pf.tokens[i].kind != Isset && pf.tokens[i].kind != Empty then Proceed(st)
    else if Tok(pf, n).text != "(" then Proceed(st)
    else
      var v := NextNS(pf, n);
      if Tok(pf, v).kind != Variable then Proceed(st)
      else
        var c := NextNS(pf, v);
        if Tok(pf, c).text != ")" then Proceed(st)
        else if Top(st).mode == Relaxed then Proceed(Assign(st, 0, pf.tokens[v].text, v, Plain))
        else Continue(st, c)
  }

  /** Part 2: a variable that reaches this point is read and must be known, except
      `Foo::$bar` and, when the file scope is not checked, anything in it. */
  function ReadPhase(e: Env, st: ScanState, i: nat): (r: ScanState)
    requires Valid(e.pf) && i < |e.pf.tokens| && |st.stack| >= 1
    ensures Same(st, r)
  {
    var pf := e.pf;
    if pf.tokens[i].kind != Variable then st
    else if Tok(pf, PrevNS(pf, i)).kind == DoubleColon || (!e.checkGlobalScope && |st.stack| == 1) then st
    else CheckVarAndAdd(e, st, pf.tokens[i].text, i, false, 0)
  }

  // ---------------------------------------------------------------------------
  // One token, the pass, and the report

  /** What one token does: a scope may open (only at a `function` token), or close
      (only at the drop point), and nothing else changes the shape of the stack. */
  ghost predicate StepFlow(e: Env, i: nat, a: ScanState, f: Flow)
    requires i < |e.pf.tokens|
  {
    match f
    case Proceed(b) => Same(a, b) || Popped(a, b, i)
    case Continue(b, at) =>
      && i <= at < |e.pf.tokens|
      && (Same(a, b) || Popped(a, b, i) || (Pushed(a, b, i) && e.pf.tokens[i].kind == Function))
    case Abort(_) => true
  }

  lemma SamePushed(a: ScanState, b: ScanState, c: ScanState, i: nat)
    requires Same(a, b) && Pushed(b, c, i)
    ensures Pushed(a, c, i)
  {
    EvolvedPush(a.stack, b.stack, NewScope(a.dropScopeAt, Strict));
    EvolvedTrans(a.stack + [NewScope(a.dropScopeAt, Strict)], b.stack + [NewScope(b.dropScopeAt, Strict)], c.stack);
  }

  lemma SamePopped(a: ScanState, b: ScanState, c: ScanState, i: nat)
    requires Same(a, b) && Popped(b, c, i)
    ensures Popped(a, c, i)
  {
    EvolvedPrefix(a.stack, b.stack, |a.stack| - 1);
    EvolvedTrans(a.stack[..|a.stack| - 1], b.stack[..|b.stack| - 1], c.stack);
  }

  lemma PoppedSame(a: ScanState, b: ScanState, c: ScanState, i: nat)
    requires Popped(a, b, i) && Same(b, c)
    ensures Popped(a, c, i)
  {
    EvolvedTrans(a.stack[..|a.stack| - 1], b.stack, c.stack);
  }

  lemma SameFunction(e: Env, i: nat, a: ScanState, b: ScanState, f: Flow)
    requires i < |e.pf.tokens| && Same(a, b) && FunctionFlow(e, i, b, f)
    requires f.Proceed? <==> e.pf.tokens[i].kind != Function
    ensures StepFlow(e, i, a, f)
    ensures f.Proceed? ==> Same(a, f.st)
  {
    match f
    case Proceed(c) =>
    case Continue(c, _) =>
      if Pushed(b, c, i) {
        SamePushed(a, b, c, i);
      } else {
        SameTrans(a, b, c);
      }
    case Abort(_) =>
  }

  /** The front handlers (mode switch, assignments, foreach, declarations). */
  function Front(e: Env, st: ScanState, i: nat): (f: Flow)
    requires Valid(e.pf) && i < |e.pf.tokens| && |st.stack| >= 1
    ensures StepFlow(e, i, st, f)
    ensures f.Proceed? ==> Same(st, f.st)
  {
    var f1 := TriggerPhase(e, st, i);
    if !f1.Proceed? then f1
    else
      var f2 := WritePhase(e, f1.st, i);
      if !f2.Proceed? then LocalThen(e, i, st, f1.st, f2); f2
      else
        SameTrans(st, f1.st, f2.st);
        var f3 := ForeachPhase(e, f2.st, i);
        if !f3.Proceed? then LocalThen(e, i, st, f2.st, f3); f3
        else
          SameTrans(st, f2.st, f3.st);
          var f4 := FunctionPhase(e, f3.st, i);
          SameFunction(e, i, st, f3.st, f4);
          f4
  }

  /** The handlers after the drop point (catch, list, global, static, calls, isset, read). */
  function Back(e: Env, st: ScanState, i: nat): (f: Flow)
    requires Valid(e.pf) && i < |e.pf.tokens| && |st.stack| >= 1
    ensures LocalFlow(e, i, st, f)
  {
    var f1 := CatchPhase(e, st, i);
    if !f1.Proceed? then f1
    else
      var f2 := ListPhase(e, f1.st, i);
      if !f2.Proceed? then LocalThen(e, i, st, f1.st, f2); f2
      else
        SameTrans(st, f1.st, f2.st);
        var f3 := GlobalPhase(e, f2.st, i);
        if !f3.Proceed? then LocalThen(e, i, st, f2.st, f3); f3
        else
          SameTrans(st, f2.st, f3.st);
          var f4 := Late(e, f3.st, i);
          LocalThen(e, i, st, f3.st, f4);
          f4
  }

  /** The last handlers: static, calls, isset, and the read check. */
  function Late(e: Env, st: ScanState, i: nat): (f: Flow)
    requires Valid(e.pf) && i < |e.pf.tokens| && |st.stack| >= 1
    ensures LocalFlow(e, i, st, f)
  {
    var f4 := StaticPhase(e, st, i);
    if !f4.Proceed? then f4
    else
      var f5 := CallPhase(e, f4.st, i);
      if !f5.Proceed? then LocalThen(e, i, st, f4.st, f5); f5
      else
        SameTrans(st, f4.st, f5.st);
        var f6 := IssetPhase(e, f5.st, i);
        if !f6.Proceed? then LocalThen(e, i, st, f5.st, f6); f6
        else
          SameTrans(st, f5.st, f6.st);
          var r := ReadPhase(e, f6.st, i);
          SameTrans(st, f6.st, r);
          Proceed(r)
  }

  /** One iteration of the token loop. */
  function Step(e: Env, st: ScanState, i: nat): (f: Flow)
    requires Valid(e.pf) && i < |e.pf.tokens| && StackInv(st)
    ensures StepFlow(e, i, st, f)
  {
    var f0 := Front(e, st, i);
    if !f0.Proceed? then f0
    else
      var s := f0.st;
      var d := DropPhase(e, s, i);
      var f := Back(e, d, i);
      if i == s.dropScopeAt then
        SamePopped(st, s, d, i);
        if f.Abort? then f else PoppedSame(st, d, f.st, i); f
      else LocalThen(e, i, st, s, f); f
  }

  /** Every step keeps the invariant. */
  lemma StepInv(e: Env, i: nat, a: ScanState, f: Flow)
    requires i < |e.pf.tokens| && StackInv(a) && StepFlow(e, i, a, f) && !f.Abort?
    ensures StackInv(f.st)
  {
    var b := f.st;
    if Same(a, b) {
      SameInv(a, b);
    } else if Popped(a, b, i) {
      assert |b.stack| >= 1;
      forall j | 0 <= j < |b.stack|
        ensures b.stack[j].prevScope >= 0 ==> j >= 2
      {
        assert a.stack[..|a.stack| - 1][j] == a.stack[j];
      }
    } else {
      assert Pushed(a, b, i);
      var pushed := a.stack + [NewScope(a.dropScopeAt, Strict)];
      forall j | 0 <= j < |b.stack|
        ensures (b.stack[j].prevScope >= 0 ==> j >= 2) && WellFormed(b.stack[j]) && NoUsed(b.stack[j])
      {
        if j < |a.stack| {
          assert pushed[j] == a.stack[j];
        } else {
          assert pushed[j] == NewScope(a.dropScopeAt, Strict);
        }
      }
      assert pushed[0] == a.stack[0];
    }
  }

  /** The token loop from position `i` on: `Ok` with the final state, or the failure. */
  function ScanFrom(e: Env, st: ScanState, i: nat): (r: Result<ScanState>)
    requires Valid(e.pf) && i <= |e.pf.tokens| && StackInv(st)
    ensures r.Ok? ==> StackInv(r.value)
    decreases |e.pf.tokens| - i, 3
  {
    if i == |e.pf.tokens| then Ok(st) else Turn(e, st, i)
  }

  /** One turn of the loop at a token before the end. `Turn` only passes on to
      `Handle`: with the handlers two definitions away from `ScanFrom`, unfolding the
      loop, as the verifier does on its own, stops short of them. */
  function Turn(e: Env, st: ScanState, i: nat): (r: Result<ScanState>)
    requires Valid(e.pf) && i < |e.pf.tokens| && StackInv(st)
    ensures r.Ok? ==> StackInv(r.value)
    decreases |e.pf.tokens| - i, 2
  {
    Handle(e, st, i)
  }

  /** The handlers run on token `i`; a failure ends the scan, otherwise the loop resumes. */
  function Handle(e: Env, st: ScanState, i: nat): (r: Result<ScanState>)
    requires Valid(e.pf) && i < |e.pf.tokens| && StackInv(st)
    ensures r.Ok? ==> StackInv(r.value)
    decreases |e.pf.tokens| - i, 1
  {
    var f := Step(e, st, i);
    if f.Abort? then Err(f.reason)
    else
      StepInv(e, i, st, f);
      Resume(e, i, f)
  }

  /** Whether the loop can go on from the flow `f` of token `i`: the state keeps the
      invariant, and a `continue` does not leave the token list. */
  ghost predicate Resumable(e: Env, i: nat, f: Flow) {
    match f
    case Proceed(s) => StackInv(s) && i < |e.pf.tokens|
    case Continue(s, at) => StackInv(s) && i <= at < |e.pf.tokens|
    case Abort(_) => true
  }

  /** Where the loop goes after token `i` produced `f`: a failure ends the scan, a
      fall-through moves to the next token, a `continue` to the token after `at`. */
  function Resume(e: Env, i: nat, f: Flow): (r: Result<ScanState>)
    requires Valid(e.pf) && i < |e.pf.tokens| && Resumable(e, i, f)
    ensures r.Ok? ==> StackInv(r.value)
    ensures f.Abort? ==> r == Err(f.reason)
    decreases |e.pf.tokens| - i, 0
  {
    match f
    case Abort(m) => Err(m)
    case Proceed(s) => ScanFrom(e, s, i + 1)
    case Continue(s, at) => ScanFrom(e, s, at + 1)
  }

  /** Every step can be resumed. */
  lemma StepResumable(e: Env, st: ScanState, i: nat, f: Flow)
    requires Valid(e.pf) && i < |e.pf.tokens| && StackInv(st) && StepFlow(e, i, st, f)
    ensures Resumable(e, i, f)
  {
    if !f.Abort? {
      StepInv(e, i, st, f);
    }
  }

  /** The token loop takes one turn at a position before the end. */
  lemma ScanUnfold(e: Env, st: ScanState, i: nat)
    requires Valid(e.pf) && i < |e.pf.tokens| && StackInv(st)
    ensures Resumable(e, i, Step(e, st, i))
    ensures ScanFrom(e, st, i) == Resume(e, i, Step(e, st, i))
  {
    StepResumable(e, st, i, Step(e, st, i));
    assert ScanFrom(e, st, i) == Turn(e, st, i);
    assert Turn(e, st, i) == Handle(e, st, i);
  }

  /** Whether the end-of-file check reports a variable of the file scope, as written:
      `in_array` searches the values of the superglobal table, which are all `true`,
      so under loose comparison every truthy name is "found". */
  predicate UnusedAsWritten(name: string, v: Var) {
    v.status != Used && !Truthy(name)
  }

  /** The same check as intended: the name is not a superglobal. */
  predicate Unused(name: string, v: Var) {
    v.status != Used && name !in Superglobals
  }

  /** The notices for the variables named in `names` (in that order), filed at the report level. */
  function UnusedNotices(reportLevel: Severity, s: Scope, names: seq<string>): (r: seq<Defect>)
    requires forall x :: x in names ==> x in s.vars
    decreases |names|
  {
    if names == [] then []
    else
      var x := names[|names| - 1];
      var front := UnusedNotices(reportLevel, s, names[..|names| - 1]);
      if Unused(x, s.vars[x]) then Filed(front, reportLevel, Defect(s.vars[x].token, Notice, MsgNotUsed))
      else front
  }

  /** The same loop with the as-written check. */
  function UnusedNoticesAsWritten(reportLevel: Severity, s: Scope, names: seq<string>): (r: seq<Defect>)
    requires forall x :: x in names ==> x in s.vars
    decreases |names|
  {
    if names == [] then []
    else
      var x := names[|names| - 1];
      var front := UnusedNoticesAsWritten(reportLevel, s, names[..|names| - 1]);
      if UnusedAsWritten(x, s.vars[x]) then Filed(front, reportLevel, Defect(s.vars[x].token, Notice, MsgNotUsed))
      else front
  }

  /** `getReport`. */
  function Lint(pf: ParsedFile, cfg: Config): (r: LintResult)
    requires Valid(pf)
  {
    if !pf.isPhp then NotPhp
    else
      var e := MakeEnv(pf, cfg);
      match ScanFrom(e, Init, 0)
      case Err(m) => Aborted(m)
      case Ok(st) =>
        if |st.stack| != 1 then Aborted(ErrStackSize)
        else
          var s := st.stack[0];
          Defects(st.report + UnusedNotices(cfg.reportLevel, s, s.names))
  }
}
