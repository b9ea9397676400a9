/**
 * The lint plugin as the source writes it: an object whose fields (the report
 * level, the defect list, the stack of scopes, the user-function table) the
 * handlers update in place while `GetReport` walks the tokens.
 *
 * Every method is proved to leave the object in the state the matching function
 * of `LintSpec` computes, so that `GetReport` returns exactly `Lint`. The
 * locals of the source's `getReport` that its handlers update (`dropScopeAt`,
 * the pending switch, `checkGlobalScope`) are fields here, because each handler
 * is a method of its own.
 */
module LintEngine {
  import opened Wrappers
  import opened Tokens
  import opened Scopes
  import opened Signatures
  import opened LintSpec
  import opened LintProperties

  /** What a handler tells the token loop: try the next handler, resume the loop
      after token `at`, or give up with an exception. */
  datatype Outcome = Next | Jump(at: nat) | Fail(reason: string)

  /** A handler's outcome and the object's new state are the flow the scanner computes
      (after a failure nothing of the state matters). */
  ghost predicate Agrees(o: Outcome, f: Flow, st: ScanState) {
    match f
    case Proceed(s) => o == Next && st == s
    case Continue(s, at) => o == Jump(at) && st == s
    case Abort(m) => o == Fail(m)
  }

  /** The same for a loop that either finishes (`None`) or throws. */
  ghost predicate Settles(err: Option<string>, r: Result<ScanState>, st: ScanState) {
    match r
    case Ok(s) => err == None && st == s
    case Err(m) => err == Some(m)
  }

  /** Where the token loop goes after a token whose handlers agree with `Step`. */
  lemma StepAgrees(e: Env, st: ScanState, i: nat, o: Outcome, s: ScanState)
    requires Tokens.Valid(e.pf) && i < |e.pf.tokens| && StackInv(st) && Agrees(o, Step(e, st, i), s)
    ensures o.Fail? ==> ScanFrom(e, st, i) == Err(o.reason)
    ensures o.Next? ==> StackInv(s) && ScanFrom(e, st, i) == ScanFrom(e, s, i + 1)
    ensures o.Jump? ==> StackInv(s) && i <= o.at < |e.pf.tokens| && ScanFrom(e, st, i) == ScanFrom(e, s, o.at + 1)
  {
    ScanUnfold(e, st, i);
    ResumeAgrees(e, i, Step(e, st, i), o, s);
  }

  /** The same for any flow the loop can resume from. */
  lemma ResumeAgrees(e: Env, i: nat, f: Flow, o: Outcome, s: ScanState)
    requires Tokens.Valid(e.pf) && i < |e.pf.tokens| && Resumable(e, i, f) && Agrees(o, f, s)
    ensures o.Fail? ==> Resume(e, i, f) == Err(o.reason)
    ensures o.Next? ==> StackInv(s) && Resume(e, i, f) == ScanFrom(e, s, i + 1)
    ensures o.Jump? ==> StackInv(s) && i <= o.at < |e.pf.tokens| && Resume(e, i, f) == ScanFrom(e, s, o.at + 1)
  {
  }

  /** Past the last token the loop is over. */
  lemma ScanEnd(e: Env, st: ScanState)
    requires Tokens.Valid(e.pf) && StackInv(st)
    ensures ScanFrom(e, st, |e.pf.tokens|) == Ok(st)
  {
  }

  // ---------------------------------------------------------------------------
  // The walks over tokens

  /** `skipTillText`. */
  method FindText(pf: ParsedFile, k: nat, text: string) returns (j: nat)
    requires Valid(pf)
    ensures j == SkipTillText(pf, k, text)
  {
    j := k;
    while j < |pf.tokens| && pf.tokens[j].text != text
      invariant SkipTillText(pf, j, text) == SkipTillText(pf, k, text)
      decreases |pf.tokens| - j
    {
      j := NextNS(pf, j);
    }
    if j >= |pf.tokens| {
      j := |pf.tokens|;
    }
  }

  /** `while ($n->kind != K) $n = $n->nextNS();` (the `null` token stops it here). */
  method FindKind(pf: ParsedFile, k: nat, kind: Kind) returns (j: nat)
    requires Valid(pf)
    ensures j == SkipTillKind(pf, k, kind)
  {
    j := k;
    while j < |pf.tokens| && pf.tokens[j].kind != kind
      invariant SkipTillKind(pf, j, kind) == SkipTillKind(pf, k, kind)
      decreases |pf.tokens| - j
    {
      j := NextNS(pf, j);
    }
    if j >= |pf.tokens| {
      j := |pf.tokens|;
    }
  }

  /** `while ($n->text == '[') $n = paired(']')->nextNS();`, noting whether it moved. */
  method SkipBrackets(pf: ParsedFile, n: nat) returns (m: nat, isArray: bool)
    requires Valid(pf)
    ensures (m, isArray) == SkipIndexGroups(pf, n)
  {
    m := n;
    isArray := false;
    while Tok(pf, m).text == "["
      invariant n <= m
      invariant SkipIndexGroups(pf, m).0 == SkipIndexGroups(pf, n).0
      invariant isArray == (m != n)
      invariant m != n ==> Tok(pf, n).text == "["
      decreases |pf.tokens| - m
    {
      m := NextNS(pf, Pair(pf, m));
      isArray := true;
    }
  }

  /** `parseType`: `array`, or the longest run of names and namespace separators. */
  method ParseTypeAt(pf: ParsedFile, k: nat) returns (r: ParsedType)
    requires Valid(pf)
    ensures r == ParseType(pf, k)
  {
    if k < |pf.tokens| && pf.tokens[k].kind == Array {
      return ParsedType([k], k + 1);
    }
    var parts: seq<nat> := [];
    var t := k;
    while t < |pf.tokens| && IsTypePart(pf.tokens[t])
      invariant k <= t && |parts| == t - k
      invariant forall j :: 0 <= j < |parts| ==> parts[j] == k + j
      invariant TypeParts(pf, t).rest == TypeParts(pf, k).rest
      decreases |pf.tokens| - t
    {
      parts := parts + [t];
      t := t + 1;
    }
    TypePartsRun(pf, t);
    TypePartsRun(pf, k);
    r := ParsedType(parts, t);
  }

  // ---------------------------------------------------------------------------
  // The signature tables

  /** The loop `foreach ($override_list as $name => $args) $table[$name] = $args;`. */
  method WriteOver(base: map<string, Signature>, over: map<string, seq<nat>>) returns (t: map<string, Signature>)
    ensures t == base + map k | k in over :: Some(over[k])
  {
    t := base;
    var left := over.Keys;
    while left != {}
      invariant left <= over.Keys
      invariant t == base + map k | k in over.Keys - left :: Some(over[k])
      decreases |left|
    {
      var k :| k in left;
      ghost var done := over.Keys - left;
      t := t[k := Some(over[k])];
      left := left - {k};
      assert over.Keys - left == done + {k};
    }
    assert over.Keys - left == over.Keys;
  }

  /** The positions of the parameters declared with `&`. */
  method RefParams(pf: ParsedFile, groups: seq<nat>) returns (refParams: seq<nat>)
    requires Valid(pf)
    ensures refParams == AmpPositions(pf, groups, 0)
  {
    refParams := [];
    var j := 0;
    while j < |groups|
      invariant 0 <= j <= |groups|
      invariant refParams == AmpPositions(pf, groups[..j], 0)
    {
      AmpPositionsSnoc(pf, groups[..j], groups[j], 0);
      assert groups[..j + 1] == groups[..j] + [groups[j]];
      if Tok(pf, groups[j]).text == "&" {
        refParams := refParams + [j];
      }
      j := j + 1;
    }
    assert groups[..j] == groups;
  }

  /** The loop over the file's declarations in `get_user_functions`. */
  method DeclaredFunctions(pf: ParsedFile) returns (fs: map<string, Signature>)
    requires Valid(pf)
    ensures fs == FileSignatures(pf, pf.methods)
  {
    fs := map[];
    var k := 0;
    while k < |pf.methods|
      invariant 0 <= k <= |pf.methods|
      invariant fs == FileSignatures(pf, pf.methods[..k])
    {
      var m := pf.methods[k];
      assert pf.methods[..k + 1][..k] == pf.methods[..k];
      if m.name != "__construct" {
        var n := NextNS(pf, m.nameStartIndex);
        if Tok(pf, n).text == "(" {
          var refParams := RefParams(pf, ListAt(pf, NextNS(pf, n)));
          fs := fs[MethodKey(pf, m) := if |refParams| > 0 then Some(refParams) else None];
        }
      }
      k := k + 1;
    }
    assert pf.methods[..k] == pf.methods;
  }

  /** The loop over `lint.init-by-reference` in `get_user_functions`. */
  method AddConfigured(base: map<string, Signature>, entries: seq<ConfigSignature>) returns (fs: map<string, Signature>)
    ensures fs == WithConfig(base, entries)
  {
    fs := base;
    var c := 0;
    while c < |entries|
      invariant 0 <= c <= |entries|
      invariant fs == WithConfig(base, entries[..c])
    {
      assert entries[..c + 1][..c] == entries[..c];
      fs := fs[entries[c].name := Some(entries[c].positions)];
      c := c + 1;
    }
    assert entries[..c] == entries;
  }

  /** `get_user_functions`. */
  method GetUserFunctions(pf: ParsedFile, entries: seq<ConfigSignature>) returns (fs: map<string, Signature>)
    requires Valid(pf)
    ensures fs == UserFunctions(pf, entries)
  {
    fs := DeclaredFunctions(pf);
    fs := AddConfigured(fs, entries);
  }

  // ---------------------------------------------------------------------------
  // The plugin object

  class UninitializedVarsLint {
    var reportLevel: Severity
    var report: seq<Defect>
    var stackOfScopes: seq<Scope>
    var userFunctions: map<string, Signature>
    var internalFunctions: map<string, Signature>
    var knownGlobals: set<string>
    var checkGlobalScope: bool
    var dropScopeAt: int
    var switchToRelaxedScopeAt: int
    var tokenCausedModeSwitch: Option<nat>

    /** The configuration the tables were built from. */
    ghost var reflected: map<string, Signature>
    ghost var globalsVars: seq<string>

    ghost predicate Valid()
      reads this
    {
      internalFunctions == InternalFunctions(reflected) && knownGlobals == KnownGlobals(globalsVars)
    }

    /** The scan state the fields hold. */
    function State(): ScanState
      reads this`stackOfScopes, this`report, this`dropScopeAt, this`tokenCausedModeSwitch, this`switchToRelaxedScopeAt
    {
      ScanState(stackOfScopes, report, dropScopeAt, tokenCausedModeSwitch, switchToRelaxedScopeAt)
    }

    /** What the scan of `pf` reads from the object. */
    function EnvFor(pf: ParsedFile): Env
      reads this`reportLevel, this`knownGlobals, this`checkGlobalScope, this`userFunctions, this`internalFunctions
    {
      Env(pf, reportLevel, knownGlobals, checkGlobalScope, userFunctions, internalFunctions)
    }

    /** The constructor: the known globals are `$argv`, `$argc` and the configured
        ones; the internal-function table is the reflected one with the overrides. */
    constructor (reflectedFunctions: map<string, Signature>, configuredGlobals: seq<string>)
      ensures Valid() && reportLevel == Warning && report == [] && stackOfScopes == []
      ensures reflected == reflectedFunctions && globalsVars == configuredGlobals
    {
      reportLevel := Warning;
      report := [];
      stackOfScopes := [];
      userFunctions := map[];
      checkGlobalScope := true;
      dropScopeAt := -1;
      switchToRelaxedScopeAt := -1;
      tokenCausedModeSwitch := None;
      reflected := reflectedFunctions;
      globalsVars := configuredGlobals;
      knownGlobals := KnownGlobals(configuredGlobals);
      var table := WriteOver(reflectedFunctions, OverrideTable);
      internalFunctions := table;
    }

    method SetReportLevel(level: Severity)
      modifies this`reportLevel
      ensures reportLevel == level
    {
      reportLevel := level;
    }

    // -------------------------------------------------------------------------
    // The variable store

    method AddDefect(d: Defect)
      modifies this`report
      ensures report == Filed(old(report), reportLevel, d)
    {
      if Rank(d.level) >= Rank(reportLevel) {
        report := report + [d];
      }
    }

    method AddScope(prevScope: int, mode: Mode)
      modifies this`stackOfScopes
      ensures stackOfScopes == old(stackOfScopes) + [NewScope(prevScope, mode)]
    {
      stackOfScopes := stackOfScopes + [NewScope(prevScope, mode)];
    }

    method RemoveScope() returns (s: Scope)
      requires |stackOfScopes| >= 1
      modifies this`stackOfScopes
      ensures s == old(stackOfScopes[|stackOfScopes| - 1])
      ensures stackOfScopes == old(stackOfScopes[..|stackOfScopes| - 1])
    {
      s := stackOfScopes[|stackOfScopes| - 1];
      stackOfScopes := stackOfScopes[..|stackOfScopes| - 1];
    }

    /** `getOrCreateVar` at `depth` and the caller's assignments to the record. */
    method AssignVar(name: string, tok: nat, mark: Mark, depth: nat)
      requires depth < |stackOfScopes|
      modifies this`stackOfScopes
      ensures stackOfScopes == DeclareAt(old(stackOfScopes), depth, name, tok, mark)
    {
      stackOfScopes := DeclareAt(stackOfScopes, depth, name, tok, mark);
    }

    method CheckVarAndAddDefectIfMissing(pf: ParsedFile, name: string, tok: nat, force: bool, depth: nat)
      requires depth < |stackOfScopes|
      modifies this`stackOfScopes, this`report
      ensures State() == CheckVarAndAdd(EnvFor(pf), old(State()), name, tok, force, depth)
    {
      if !CheckVar(EnvFor(pf), State(), name, depth) {
        var level := if ScopeAt(stackOfScopes, depth).mode == Relaxed || force then Warning else Error;
        AddDefect(Defect(tok, level, if level == Warning then MsgPossiblyUndefined else MsgUndefined));
        AssignVar(name, tok, Plain, depth);
      }
    }

    // -------------------------------------------------------------------------
    // The handlers, in the order the token loop runs them

    /** `$$v =` and `$$v[...] =` arm the switch at the end of the statement. */
    method ArmDollarSwitch(pf: ParsedFile, i: nat)
      requires Tokens.Valid(pf) && i < |pf.tokens|
      modifies this`tokenCausedModeSwitch, this`switchToRelaxedScopeAt
      ensures State() == DollarTrigger(EnvFor(pf), old(State()), i)
    {
      var n := NextNS(pf, i);
      if pf.tokens[i].text == "$" && Tok(pf, n).kind == Variable {
        var nn, _ := SkipBrackets(pf, NextNS(pf, n));
        if Tok(pf, nn).text == "=" {
          tokenCausedModeSwitch := Some(n);
          var s := FindText(pf, n, ";");
          switchToRelaxedScopeAt := NullableIndex(pf, s);
        }
      }
    }

    /** include/require arm the switch at the end of the statement, if it has one. */
    method ArmIncludeSwitch(pf: ParsedFile, i: nat)
      requires Tokens.Valid(pf) && i < |pf.tokens|
      modifies this`tokenCausedModeSwitch, this`switchToRelaxedScopeAt
      ensures State() == IncludeTrigger(EnvFor(pf), old(State()), i)
    {
      if IsIncludeKind(pf.tokens[i].kind) {
        var s := FindText(pf, i, ";");
        if s < |pf.tokens| {
          tokenCausedModeSwitch := Some(i);
          switchToRelaxedScopeAt := s;
        }
      }
    }

    /** The pending switch fires once the scan has reached its position. */
    method FirePendingSwitch(pf: ParsedFile, i: nat)
      requires |stackOfScopes| >= 1
      modifies this`stackOfScopes, this`report, this`tokenCausedModeSwitch, this`switchToRelaxedScopeAt
      ensures State() == ApplyPendingSwitch(EnvFor(pf), old(State()), i)
    {
      if tokenCausedModeSwitch.Some? && i >= switchToRelaxedScopeAt {
        var top := stackOfScopes[|stackOfScopes| - 1];
        if top.mode != Relaxed {
          stackOfScopes := stackOfScopes[|stackOfScopes| - 1 := top.(mode := Relaxed)];
          AddDefect(Defect(tokenCausedModeSwitch.value, Notice, MsgModeSwitch));
        }
        switchToRelaxedScopeAt := -1;
        tokenCausedModeSwitch := None;
      }
    }

    method SwitchMode(pf: ParsedFile, i: nat) returns (o: Outcome)
      requires Tokens.Valid(pf) && i < |pf.tokens| && |stackOfScopes| >= 1
      modifies this`stackOfScopes, this`report, this`tokenCausedModeSwitch, this`switchToRelaxedScopeAt
      ensures Agrees(o, TriggerPhase(EnvFor(pf), old(State()), i), State())
    {
      var t := pf.tokens[i];
      var n := NextNS(pf, i);
      if t.kind == Name && t.text == "extract" && Tok(pf, n).text == "(" {
        tokenCausedModeSwitch := Some(i);
        switchToRelaxedScopeAt := Pair(pf, n);
        return Jump(i);
      }
      ArmDollarSwitch(pf, i);
      ArmIncludeSwitch(pf, i);
      FirePendingSwitch(pf, i);
      o := Next;
    }

    method HandleAssignment(pf: ParsedFile, i: nat) returns (o: Outcome)
      requires Tokens.Valid(pf) && i < |pf.tokens| && |stackOfScopes| >= 1
      modifies this`stackOfScopes, this`report
      ensures Agrees(o, WritePhase(EnvFor(pf), old(State()), i), State())
    {
      if pf.tokens[i].kind != Variable {
        return Next;
      }
      if pf.classAt[i] != "" && !pf.methodAt[i] {
        return Jump(i);
      }
      var p := PrevNS(pf, i);
      if Tok(pf, p).kind == DoubleColon {
        return Jump(i);
      }
      var n, isArray := SkipBrackets(pf, NextNS(pf, i));
      o := AssignmentForms(pf, i, p, n, isArray);
    }

    /** The assignment forms of the variable token `i`. */
    method AssignmentForms(pf: ParsedFile, i: nat, p: nat, n: nat, isArray: bool) returns (o: Outcome)
      requires Tokens.Valid(pf) && i < |pf.tokens| && |stackOfScopes| >= 1
      modifies this`stackOfScopes, this`report
      ensures Agrees(o, WriteForms(EnvFor(pf), old(State()), i, p, n, isArray), State())
    {
      ghost var e := EnvFor(pf);
      ghost var st := State();
      var name := pf.tokens[i].text;
      var known := CheckVar(EnvFor(pf), State(), name, 0);
      if Tok(pf, n).text == "=" {
        if !known && isArray {
          AddDefect(Defect(i, Warning, MsgArrayAutoviv));
        }
        ghost var s := State();
        assert s == if !known && isArray then LintSpec.AddDefect(e, st, Defect(i, Warning, MsgArrayAutoviv)) else st;
        AssignVar(name, i, Plain, 0);
        assert State() == Assign(s, 0, name, i, Plain);
        return Jump(i);
      }
      if IsUpdateKind(Tok(pf, n).kind) || Tok(pf, p).kind == Inc || Tok(pf, p).kind == Dec {
        if !known {
          var d := Defect(i, Warning, if isArray then MsgArrayAutoviv else MsgScalarAutoviv);
          AddDefect(d);
          assert State() == LintSpec.AddDefect(e, st, d);
          AssignVar(name, i, Plain, 0);
          assert State() == Assign(LintSpec.AddDefect(e, st, d), 0, name, i, Plain);
          return Jump(i);
        }
      }
      if Tok(pf, n).text == ";" && !isArray {
        if Tok(pf, p).text == ";" || Tok(pf, p).text == "{" {
          AddDefect(Defect(i, Notice, MsgEmptyDecl));
          assert State() == LintSpec.AddDefect(e, st, Defect(i, Notice, MsgEmptyDecl));
          AssignVar(name, i, Plain, 0);
          assert State() == Assign(LintSpec.AddDefect(e, st, Defect(i, Notice, MsgEmptyDecl)), 0, name, i, Plain);
          return Jump(i);
        }
      }
      o := Next;
    }

    method HandleForeach(pf: ParsedFile, i: nat) returns (o: Outcome)
      requires Tokens.Valid(pf) && i < |pf.tokens| && |stackOfScopes| >= 1
      modifies this`stackOfScopes
      ensures Agrees(o, ForeachPhase(EnvFor(pf), old(State()), i), State())
    {
      if pf.tokens[i].kind != Foreach {
        return Next;
      }
      var a := FindKind(pf, NextNS(pf, i), As);
      if a >= |pf.tokens| {
        return Fail(ErrNullToken);
      }
      var k := SkipAmp(pf, NextNS(pf, a));
      if k >= |pf.tokens| {
        return Fail(ErrNullToken);
      }
      ghost var st := State();
      AssignVar(pf.tokens[k].text, k, Plain, 0);
      ghost var s := State();
      var n := NextNS(pf, k);
      if Tok(pf, n).kind == DoubleArrow {
        var v := SkipAmp(pf, NextNS(pf, n));
        if v >= |pf.tokens| {
          return Fail(ErrNullToken);
        }
        AssignVar(pf.tokens[v].text, v, Plain, 0);
        assert ForeachPhase(EnvFor(pf), st, i) == Proceed(Assign(s, 0, pf.tokens[v].text, v, Plain));
      } else {
        assert ForeachPhase(EnvFor(pf), st, i) == Proceed(s);
      }
      o := Next;
    }

    /** One declared parameter `[type] [&]$name`. */
    method DeclareParameter(pf: ParsedFile, a: nat) returns (err: Option<string>)
      requires Tokens.Valid(pf) && |stackOfScopes| >= 1
      modifies this`stackOfScopes
      ensures Settles(err, DeclareParam(EnvFor(pf), old(State()), a), State())
    {
      var pt := ParseTypeAt(pf, a);
      if pt.rest >= |pf.tokens| {
        return Some(ErrNullToken);
      }
      var n := if pf.tokens[pt.rest].kind == Space then NextNS(pf, pt.rest) else pt.rest;
      var byRef := Tok(pf, n).text == "&";
      var v := if byRef then NextNS(pf, n) else n;
      if Tok(pf, v).kind != Variable {
        return Some(ErrFunctionClose);
      }
      AssignVar(pf.tokens[v].text, v, Param(byRef), 0);
      err := None;
    }

    /** The parameter loop of a declaration. */
    method DeclareParameters(pf: ParsedFile, args: seq<nat>) returns (err: Option<string>)
      requires Tokens.Valid(pf) && |stackOfScopes| >= 1
      modifies this`stackOfScopes
      ensures Settles(err, DeclareParams(EnvFor(pf), old(State()), args), State())
    {
      ghost var e := EnvFor(pf);
      ghost var whole := DeclareParams(e, State(), args);
      var k := 0;
      while k < |args|
        invariant 0 <= k <= |args| && |stackOfScopes| >= 1
        invariant EnvFor(pf) == e
        invariant DeclareParams(e, State(), args[k..]) == whole
      {
        assert args[k..][0] == args[k] && args[k..][1..] == args[k + 1..];
        err := DeclareParameter(pf, args[k]);
        if err.Some? {
          return;
        }
        k := k + 1;
      }
      err := None;
    }

    /** One import `[&]$name` of a closure's `use (...)`. */
    method DeclareClosureUse(pf: ParsedFile, a: nat) returns (err: Option<string>)
      requires Tokens.Valid(pf) && |stackOfScopes| >= 2 && a < |pf.tokens|
      modifies this`stackOfScopes, this`report
      ensures Settles(err, DeclareUse(EnvFor(pf), old(State()), a), State())
    {
      var byRef := pf.tokens[a].text == "&";
      var v := if byRef then NextNS(pf, a) else a;
      if Tok(pf, v).kind != Variable {
        return Some(ErrFunctionClose);
      }
      var name := pf.tokens[v].text;
      ghost var st := State();
      if !byRef {
        CheckVarAndAddDefectIfMissing(pf, name, v, false, 1);
      } else {
        AssignVar(name, v, Plain, 1);
      }
      ghost var s := State();
      assert s == if !byRef then CheckVarAndAdd(EnvFor(pf), st, name, v, false, 1) else Assign(st, 1, name, v, Plain);
      AssignVar(name, v, Param(byRef), 0);
      assert State() == Assign(s, 0, name, v, Param(byRef));
      err := None;
    }

    /** The import loop of a closure's `use (...)`. */
    method DeclareClosureUses(pf: ParsedFile, args: seq<nat>) returns (err: Option<string>)
      requires Tokens.Valid(pf) && |stackOfScopes| >= 2
      requires forall j :: 0 <= j < |args| ==> args[j] < |pf.tokens|
      modifies this`stackOfScopes, this`report
      ensures Settles(err, DeclareUses(EnvFor(pf), old(State()), args), State())
    {
      ghost var e := EnvFor(pf);
      ghost var whole := DeclareUses(e, State(), args);
      var k := 0;
      while k < |args|
        invariant 0 <= k <= |args| && |stackOfScopes| >= 2
        invariant EnvFor(pf) == e
        invariant DeclareUses(e, State(), args[k..]) == whole
      {
        assert args[k..][0] == args[k] && args[k..][1..] == args[k + 1..];
        err := DeclareClosureUse(pf, args[k]);
        if err.Some? {
          return;
        }
        k := k + 1;
      }
      err := None;
    }

    method HandleFunction(pf: ParsedFile, i: nat) returns (o: Outcome)
      requires Tokens.Valid(pf) && i < |pf.tokens| && |stackOfScopes| >= 1
      modifies this`stackOfScopes, this`report, this`dropScopeAt
      ensures Agrees(o, FunctionPhase(EnvFor(pf), old(State()), i), State())
    {
      if pf.tokens[i].kind != Function {
        return Next;
      }
      AddScope(dropScopeAt, Strict);
      var n := SkipAmp(pf, NextNS(pf, i));
      var isClosure := true;
      if Tok(pf, n).kind == Name {
        isClosure := false;
        n := NextNS(pf, n);
      }
      if Tok(pf, n).text != "(" {
        return Fail(ErrFunctionOpen);
      }
      var err := DeclareParameters(pf, ListAt(pf, NextNS(pf, n)));
      if err.Some? {
        return Fail(err.value);
      }
      o := FinishDeclaration(pf, i, old(State()), isClosure, NextNS(pf, Pair(pf, n)));
    }

    /** A closure's `use (...)` list, then the body (the drop point is set to its
        matching `}`) or the `;` (the new scope is removed at once). */
    method FinishDeclaration(pf: ParsedFile, i: nat, ghost st: ScanState, isClosure: bool, after: nat) returns (o: Outcome)
      requires Tokens.Valid(pf) && i < after && |st.stack| >= 1
      requires Shape(PushScope(st).stack, stackOfScopes) && dropScopeAt == st.dropScopeAt
      modifies this`stackOfScopes, this`report, this`dropScopeAt
      ensures Agrees(o, AfterParameters(EnvFor(pf), st, i, old(State()), isClosure, after), State())
    {
      var n := after;
      if isClosure && Tok(pf, n).kind == Use {
        n := NextNS(pf, n);
        if Tok(pf, n).text != "(" {
          return Fail(ErrFunctionOpen);
        }
        var err := DeclareClosureUses(pf, ListAt(pf, NextNS(pf, n)));
        if err.Some? {
          return Fail(err.value);
        }
        n := NextNS(pf, Pair(pf, n));
      }
      if Tok(pf, n).text == ";" {
        var _ := RemoveScope();
      } else if Tok(pf, n).text == "{" {
        dropScopeAt := Pair(pf, n);
      } else {
        return Fail(ErrFunctionBody);
      }
      o := Jump(n);
    }

    method DropScopeIfDue(pf: ParsedFile, i: nat)
      requires |stackOfScopes| >= 1 && (dropScopeAt >= 0 ==> |stackOfScopes| >= 2)
      modifies this`stackOfScopes, this`dropScopeAt
      ensures State() == DropPhase(EnvFor(pf), old(State()), i)
    {
      if i == dropScopeAt {
        var currentScope := RemoveScope();
        dropScopeAt := currentScope.prevScope;
      }
    }

    method HandleCatch(pf: ParsedFile, i: nat) returns (o: Outcome)
      requires Tokens.Valid(pf) && i < |pf.tokens| && |stackOfScopes| >= 1
      modifies this`stackOfScopes
      ensures Agrees(o, CatchPhase(EnvFor(pf), old(State()), i), State())
    {
      if pf.tokens[i].kind != Catch {
        return Next;
      }
      var n := NextNS(pf, i);
      if Tok(pf, n).text != "(" {
        return Fail(ErrCatchOpen);
      }
      var pt := ParseTypeAt(pf, NextNS(pf, n));
      if |pt.parts| == 0 {
        return Fail(ErrCatchType);
      }
      if pt.rest >= |pf.tokens| {
        return Fail(ErrNullToken);
      }
      var v := if pf.tokens[pt.rest].kind == Space then NextNS(pf, pt.rest) else pt.rest;
      if Tok(pf, v).kind != Variable {
        return Fail(ErrCatchVar);
      }
      ghost var st := State();
      AssignVar(pf.tokens[v].text, v, Caught, 0);
      assert State() == Assign(st, 0, pf.tokens[v].text, v, Caught);
      var c := NextNS(pf, v);
      if Tok(pf, c).text != ")" {
        return Fail(ErrCatchClose);
      }
      o := Jump(c);
    }

    method HandleList(pf: ParsedFile, i: nat) returns (o: Outcome)
      requires Tokens.Valid(pf) && i < |pf.tokens| && |stackOfScopes| >= 1
      modifies this`stackOfScopes
      ensures Agrees(o, ListPhase(EnvFor(pf), old(State()), i), State())
    {
      if pf.tokens[i].kind != List {
        return Next;
      }
      var n := NextNS(pf, i);
      if ListGuard(Tok(pf, n).text) {
        return Fail(ErrList);
      }
      var close := Pair(pf, n);
      ghost var e := EnvFor(pf);
      ghost var whole := AssignListSlots(e, State(), n, close);
      while n != close
        invariant n <= |pf.tokens| && |stackOfScopes| >= 1
        invariant EnvFor(pf) == e
        invariant AssignListSlots(e, State(), n, close) == whole
        decreases |pf.tokens| - n
      {
        if n >= |pf.tokens| {
          return Fail(ErrNullToken);
        }
        if pf.tokens[n].kind == Variable {
          AssignVar(pf.tokens[n].text, n, Plain, 0);
        }
        n := NextNS(pf, n);
      }
      o := Jump(n);
    }

    method HandleGlobal(pf: ParsedFile, i: nat) returns (o: Outcome)
      requires Tokens.Valid(pf) && i < |pf.tokens| && |stackOfScopes| >= 1
      modifies this`stackOfScopes, this`report, this`tokenCausedModeSwitch, this`switchToRelaxedScopeAt
      ensures Agrees(o, GlobalPhase(EnvFor(pf), old(State()), i), State())
    {
      if pf.tokens[i].kind != Global {
        return Next;
      }
      var n := NextNS(pf, i);
      ghost var e := EnvFor(pf);
      ghost var whole := GlobalNames(e, State(), n);
      while true
        invariant n <= |pf.tokens| && |stackOfScopes| >= 1
        invariant EnvFor(pf) == e
        invariant GlobalNames(e, State(), n) == whole
        decreases |pf.tokens| - n
      {
        var r := GlobalEntryAt(pf, n);
        if r.Err? {
          return Fail(r.error);
        }
        n := r.value;
        if Tok(pf, n).text == "," {
          n := NextNS(pf, n);
        } else if Tok(pf, n).text == ";" {
          return Jump(n);
        } else {
          return Fail(ErrGlobal);
        }
      }
    }

    /** One entry of a `global` list: the token after it, or the exception. */
    method GlobalEntryAt(pf: ParsedFile, n: nat) returns (r: Result<nat>)
      requires Tokens.Valid(pf) && |stackOfScopes| >= 1
      modifies this`stackOfScopes, this`report, this`tokenCausedModeSwitch, this`switchToRelaxedScopeAt
      ensures |stackOfScopes| >= 1
      ensures GlobalEntry(EnvFor(pf), old(State()), n) == if r.Ok? then Ok((State(), r.value)) else Err(r.error)
    {
      if Tok(pf, n).kind == Variable {
        AssignVar(pf.tokens[n].text, n, Imported, 0);
        return Ok(NextNS(pf, n));
      } else if Tok(pf, n).text == "$" {
        var v := NextNS(pf, n);
        if Tok(pf, v).kind != Variable {
          return Err(ErrGlobalEntry);
        }
        CheckVarAndAddDefectIfMissing(pf, pf.tokens[v].text, v, false, 0);
        var s := FindText(pf, v, ";");
        tokenCausedModeSwitch := Some(v);
        switchToRelaxedScopeAt := NullableIndex(pf, s);
        return Ok(NextNS(pf, v));
      } else {
        return Err(ErrGlobalEntry);
      }
    }

    method HandleStatic(pf: ParsedFile, i: nat) returns (o: Outcome)
      requires Tokens.Valid(pf) && i < |pf.tokens| && |stackOfScopes| >= 1
      modifies this`stackOfScopes
      ensures Agrees(o, StaticPhase(EnvFor(pf), old(State()), i), State())
    {
      if pf.tokens[i].kind != Static || !pf.methodAt[i] {
        return Next;
      }
      var n := NextNS(pf, i);
      var p := PrevNS(pf, i);
      if Tok(pf, n).kind == DoubleColon || Tok(pf, p).kind == New || Tok(pf, p).kind == InstanceOf {
        return Next;
      }
      var list := StmtListAt(pf, n);
      var at := i;
      ghost var e := EnvFor(pf);
      ghost var whole := StaticVars(e, State(), list, i);
      var k := 0;
      while k < |list|
        invariant 0 <= k <= |list| && |stackOfScopes| >= 1
        invariant EnvFor(pf) == e
        invariant StaticVars(e, State(), list[k..], at) == whole
      {
        assert list[k..][0] == list[k] && list[k..][1..] == list[k + 1..];
        var g := list[k];
        if pf.tokens[g].kind != Variable {
          return Fail(ErrStatic);
        }
        AssignVar(pf.tokens[g].text, g, Plain, 0);
        at := g;
        k := k + 1;
      }
      o := Jump(at);
    }

    /** The by-reference positions of a known callee. */
    method PassByReference(pf: ParsedFile, name: string, args: seq<nat>, positions: seq<nat>)
      requires Tokens.Valid(pf) && |stackOfScopes| >= 1
      requires forall j :: 0 <= j < |args| ==> args[j] < |pf.tokens|
      modifies this`stackOfScopes, this`report
      ensures State() == KnownCallArgs(EnvFor(pf), old(State()), name, args, positions)
    {
      ghost var e := EnvFor(pf);
      ghost var whole := KnownCallArgs(e, State(), name, args, positions);
      var rest := positions;
      while rest != []
        invariant |stackOfScopes| >= 1
        invariant EnvFor(pf) == e
        invariant KnownCallArgs(e, State(), name, args, rest) == whole
        decreases |rest|
      {
        KnownCallArgsFirst(e, State(), name, args, rest);
        if |args| > rest[0] {
          PassArgument(pf, name, args[rest[0]]);
        }
        rest := rest[1..];
      }
    }

    /** One by-reference actual of a known callee. */
    method PassArgument(pf: ParsedFile, name: string, a: nat)
      requires Tokens.Valid(pf) && |stackOfScopes| >= 1 && a < |pf.tokens|
      modifies this`stackOfScopes, this`report
      ensures State() == ByRefArgument(EnvFor(pf), old(State()), name, a)
    {
      var v := SkipAmp(pf, a);
      if Tok(pf, v).kind == Variable {
        if name in NoInitFunctions {
          CheckVarAndAddDefectIfMissing(pf, pf.tokens[v].text, v, false, 0);
        } else {
          AssignVar(pf.tokens[v].text, v, Plain, 0);
        }
      } else if !IsStaticProperty(pf, v) {
        AddDefect(Defect(v, Error, MsgNonVariableByRef));
      }
    }

    /** The actuals of an unknown callee. */
    method CheckUnknownCallArgs(pf: ParsedFile, args: seq<nat>)
      requires Tokens.Valid(pf) && |stackOfScopes| >= 1
      requires forall j :: 0 <= j < |args| ==> args[j] < |pf.tokens|
      modifies this`stackOfScopes, this`report
      ensures State() == UnknownCallArgs(EnvFor(pf), old(State()), args)
    {
      ghost var e := EnvFor(pf);
      ghost var whole := UnknownCallArgs(e, State(), args);
      var k := 0;
      while k < |args|
        invariant 0 <= k <= |args| && |stackOfScopes| >= 1
        invariant EnvFor(pf) == e
        invariant UnknownCallArgs(e, State(), args[k..]) == whole
      {
        assert args[k..][0] == args[k] && args[k..][1..] == args[k + 1..];
        CheckUnknownCallArg(pf, args[k]);
        k := k + 1;
      }
    }

    /** One actual of an unknown callee. */
    method CheckUnknownCallArg(pf: ParsedFile, a: nat)
      requires Tokens.Valid(pf) && |stackOfScopes| >= 1 && a < |pf.tokens|
      modifies this`stackOfScopes, this`report
      ensures State() == UnknownCallArg(EnvFor(pf), old(State()), a)
    {
      var v := SkipAmp(pf, a);
      if Tok(pf, v).kind == Variable && IsLoneArgument(pf, v) {
        CheckVarAndAddDefectIfMissing(pf, pf.tokens[v].text, v, true, 0);
      }
    }

    method HandleCall(pf: ParsedFile, i: nat) returns (o: Outcome)
      requires Tokens.Valid(pf) && i < |pf.tokens| && |stackOfScopes| >= 1
      modifies this`stackOfScopes, this`report
      ensures Agrees(o, CallPhase(EnvFor(pf), old(State()), i), State())
    {
      var t := pf.tokens[i];
      var n := NextNS(pf, i);
      if t.kind != Name || Tok(pf, n).text != "(" {
        return Next;
      }
      var arguments := ListAt(pf, NextNS(pf, n));
      var p := PrevNS(pf, i);
      if p >= |pf.tokens| {
        return Fail(ErrNullToken);
      }
      var name := QualifiedCallName(t.text, pf.tokens[p], Tok(pf, PrevNS(pf, p)), pf.classAt[i]);
      var found := Lookup(userFunctions, internalFunctions, name);
      if found.Some? {
        var sig := found.value;
        if sig.Some? && |sig.value| > 0 {
          PassByReference(pf, name, arguments, sig.value);
        }
      } else {
        CheckUnknownCallArgs(pf, arguments);
      }
      o := Next;
    }

    method HandleIsset(pf: ParsedFile, i: nat) returns (o: Outcome)
      requires Tokens.Valid(pf) && i < |pf.tokens| && |stackOfScopes| >= 1
      modifies this`stackOfScopes
      ensures Agrees(o, IssetPhase(EnvFor(pf), old(State()), i), State())
    {
      ghost var st := State();
      o := Next;
      if pf.tokens[i].kind == Isset || pf.tokens[i].kind == Empty {
        var n := NextNS(pf, i);
        if Tok(pf, n).text == "(" {
          var v := NextNS(pf, n);
          if Tok(pf, v).kind == Variable {
            var c := NextNS(pf, v);
            if Tok(pf, c).text == ")" {
              if stackOfScopes[|stackOfScopes| - 1].mode == Relaxed {
                AssignVar(pf.tokens[v].text, v, Plain, 0);
                assert State() == Assign(st, 0, pf.tokens[v].text, v, Plain);
              } else {
                o := Jump(c);
              }
            }
          }
        }
      }
    }

    /** Part 2: the read check. */
    method CheckRead(pf: ParsedFile, i: nat)
      requires Tokens.Valid(pf) && i < |pf.tokens| && |stackOfScopes| >= 1
      modifies this`stackOfScopes, this`report
      ensures State() == ReadPhase(EnvFor(pf), old(State()), i)
    {
      if pf.tokens[i].kind == Variable {
        var skipVariable := Tok(pf, PrevNS(pf, i)).kind == DoubleColon;
        if !checkGlobalScope && |stackOfScopes| == 1 {
          skipVariable := true;
        }
        if !skipVariable {
          CheckVarAndAddDefectIfMissing(pf, pf.tokens[i].text, i, false, 0);
        }
      }
    }

    // -------------------------------------------------------------------------
    // One token, and the whole file

    method ScanFront(pf: ParsedFile, i: nat) returns (o: Outcome)
      requires Tokens.Valid(pf) && i < |pf.tokens| && |stackOfScopes| >= 1
      modifies this`stackOfScopes, this`report, this`dropScopeAt, this`tokenCausedModeSwitch, this`switchToRelaxedScopeAt
      ensures Agrees(o, Front(EnvFor(pf), old(State()), i), State())
    {
      o := SwitchMode(pf, i);
      if o != Next {
        return;
      }
      o := HandleAssignment(pf, i);
      if o != Next {
        return;
      }
      o := HandleForeach(pf, i);
      if o != Next {
        return;
      }
      o := HandleFunction(pf, i);
    }

    method ScanBack(pf: ParsedFile, i: nat) returns (o: Outcome)
      requires Tokens.Valid(pf) && i < |pf.tokens| && |stackOfScopes| >= 1
      modifies this`stackOfScopes, this`report, this`tokenCausedModeSwitch, this`switchToRelaxedScopeAt
      ensures Agrees(o, Back(EnvFor(pf), old(State()), i), State())
    {
      o := HandleCatch(pf, i);
      if o != Next {
        return;
      }
      o := HandleList(pf, i);
      if o != Next {
        return;
      }
      o := HandleGlobal(pf, i);
      if o != Next {
        return;
      }
      o := ScanLate(pf, i);
    }

    method ScanLate(pf: ParsedFile, i: nat) returns (o: Outcome)
      requires Tokens.Valid(pf) && i < |pf.tokens| && |stackOfScopes| >= 1
      modifies this`stackOfScopes, this`report, this`tokenCausedModeSwitch, this`switchToRelaxedScopeAt
      ensures Agrees(o, Late(EnvFor(pf), old(State()), i), State())
    {
      o := HandleStatic(pf, i);
      if o != Next {
        return;
      }
      o := HandleCall(pf, i);
      if o != Next {
        return;
      }
      o := HandleIsset(pf, i);
      if o != Next {
        return;
      }
      CheckRead(pf, i);
    }

    /** One iteration of the token loop. */
    method ScanToken(pf: ParsedFile, i: nat) returns (o: Outcome)
      requires Tokens.Valid(pf) && i < |pf.tokens| && StackInv(State())
      modifies this`stackOfScopes, this`report, this`dropScopeAt, this`tokenCausedModeSwitch, this`switchToRelaxedScopeAt
      ensures Agrees(o, Step(EnvFor(pf), old(State()), i), State())
    {
      o := ScanFront(pf, i);
      if o != Next {
        return;
      }
      DropScopeIfDue(pf, i);
      o := ScanBack(pf, i);
    }

    /** The token loop of `getReport`, from the state at the start of a file. */
    method ScanTokens(pf: ParsedFile) returns (err: Option<string>)
      requires Tokens.Valid(pf) && State() == Init
      modifies this`stackOfScopes, this`report, this`dropScopeAt, this`tokenCausedModeSwitch, this`switchToRelaxedScopeAt
      ensures Settles(err, ScanFrom(EnvFor(pf), Init, 0), State())
    {
      ghost var e := EnvFor(pf);
      ghost var whole := ScanFrom(e, Init, 0);
      var i := 0;
      while i < |pf.tokens|
        invariant i <= |pf.tokens|
        invariant EnvFor(pf) == e
        invariant StackInv(State())
        invariant ScanFrom(e, State(), i) == whole
        decreases |pf.tokens| - i
      {
        ghost var st := State();
        var o := ScanToken(pf, i);
        StepAgrees(e, st, i, o, State());
        if o.Fail? {
          return Some(o.reason);
        }
        i := if o.Next? then i + 1 else o.at + 1;
      }
      ScanEnd(e, State());
      err := None;
    }

    /** The end-of-file loop: a notice for every variable of the file scope `s` that
        is not Used and is not a superglobal, in the order the variables were created. */
    method ReportUnused(s: Scope)
      requires forall x :: x in s.names ==> x in s.vars
      modifies this`report
      ensures report == old(report) + UnusedNotices(reportLevel, s, s.names)
    {
      var k := 0;
      while k < |s.names|
        invariant 0 <= k <= |s.names|
        invariant report == old(report) + UnusedNotices(reportLevel, s, s.names[..k])
      {
        var varName := s.names[k];
        assert s.names[..k + 1][..k] == s.names[..k];
        var v := s.vars[varName];
        if v.status != Used && varName !in Superglobals {
          AddDefect(Defect(v.token, Notice, MsgNotUsed));
        }
        k := k + 1;
      }
      assert s.names[..k] == s.names;
    }

    /** The start of `getReport`: a fresh file scope, the file's own functions and
        the global-scope setting. */
    method Begin(pf: ParsedFile, checkGlobal: bool, initByReference: seq<ConfigSignature>)
      requires Valid() && Tokens.Valid(pf)
      modifies this`stackOfScopes, this`report, this`dropScopeAt, this`userFunctions, this`checkGlobalScope
      modifies this`switchToRelaxedScopeAt, this`tokenCausedModeSwitch
      ensures Valid() && reflected == old(reflected) && globalsVars == old(globalsVars) && reportLevel == old(reportLevel)
      ensures State() == Init
      ensures EnvFor(pf) == MakeEnv(pf, Config(reportLevel, checkGlobal, globalsVars, initByReference, reflected))
    {
      stackOfScopes := [];
      report := [];
      dropScopeAt := -1;
      AddScope(-1, Relaxed);
      userFunctions := GetUserFunctions(pf, initByReference);
      checkGlobalScope := checkGlobal;
      switchToRelaxedScopeAt := -1;
      tokenCausedModeSwitch := None;
    }

    /** `getReport`: the defects of one file, or the exception that stopped the scan. */
    method GetReport(pf: ParsedFile, checkGlobal: bool, initByReference: seq<ConfigSignature>) returns (r: LintResult)
      requires Valid() && Tokens.Valid(pf)
      modifies this
      ensures Valid() && reflected == old(reflected) && globalsVars == old(globalsVars) && reportLevel == old(reportLevel)
      ensures r == Lint(pf, Config(reportLevel, checkGlobal, globalsVars, initByReference, reflected))
    {
      if !pf.isPhp {
        return NotPhp;
      }
      ghost var cfg := Config(reportLevel, checkGlobal, globalsVars, initByReference, reflected);
      Begin(pf, checkGlobal, initByReference);
      var err := ScanTokens(pf);
      LintUnfold(pf, cfg);
      if err.Some? {
        return Aborted(err.value);
      }
      if |stackOfScopes| != 1 {
        return Aborted(ErrStackSize);
      }
      var currentScope := RemoveScope();
      ReportUnused(currentScope);
      r := Defects(report);
    }
  }
}
