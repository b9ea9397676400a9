/**
 * What each handler of the scanner does to the variables it handles: reads,
 * the assignment forms, `foreach`, `catch`, `list`, `global`, `static`,
 * parameters, and the `$$v =` and `extract(` switches.
 */
module HandlerProperties {
  import opened Wrappers
  import opened Tokens
  import opened Scopes
  import opened LintSpec

  // ---------------------------------------------------------------------------
  // The current scope after a declaration

  /** The current scope holds `name`, Assigned at `tok`, with the flag of `mark` set. */
  ghost predicate BoundAt(st: ScanState, name: string, tok: nat, mark: Mark)
    requires |st.stack| >= 1
  {
    && name in Top(st).vars
    && Top(st).vars[name].status == Assigned && Top(st).vars[name].token == tok
    && (mark.Param? ==> Top(st).vars[name].isRefParam == mark.byRef)
    && (mark == Caught ==> Top(st).vars[name].isCatchVar)
    && (mark == Imported ==> Top(st).vars[name].isGlobal)
  }

  /** The enclosing scopes are untouched and the current one has only grown. */
  ghost predicate TopGrown(a: ScanState, b: ScanState) {
    && |a.stack| >= 1 && |b.stack| == |a.stack|
    && b.stack[..|b.stack| - 1] == a.stack[..|a.stack| - 1]
    && Grown(Top(a), Top(b))
  }

  /** `TopGrown` looks only at the stacks. */
  lemma TopGrownSameStack(a: ScanState, b: ScanState, c: ScanState)
    requires TopGrown(a, b) && c.stack == b.stack
    ensures TopGrown(a, c)
  {
  }

  /** So does `CheckVar`. */
  lemma CheckVarSameStack(e: Env, a: ScanState, b: ScanState, name: string)
    requires |a.stack| >= 1 && b.stack == a.stack && CheckVar(e, a, name, 0)
    ensures CheckVar(e, b, name, 0)
  {
  }

  lemma TopGrownRefl(a: ScanState)
    requires |a.stack| >= 1
    ensures TopGrown(a, a)
  {
  }

  lemma TopGrownTrans(a: ScanState, b: ScanState, c: ScanState)
    requires TopGrown(a, b) && TopGrown(b, c)
    ensures TopGrown(a, c)
  {
    GrownTrans(Top(a), Top(b), Top(c));
  }

  /** A name known in the current scope stays known while the scope only grows. */
  lemma TopGrownKnown(e: Env, a: ScanState, b: ScanState, name: string)
    requires TopGrown(a, b) && CheckVar(e, a, name, 0)
    ensures CheckVar(e, b, name, 0)
  {
  }

  /** Assigning at depth 0 binds the name in the current scope, leaves every other
      variable of it as it was, and changes nothing else. */
  lemma AssignBinds(st: ScanState, name: string, tok: nat, mark: Mark)
    requires |st.stack| >= 1
    ensures var r := Assign(st, 0, name, tok, mark);
            && r == st.(stack := r.stack)
            && TopGrown(st, r)
            && BoundAt(r, name, tok, mark)
            && (forall x :: x in Top(st).vars && x != name ==> Top(r).vars[x] == Top(st).vars[x])
  {
    DeclareEffect(Top(st), name, tok, Plain);
    DeclareEffect(Top(st), name, tok, mark);
    DeclareGrows(Top(st), name, tok, mark);
    var r := Assign(st, 0, name, tok, mark);
    assert r.stack[..|r.stack| - 1] == st.stack[..|st.stack| - 1];
  }

  // ---------------------------------------------------------------------------
  // Reads

  /** The read check: a variable read after `::`, or in the file scope while that
      scope is not checked, is skipped. Otherwise a known name changes nothing, and
      an unknown one gets an Error in a Strict scope or a Warning in a Relaxed one,
      and is known afterwards. */
  lemma ReadReports(e: Env, st: ScanState, i: nat)
    requires Valid(e.pf) && i < |e.pf.tokens| && |st.stack| >= 1
    ensures var pf := e.pf;
            var r := ReadPhase(e, st, i);
            var name := pf.tokens[i].text;
            var skipped := Tok(pf, PrevNS(pf, i)).kind == DoubleColon || (!e.checkGlobalScope && |st.stack| == 1);
            && (pf.tokens[i].kind != Variable || skipped ==> r == st)
            && (pf.tokens[i].kind == Variable && !skipped ==>
                  && CheckVar(e, r, name, 0)
                  && (CheckVar(e, st, name, 0) ==> r == st)
                  && (!CheckVar(e, st, name, 0) && Top(st).mode == Strict ==>
                        r.report == Filed(st.report, e.reportLevel, Defect(i, Error, MsgUndefined)))
                  && (!CheckVar(e, st, name, 0) && Top(st).mode == Relaxed ==>
                        r.report == Filed(st.report, e.reportLevel, Defect(i, Warning, MsgPossiblyUndefined)))
                  && (!CheckVar(e, st, name, 0) ==> TopGrown(st, r) && BoundAt(r, name, i, Plain)))
  {
    var pf := e.pf;
    var name := pf.tokens[i].text;
    CheckVarAndAddEffect(e, st, name, i, false, 0);
    if !CheckVar(e, st, name, 0) {
      var level := if Top(st).mode == Relaxed then Warning else Error;
      var msg := if level == Warning then MsgPossiblyUndefined else MsgUndefined;
      AssignBinds(AddDefect(e, st, Defect(i, level, msg)), name, i, Plain);
    }
  }

  // ---------------------------------------------------------------------------
  // Assignments

  /** `$v++`, `$v--`, `++$v`, `--$v`, `$v .= ...` and `$v += ...` on an unknown `$v`
      report an autovivification (of an array when `$v` is indexed, of a scalar
      otherwise) and declare `$v`; on a known `$v` they leave it to the read check. */
  lemma ScalarAutovivification(e: Env, st: ScanState, i: nat)
    requires Valid(e.pf) && i < |e.pf.tokens| && |st.stack| >= 1
    requires e.pf.tokens[i].kind == Variable && (e.pf.classAt[i] == "" || e.pf.methodAt[i])
    requires Tok(e.pf, PrevNS(e.pf, i)).kind != DoubleColon
    requires var n := SkipIndexGroups(e.pf, NextNS(e.pf, i)).0;
             var p := PrevNS(e.pf, i);
             && Tok(e.pf, n).text != "=" && Tok(e.pf, n).text != ";"
             && (IsUpdateKind(Tok(e.pf, n).kind) || Tok(e.pf, p).kind == Inc || Tok(e.pf, p).kind == Dec)
    ensures var f := WritePhase(e, st, i);
            var name := e.pf.tokens[i].text;
            var indexed := SkipIndexGroups(e.pf, NextNS(e.pf, i)).1;
            && (CheckVar(e, st, name, 0) ==> f == Proceed(st))
            && (!CheckVar(e, st, name, 0) ==>
                  && f.Continue? && f.at == i
                  && f.st.report == Filed(st.report, e.reportLevel,
                       Defect(i, Warning, if indexed then MsgArrayAutoviv else MsgScalarAutoviv))
                  && TopGrown(st, f.st) && BoundAt(f.st, name, i, Plain))
  {
    var name := e.pf.tokens[i].text;
    var indexed := SkipIndexGroups(e.pf, NextNS(e.pf, i)).1;
    var msg := if indexed then MsgArrayAutoviv else MsgScalarAutoviv;
    AssignBinds(AddDefect(e, st, Defect(i, Warning, msg)), name, i, Plain);
  }

  /** A bare `$v;` right after `;` or `{` is an empty declaration-like statement:
      it gets a Notice and declares `$v`. */
  lemma EmptyDeclaration(e: Env, st: ScanState, i: nat)
    requires Valid(e.pf) && i < |e.pf.tokens| && |st.stack| >= 1
    requires e.pf.tokens[i].kind == Variable && (e.pf.classAt[i] == "" || e.pf.methodAt[i])
    requires Tok(e.pf, PrevNS(e.pf, i)).kind != DoubleColon
    requires var p := PrevNS(e.pf, i);
             && Tok(e.pf, NextNS(e.pf, i)).text == ";"
             && (Tok(e.pf, p).text == ";" || Tok(e.pf, p).text == "{")
             && Tok(e.pf, p).kind != Inc && Tok(e.pf, p).kind != Dec
             && !IsUpdateKind(Tok(e.pf, NextNS(e.pf, i)).kind)
    ensures var f := WritePhase(e, st, i);
            && f.Continue? && f.at == i
            && f.st.report == Filed(st.report, e.reportLevel, Defect(i, Notice, MsgEmptyDecl))
            && TopGrown(st, f.st) && BoundAt(f.st, e.pf.tokens[i].text, i, Plain)
  {
    AssignBinds(AddDefect(e, st, Defect(i, Notice, MsgEmptyDecl)), e.pf.tokens[i].text, i, Plain);
  }

  // ---------------------------------------------------------------------------
  // foreach and catch

  /** `foreach (... as [&]$k => [&]$v)`: both variables are Assigned in the current
      scope, `$v` at its token; without `=>`, `$k` is, at its token. Only a missing
      token aborts, and no defect is filed. */
  lemma ForeachBinds(e: Env, st: ScanState, i: nat)
    requires Valid(e.pf) && i < |e.pf.tokens| && |st.stack| >= 1 && e.pf.tokens[i].kind == Foreach
    ensures var pf := e.pf;
            var f := ForeachPhase(e, st, i);
            var a := SkipTillKind(pf, NextNS(pf, i), As);
            var k := if a < |pf.tokens| then SkipAmp(pf, NextNS(pf, a)) else a;
            var n := if k < |pf.tokens| then NextNS(pf, k) else k;
            var v := if Tok(pf, n).kind == DoubleArrow then SkipAmp(pf, NextNS(pf, n)) else n;
            && (f.Abort? <==> k >= |pf.tokens| || (Tok(pf, n).kind == DoubleArrow && v >= |pf.tokens|))
            && (f.Abort? ==> f.reason == ErrNullToken)
            && (f.Proceed? ==>
                  && f.st == st.(stack := f.st.stack) && TopGrown(st, f.st)
                  && AssignedIn(Top(f.st), pf.tokens[k].text)
                  && (Tok(pf, n).kind == DoubleArrow ==> BoundAt(f.st, pf.tokens[v].text, v, Plain))
                  && (Tok(pf, n).kind != DoubleArrow ==> BoundAt(f.st, pf.tokens[k].text, k, Plain)))
  {
    var pf := e.pf;
    var a := SkipTillKind(pf, NextNS(pf, i), As);
    if a < |pf.tokens| {
      var k := SkipAmp(pf, NextNS(pf, a));
      if k < |pf.tokens| {
        var s := Assign(st, 0, pf.tokens[k].text, k, Plain);
        AssignBinds(st, pf.tokens[k].text, k, Plain);
        var n := NextNS(pf, k);
        if Tok(pf, n).kind == DoubleArrow {
          var v := SkipAmp(pf, NextNS(pf, n));
          if v < |pf.tokens| {
            AssignBinds(s, pf.tokens[v].text, v, Plain);
            TopGrownTrans(st, s, Assign(s, 0, pf.tokens[v].text, v, Plain));
          }
        }
      }
    }
  }

  /** `catch (Type $e)`: `$e` is Assigned in the current scope at its token, marked as
      a catch variable, and the scan resumes at the `)`; a missing `(`, type,
      variable or `)` aborts. No defect is filed. */
  lemma CatchDeclares(e: Env, st: ScanState, i: nat)
    requires Valid(e.pf) && i < |e.pf.tokens| && |st.stack| >= 1 && e.pf.tokens[i].kind == Catch
    ensures var pf := e.pf;
            var f := CatchPhase(e, st, i);
            var n := NextNS(pf, i);
            && !f.Proceed?
            && (Tok(pf, n).text != "(" ==> f == Abort(ErrCatchOpen))
            && (Tok(pf, n).text == "(" ==>
                  var pt := ParseType(pf, NextNS(pf, n));
                  var v := if pt.rest < |pf.tokens| && pf.tokens[pt.rest].kind == Space then NextNS(pf, pt.rest) else pt.rest;
                  && (f.Continue? <==>
                        && |pt.parts| > 0 && pt.rest < |pf.tokens|
                        && Tok(pf, v).kind == Variable && Tok(pf, NextNS(pf, v)).text == ")")
                  && (f.Continue? ==>
                        && f.at == NextNS(pf, v)
                        && f.st == st.(stack := f.st.stack) && TopGrown(st, f.st)
                        && BoundAt(f.st, pf.tokens[v].text, v, Caught)))
  {
    var pf := e.pf;
    var n := NextNS(pf, i);
    if Tok(pf, n).text == "(" {
      var pt := ParseType(pf, NextNS(pf, n));
      var v := if pt.rest < |pf.tokens| && pf.tokens[pt.rest].kind == Space then NextNS(pf, pt.rest) else pt.rest;
      if v < |pf.tokens| {
        AssignBinds(st, pf.tokens[v].text, v, Caught);
      }
    }
  }

  // ---------------------------------------------------------------------------
  // list

  /** The walk to the closing parenthesis assigns every variable token it passes:
      each one between `n` and `close` is Assigned in the current scope afterwards,
      no defect is filed, and nothing outside the current scope changes. */
  lemma {:induction false} ListSlotsAssign(e: Env, st: ScanState, n: nat, close: nat)
    requires Valid(e.pf) && |st.stack| >= 1 && close < |e.pf.tokens|
    ensures var f := AssignListSlots(e, st, n, close);
            f.Continue? ==>
              && n <= close
              && f.st == st.(stack := f.st.stack) && TopGrown(st, f.st)
              && (forall k :: n <= k < close && e.pf.tokens[k].kind == Variable ==>
                    AssignedIn(Top(f.st), e.pf.tokens[k].text))
    decreases |e.pf.tokens| - n
  {
    var pf := e.pf;
    if n == close {
      TopGrownRefl(st);
    } else if n < |pf.tokens| {
      var s := if pf.tokens[n].kind == Variable then Assign(st, 0, pf.tokens[n].text, n, Plain) else st;
      if pf.tokens[n].kind == Variable {
        AssignBinds(st, pf.tokens[n].text, n, Plain);
      } else {
        TopGrownRefl(st);
      }
      var f := AssignListSlots(e, s, NextNS(pf, n), close);
      assert AssignListSlots(e, st, n, close) == f;
      ListSlotsAssign(e, s, NextNS(pf, n), close);
      if f.Continue? {
        NextNSSkipsSpace(pf, n);
        TopGrownTrans(st, s, f.st);
        forall k | n <= k < close && pf.tokens[k].kind == Variable
          ensures AssignedIn(Top(f.st), pf.tokens[k].text)
        {
          if k == n {
            assert AssignedIn(Top(s), pf.tokens[k].text);
          }
        }
      }
    }
  }

  /** `list(...)`: anything but `(` after `list` aborts; otherwise every variable
      token inside the parentheses is Assigned in the current scope, no defect is
      filed, and the scan resumes at the `)`. */
  lemma ListAssigns(e: Env, st: ScanState, i: nat)
    requires Valid(e.pf) && i < |e.pf.tokens| && |st.stack| >= 1 && e.pf.tokens[i].kind == List
    ensures var pf := e.pf;
            var n := NextNS(pf, i);
            var f := ListPhase(e, st, i);
            && !f.Proceed?
            && (ListGuard(Tok(pf, n).text) ==> f == Abort(ErrList))
            && (!ListGuard(Tok(pf, n).text) ==>
                  && n in pf.pairs
                  && (f.Continue? ==>
                        && f.at == Pair(pf, n)
                        && f.st == st.(stack := f.st.stack) && TopGrown(st, f.st)
                        && (forall k :: n < k < Pair(pf, n) && pf.tokens[k].kind == Variable ==>
                              AssignedIn(Top(f.st), pf.tokens[k].text))))
  {
    var n := NextNS(e.pf, i);
    if !ListGuard(Tok(e.pf, n).text) {
      ListSlotsAssign(e, st, n, Pair(e.pf, n));
    }
  }

  // ---------------------------------------------------------------------------
  // global

  /** A token that is not whitespace is the one `nextNS` steps back to. */
  lemma PrevOfNext(pf: ParsedFile, n: nat)
    requires n < |pf.tokens| && pf.tokens[n].kind != Space && NextNS(pf, n) < |pf.tokens|
    ensures PrevNS(pf, NextNS(pf, n)) == n
  {
    var v := NextNS(pf, n);
    NextNSSkipsSpace(pf, n);
    PrevNSSkipsSpace(pf, v);
  }

  /** A switch armed at `v` is due at `at`: the first `;` after `v`, or at once
      (`-1`) when there is none. */
  predicate DueAtSemicolon(pf: ParsedFile, v: nat, at: int) {
    && (at == -1 || (v <= at < |pf.tokens| && pf.tokens[at].text == ";"))
    && (forall m :: v < m < at && pf.tokens[m].kind != Space ==> pf.tokens[m].text != ";")
  }

  lemma SemicolonDue(pf: ParsedFile, v: nat)
    requires Valid(pf) && v < |pf.tokens|
    ensures DueAtSemicolon(pf, v, NullableIndex(pf, SkipTillText(pf, v, ";")))
  {
    SkipTillTextFirst(pf, v, ";");
  }

  /** One entry of a `global` list. `$v` is Assigned in the current scope at its
      token and marked global, with no defect. `$$v` checks `$v` exactly as a read
      does (so `$v` is known afterwards) and arms the switch at the first `;` after
      `$v`. Anything else is an error. */
  lemma GlobalEntryCases(e: Env, st: ScanState, n: nat)
    requires Valid(e.pf) && |st.stack| >= 1
    ensures var pf := e.pf;
            var r := GlobalEntry(e, st, n);
            && (Tok(pf, n).kind == Variable ==>
                  && r.Ok? && r.value.1 == NextNS(pf, n)
                  && r.value.0 == st.(stack := r.value.0.stack) && TopGrown(st, r.value.0)
                  && BoundAt(r.value.0, pf.tokens[n].text, n, Imported))
            && (Tok(pf, n).kind != Variable && Tok(pf, n).text == "$" && Tok(pf, NextNS(pf, n)).kind == Variable ==>
                  var v := NextNS(pf, n);
                  var name := pf.tokens[v].text;
                  && r.Ok? && r.value.1 == NextNS(pf, v)
                  && CheckVar(e, r.value.0, name, 0)
                  && (CheckVar(e, st, name, 0) ==> r.value.0.stack == st.stack && r.value.0.report == st.report)
                  && (!CheckVar(e, st, name, 0) ==>
                        r.value.0.report == Filed(st.report, e.reportLevel,
                          Defect(v, if Top(st).mode == Relaxed then Warning else Error,
                                 if Top(st).mode == Relaxed then MsgPossiblyUndefined else MsgUndefined)))
                  && TopGrown(st, r.value.0)
                  && r.value.0.trigger == Some(v)
                  && DueAtSemicolon(pf, v, r.value.0.switchAt))
            && (Tok(pf, n).kind != Variable && !(Tok(pf, n).text == "$" && Tok(pf, NextNS(pf, n)).kind == Variable) ==>
                  r == Err(ErrGlobalEntry))
  {
    var pf := e.pf;
    if Tok(pf, n).kind == Variable {
      AssignBinds(st, pf.tokens[n].text, n, Imported);
    } else if Tok(pf, n).text == "$" && Tok(pf, NextNS(pf, n)).kind == Variable {
      var v := NextNS(pf, n);
      var name := pf.tokens[v].text;
      var s := CheckVarAndAdd(e, st, name, v, false, 0);
      var s' := s.(trigger := Some(v), switchAt := NullableIndex(pf, SkipTillText(pf, v, ";")));
      assert GlobalEntry(e, st, n) == Ok((s', NextNS(pf, v)));
      CheckVarReads(e, st, v);
      TopGrownSameStack(st, s, s');
      SemicolonDue(pf, v);
    }
  }

  /** What checking `$v` as a read does to the state. */
  lemma CheckVarReads(e: Env, st: ScanState, v: nat)
    requires Valid(e.pf) && |st.stack| >= 1 && v < |e.pf.tokens|
    ensures var name := e.pf.tokens[v].text;
            var s := CheckVarAndAdd(e, st, name, v, false, 0);
            && CheckVar(e, s, name, 0)
            && (CheckVar(e, st, name, 0) ==> s.stack == st.stack && s.report == st.report)
            && (!CheckVar(e, st, name, 0) ==>
                  s.report == Filed(st.report, e.reportLevel,
                    Defect(v, if Top(st).mode == Relaxed then Warning else Error,
                           if Top(st).mode == Relaxed then MsgPossiblyUndefined else MsgUndefined)))
            && TopGrown(st, s)
  {
    var name := e.pf.tokens[v].text;
    CheckVarAndAddEffect(e, st, name, v, false, 0);
    if CheckVar(e, st, name, 0) {
      TopGrownRefl(st);
    } else {
      var level := if Top(st).mode == Relaxed then Warning else Error;
      var msg := if level == Warning then MsgPossiblyUndefined else MsgUndefined;
      AssignBinds(AddDefect(e, st, Defect(v, level, msg)), name, v, Plain);
    }
  }

  /** The tokenizer spells every variable token `$name`. */
  ghost predicate DollarNamed(pf: ParsedFile) {
    forall k :: 0 <= k < |pf.tokens| && pf.tokens[k].kind == Variable ==>
      |pf.tokens[k].text| >= 1 && pf.tokens[k].text[0] == '$'
  }

  /** Every variable token from `lo` up to `hi` is known in the current scope. */
  ghost predicate KnownFrom(e: Env, st: ScanState, lo: nat, hi: nat)
    requires Valid(e.pf) && |st.stack| >= 1
  {
    forall k :: lo <= k < hi && k < |e.pf.tokens| && e.pf.tokens[k].kind == Variable ==>
      CheckVar(e, st, e.pf.tokens[k].text, 0)
  }

  /** The token at `k` starts an entry of a `global` list that starts at `n`: it is
      the first one, or it follows a `,`. */
  predicate StartsEntry(pf: ParsedFile, n: nat, k: nat)
    requires Valid(pf)
  {
    k == n || (k < |pf.tokens| && Tok(pf, PrevNS(pf, k)).text == ",")
  }

  /** Every variable token from `lo` up to `hi` that starts an entry is marked global
      in the current scope. */
  ghost predicate GlobalFrom(pf: ParsedFile, st: ScanState, lo: nat, hi: nat)
    requires Valid(pf) && |st.stack| >= 1
  {
    forall k :: lo <= k < hi && k < |pf.tokens| && pf.tokens[k].kind == Variable && StartsEntry(pf, lo, k) ==>
      pf.tokens[k].text in Top(st).vars && Top(st).vars[pf.tokens[k].text].isGlobal
  }

  /** What one entry leaves behind: every variable token of the entry is known, and
      a `$v` entry is marked global. */
  lemma GlobalEntrySpan(e: Env, st: ScanState, n: nat)
    requires Valid(e.pf) && |st.stack| >= 1
    requires n < |e.pf.tokens| ==> e.pf.tokens[n].kind != Space
    ensures var r := GlobalEntry(e, st, n);
            r.Ok? ==> TopGrown(st, r.value.0) && KnownFrom(e, r.value.0, n, r.value.1) && GlobalFrom(e.pf, r.value.0, n, r.value.1)
  {
    if Tok(e.pf, n).kind == Variable {
      GlobalSpanPlain(e, st, n);
    } else if Tok(e.pf, n).text == "$" && Tok(e.pf, NextNS(e.pf, n)).kind == Variable {
      GlobalSpanDollar(e, st, n);
    }
  }

  lemma GlobalSpanPlain(e: Env, st: ScanState, n: nat)
    requires Valid(e.pf) && |st.stack| >= 1 && n < |e.pf.tokens|
    requires e.pf.tokens[n].kind == Variable
    ensures var r := GlobalEntry(e, st, n);
            r.Ok? && TopGrown(st, r.value.0) && KnownFrom(e, r.value.0, n, r.value.1) && GlobalFrom(e.pf, r.value.0, n, r.value.1)
  {
    var pf := e.pf;
    var s := Assign(st, 0, pf.tokens[n].text, n, Imported);
    assert GlobalEntry(e, st, n) == Ok((s, NextNS(pf, n)));
    AssignBinds(st, pf.tokens[n].text, n, Imported);
    NextNSSkipsSpace(pf, n);
    forall k | n <= k < NextNS(pf, n) && k < |pf.tokens| && pf.tokens[k].kind == Variable
      ensures k == n
    {
    }
  }

  lemma GlobalSpanDollar(e: Env, st: ScanState, n: nat)
    requires Valid(e.pf) && |st.stack| >= 1 && n < |e.pf.tokens|
    requires e.pf.tokens[n].kind != Variable && e.pf.tokens[n].kind != Space && e.pf.tokens[n].text == "$"
    requires Tok(e.pf, NextNS(e.pf, n)).kind == Variable
    ensures var r := GlobalEntry(e, st, n);
            r.Ok? && TopGrown(st, r.value.0) && KnownFrom(e, r.value.0, n, r.value.1) && GlobalFrom(e.pf, r.value.0, n, r.value.1)
  {
    var pf := e.pf;
    var v := NextNS(pf, n);
    var s := CheckVarAndAdd(e, st, pf.tokens[v].text, v, false, 0);
    var s' := s.(trigger := Some(v), switchAt := NullableIndex(pf, SkipTillText(pf, v, ";")));
    assert GlobalEntry(e, st, n) == Ok((s', NextNS(pf, v)));
    CheckVarReads(e, st, v);
    TopGrownSameStack(st, s, s');
    CheckVarSameStack(e, s, s', pf.tokens[v].text);
    OnlyVariableAfterDollar(pf, n);
    KnownFromOne(e, s', n, NextNS(pf, v), v);
    GlobalFromNone(pf, s', n, NextNS(pf, v), v);
  }

  /** In `$ $v`, the only variable token from `$` up to the token after `$v` is `$v`,
      and it does not start an entry. */
  lemma OnlyVariableAfterDollar(pf: ParsedFile, n: nat)
    requires Valid(pf) && n < |pf.tokens| && pf.tokens[n].kind != Variable && pf.tokens[n].kind != Space
    requires pf.tokens[n].text == "$" && Tok(pf, NextNS(pf, n)).kind == Variable
    ensures var v := NextNS(pf, n);
            && (forall k :: n <= k < NextNS(pf, v) && k < |pf.tokens| && pf.tokens[k].kind == Variable ==> k == v)
            && !StartsEntry(pf, n, v)
  {
    var v := NextNS(pf, n);
    NextNSSkipsSpace(pf, n);
    NextNSSkipsSpace(pf, v);
    PrevOfNext(pf, n);
  }

  lemma KnownFromOne(e: Env, st: ScanState, lo: nat, hi: nat, v: nat)
    requires Valid(e.pf) && |st.stack| >= 1 && v < |e.pf.tokens|
    requires forall k :: lo <= k < hi && k < |e.pf.tokens| && e.pf.tokens[k].kind == Variable ==> k == v
    requires CheckVar(e, st, e.pf.tokens[v].text, 0)
    ensures KnownFrom(e, st, lo, hi)
  {
  }

  lemma GlobalFromNone(pf: ParsedFile, st: ScanState, lo: nat, hi: nat, v: nat)
    requires Valid(pf) && |st.stack| >= 1
    requires forall k :: lo <= k < hi && k < |pf.tokens| && pf.tokens[k].kind == Variable ==> k == v
    requires !StartsEntry(pf, lo, v)
    ensures GlobalFrom(pf, st, lo, hi)
  {
  }

  /** The entries of a `global` list up to its `;`: every variable token in the list
      is known in the current scope afterwards, and every `$v` entry (the first one,
      and each one after a `,`) is marked global. */
  lemma {:induction false} GlobalNamesDeclare(e: Env, st: ScanState, n: nat)
    requires Valid(e.pf) && DollarNamed(e.pf) && |st.stack| >= 1 && n <= |e.pf.tokens|
    requires n < |e.pf.tokens| ==> e.pf.tokens[n].kind != Space
    ensures var f := GlobalNames(e, st, n);
            f.Continue? ==>
              && e.pf.tokens[f.at].text == ";"
              && TopGrown(st, f.st) && KnownFrom(e, f.st, n, f.at) && GlobalFrom(e.pf, f.st, n, f.at)
    decreases |e.pf.tokens| - n
  {
    var pf := e.pf;
    GlobalEntrySpan(e, st, n);
    match GlobalEntry(e, st, n)
    case Err(_) =>
    case Ok((s, m)) =>
      if Tok(pf, m).text == "," {
        var n2 := NextNS(pf, m);
        NextNSSkipsSpace(pf, m);
        GlobalNamesDeclare(e, s, n2);
        var f := GlobalNames(e, s, n2);
        assert GlobalNames(e, st, n) == f;
        if f.Continue? {
          TopGrownTrans(st, s, f.st);
          assert pf.tokens[m].text[0] == ',';
          GlobalJoin(e, s, f.st, n, m, n2, f.at);
        }
      }
  }

  /** An entry from `n` to `m`, a `,` at `m`, and the rest of the list from `n2` up
      to `hi`, with only whitespace between `m` and `n2`, make up one list. */
  lemma GlobalJoin(e: Env, s: ScanState, t: ScanState, n: nat, m: nat, n2: nat, hi: nat)
    requires Valid(e.pf) && |s.stack| >= 1 && n <= m < n2 <= hi && m < |e.pf.tokens|
    requires e.pf.tokens[m].kind != Variable && n2 == NextNS(e.pf, m)
    requires forall k :: m < k < n2 ==> e.pf.tokens[k].kind == Space
    requires TopGrown(s, t)
    requires KnownFrom(e, s, n, m) && GlobalFrom(e.pf, s, n, m)
    requires KnownFrom(e, t, n2, hi) && GlobalFrom(e.pf, t, n2, hi)
    ensures KnownFrom(e, t, n, hi) && GlobalFrom(e.pf, t, n, hi)
  {
    var pf := e.pf;
    forall k | n <= k < hi && k < |pf.tokens| && pf.tokens[k].kind == Variable
      ensures CheckVar(e, t, pf.tokens[k].text, 0)
    {
      if k < m {
        TopGrownKnown(e, s, t, pf.tokens[k].text);
      } else {
        assert n2 <= k;
      }
    }
    forall k | n <= k < hi && k < |pf.tokens| && pf.tokens[k].kind == Variable && StartsEntry(pf, n, k)
      ensures pf.tokens[k].text in Top(t).vars && Top(t).vars[pf.tokens[k].text].isGlobal
    {
      if k < m {
        assert pf.tokens[k].text in Top(s).vars;
      } else {
        assert n2 <= k && StartsEntry(pf, n2, k);
      }
    }
  }

  /** `global $a, $$b;`: what `GlobalNamesDeclare` says, for the list after `global`. */
  lemma GlobalDeclares(e: Env, st: ScanState, i: nat)
    requires Valid(e.pf) && DollarNamed(e.pf) && i < |e.pf.tokens| && |st.stack| >= 1
    requires e.pf.tokens[i].kind == Global
    ensures var n := NextNS(e.pf, i);
            var f := GlobalPhase(e, st, i);
            && !f.Proceed?
            && (f.Continue? ==>
                  && e.pf.tokens[f.at].text == ";"
                  && TopGrown(st, f.st) && KnownFrom(e, f.st, n, f.at) && GlobalFrom(e.pf, f.st, n, f.at))
  {
    NextNSSkipsSpace(e.pf, i);
    GlobalNamesDeclare(e, st, NextNS(e.pf, i));
  }

  // ---------------------------------------------------------------------------
  // static

  /** The declarators of a `static` statement: it succeeds exactly when each one is
      a variable token; then each is Assigned in the current scope, no defect is
      filed, and the scan resumes at the last one. */
  lemma {:induction false} StaticVarsDeclare(e: Env, st: ScanState, groups: seq<nat>, last: nat)
    requires Valid(e.pf) && |st.stack| >= 1
    requires forall j :: 0 <= j < |groups| ==> groups[j] < |e.pf.tokens|
    ensures var r := StaticVars(e, st, groups, last);
            && (r.Ok? <==> forall j :: 0 <= j < |groups| ==> e.pf.tokens[groups[j]].kind == Variable)
            && (r.Err? ==> r.error == ErrStatic)
            && (r.Ok? ==>
                  && r.value.1 == (if groups == [] then last else groups[|groups| - 1])
                  && r.value.0 == st.(stack := r.value.0.stack) && TopGrown(st, r.value.0)
                  && (forall j :: 0 <= j < |groups| ==> AssignedIn(Top(r.value.0), e.pf.tokens[groups[j]].text)))
    decreases |groups|
  {
    StaticVarsFails(e, st, groups, last);
    AllVariablesAll(e.pf, groups);
    StaticVarsAssigns(e, st, groups, last);
    var r := StaticVars(e, st, groups, last);
    if r.Ok? {
      GroupsAssignedAll(e.pf, Top(r.value.0), groups);
    }
  }

  /** Every token of the list is a variable. */
  predicate AllVariables(pf: ParsedFile, groups: seq<nat>)
    requires forall j :: 0 <= j < |groups| ==> groups[j] < |pf.tokens|
  {
    groups == [] || (pf.tokens[groups[0]].kind == Variable && AllVariables(pf, groups[1..]))
  }

  lemma {:induction false} AllVariablesAll(pf: ParsedFile, groups: seq<nat>)
    requires forall j :: 0 <= j < |groups| ==> groups[j] < |pf.tokens|
    ensures AllVariables(pf, groups) <==> forall j :: 0 <= j < |groups| ==> pf.tokens[groups[j]].kind == Variable
  {
    if groups != [] {
      AllVariablesAll(pf, groups[1..]);
      assert forall j :: 1 <= j < |groups| ==> groups[j] == groups[1..][j - 1];
    }
  }

  lemma {:induction false} StaticVarsFails(e: Env, st: ScanState, groups: seq<nat>, last: nat)
    requires Valid(e.pf) && |st.stack| >= 1
    requires forall j :: 0 <= j < |groups| ==> groups[j] < |e.pf.tokens|
    ensures var r := StaticVars(e, st, groups, last);
            && (r.Ok? <==> AllVariables(e.pf, groups))
            && (r.Err? ==> r.error == ErrStatic)
    decreases |groups|
  {
    if groups != [] {
      var g := groups[0];
      if e.pf.tokens[g].kind == Variable {
        var s := Assign(st, 0, e.pf.tokens[g].text, g, Plain);
        StaticVarsFails(e, s, groups[1..], g);
        assert StaticVars(e, st, groups, last) == StaticVars(e, s, groups[1..], g);
      }
    }
  }

  /** Every token of the list names a variable Assigned in the scope. */
  ghost predicate GroupsAssigned(pf: ParsedFile, s: Scope, groups: seq<nat>)
    requires Valid(pf)
  {
    groups == [] || (AssignedIn(s, Tok(pf, groups[0]).text) && GroupsAssigned(pf, s, groups[1..]))
  }

  lemma {:induction false} GroupsAssignedAll(pf: ParsedFile, s: Scope, groups: seq<nat>)
    requires Valid(pf) && GroupsAssigned(pf, s, groups)
    ensures forall j :: 0 <= j < |groups| ==> AssignedIn(s, Tok(pf, groups[j]).text)
  {
    if groups != [] {
      GroupsAssignedAll(pf, s, groups[1..]);
      assert forall j :: 1 <= j < |groups| ==> groups[j] == groups[1..][j - 1];
    }
  }

  lemma {:induction false} StaticVarsAssigns(e: Env, st: ScanState, groups: seq<nat>, last: nat)
    requires Valid(e.pf) && |st.stack| >= 1
    requires forall j :: 0 <= j < |groups| ==> groups[j] < |e.pf.tokens|
    ensures var r := StaticVars(e, st, groups, last);
            r.Ok? ==>
              && r.value.1 == (if groups == [] then last else groups[|groups| - 1])
              && r.value.0 == st.(stack := r.value.0.stack) && TopGrown(st, r.value.0)
              && GroupsAssigned(e.pf, Top(r.value.0), groups)
    decreases |groups|
  {
    if groups == [] {
      TopGrownRefl(st);
    } else {
      var g := groups[0];
      if e.pf.tokens[g].kind == Variable {
        var s := Assign(st, 0, e.pf.tokens[g].text, g, Plain);
        AssignBinds(st, e.pf.tokens[g].text, g, Plain);
        StaticVarsAssigns(e, s, groups[1..], g);
        var r := StaticVars(e, s, groups[1..], g);
        assert StaticVars(e, st, groups, last) == r;
        if r.Ok? {
          TopGrownTrans(st, s, r.value.0);
          assert AssignedIn(Top(s), e.pf.tokens[g].text);
        }
      }
    }
  }

  /** `static $a, $b = 1;` inside a function: it aborts exactly when a declarator is
      not a variable; otherwise every declarator is Assigned in the current scope and
      no defect is filed. `static::`, `new static` and `instanceof static` are left
      alone. */
  lemma StaticDeclares(e: Env, st: ScanState, i: nat)
    requires Valid(e.pf) && i < |e.pf.tokens| && |st.stack| >= 1
    requires e.pf.tokens[i].kind == Static && e.pf.methodAt[i]
    ensures var pf := e.pf;
            var n := NextNS(pf, i);
            var p := PrevNS(pf, i);
            var groups := StmtListAt(pf, n);
            var f := StaticPhase(e, st, i);
            var skipped := Tok(pf, n).kind == DoubleColon || Tok(pf, p).kind == New || Tok(pf, p).kind == InstanceOf;
            && (skipped ==> f == Proceed(st))
            && (!skipped ==>
                  && !f.Proceed?
                  && (f.Abort? <==> exists j :: 0 <= j < |groups| && pf.tokens[groups[j]].kind != Variable)
                  && (f.Abort? ==> f.reason == ErrStatic)
                  && (f.Continue? ==>
                        && f.at == (if groups == [] then i else groups[|groups| - 1])
                        && f.st == st.(stack := f.st.stack) && TopGrown(st, f.st)
                        && (forall j :: 0 <= j < |groups| ==> AssignedIn(Top(f.st), pf.tokens[groups[j]].text))))
  {
    StaticVarsDeclare(e, st, StmtListAt(e.pf, NextNS(e.pf, i)), i);
  }

  // ---------------------------------------------------------------------------
  // Parameters and function declarations

  /** The token after the type of the parameter starting at `a`, past one space. */
  function ParamStart(pf: ParsedFile, a: nat): nat
    requires Valid(pf)
  {
    var rest := ParseType(pf, a).rest;
    if rest < |pf.tokens| && pf.tokens[rest].kind == Space then NextNS(pf, rest) else rest
  }

  /** The parameter starting at `a` is declared by reference. */
  predicate ParamByRef(pf: ParsedFile, a: nat)
    requires Valid(pf)
  {
    Tok(pf, ParamStart(pf, a)).text == "&"
  }

  /** The token of the variable the parameter starting at `a` declares. */
  function ParamVar(pf: ParsedFile, a: nat): nat
    requires Valid(pf)
  {
    var n := ParamStart(pf, a);
    if ParamByRef(pf, a) then NextNS(pf, n) else n
  }

  /** The parameter starting at `a` has a type part followed by a variable. */
  predicate ParamWellFormed(pf: ParsedFile, a: nat)
    requires Valid(pf)
  {
    ParseType(pf, a).rest < |pf.tokens| && Tok(pf, ParamVar(pf, a)).kind == Variable
  }

  /** One parameter: it is declared exactly when it is well formed, and then its
      variable is Assigned in the current scope at its token, with `isRefParam`
      equal to whether it is declared by reference; no defect is filed. */
  lemma DeclareParamBinds(e: Env, st: ScanState, a: nat)
    requires Valid(e.pf) && |st.stack| >= 1
    ensures var r := DeclareParam(e, st, a);
            var v := ParamVar(e.pf, a);
            && (r.Ok? <==> ParamWellFormed(e.pf, a))
            && (r.Ok? ==>
                  && r.value == st.(stack := r.value.stack) && TopGrown(st, r.value)
                  && BoundAt(r.value, e.pf.tokens[v].text, v, Param(ParamByRef(e.pf, a))))
  {
    var v := ParamVar(e.pf, a);
    if v < |e.pf.tokens| {
      AssignBinds(st, e.pf.tokens[v].text, v, Param(ParamByRef(e.pf, a)));
    }
  }

  /** Every parameter of the list is well formed. */
  predicate ParamsWellFormed(pf: ParsedFile, args: seq<nat>)
    requires Valid(pf)
  {
    args == [] || (ParamWellFormed(pf, args[0]) && ParamsWellFormed(pf, args[1..]))
  }

  /** Every parameter of the list is Assigned in the scope. */
  ghost predicate ParamsAssigned(pf: ParsedFile, s: Scope, args: seq<nat>)
    requires Valid(pf)
  {
    args == [] || (AssignedIn(s, Tok(pf, ParamVar(pf, args[0])).text) && ParamsAssigned(pf, s, args[1..]))
  }

  /** A scope that has only grown still holds every parameter. */
  lemma {:induction false} ParamsAssignedGrown(pf: ParsedFile, s: Scope, t: Scope, args: seq<nat>)
    requires Valid(pf) && ParamsAssigned(pf, s, args) && Grown(s, t)
    ensures ParamsAssigned(pf, t, args)
  {
    if args != [] {
      ParamsAssignedGrown(pf, s, t, args[1..]);
    }
  }

  /** The parameter list: it is declared exactly when every parameter is well formed,
      and then every parameter's variable is Assigned in the current scope. */
  lemma {:induction false} DeclareParamsBind(e: Env, st: ScanState, args: seq<nat>)
    requires Valid(e.pf) && |st.stack| >= 1
    ensures var r := DeclareParams(e, st, args);
            && (r.Ok? <==> ParamsWellFormed(e.pf, args))
            && (r.Ok? ==>
                  && r.value == st.(stack := r.value.stack) && TopGrown(st, r.value)
                  && ParamsAssigned(e.pf, Top(r.value), args))
    decreases |args|
  {
    if args == [] {
      TopGrownRefl(st);
    } else {
      DeclareParamBinds(e, st, args[0]);
      match DeclareParam(e, st, args[0])
      case Err(_) =>
      case Ok(s) =>
        DeclareParamsBind(e, s, args[1..]);
        var r := DeclareParams(e, s, args[1..]);
        assert DeclareParams(e, st, args) == r;
        if r.Ok? {
          TopGrownTrans(st, s, r.value);
          assert AssignedIn(Top(s), Tok(e.pf, ParamVar(e.pf, args[0])).text);
        }
    }
  }

  /** A closure import adds to the closure's own scope and takes nothing from it. */
  lemma DeclareUseGrowsTop(e: Env, st: ScanState, a: nat)
    requires Valid(e.pf) && |st.stack| >= 2 && a < |e.pf.tokens|
    ensures var r := DeclareUse(e, st, a);
            r.Ok? ==> Grown(Top(st), Top(r.value))
  {
    var pf := e.pf;
    var byRef := pf.tokens[a].text == "&";
    var v := if byRef then NextNS(pf, a) else a;
    if Tok(pf, v).kind == Variable {
      var name := pf.tokens[v].text;
      var s := if !byRef then CheckVarAndAdd(e, st, name, v, false, 1) else Assign(st, 1, name, v, Plain);
      assert DeclareUse(e, st, a) == Ok(Assign(s, 0, name, v, Param(byRef)));
      EnclosingDeclareKeepsTop(e, st, name, v, byRef);
      AssignTop(s, name, v, Param(byRef));
      DeclareGrows(Top(st), name, v, Param(byRef));
    }
  }

  /** Checking or declaring in the enclosing scope leaves the current one alone. */
  lemma EnclosingDeclareKeepsTop(e: Env, st: ScanState, name: string, v: nat, byRef: bool)
    requires |st.stack| >= 2
    ensures var s := if !byRef then CheckVarAndAdd(e, st, name, v, false, 1) else Assign(st, 1, name, v, Plain);
            Top(s) == Top(st)
  {
    if !byRef {
      CheckVarAndAddEffect(e, st, name, v, false, 1);
    }
    DeclareBelowKeepsTop(st.stack, name, v);
  }

  /** Assigning at depth 0 declares in the current scope. */
  lemma AssignTop(st: ScanState, name: string, tok: nat, mark: Mark)
    requires |st.stack| >= 1
    ensures Top(Assign(st, 0, name, tok, mark)) == Declare(Top(st), name, tok, mark)
  {
  }

  /** Declaring in the enclosing scope leaves the current one alone. */
  lemma DeclareBelowKeepsTop(stack: seq<Scope>, name: string, tok: nat)
    requires |stack| >= 2
    ensures DeclareAt(stack, 1, name, tok, Plain)[|stack| - 1] == stack[|stack| - 1]
  {
  }

  lemma {:induction false} DeclareUsesGrowsTop(e: Env, st: ScanState, args: seq<nat>)
    requires Valid(e.pf) && |st.stack| >= 2
    requires forall j :: 0 <= j < |args| ==> args[j] < |e.pf.tokens|
    ensures var r := DeclareUses(e, st, args);
            r.Ok? ==> Grown(Top(st), Top(r.value))
    decreases |args|
  {
    if args != [] {
      DeclareUseGrowsTop(e, st, args[0]);
      match DeclareUse(e, st, args[0])
      case Err(_) =>
      case Ok(s) =>
        DeclareUsesGrowsTop(e, s, args[1..]);
        var r := DeclareUses(e, s, args[1..]);
        assert DeclareUses(e, st, args) == r;
        if r.Ok? {
          GrownTrans(Top(st), Top(s), Top(r.value));
        }
    }
  }

  /** After the parameters, a closure's imports only add to the new scope, and a
      body keeps it open. */
  lemma AfterParametersGrowsTop(e: Env, st: ScanState, i: nat, s1: ScanState, isClosure: bool, after: nat)
    requires Valid(e.pf) && i < after && |st.stack| >= 1
    requires Shape(PushScope(st).stack, s1.stack) && s1.dropScopeAt == st.dropScopeAt
    ensures var f := AfterParameters(e, st, i, s1, isClosure, after);
            f.Continue? && |f.st.stack| == |s1.stack| ==>
              Grown(Top(s1), Top(f.st)) && Top(f.st).mode == Top(s1).mode
  {
    var pf := e.pf;
    if isClosure && Tok(pf, after).kind == Use {
      var u := NextNS(pf, after);
      if Tok(pf, u).text == "(" {
        DeclareUsesGrowsTop(e, s1, ListAt(pf, NextNS(pf, u)));
      }
    }
  }

  /** `function [&][name](params) ...`: a declaration whose `(` is missing, or one of
      whose parameters is malformed, aborts. When the declaration leaves its new scope
      open (it has a body), that scope is Strict, saves the enclosing drop point, and
      holds every parameter as Assigned. */
  lemma FunctionDeclaresParams(e: Env, st: ScanState, i: nat)
    requires Valid(e.pf) && i < |e.pf.tokens| && |st.stack| >= 1 && e.pf.tokens[i].kind == Function
    ensures var pf := e.pf;
            var m := SkipAmp(pf, NextNS(pf, i));
            var n := if Tok(pf, m).kind != Name then m else NextNS(pf, m);
            var f := FunctionPhase(e, st, i);
            && (Tok(pf, n).text != "(" ==> f == Abort(ErrFunctionOpen))
            && (Tok(pf, n).text == "(" ==>
                  var params := ListAt(pf, NextNS(pf, n));
                  && (!ParamsWellFormed(pf, params) ==> f.Abort?)
                  && (f.Continue? && |f.st.stack| == |st.stack| + 1 ==>
                        && Top(f.st).mode == Strict && Top(f.st).prevScope == st.dropScopeAt
                        && ParamsAssigned(pf, Top(f.st), params)))
  {
    var pf := e.pf;
    var s0 := PushScope(st);
    var m := SkipAmp(pf, NextNS(pf, i));
    var isClosure := Tok(pf, m).kind != Name;
    var n := if isClosure then m else NextNS(pf, m);
    if Tok(pf, n).text == "(" {
      var params := ListAt(pf, NextNS(pf, n));
      DeclareParamsBind(e, s0, params);
      match DeclareParams(e, s0, params)
      case Err(_) =>
      case Ok(s1) =>
        AfterParametersGrowsTop(e, st, i, s1, isClosure, NextNS(pf, Pair(pf, n)));
        var f := AfterParameters(e, st, i, s1, isClosure, NextNS(pf, Pair(pf, n)));
        assert FunctionPhase(e, st, i) == f;
        if f.Continue? && |f.st.stack| == |st.stack| + 1 {
          assert Top(s1).mode == Strict && Top(s1).prevScope == st.dropScopeAt;
          ParamsAssignedGrown(pf, Top(s1), Top(f.st), params);
        }
    }
  }

  // ---------------------------------------------------------------------------
  // The `$$v =` and `extract(` switches

  /** `$$v = ...` and `$$v[...] = ...` arm the switch at `$v`, due at the first `;`
      after it (or at once if there is none): once the scan reaches it, the current
      scope is Relaxed. Any other token leaves the state alone. */
  lemma DollarArms(e: Env, st: ScanState, i: nat)
    requires Valid(e.pf) && i < |e.pf.tokens| && |st.stack| >= 1
    ensures var pf := e.pf;
            var n := NextNS(pf, i);
            var r := DollarTrigger(e, st, i);
            var armed := pf.tokens[i].text == "$" && Tok(pf, n).kind == Variable
                         && Tok(pf, SkipIndexGroups(pf, NextNS(pf, n)).0).text == "=";
            && (!armed ==> r == st)
            && (armed ==>
                  && r.stack == st.stack && r.report == st.report
                  && r.trigger == Some(n)
                  && DueAtSemicolon(pf, n, r.switchAt)
                  && (forall j: nat :: j >= r.switchAt ==> Top(ApplyPendingSwitch(e, r, j)).mode == Relaxed))
  {
    var n := NextNS(e.pf, i);
    if n < |e.pf.tokens| {
      SemicolonDue(e.pf, n);
    }
  }

  /** `extract(...)` arms the switch at `extract`, due at the matching `)`: the scope
      stays as it is inside the parentheses and is Relaxed from the `)` on (with the
      notice, if it was Strict). No defect is filed on the way. */
  lemma ExtractArms(e: Env, st: ScanState, i: nat)
    requires Valid(e.pf) && i < |e.pf.tokens| && |st.stack| >= 1
    requires e.pf.tokens[i].kind == Name && e.pf.tokens[i].text == "extract"
    requires Tok(e.pf, NextNS(e.pf, i)).text == "("
    ensures var pf := e.pf;
            var n := NextNS(pf, i);
            var f := TriggerPhase(e, st, i);
            && n in pf.pairs
            && f.Continue? && f.at == i
            && f.st.stack == st.stack && f.st.report == st.report
            && f.st.trigger == Some(i) && f.st.switchAt == Pair(pf, n)
            && (forall j :: i <= j < Pair(pf, n) ==> ApplyPendingSwitch(e, f.st, j) == f.st)
            && Top(ApplyPendingSwitch(e, f.st, Pair(pf, n))).mode == Relaxed
            && (Top(st).mode == Strict ==>
                  ApplyPendingSwitch(e, f.st, Pair(pf, n)).report == Filed(st.report, e.reportLevel, Defect(i, Notice, MsgModeSwitch)))
  {
  }
}
