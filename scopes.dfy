/**
 * The engine's variable store: variable records, scopes (one name-to-variable
 * table each, with a Strict/Relaxed mode and the saved `dropScopeAt` of the
 * enclosing scope), the stack of scopes, and defects with their severities.
 *
 * A PHP scope is an object whose `vars` array is updated in place and keeps
 * insertion order; here a scope is a value with the table `vars` and the
 * insertion order `names`, and the stack of scopes is a sequence whose last
 * element is the current scope.
 */
module Scopes {

  datatype Status = Unknown | Assigned | Used

  datatype Mode = Strict | Relaxed

  /** A variable record: its status, the token of its latest occurrence, and the
      three flags `isRefParam`, `isCatchVar`, `isGlobal`. */
  datatype Var = Var(status: Status, token: nat, isRefParam: bool, isCatchVar: bool, isGlobal: bool)

  datatype Scope = Scope(names: seq<string>, vars: map<string, Var>, prevScope: int, mode: Mode)

  /** How a handler marks the variable it assigns: plainly, as a parameter
      (by reference or not), as a caught exception, or as a `global` import. */
  datatype Mark = Plain | Param(byRef: bool) | Caught | Imported

  /** The table keys are exactly the names, each listed once in insertion order. */
  ghost predicate WellFormed(s: Scope) {
    && (forall a, b :: 0 <= a < b < |s.names| ==> s.names[a] != s.names[b])
    && (forall x :: x in s.vars <==> x in s.names)
  }

  /** `addScope`'s new frame. */
  function NewScope(prevScope: int, mode: Mode): (s: Scope)
    ensures WellFormed(s) && NoUsed(s) && s.vars == map[]
  {
    Scope([], map[], prevScope, mode)
  }

  /** `getOrCreateVar` followed by what every caller then writes into the record:
      the status becomes Assigned and the flag of `mark` is set. A new record starts
      Unknown with all flags false; an existing one only has its token replaced. */
  function Declare(s: Scope, name: string, tok: nat, mark: Mark): (r: Scope)
    ensures name in r.vars && r.prevScope == s.prevScope && r.mode == s.mode
  {
    var base := if name in s.vars then s.vars[name].(token := tok) else Var(Unknown, tok, false, false, false);
    var v := match mark
      case Plain => base.(status := Assigned)
      case Param(byRef) => base.(status := Assigned, isRefParam := byRef)
      case Caught => base.(status := Assigned, isCatchVar := true)
      case Imported => base.(isGlobal := true, status := Assigned);
    Scope(if name in s.vars then s.names else s.names + [name], s.vars[name := v], s.prevScope, s.mode)
  }

  /** What declaring does: the name is Assigned at `tok`, keeps its flags unless the
      mark sets one, is appended to the order of first appearance when new, and no
      other variable changes. */
  lemma DeclareEffect(s: Scope, name: string, tok: nat, mark: Mark)
    ensures var r := Declare(s, name, tok, mark);
            && r.vars[name].status == Assigned && r.vars[name].token == tok
            && r.vars.Keys == s.vars.Keys + {name}
            && (forall x :: x in s.vars && x != name ==> r.vars[x] == s.vars[x])
            && (name in s.vars ==> r.names == s.names)
            && (name !in s.vars ==> r.names == s.names + [name])
            && (mark == Plain && name in s.vars ==>
                  r.vars[name] == s.vars[name].(status := Assigned, token := tok))
            && (mark == Plain && name !in s.vars ==> r.vars[name] == Var(Assigned, tok, false, false, false))
            && (mark.Param? ==> r.vars[name].isRefParam == mark.byRef)
            && (mark == Caught ==> r.vars[name].isCatchVar)
            && (mark == Imported ==> r.vars[name].isGlobal)
  {
  }

  /** Declaring keeps a scope well formed, removes no name, and never produces the
      status Used. */
  lemma DeclareKeeps(s: Scope, name: string, tok: nat, mark: Mark)
    ensures s.vars.Keys <= Declare(s, name, tok, mark).vars.Keys
    ensures WellFormed(s) ==> WellFormed(Declare(s, name, tok, mark))
    ensures NoUsed(s) ==> NoUsed(Declare(s, name, tok, mark))
  {
  }

  /** The scope holds `name` with the status Assigned. */
  ghost predicate AssignedIn(s: Scope, name: string) {
    name in s.vars && s.vars[name].status == Assigned
  }

  /** `b` keeps every name of `a`, every Assigned status, and the flags `isCatchVar`
      and `isGlobal` once they are set. */
  ghost predicate Grown(a: Scope, b: Scope) {
    forall x :: x in a.vars ==>
      && x in b.vars
      && (a.vars[x].status == Assigned ==> b.vars[x].status == Assigned)
      && (a.vars[x].isCatchVar ==> b.vars[x].isCatchVar)
      && (a.vars[x].isGlobal ==> b.vars[x].isGlobal)
  }

  lemma GrownTrans(a: Scope, b: Scope, c: Scope)
    requires Grown(a, b) && Grown(b, c)
    ensures Grown(a, c)
  {
  }

  /** Declaring only grows a scope: a later declaration never undoes an earlier one. */
  lemma DeclareGrows(s: Scope, name: string, tok: nat, mark: Mark)
    ensures Grown(s, Declare(s, name, tok, mark))
  {
  }

  /** `getScope($depth)`: depth 0 is the current scope, depth 1 the enclosing one. */
  function ScopeAt(stack: seq<Scope>, depth: nat): Scope
    requires depth < |stack|
  {
    stack[|stack| - 1 - depth]
  }

  /** No variable of the scope has the status Used. */
  ghost predicate NoUsed(s: Scope) {
    forall x :: x in s.vars ==> s.vars[x].status != Used
  }

  /** The second stack has the same frames as the first, apart from the variable
      tables, which only gain names, and each of its frames is at least as relaxed. */
  ghost predicate Evolved(a: seq<Scope>, b: seq<Scope>) {
    && |a| == |b|
    && (forall j :: 0 <= j < |a| ==>
          && b[j].prevScope == a[j].prevScope
          && a[j].vars.Keys <= b[j].vars.Keys
          && (a[j].mode == Relaxed ==> b[j].mode == Relaxed)
          && (WellFormed(a[j]) ==> WellFormed(b[j]))
          && (NoUsed(a[j]) ==> NoUsed(b[j])))
  }

  /** `Evolved` with every mode unchanged. */
  ghost predicate Shape(a: seq<Scope>, b: seq<Scope>) {
    Evolved(a, b) && forall j :: 0 <= j < |a| ==> b[j].mode == a[j].mode
  }

  /** The top scope of an evolved stack keeps every name it had. */
  lemma EvolvedTopKeys(a: seq<Scope>, b: seq<Scope>)
    requires Evolved(a, b) && |a| >= 1
    ensures a[|a| - 1].vars.Keys <= b[|b| - 1].vars.Keys
  {
  }

  lemma EvolvedTrans(a: seq<Scope>, b: seq<Scope>, c: seq<Scope>)
    requires Evolved(a, b) && Evolved(b, c)
    ensures Evolved(a, c)
  {
  }

  lemma ShapeTrans(a: seq<Scope>, b: seq<Scope>, c: seq<Scope>)
    requires Shape(a, b) && Shape(b, c)
    ensures Shape(a, c)
  {
  }

  /** Frames below the top of evolved stacks are evolved. */
  lemma EvolvedPrefix(a: seq<Scope>, b: seq<Scope>, n: nat)
    requires Evolved(a, b) && n <= |a|
    ensures Evolved(a[..n], b[..n])
  {
  }

  /** A frame pushed on two evolved stacks keeps them evolved. */
  lemma EvolvedPush(a: seq<Scope>, b: seq<Scope>, s: Scope)
    requires Evolved(a, b)
    ensures Evolved(a + [s], b + [s])
  {
  }

  /** Declares a variable in the scope at `depth`; no other scope changes. */
  function DeclareAt(stack: seq<Scope>, depth: nat, name: string, tok: nat, mark: Mark): (r: seq<Scope>)
    requires depth < |stack|
    ensures |r| == |stack|
    ensures ScopeAt(r, depth) == Declare(ScopeAt(stack, depth), name, tok, mark)
    ensures forall j :: 0 <= j < |r| && j != |stack| - 1 - depth ==> r[j] == stack[j]
    ensures Shape(stack, r)
  {
    DeclareKeeps(ScopeAt(stack, depth), name, tok, mark);
    stack[|stack| - 1 - depth := Declare(ScopeAt(stack, depth), name, tok, mark)]
  }

  /** Severities, totally ordered Notice < Warning < Error. */
  datatype Severity = Notice | Warning | Error

  function Rank(s: Severity): nat {
    match s
    case Notice => 1
    case Warning => 2
    case Error => 3
  }

  /** A defect: the token it is attached to (possibly `null`), its severity and message. */
  datatype Defect = Defect(token: nat, level: Severity, message: string)

  /** `addDefect`: the defect is recorded only at or above the report level. */
  function Filed(report: seq<Defect>, reportLevel: Severity, d: Defect): (r: seq<Defect>)
    ensures Rank(d.level) >= Rank(reportLevel) ==> r == report + [d]
    ensures Rank(d.level) < Rank(reportLevel) ==> r == report
  {
    if Rank(d.level) >= Rank(reportLevel) then report + [d] else report
  }

  const MsgUndefined := "Use of non-defined variable"
  const MsgPossiblyUndefined := "Possible use of non-defined variable"
  const MsgArrayAutoviv := "Array autovivification"
  const MsgScalarAutoviv := "Scalar autovivification"
  const MsgEmptyDecl := "Empty declaration-like statement"
  const MsgModeSwitch := "Can't reliable detect var usage from here"
  const MsgNonVariableByRef := "Possible attemps to pass non-variable by reference"
  const MsgNotUsed := "Value of variable is not used"

  /** Names known in every scope (`$this` included, as the source does). */
  const Superglobals: set<string> := {
    "$GLOBALS", "$_REQUEST", "$_GET", "$_POST",
    "$_FILES", "$_ENV", "$_SERVER", "$_COOKIE", "$_SESSION",
    "$HTTP_RAW_POST_DATA",
    "$http_response_header", "$php_errormsg",
    "$this"
  }

  /** Names known in the file scope only: `$argv`, `$argc` and the configured ones. */
  function KnownGlobals(configured: seq<string>): (g: set<string>)
    ensures "$argv" in g && "$argc" in g
    ensures forall x :: x in configured ==> x in g
    ensures forall x :: x in g ==> x == "$argv" || x == "$argc" || x in configured
  {
    {"$argv", "$argc"} + set x | x in configured
  }
}
