/**
 * The signature table: for a call name, the argument positions through which
 * the callee may assign a variable passed by reference.
 *
 * Three sources: the functions and methods declared in the analysed file,
 * the `lint.init-by-reference` configuration entries (which overwrite them),
 * and the interpreter's internal functions (found by reflection, which is not
 * part of this model: the reflected table is an input) patched by a literal
 * override table. A literal set names the internal functions that take a
 * reference but need the variable to exist already.
 */
module Signatures {
  import opened Wrappers
  import opened Tokens

  /** The by-reference positions of a callee; `None` is the source's `null`
      (a known callee without by-reference arguments). */
  type Signature = Option<seq<nat>>

  /** Internal functions that extensions may add, and `array_multisort`, of which
      only the first argument is certain to be passed by reference. */
  const OverrideTable: map<string, seq<nat>> := map[
    "apc_fetch" := [1],
    "apc_dec" := [2],
    "apc_inc" := [2],
    "grapheme_extract" := [4],
    "ncurses_color_content" := [1, 2, 3],
    "ncurses_getmaxyx" := [1, 2],
    "ncurses_getmouse" := [0],
    "ncurses_getyx" := [1, 2],
    "ncurses_instr" := [0],
    "ncurses_mouse_trafo" := [0, 1],
    "ncurses_mousemask" := [1],
    "ncurses_pair_content" := [1, 2],
    "ncurses_wmouse_trafo" := [1, 2],
    "numfmt_parse" := [3],
    "numfmt_parse_currency" := [2, 3],
    "pcntl_waitpid" := [1],
    "pcntl_wait" := [0],
    "array_multisort" := [0]
  ]

  /** Internal functions that take arguments by reference without initialising them. */
  const NoInitFunctions: set<string> := {
    "array_multisort", "array_pop", "array_push", "array_shift", "array_splice", "array_unshift",
    "array_walk", "array_walk_recursive", "arsort", "asort", "call_user_method",
    "call_user_method_array", "current", "each", "end", "extract", "key", "krsort", "ksort",
    "mb_convert_variables", "natcasesort", "natsort", "next", "openssl_csr_new", "pos", "prev",
    "reset", "rsort", "settype", "shuffle", "sort", "uasort", "uksort", "usort", "xml_set_object"
  }

  /** The internal-function table: the reflected one with the override table written over it. */
  function InternalFunctions(reflected: map<string, Signature>): (r: map<string, Signature>)
    ensures r.Keys == reflected.Keys + OverrideTable.Keys
    ensures forall k :: k in OverrideTable ==> r[k] == Some(OverrideTable[k])
    ensures forall k :: k in reflected && k !in OverrideTable ==> r[k] == reflected[k]
  {
    reflected + map k | k in OverrideTable :: Some(OverrideTable[k])
  }

  /** `getFullyQualifiedFunctionName`: the lookup key of a call to `name`, given the
      previous non-space token `p`, the one before it `pp`, and the enclosing class
      ("" outside a class). */
  function QualifiedCallName(name: string, p: Token, pp: Token, cls: string): string {
    if p.kind == ObjectOperator then
      if pp.text == "$this" && Truthy(cls) then cls + "::" + name else "?::" + name
    else if p.kind == DoubleColon then
      if pp.text == "self" then
        if Truthy(cls) then cls + "::" + name else "?::" + name
      else pp.text + "::" + name
    else name
  }

  /** The call name always ends with the called name; it is the bare name exactly when
      the call is not through `->` or `::`; a method call is qualified by the class
      (`$this` inside a class) or `?`, a static call by the written class, with `self`
      resolved to the enclosing class or `?`. */
  lemma QualifiedCallNameCases(name: string, p: Token, pp: Token, cls: string)
    ensures var r := QualifiedCallName(name, p, pp, cls);
            && |r| >= |name| && r[|r| - |name|..] == name
            && ((r == name) <==> (p.kind != ObjectOperator && p.kind != DoubleColon))
            && (p.kind == ObjectOperator ==>
                  r == (if pp.text == "$this" && Truthy(cls) then cls else "?") + "::" + name)
            && (p.kind == DoubleColon ==>
                  r == (if pp.text != "self" then pp.text else if Truthy(cls) then cls else "?") + "::" + name)
  {
    var r := QualifiedCallName(name, p, pp, cls);
    if p.kind == ObjectOperator || p.kind == DoubleColon {
      var q := if p.kind == ObjectOperator then (if pp.text == "$this" && Truthy(cls) then cls else "?")
        else if pp.text != "self" then pp.text else if Truthy(cls) then cls else "?";
      assert r == q + "::" + name == (q + "::") + name;
      assert |r| > |name|;
    }
  }

  /** A callee is looked up among the user functions first, then the internal ones. */
  function Lookup(user: map<string, Signature>, internal: map<string, Signature>, name: string): (r: Option<Signature>)
    ensures r.Some? <==> (name in user || name in internal)
    ensures name in user ==> r == Some(user[name])
    ensures name !in user && name in internal ==> r == Some(internal[name])
  {
    if name in user then Some(user[name])
    else if name in internal then Some(internal[name])
    else None
  }

  /** The positions (counted from `from`) of the groups whose first token is `&`. */
  function AmpPositions(pf: ParsedFile, groups: seq<nat>, from: nat): (r: seq<nat>)
    requires Valid(pf)
    decreases |groups|
  {
    if groups == [] then []
    else (if Tok(pf, groups[0]).text == "&" then [from] else []) + AmpPositions(pf, groups[1..], from + 1)
  }

  /** Appending a group adds its position at the end when it starts with `&`. */
  lemma {:induction false} AmpPositionsSnoc(pf: ParsedFile, groups: seq<nat>, g: nat, from: nat)
    requires Valid(pf)
    ensures AmpPositions(pf, groups + [g], from)
            == AmpPositions(pf, groups, from) + (if Tok(pf, g).text == "&" then [from + |groups|] else [])
    decreases |groups|
  {
    if groups != [] {
      assert (groups + [g])[1..] == groups[1..] + [g];
      AmpPositionsSnoc(pf, groups[1..], g, from + 1);
    }
  }

  /** The signature of a declared parameter list: its `&` positions, or `null` if none. */
  function ParameterSignature(pf: ParsedFile, groups: seq<nat>): Signature
    requires Valid(pf)
  {
    var ps := AmpPositions(pf, groups, 0);
    if |ps| > 0 then Some(ps) else None
  }

  /** The key of a declared method: `Class::name` inside a class, the bare name outside. */
  function MethodKey(pf: ParsedFile, m: MethodDecl): string
    requires Valid(pf) && m.nameStartIndex < |pf.tokens|
  {
    var cls := pf.classAt[m.nameStartIndex];
    if Truthy(cls) then cls + "::" + m.name else m.name
  }

  /** Whether a declared method gets an entry: it is not a constructor and its name is followed by `(`. */
  predicate HasEntry(pf: ParsedFile, m: MethodDecl)
    requires Valid(pf) && m.nameStartIndex < |pf.tokens|
  {
    m.name != "__construct" && Tok(pf, NextNS(pf, m.nameStartIndex)).text == "("
  }

  function MethodGroups(pf: ParsedFile, m: MethodDecl): seq<nat>
    requires Valid(pf) && m.nameStartIndex < |pf.tokens| && HasEntry(pf, m)
  {
    ListAt(pf, NextNS(pf, NextNS(pf, m.nameStartIndex)))
  }

  /** The entries of the file's own declarations, in declaration order (a later
      declaration with the same key replaces an earlier one). */
  function FileSignatures(pf: ParsedFile, ms: seq<MethodDecl>): map<string, Signature>
    requires Valid(pf) && forall m :: m in ms ==> m.nameStartIndex < |pf.tokens|
    decreases |ms|
  {
    if ms == [] then map[]
    else
      var acc := FileSignatures(pf, ms[..|ms| - 1]);
      var m := ms[|ms| - 1];
      if HasEntry(pf, m) then acc[MethodKey(pf, m) := ParameterSignature(pf, MethodGroups(pf, m))]
      else acc
  }

  /** A `lint.init-by-reference` entry, already split into the name and its positions. */
  datatype ConfigSignature = ConfigSignature(name: string, positions: seq<nat>)

  /** The configuration entries written over `acc`, in order. */
  function WithConfig(acc: map<string, Signature>, entries: seq<ConfigSignature>): map<string, Signature>
    decreases |entries|
  {
    if entries == [] then acc
    else
      var e := entries[|entries| - 1];
      WithConfig(acc, entries[..|entries| - 1])[e.name := Some(e.positions)]
  }

  /** `get_user_functions`. */
  function UserFunctions(pf: ParsedFile, entries: seq<ConfigSignature>): map<string, Signature>
    requires Valid(pf)
  {
    WithConfig(FileSignatures(pf, pf.methods), entries)
  }

  // ---------------------------------------------------------------------------
  // Properties of the table

  /** The `&` positions are exactly the positions of the groups that start with
      `&`, in increasing order. */
  lemma {:induction false} AmpPositionsExact(pf: ParsedFile, groups: seq<nat>, from: nat)
    requires Valid(pf)
    ensures forall k :: k in AmpPositions(pf, groups, from) <==>
              from <= k < from + |groups| && Tok(pf, groups[k - from]).text == "&"
    ensures forall a, b :: 0 <= a < b < |AmpPositions(pf, groups, from)| ==>
              AmpPositions(pf, groups, from)[a] < AmpPositions(pf, groups, from)[b]
    ensures forall a :: 0 <= a < |AmpPositions(pf, groups, from)| ==> AmpPositions(pf, groups, from)[a] >= from
    decreases |groups|
  {
    if groups != [] {
      AmpPositionsExact(pf, groups[1..], from + 1);
    }
  }

  /** A declared parameter list gets `null` exactly when no parameter is by reference. */
  lemma ParameterSignatureNull(pf: ParsedFile, groups: seq<nat>)
    requires Valid(pf)
    ensures ParameterSignature(pf, groups).None? <==>
              forall j :: 0 <= j < |groups| ==> Tok(pf, groups[j]).text != "&"
  {
    AmpPositionsExact(pf, groups, 0);
    var ps := AmpPositions(pf, groups, 0);
    if |ps| == 0 {
      forall j | 0 <= j < |groups| ensures Tok(pf, groups[j]).text != "&" {
        assert j !in ps;
      }
    } else {
      assert ps[0] in ps;
    }
  }

  /** A key is in the file's table exactly when some declaration with an entry has it. */
  lemma {:induction false} FileSignaturesKeys(pf: ParsedFile, ms: seq<MethodDecl>)
    requires Valid(pf) && forall m :: m in ms ==> m.nameStartIndex < |pf.tokens|
    ensures forall k :: k in FileSignatures(pf, ms) <==>
              exists m :: m in ms && HasEntry(pf, m) && MethodKey(pf, m) == k
    decreases |ms|
  {
    if ms != [] {
      var front := ms[..|ms| - 1];
      var m := ms[|ms| - 1];
      assert forall x :: x in front ==> x in ms;
      FileSignaturesKeys(pf, front);
      assert forall x :: x in ms <==> x in front || x == m by {
        assert ms == front + [m];
      }
    }
  }

  /** Constructors never get an entry of their own: outside a class the key would be
      `__construct`, which is then absent from the file's table. */
  lemma NoBareConstructorKey(pf: ParsedFile, ms: seq<MethodDecl>)
    requires Valid(pf) && forall m :: m in ms ==> m.nameStartIndex < |pf.tokens|
    ensures "__construct" !in FileSignatures(pf, ms)
  {
    FileSignaturesKeys(pf, ms);
    forall m | m in ms && HasEntry(pf, m)
      ensures MethodKey(pf, m) != "__construct"
    {
      var cls := pf.classAt[m.nameStartIndex];
      if Truthy(cls) {
        var key := cls + "::" + m.name;
        assert key[|cls|] == ':';
        assert forall c :: c in "__construct" ==> c != ':';
      }
    }
  }

  /** The configuration entries add their names to the table. */
  lemma {:induction false} WithConfigKeys(acc: map<string, Signature>, entries: seq<ConfigSignature>)
    ensures forall k :: k in WithConfig(acc, entries) <==>
              k in acc || exists j :: 0 <= j < |entries| && entries[j].name == k
    decreases |entries|
  {
    if entries != [] {
      var front := entries[..|entries| - 1];
      WithConfigKeys(acc, front);
      forall k | k in WithConfig(acc, entries)
        ensures k in acc || exists j :: 0 <= j < |entries| && entries[j].name == k
      {
        if k != entries[|entries| - 1].name {
          assert k in WithConfig(acc, front);
          if k !in acc {
            var j :| 0 <= j < |front| && front[j].name == k;
            assert entries[j] == front[j];
          }
        }
      }
      forall k | exists j :: 0 <= j < |entries| && entries[j].name == k
        ensures k in WithConfig(acc, entries)
      {
        var j :| 0 <= j < |entries| && entries[j].name == k;
        if j < |front| {
          assert front[j] == entries[j];
        }
      }
    }
  }

  /** For a configured name, the last entry naming it wins, over earlier entries and
      over the file's own declaration. */
  lemma {:induction false} ConfigLastWins(acc: map<string, Signature>, entries: seq<ConfigSignature>, j: nat)
    requires j < |entries|
    requires forall k :: j < k < |entries| ==> entries[k].name != entries[j].name
    ensures entries[j].name in WithConfig(acc, entries)
    ensures WithConfig(acc, entries)[entries[j].name] == Some(entries[j].positions)
    decreases |entries|
  {
    if j < |entries| - 1 {
      var front := entries[..|entries| - 1];
      assert front[j] == entries[j];
      ConfigLastWins(acc, front, j);
    }
  }

  /** A name no entry mentions keeps the file's own signature. */
  lemma {:induction false} ConfigKeepsOthers(acc: map<string, Signature>, entries: seq<ConfigSignature>, name: string)
    requires name in acc && forall k :: 0 <= k < |entries| ==> entries[k].name != name
    ensures name in WithConfig(acc, entries) && WithConfig(acc, entries)[name] == acc[name]
    decreases |entries|
  {
    if entries != [] {
      var front := entries[..|entries| - 1];
      assert forall k :: 0 <= k < |front| ==> front[k] == entries[k];
      ConfigKeepsOthers(acc, front, name);
    }
  }
}
