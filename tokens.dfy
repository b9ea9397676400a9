/**
 * The parsed-file collaborator of the lint engine, taken as immutable input.
 *
 * A token is referred to by its position in `tokens`; a position at or past the
 * end stands for PHP `null` (what `nextNS()` or `prevNS()` return when there is
 * no such token), and `Tok` gives it the kind `Absent` and the empty text, so
 * that every comparison the engine makes against a real kind or a non-empty
 * text is false on it, as it is on `null` in PHP.
 *
 * Bracket pairs, argument lists and the class/method queries come from the
 * tokenizer, which is not part of this model; they are given tables, and
 * `Valid` states what the engine relies on: paired brackets lie strictly
 * after their opening bracket and list groups start at or after the list.
 */
module Tokens {

  /** The token kinds the engine tells apart. `Name` is PHP's T_STRING (a bare
      identifier); `Space` is whitespace or a comment (what `isSpace()` tests);
      `Absent` is only ever the kind of the `null` token. */
  datatype Kind =
    | Variable | Name | Space | Other | Absent
    | Include | IncludeOnce | Require | RequireOnce
    | Foreach | As | DoubleArrow | Function | Use | Catch | List | Global | Static
    | DoubleColon | ObjectOperator | New | InstanceOf
    | Inc | Dec | ConcatEqual | PlusEqual | Isset | Empty | Array | NsSeparator

  datatype Token = Token(kind: Kind, text: string)

  /** One entry of `getMethods()`: a declared function or method and the index of its name token. */
  datatype MethodDecl = MethodDecl(name: string, nameStartIndex: nat)

  /**
   * `pairs` is `getIndexOfPairedBracket`; `lists[k]` is `extractList(token k)`
   * (groups separated by `,` up to the closing `)`), `stmtLists[k]` is
   * `extractList(token k, ',', ';')`, each giving the first token of every group;
   * a start with no entry yields no groups. `classAt[k]` is `getClassAt(k)`,
   * with "" for `null`; `methodAt[k]` says whether `getMethodAt(k)` is non-null.
   */
  datatype ParsedFile = ParsedFile(
    isPhp: bool,
    tokens: seq<Token>,
    pairs: map<nat, nat>,
    lists: map<nat, seq<nat>>,
    stmtLists: map<nat, seq<nat>>,
    classAt: seq<string>,
    methodAt: seq<bool>,
    methods: seq<MethodDecl>)

  predicate IsBracket(text: string) {
    text == "(" || text == "[" || text == "{"
  }

  predicate ForwardLists(lists: map<nat, seq<nat>>, n: nat) {
    forall k, j :: k in lists && 0 <= j < |lists[k]| ==> k <= lists[k][j] < n
  }

  /** What the engine needs of its collaborator. */
  predicate Valid(pf: ParsedFile) {
    && |pf.classAt| == |pf.tokens|
    && |pf.methodAt| == |pf.tokens|
    && (forall k :: 0 <= k < |pf.tokens| ==> pf.tokens[k].kind != Absent)
    && (forall k :: 0 <= k < |pf.tokens| && IsBracket(pf.tokens[k].text) ==> k in pf.pairs)
    && (forall k :: k in pf.pairs ==> k < pf.pairs[k] < |pf.tokens|)
    && ForwardLists(pf.lists, |pf.tokens|)
    && ForwardLists(pf.stmtLists, |pf.tokens|)
    && (forall m :: m in pf.methods ==> m.nameStartIndex < |pf.tokens|)
  }

  /** The token at a position, or the `null` token past the end. */
  function Tok(pf: ParsedFile, k: nat): (t: Token)
    requires Valid(pf)
    ensures (t.kind == Absent) == (k >= |pf.tokens|)
    ensures k < |pf.tokens| ==> t == pf.tokens[k]
    ensures k >= |pf.tokens| ==> t == Token(Absent, "")
  {
    if k < |pf.tokens| then pf.tokens[k] else Token(Absent, "")
  }

  /** PHP truthiness of a string: everything except "" and "0". */
  predicate Truthy(s: string) {
    s != "" && s != "0"
  }

  /** `nextNS()`: the next token that is not whitespace, or `null`. */
  function NextNS(pf: ParsedFile, i: nat): (j: nat)
    requires i < |pf.tokens|
    ensures i < j <= |pf.tokens|
    decreases |pf.tokens| - i
  {
    if i + 1 == |pf.tokens| then |pf.tokens|
    else if pf.tokens[i + 1].kind == Space then NextNS(pf, i + 1)
    else i + 1
  }

  /** `prevNS()`: the previous token that is not whitespace, or `null`. */
  function PrevNS(pf: ParsedFile, i: nat): (j: nat)
    requires i < |pf.tokens|
    ensures j < i || j == |pf.tokens|
    decreases i
  {
    if i == 0 then |pf.tokens|
    else if pf.tokens[i - 1].kind == Space then PrevNS(pf, i - 1)
    else i - 1
  }

  /** `getIndexOfPairedBracket`. */
  function Pair(pf: ParsedFile, k: nat): (j: nat)
    requires Valid(pf) && k in pf.pairs
    ensures k < j < |pf.tokens|
  {
    pf.pairs[k]
  }

  /** `extractList(token k)`: the first token of each argument group. */
  function ListAt(pf: ParsedFile, k: nat): (groups: seq<nat>)
    requires Valid(pf)
    ensures forall j :: 0 <= j < |groups| ==> k <= groups[j] < |pf.tokens|
  {
    if k in pf.lists then pf.lists[k] else []
  }

  /** `extractList(token k, ',', ';')`. */
  function StmtListAt(pf: ParsedFile, k: nat): (groups: seq<nat>)
    requires Valid(pf)
    ensures forall j :: 0 <= j < |groups| ==> k <= groups[j] < |pf.tokens|
  {
    if k in pf.stmtLists then pf.stmtLists[k] else []
  }

  /** Steps over one `&` if the token at `k` is one. */
  function SkipAmp(pf: ParsedFile, k: nat): (j: nat)
    requires Valid(pf)
    ensures j == k || (k < |pf.tokens| && pf.tokens[k].text == "&" && j == NextNS(pf, k))
  {
    if Tok(pf, k).text == "&" then NextNS(pf, k) else k
  }

  /** `skipTillText`: the first non-space token from `k` on (the one at `k` included)
      whose text is `text`, or `null`. */
  function SkipTillText(pf: ParsedFile, k: nat, text: string): (j: nat)
    requires Valid(pf)
    ensures j == |pf.tokens| || (k <= j < |pf.tokens| && pf.tokens[j].text == text)
    ensures j != k && k < |pf.tokens| ==> pf.tokens[k].text != text
    decreases |pf.tokens| - k
  {
    if k >= |pf.tokens| then |pf.tokens|
    else if pf.tokens[k].text == text then k
    else SkipTillText(pf, NextNS(pf, k), text)
  }

  /** The loop `while ($n->kind != K) $n = $n->nextNS()`: the first non-space token
      from `k` on (the one at `k` included) of kind `kind`, or `null`. */
  function SkipTillKind(pf: ParsedFile, k: nat, kind: Kind): (j: nat)
    requires Valid(pf)
    ensures j == |pf.tokens| || (k <= j < |pf.tokens| && pf.tokens[j].kind == kind)
    decreases |pf.tokens| - k
  {
    if k >= |pf.tokens| then |pf.tokens|
    else if pf.tokens[k].kind == kind then k
    else SkipTillKind(pf, NextNS(pf, k), kind)
  }

  /** `nextNS` lands on the first token after `i` that is not whitespace. */
  lemma {:induction false} NextNSSkipsSpace(pf: ParsedFile, i: nat)
    requires i < |pf.tokens|
    ensures var j := NextNS(pf, i);
            && (j < |pf.tokens| ==> pf.tokens[j].kind != Space)
            && (forall k :: i < k < j ==> pf.tokens[k].kind == Space)
    decreases |pf.tokens| - i
  {
    if i + 1 < |pf.tokens| && pf.tokens[i + 1].kind == Space {
      NextNSSkipsSpace(pf, i + 1);
    }
  }

  /** `prevNS` lands on the last token before `i` that is not whitespace, and gives
      `null` only when everything before `i` is whitespace. */
  lemma {:induction false} PrevNSSkipsSpace(pf: ParsedFile, i: nat)
    requires i < |pf.tokens|
    ensures var j := PrevNS(pf, i);
            && (j < i ==> pf.tokens[j].kind != Space && forall k :: j < k < i ==> pf.tokens[k].kind == Space)
            && (j == |pf.tokens| ==> forall k :: 0 <= k < i ==> pf.tokens[k].kind == Space)
    decreases i
  {
    if i > 0 && pf.tokens[i - 1].kind == Space {
      PrevNSSkipsSpace(pf, i - 1);
    }
  }

  /** `skipTillText` stops at the first non-space token with that text. */
  lemma {:induction false} SkipTillTextFirst(pf: ParsedFile, k: nat, text: string)
    requires Valid(pf)
    ensures var j := SkipTillText(pf, k, text);
            forall m :: k < m < j && m < |pf.tokens| && pf.tokens[m].kind != Space ==> pf.tokens[m].text != text
    decreases |pf.tokens| - k
  {
    if k < |pf.tokens| && pf.tokens[k].text != text {
      NextNSSkipsSpace(pf, k);
      SkipTillTextFirst(pf, NextNS(pf, k), text);
    }
  }

  /** The loop on kinds stops at the first non-space token of that kind. */
  lemma {:induction false} SkipTillKindFirst(pf: ParsedFile, k: nat, kind: Kind)
    requires Valid(pf)
    ensures var j := SkipTillKind(pf, k, kind);
            forall m :: k <= m < j && m < |pf.tokens| && pf.tokens[m].kind != Space ==> pf.tokens[m].kind != kind
    decreases |pf.tokens| - k
  {
    if k < |pf.tokens| && pf.tokens[k].kind != kind {
      NextNSSkipsSpace(pf, k);
      SkipTillKindFirst(pf, NextNS(pf, k), kind);
    }
  }

  /** What `parseType` returns: the type-name tokens and the token after them. */
  datatype ParsedType = ParsedType(parts: seq<nat>, rest: nat)

  predicate IsTypePart(t: Token) {
    t.kind == Name || t.kind == NsSeparator
  }

  /** `parseType`: `array`, or a run of names and namespace separators, read with
      `next()` (whitespace is not skipped). */
  function ParseType(pf: ParsedFile, k: nat): (r: ParsedType)
    requires Valid(pf)
    ensures k <= r.rest
    ensures r.rest <= |pf.tokens| || r.rest == k
    ensures |r.parts| == r.rest - k
    decreases |pf.tokens| - k
  {
    if k < |pf.tokens| && pf.tokens[k].kind == Array then ParsedType([k], k + 1)
    else TypeParts(pf, k)
  }

  function TypeParts(pf: ParsedFile, k: nat): (r: ParsedType)
    requires Valid(pf)
    ensures k <= r.rest
    ensures r.rest <= |pf.tokens| || r.rest == k
    ensures |r.parts| == r.rest - k
    decreases |pf.tokens| - k
  {
    if k < |pf.tokens| && IsTypePart(pf.tokens[k]) then
      var r := TypeParts(pf, k + 1);
      ParsedType([k] + r.parts, r.rest)
    else ParsedType([], k)
  }

  /** The run is the tokens from `k` up to `rest`, each a name or a namespace
      separator, and it stops at the first token (or `null`) that is neither. */
  lemma {:induction false} TypePartsRun(pf: ParsedFile, k: nat)
    requires Valid(pf)
    ensures var r := TypeParts(pf, k);
            && (forall j :: 0 <= j < |r.parts| ==> r.parts[j] == k + j)
            && (forall j :: k <= j < r.rest ==> IsTypePart(pf.tokens[j]))
            && !IsTypePart(Tok(pf, r.rest))
    decreases |pf.tokens| - k
  {
    if k < |pf.tokens| && IsTypePart(pf.tokens[k]) {
      TypePartsRun(pf, k + 1);
      var r := TypeParts(pf, k + 1);
      assert TypeParts(pf, k).parts == [k] + r.parts;
      forall j | 0 <= j < |r.parts| + 1
        ensures ([k] + r.parts)[j] == k + j
      {
        if j > 0 {
          assert ([k] + r.parts)[j] == r.parts[j - 1];
        }
      }
    }
  }

  /** The index-group walk `while ($n->text == '[') $n = paired(']')->nextNS()`:
      the token after the groups, and whether there was at least one. */
  function SkipIndexGroups(pf: ParsedFile, n: nat): (r: (nat, bool))
    requires Valid(pf)
    ensures n <= r.0
    ensures r.0 <= |pf.tokens| || r.0 == n
    ensures Tok(pf, r.0).text != "["
    ensures r.1 == (Tok(pf, n).text == "[")
    decreases |pf.tokens| - n
  {
    if Tok(pf, n).text == "[" then
      var after := NextNS(pf, Pair(pf, n));
      (SkipIndexGroups(pf, after).0, true)
    else (n, false)
  }
}
