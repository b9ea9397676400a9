/**
 * The path and revision logic of the git file provider: the canonical revision
 * id, the normalisation and storage of exclude paths, and the filtering of the
 * file list.
 *
 * The source-code manager (revision lookup, file listing, file contents) is
 * outside the model: the looked-up head id and the listed file names are
 * parameters.
 */
module GitProvider {
  import opened Wrappers
  import Tokens

  // ---------------------------------------------------------------------------
  // Revision ids

  predicate IsHexDigit(c: char) {
    '0' <= c <= '9' || 'a' <= c <= 'f'
  }

  /** `preg_match('#^([a-f0-9]{40})$#', ...)`: forty lower-case hex digits; the `$`
      of a PCRE pattern also matches just before a final newline, so one trailing
      "\n" is accepted as well. */
  predicate IsRevisionId(s: string) {
    && (|s| == 40 || (|s| == 41 && s[40] == '\n'))
    && forall k :: 0 <= k < 40 ==> IsHexDigit(s[k])
  }

  /** The constructor's revision: an id is kept as given, anything else is replaced
      by the head id the source-code manager reports for it (`$info['H']`), and a
      falsy head id is an exception. */
  function Canonical(revision: string, head: string): (r: Result<string>)
  {
    if IsRevisionId(revision) then Ok(revision)
    else if !Tokens.Truthy(head) then Err("Invalid revision: " + revision)
    else Ok(head)
  }

  /** A revision id is stored unchanged whatever the lookup would say; any other
      revision is replaced by a truthy head id, and fails exactly when that is falsy. */
  lemma CanonicalCases(revision: string, head: string)
    ensures IsRevisionId(revision) ==> Canonical(revision, head) == Ok(revision)
    ensures !IsRevisionId(revision) ==>
              (Canonical(revision, head).Err? <==> !Tokens.Truthy(head))
    ensures Canonical(revision, head).Ok? && !IsRevisionId(revision) ==> Canonical(revision, head).value == head
    ensures Canonical(revision, head).Err? ==> Canonical(revision, head).error == "Invalid revision: " + revision
  {
  }

  /** Forty hex digits are an id, and so are they with a final newline (the PCRE
      `$`), but not with any other character appended, nor any shorter prefix. */
  lemma RevisionIdForms(d: string, c: char)
    requires |d| == 40 && forall k :: 0 <= k < 40 ==> IsHexDigit(d[k])
    ensures IsRevisionId(d)
    ensures IsRevisionId(d + "\n")
    ensures c != '\n' ==> !IsRevisionId(d + [c])
    ensures !IsRevisionId(d[..39])
  {
    assert (d + "\n")[..40] == d;
    assert forall k :: 0 <= k < 40 ==> (d + "\n")[k] == d[k];
  }

  /** An upper-case digit makes a revision no id, so it is looked up. */
  lemma UpperCaseIsLookedUp(d: string, head: string)
    requires |d| == 40 && d[0] == 'A'
    ensures !IsRevisionId(d)
    ensures Canonical(d, head) == (if Tokens.Truthy(head) then Ok(head) else Err("Invalid revision: " + d))
  {
  }

  // ---------------------------------------------------------------------------
  // Exclude-path normalisation

  predicate IsSep(c: char) {
    c == '/' || c == '\\'
  }

  /** The text after a leading run of separators. */
  function DropSeps(s: string): string {
    if s != [] && IsSep(s[0]) then DropSeps(s[1..]) else s
  }

  /** The text before a trailing run of separators. */
  function TrimSeps(s: string): string {
    if s != [] && IsSep(s[|s| - 1]) then TrimSeps(s[..|s| - 1]) else s
  }

  /** `DropSeps` keeps a suffix of its input. */
  lemma {:induction false} DropSepsSuffix(s: string)
    ensures |DropSeps(s)| <= |s| && DropSeps(s) == s[|s| - |DropSeps(s)|..]
  {
    if s != [] && IsSep(s[0]) {
      DropSepsSuffix(s[1..]);
      assert s[1..][|s| - 1 - |DropSeps(s[1..])|..] == s[|s| - |DropSeps(s[1..])|..];
    }
  }

  /** What `DropSeps` removes is a run of separators, and what it keeps does not
      start with one. */
  lemma {:induction false} DropSepsRun(s: string)
    ensures |DropSeps(s)| <= |s|
    ensures DropSeps(s) == [] || !IsSep(DropSeps(s)[0])
    ensures forall k :: 0 <= k < |s| - |DropSeps(s)| ==> IsSep(s[k])
  {
    if s != [] && IsSep(s[0]) {
      DropSepsRun(s[1..]);
      forall k | 0 < k < |s| - |DropSeps(s)|
        ensures IsSep(s[k])
      {
        assert s[k] == s[1..][k - 1];
      }
    }
  }

  /** `TrimSeps` removes the whole trailing run of separators and nothing else. */
  lemma {:induction false} TrimSepsSpec(s: string)
    ensures var r := TrimSeps(s);
            && |r| <= |s| && r == s[..|r|]
            && (r == [] || !IsSep(r[|r| - 1]))
            && (forall k :: |r| <= k < |s| ==> IsSep(s[k]))
  {
    if s != [] && IsSep(s[|s| - 1]) {
      var t := TrimSeps(s[..|s| - 1]);
      TrimSepsSpec(s[..|s| - 1]);
      assert s[..|s| - 1][..|t|] == s[..|t|];
      forall k | |t| <= k < |s|
        ensures IsSep(s[k])
      {
        if k < |s| - 1 {
          assert s[k] == s[..|s| - 1][k];
        }
      }
    }
  }

  /** `preg_replace('#^\.[/\\]+#', '', $path)`: one leading `.` and the run of
      separators after it go. The pattern is anchored, so there is one match at most. */
  function StripDotPrefix(p: string): string {
    if |p| >= 2 && p[0] == '.' && IsSep(p[1]) then DropSeps(p[1..]) else p
  }

  /** `preg_replace('#[/\\]+$#', '', $path)`: the trailing run of separators goes;
      since `$` also matches before a final newline, a run just before a final
      "\n" goes too and the newline stays. */
  function StripTrailingSeps(p: string): string {
    if p != [] && IsSep(p[|p| - 1]) then TrimSeps(p)
    else if |p| >= 2 && p[|p| - 1] == '\n' && IsSep(p[|p| - 2]) then TrimSeps(p[..|p| - 1]) + "\n"
    else p
  }

  /** The key `excludePaths` stores for a configured path. */
  function Normalize(p: string): string {
    StripTrailingSeps(StripDotPrefix(p))
  }

  /** No separator at the end. */
  predicate NoTrailingSep(s: string) {
    s == [] || !IsSep(s[|s| - 1])
  }

  /** No separator just before a final newline. */
  predicate NoSepBeforeNewline(s: string) {
    |s| >= 2 && s[|s| - 1] == '\n' ==> !IsSep(s[|s| - 2])
  }

  /** A path starting `./` or `.\`. */
  predicate HasDotPrefix(s: string) {
    |s| >= 2 && s[0] == '.' && IsSep(s[1])
  }

  /** The leading rewrite removes `.` and exactly the separators after it, and
      leaves the rest of the path as it was. */
  lemma StripDotPrefixSpec(p: string)
    ensures !HasDotPrefix(p) ==> StripDotPrefix(p) == p
    ensures HasDotPrefix(p) ==>
              var r := StripDotPrefix(p);
              && |r| <= |p| - 2 && r == p[|p| - |r|..]
              && (forall k :: 1 <= k < |p| - |r| ==> IsSep(p[k]))
              && (r == [] || !IsSep(r[0]))
  {
    if HasDotPrefix(p) {
      DropSepsSuffix(p[1..]);
      DropSepsRun(p[1..]);
    }
  }

  /** A normalised path never ends in a separator, and is no longer than the
      configured one. */
  lemma NormalizeShape(p: string)
    ensures NoTrailingSep(Normalize(p))
    ensures |Normalize(p)| <= |p|
  {
    var q := StripDotPrefix(p);
    if HasDotPrefix(p) {
      DropSepsSuffix(p[1..]);
      DropSepsRun(p[1..]);
    }
    TrimSepsSpec(q);
    if q != [] {
      TrimSepsSpec(q[..|q| - 1]);
    }
  }

  /** A path with no `./` prefix, no trailing separator and no separator before a
      final newline is stored as it is. */
  lemma NormalizeFixes(p: string)
    requires !HasDotPrefix(p) && NoTrailingSep(p) && NoSepBeforeNewline(p)
    ensures Normalize(p) == p
  {
  }

  /** Examples of both rewrites, including the newline that the PCRE `$` leaves in
      place. */
  lemma NormalizeExamples()
    ensures Normalize("./src/") == "src"
    ensures Normalize(".\\\\lib\\") == "lib"
    ensures Normalize("docs/\n") == "docs\n"
  {
    assert "./src/"[1..] == "/src/" && "/src/"[1..] == "src/" && "src/"[..3] == "src";
    assert DropSeps("/src/") == "src/";
    assert TrimSeps("src/") == "src";
    assert ".\\\\lib\\"[1..] == "\\\\lib\\" && "\\\\lib\\"[1..] == "\\lib\\" && "\\lib\\"[1..] == "lib\\";
    assert "lib\\"[..3] == "lib";
    assert DropSeps("\\\\lib\\") == "lib\\";
    assert TrimSeps("lib\\") == "lib";
    assert "docs/\n"[..5] == "docs/" && "docs/"[..4] == "docs";
    assert TrimSeps("docs/") == "docs";
  }

  /** Each rewrite runs once: a second `./` survives, and so does a separator that
      was before a newline that was itself before a final separator. So a stored
      path can still change when normalised again. */
  lemma NormalizeSinglePass()
    ensures Normalize("././a") == "./a" && Normalize("./a") == "a"
    ensures Normalize("a/\n/") == "a/\n" && Normalize("a/\n") == "a\n"
  {
    assert DropSeps("/./a") == "./a";
    assert DropSeps("/a") == "a";
    assert TrimSeps("a/\n/") == "a/\n";
    assert "a/\n"[..2] == "a/";
    assert TrimSeps("a/") == "a";
  }

  // ---------------------------------------------------------------------------
  // The exclude table

  /** `excludePaths` after adding `paths` in order: each normalised path keyed by
      itself, with its length as the value. */
  function WithExcluded(m: map<string, nat>, paths: seq<string>): (r: map<string, nat>)
    decreases |paths|
  {
    if paths == [] then m
    else
      var q := Normalize(paths[|paths| - 1]);
      WithExcluded(m, paths[..|paths| - 1])[q := |q|]
  }

  /** Every key is stored with its own length. */
  ghost predicate LengthsAgree(m: map<string, nat>) {
    forall p :: p in m ==> m[p] == |p|
  }

  /** The table gains exactly the normalised paths as keys. */
  lemma {:induction false} WithExcludedKeys(m: map<string, nat>, paths: seq<string>)
    ensures WithExcluded(m, paths).Keys == m.Keys + (set p | p in paths :: Normalize(p))
    decreases |paths|
  {
    if paths != [] {
      var init := paths[..|paths| - 1];
      var last := paths[|paths| - 1];
      WithExcludedKeys(m, init);
      assert paths == init + [last];
      assert (set p | p in paths :: Normalize(p)) == (set p | p in init :: Normalize(p)) + {Normalize(last)};
    }
  }

  /** Every added path is stored with its length, and an entry no added path
      overwrites keeps its value. */
  lemma {:induction false} WithExcludedValues(m: map<string, nat>, paths: seq<string>)
    ensures var r := WithExcluded(m, paths);
            && (forall p :: p in paths ==> Normalize(p) in r && r[Normalize(p)] == |Normalize(p)|)
            && (forall q :: q in m && (forall p :: p in paths ==> Normalize(p) != q) ==> q in r && r[q] == m[q])
    decreases |paths|
  {
    if paths != [] {
      var init := paths[..|paths| - 1];
      WithExcludedValues(m, init);
      assert forall p :: p in paths ==> p in init || p == paths[|paths| - 1];
      assert forall p :: p in init ==> p in paths;
    }
  }

  /** Adding paths keeps every key stored with its own length. */
  lemma {:induction false} WithExcludedLengths(m: map<string, nat>, paths: seq<string>)
    requires LengthsAgree(m)
    ensures LengthsAgree(WithExcluded(m, paths))
    decreases |paths|
  {
    if paths != [] {
      WithExcludedLengths(m, paths[..|paths| - 1]);
    }
  }

  /** Adding the same paths again changes nothing: re-adding overwrites the same entry. */
  lemma {:induction false} WithExcludedAgain(m: map<string, nat>, paths: seq<string>)
    ensures WithExcluded(WithExcluded(m, paths), paths) == WithExcluded(m, paths)
  {
    WithExcludedValues(m, paths);
    WithExcludedPresent(WithExcluded(m, paths), paths);
  }

  /** Adding paths whose entries are already there leaves the table as it is. */
  lemma {:induction false} WithExcludedPresent(m: map<string, nat>, paths: seq<string>)
    requires forall p :: p in paths ==> Normalize(p) in m && m[Normalize(p)] == |Normalize(p)|
    ensures WithExcluded(m, paths) == m
    decreases |paths|
  {
    if paths != [] {
      var init := paths[..|paths| - 1];
      assert forall p :: p in init ==> p in paths;
      WithExcludedPresent(m, init);
    }
  }

  // ---------------------------------------------------------------------------
  // Exclusion

  /** The two tests of the filter loop: the file is the excluded path itself, or it is
      longer and starts with the path followed by a separator (a file under an
      excluded directory). `len` is the stored length of the path. */
  predicate ExcludedBy(filename: string, path: string, len: nat) {
    || filename == path
    || (|filename| > len && filename[..len] == path && IsSep(filename[len]))
  }

  /** Some entry of the table excludes the file. */
  predicate ExcludedByAny(filename: string, m: map<string, nat>) {
    exists path :: path in m && ExcludedBy(filename, path, m[path])
  }

  /** With the stored length, a path excludes itself and everything below it, and
      nothing else: not a sibling that merely starts with the same letters, and not
      a directory above it. */
  lemma ExcludedBySpec(path: string, c: char, rest: string)
    ensures ExcludedBy(path, path, |path|)
    ensures IsSep(c) ==> ExcludedBy(path + [c] + rest, path, |path|)
    ensures !IsSep(c) ==> !ExcludedBy(path + [c] + rest, path, |path|)
    ensures path != [] ==> !ExcludedBy(path[..|path| - 1], path, |path|)
  {
    var f := path + [c] + rest;
    assert f[..|path|] == path;
    assert f[|path|] == c;
  }

  /** The files the filter keeps, in the order they are listed. */
  function Kept(listed: seq<string>, m: map<string, nat>): (r: seq<string>)
    decreases |listed|
  {
    if listed == [] then []
    else
      var f := listed[|listed| - 1];
      Kept(listed[..|listed| - 1], m) + (if ExcludedByAny(f, m) then [] else [f])
  }

  /** A file is kept exactly when it is listed and no entry excludes it; the kept
      files are a subsequence of the listed ones, and with no entries nothing goes. */
  lemma {:induction false} KeptSpec(listed: seq<string>, m: map<string, nat>)
    ensures forall f :: f in Kept(listed, m) <==> f in listed && !ExcludedByAny(f, m)
    ensures |Kept(listed, m)| <= |listed|
    ensures m == map[] ==> Kept(listed, m) == listed
    decreases |listed|
  {
    if listed != [] {
      var init := listed[..|listed| - 1];
      KeptSpec(init, m);
      assert listed == init + [listed[|listed| - 1]];
    }
  }

  /** The input that shows the `continue` bug: `docs/a.php` under the excluded
      directory `docs` is dropped by the filter, yet the loop as written returns it. */
  lemma ContinueDiscrepancy()
    ensures var m := map["docs" := 4];
            && ExcludedByAny("docs/a.php", m)
            && Kept(["docs/a.php"], m) == []
            && Kept(["docs/a.php"], m) != ["docs/a.php"]
  {
    var m := map["docs" := 4];
    assert "docs/a.php"[..4] == "docs";
    assert ExcludedBy("docs/a.php", "docs", m["docs"]);
    assert ["docs/a.php"][..0] == [];
  }

  // ---------------------------------------------------------------------------
  // The provider

  class GitFileProvider {
    var revision: string
    var excludePaths: map<string, nat>

    ghost predicate Valid()
      reads this
    {
      LengthsAgree(excludePaths)
    }

    /** Stores an already canonical revision with an empty exclude table. */
    constructor (id: string)
      ensures revision == id && excludePaths == map[] && Valid()
    {
      revision := id;
      excludePaths := map[];
    }

    /** `__construct`: the revision is made canonical first; `head` is what the
        source-code manager reports as the id of `revision`. */
    static method Open(revision: string, head: string) returns (r: Result<GitFileProvider>)
      ensures r.Ok? <==> Canonical(revision, head).Ok?
      ensures r.Err? ==> r.error == Canonical(revision, head).error
      ensures r.Ok? ==> fresh(r.value) && r.value.Valid() && r.value.excludePaths == map[]
      ensures r.Ok? ==> r.value.revision == Canonical(revision, head).value
    {
      var id := revision;
      if !IsRevisionId(revision) {
        if !Tokens.Truthy(head) {
          return Err("Invalid revision: " + revision);
        }
        id := head;
      }
      var p := new GitFileProvider(id);
      r := Ok(p);
    }

    /** `getPersistentId`. */
    method GetPersistentId() returns (id: string)
      ensures id == revision
    {
      id := revision;
    }

    /** `excludePaths`: each path is normalised and stored with its length. */
    method ExcludePaths(paths: seq<string>)
      requires Valid()
      modifies this`excludePaths
      ensures Valid()
      ensures excludePaths == WithExcluded(old(excludePaths), paths)
    {
      var k := 0;
      while k < |paths|
        invariant 0 <= k <= |paths|
        invariant excludePaths == WithExcluded(old(excludePaths), paths[..k])
        invariant Valid()
      {
        var path := StripDotPrefix(paths[k]);
        path := StripTrailingSeps(path);
        assert paths[..k + 1][..k] == paths[..k];
        excludePaths := excludePaths[path := |path|];
        k := k + 1;
      }
      assert paths[..k] == paths;
    }

    /** Whether some entry excludes the file (the inner loop of `getFiles`, with the
        `continue` meaning "skip this file"). */
    method IsExcluded(filename: string) returns (hit: bool)
      ensures hit == ExcludedByAny(filename, excludePaths)
    {
      var rest := excludePaths.Keys;
      hit := false;
      while rest != {}
        invariant rest <= excludePaths.Keys
        invariant !hit
        invariant forall path :: path in excludePaths && path !in rest ==> !ExcludedBy(filename, path, excludePaths[path])
        decreases |rest|
      {
        var path :| path in rest;
        var len := excludePaths[path];
        if filename == path {
          return true;
        }
        if |filename| > len && filename[..len] == path {
          var next := filename[len];
          if next == '/' || next == '\\' {
            return true;
          }
        }
        rest := rest - {path};
      }
    }

    /** `getFiles` with the exclusion it sets out to do: the listed files that no
        entry excludes, in order. */
    method GetFiles(listed: seq<string>) returns (files: seq<string>)
      ensures files == Kept(listed, excludePaths)
    {
      files := [];
      var k := 0;
      while k < |listed|
        invariant 0 <= k <= |listed|
        invariant files == Kept(listed[..k], excludePaths)
      {
        var filename := listed[k];
        assert listed[..k + 1][..k] == listed[..k];
        var hit := IsExcluded(filename);
        if !hit {
          files := files + [filename];
        }
        k := k + 1;
      }
      assert listed[..k] == listed;
    }

    /** `getFiles` as written: each `continue` only moves on to the next entry of
        the inner loop, so every listed file is returned. */
    method GetFilesAsWritten(listed: seq<string>) returns (files: seq<string>)
      ensures files == listed
    {
      files := [];
      var k := 0;
      while k < |listed|
        invariant 0 <= k <= |listed|
        invariant files == listed[..k]
      {
        var filename := listed[k];
        var rest := excludePaths.Keys;
        while rest != {}
          invariant rest <= excludePaths.Keys
          decreases |rest|
        {
          var path :| path in rest;
          rest := rest - {path};
          if filename == path {
            continue;
          }
          var len := excludePaths[path];
          if |filename| > len && filename[..len] == path {
            var next := filename[len];
            if next == '/' || next == '\\' {
              continue;
            }
          }
        }
        files := files + [filename];
        k := k + 1;
      }
    }
  }
}
