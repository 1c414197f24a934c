/**
 Path normalisation of the in-memory backend and of the local backend.

 A path is a string.  Both backends trim slashes, split at slashes, fold the
 parts into a stack of components and join the stack again.
 */
module Paths {
  import opened Core

  const UP := ".."

  // ---------- string operations the source takes from its standard library ----------

  function TrimStart(s: string): string {
    if s != "" && s[0] == '/' then TrimStart(s[1..]) else s
  }

  function TrimEnd(s: string): string {
    if s != "" && s[|s| - 1] == '/' then TrimEnd(s[..|s| - 1]) else s
  }

  function Trim(s: string): string {
    TrimEnd(TrimStart(s))
  }

  /** `n` slashes give `n + 1` parts; the empty string gives one empty part. */
  function Split(s: string): (parts: seq<string>)
    ensures |parts| > 0
  {
    if s == "" then [""]
    else
      var rest := Split(s[1..]);
      if s[0] == '/' then [""] + rest else [[s[0]] + rest[0]] + rest[1..]
  }

  function Join(parts: seq<string>): string {
    if parts == [] then ""
    else if |parts| == 1 then parts[0]
    else parts[0] + "/" + Join(parts[1..])
  }

  // ---------- specification ----------

  predicate IsSkipped(part: string) {
    part == "." || part == ""
  }

  /** A component that names a directory entry. */
  predicate CleanName(c: string) {
    !IsSkipped(c) && c != UP && '/' !in c
  }

  predicate Clean(cs: seq<string>) {
    forall i :: 0 <= i < |cs| ==> CleanName(cs[i])
  }

  function Push(stack: seq<string>, part: string): seq<string> {
    if IsSkipped(part) then stack
    else if part == UP then (if stack == [] then [] else stack[..|stack| - 1])
    else stack + [part]
  }

  function Fold(parts: seq<string>, stack: seq<string>): seq<string>
    decreases |parts|
  {
    if parts == [] then stack else Fold(parts[1..], Push(stack, parts[0]))
  }

  /** The components a path denotes, from the root. */
  function Components(path: string): seq<string> {
    Fold(Split(Trim(path)), [])
  }

  function Normalize(path: string): string {
    Join(Components(path))
  }

  /** The local backend's fold: `None` once ".." is met at depth 0. */
  function LocalFold(parts: seq<string>, stack: seq<string>): Option<seq<string>>
    decreases |parts|
  {
    if parts == [] then Some(stack)
    else if IsSkipped(parts[0]) then LocalFold(parts[1..], stack)
    else if parts[0] == UP then
      if |stack| == 0 then None else LocalFold(parts[1..], stack[..|stack| - 1])
    else LocalFold(parts[1..], stack + [parts[0]])
  }

  function LocalNormalize(path: string): Option<string> {
    match LocalFold(Split(Trim(path)), [])
    case None => None
    case Some(cs) => Some(Join(cs))
  }

  lemma EmptyParts()
    ensures Fold(Split(""), []) == []
    ensures LocalFold(Split(""), []) == Some([])
  {
  }

  // ---------- the two loops ----------

  /** MemoryBackend::normalize_path. */
  method NormalizePath(path: string) returns (r: string)
    ensures r == Normalize(path)
  {
    var trimmed := Trim(path);
    if trimmed == "" {
      EmptyParts();
      return "";
    }
    var parts := Split(trimmed);
    var components: seq<string> := [];
    for i := 0 to |parts|
      invariant Fold(parts, []) == Fold(parts[i..], components)
    {
      var part := parts[i];
      assert parts[i..][1..] == parts[i + 1..];
      if part == "." || part == "" {
        continue;
      } else if part == ".." {
        if components != [] {
          components := components[..|components| - 1];
        }
      } else {
        components := components + [part];
      }
    }
    assert parts[|parts|..] == [];
    r := Join(components);
  }

  /** LocalBackend::normalize_path; `None` is its AccessDenied. */
  method LocalNormalizePath(path: string) returns (r: Option<string>)
    ensures r == LocalNormalize(path)
  {
    var trimmed := Trim(path);
    if trimmed == "" {
      EmptyParts();
      return Some("");
    }
    var parts := Split(trimmed);
    var depth := 0;
    var components: seq<string> := [];
    for i := 0 to |parts|
      invariant depth == |components|
      invariant LocalFold(parts, []) == LocalFold(parts[i..], components)
    {
      var part := parts[i];
      assert parts[i..][1..] == parts[i + 1..];
      if part == "." || part == "" {
        continue;
      } else if part == ".." {
        if depth <= 0 {
          return None;
        }
        depth := depth - 1;
        components := components[..|components| - 1];
      } else {
        depth := depth + 1;
        components := components + [part];
      }
    }
    assert parts[|parts|..] == [];
    r := Some(Join(components));
  }

  // ---------- split and join are inverse ----------

  lemma {:induction false} SplitNoSlash(s: string)
    ensures forall i :: 0 <= i < |Split(s)| ==> '/' !in Split(s)[i]
  {
    if s != "" {
      SplitNoSlash(s[1..]);
    }
  }

  lemma {:induction false} SplitSingle(s: string)
    requires '/' !in s
    ensures Split(s) == [s]
  {
    if s != "" {
      SplitSingle(s[1..]);
      assert s == [s[0]] + s[1..];
    }
  }

  /** Splitting distributes over a slash. */
  lemma {:induction false} SplitConcat(a: string, b: string)
    ensures Split(a + "/" + b) == Split(a) + Split(b)
  {
    var s := a + "/" + b;
    if a == "" {
      assert s[1..] == b;
    } else {
      assert s[1..] == a[1..] + "/" + b;
      SplitConcat(a[1..], b);
    }
  }

  lemma {:induction false} SplitJoin(cs: seq<string>)
    requires cs != []
    requires forall i :: 0 <= i < |cs| ==> '/' !in cs[i]
    ensures Split(Join(cs)) == cs
  {
    if |cs| == 1 {
      SplitSingle(cs[0]);
    } else {
      SplitJoin(cs[1..]);
      SplitConcat(cs[0], Join(cs[1..]));
      SplitSingle(cs[0]);
    }
  }

  // ---------- trimming never changes the components ----------

  lemma {:induction false} FoldConcat(a: seq<string>, b: seq<string>, stack: seq<string>)
    ensures Fold(a + b, stack) == Fold(b, Fold(a, stack))
    decreases |a|
  {
    if a == [] {
      assert a + b == b;
    } else {
      assert (a + b)[1..] == a[1..] + b;
      FoldConcat(a[1..], b, Push(stack, a[0]));
    }
  }

  lemma {:induction false} FoldTrimStart(s: string, stack: seq<string>)
    ensures Fold(Split(TrimStart(s)), stack) == Fold(Split(s), stack)
    decreases |s|
  {
    if s != "" && s[0] == '/' {
      FoldTrimStart(s[1..], stack);
      assert Split(s)[1..] == Split(s[1..]);
    }
  }

  lemma {:induction false} FoldTrimEnd(s: string, stack: seq<string>)
    ensures Fold(Split(TrimEnd(s)), stack) == Fold(Split(s), stack)
    decreases |s|
  {
    if s != "" && s[|s| - 1] == '/' {
      var t := s[..|s| - 1];
      FoldTrimEnd(t, stack);
      assert s == t + "/" + "";
      SplitConcat(t, "");
      FoldConcat(Split(t), [""], stack);
    }
  }

  lemma ComponentsWithoutTrim(path: string)
    ensures Components(path) == Fold(Split(path), [])
  {
    FoldTrimEnd(TrimStart(path), []);
    FoldTrimStart(path, []);
  }

  // ---------- what a path denotes ----------

  /**
   The four equations that determine the components of every path: the empty
   path is the root, and a last part either names a child, stays, or goes up.
   */
  lemma ComponentsLaws(path: string, name: string)
    requires CleanName(name)
    ensures Components("") == []
    ensures Components(path + "/" + name) == Components(path) + [name]
    ensures Components(path + "/.") == Components(path) == Components(path + "/")
    ensures Components(path + "/..") ==
            if Components(path) == [] then [] else Components(path)[..|Components(path)| - 1]
  {
    LastPart(path, name);
    LastPart(path, ".");
    LastPart(path, "");
    LastPart(path, "..");
    assert path + "/" + "." == path + "/.";
    assert path + "/" + "" == path + "/";
    assert path + "/" + ".." == path + "/..";
  }

  lemma LastPart(path: string, part: string)
    requires '/' !in part
    ensures Components(path + "/" + part) == Push(Components(path), part)
  {
    ComponentsWithoutTrim(path);
    ComponentsWithoutTrim(path + "/" + part);
    SplitConcat(path, part);
    SplitSingle(part);
    FoldConcat(Split(path), [part], []);
  }

  lemma {:induction false} FoldClean(parts: seq<string>, stack: seq<string>)
    requires Clean(stack)
    requires forall i :: 0 <= i < |parts| ==> '/' !in parts[i]
    ensures Clean(Fold(parts, stack))
    decreases |parts|
  {
    if parts != [] {
      FoldClean(parts[1..], Push(stack, parts[0]));
    }
  }

  lemma {:induction false} FoldOfClean(cs: seq<string>, stack: seq<string>)
    requires Clean(cs)
    ensures Fold(cs, stack) == stack + cs
    decreases |cs|
  {
    if cs != [] {
      FoldOfClean(cs[1..], stack + [cs[0]]);
    }
  }

  lemma ComponentsClean(path: string)
    ensures Clean(Components(path))
  {
    SplitNoSlash(Trim(path));
    FoldClean(Split(Trim(path)), []);
  }

  /** A clean component list is what its joined path denotes. */
  lemma ComponentsOfJoin(cs: seq<string>)
    requires Clean(cs)
    ensures Components(Join(cs)) == cs
  {
    ComponentsWithoutTrim(Join(cs));
    if cs != [] {
      SplitJoin(cs);
      FoldOfClean(cs, []);
    }
  }

  lemma {:induction false} JoinEmpty(cs: seq<string>)
    requires Clean(cs)
    ensures Join(cs) == "" <==> cs == []
  {
  }

  lemma NormalizeIdempotent(path: string)
    ensures Normalize(Normalize(path)) == Normalize(path)
    ensures Components(Normalize(path)) == Components(path)
    ensures Clean(Components(path))
  {
    ComponentsClean(path);
    ComponentsOfJoin(Components(path));
  }

  // ---------- the local backend against the memory backend ----------

  function Ups(parts: seq<string>): nat {
    if parts == [] then 0 else Ups(parts[1..]) + if parts[0] == UP then 1 else 0
  }

  function Names(parts: seq<string>): nat {
    if parts == [] then 0 else
      Names(parts[1..]) + if !IsSkipped(parts[0]) && parts[0] != UP then 1 else 0
  }

  /** Some prefix of the parts goes up more often than it goes down. */
  ghost predicate Escapes(parts: seq<string>, depth: nat) {
    exists k :: 0 <= k <= |parts| && Ups(parts[..k]) > depth + Names(parts[..k])
  }

  lemma {:induction false} EscapesStep(parts: seq<string>, depth: nat)
    requires parts != []
    ensures IsSkipped(parts[0]) ==> (Escapes(parts, depth) <==> Escapes(parts[1..], depth))
    ensures parts[0] == UP ==>
              (Escapes(parts, depth) <==> depth == 0 || Escapes(parts[1..], depth - 1))
    ensures !IsSkipped(parts[0]) && parts[0] != UP ==>
              (Escapes(parts, depth) <==> Escapes(parts[1..], depth + 1))
  {
    var rest := parts[1..];
    var up := if parts[0] == UP then 1 else 0;
    var down := if !IsSkipped(parts[0]) && parts[0] != UP then 1 else 0;
    forall k | 0 <= k <= |rest|
      ensures Ups(parts[..k + 1]) == up + Ups(rest[..k])
      ensures Names(parts[..k + 1]) == down + Names(rest[..k])
    {
      assert parts[..k + 1][1..] == rest[..k];
    }
    if Escapes(parts, depth) {
      var k :| 0 <= k <= |parts| && Ups(parts[..k]) > depth + Names(parts[..k]);
      assert k > 0;
      assert Ups(rest[..k - 1]) + up > depth + down + Names(rest[..k - 1]);
    }
    if parts[0] == UP && depth == 0 {
      assert rest[..0] == [];
      assert Ups(parts[..1]) > depth + Names(parts[..1]);
    }
    var depth' := depth + down - up;
    if depth' >= 0 && Escapes(rest, depth') {
      var k :| 0 <= k <= |rest| && Ups(rest[..k]) > depth' + Names(rest[..k]);
      assert Ups(parts[..k + 1]) > depth + Names(parts[..k + 1]);
    }
  }

  lemma {:induction false} LocalFoldAgrees(parts: seq<string>, stack: seq<string>)
    ensures LocalFold(parts, stack) == None <==> Escapes(parts, |stack|)
    ensures LocalFold(parts, stack) != None ==> LocalFold(parts, stack) == Some(Fold(parts, stack))
    decreases |parts|
  {
    if parts == [] {
      assert parts[..0] == [];
    } else {
      EscapesStep(parts, |stack|);
      if IsSkipped(parts[0]) {
        LocalFoldAgrees(parts[1..], stack);
      } else if parts[0] == UP {
        if |stack| > 0 {
          LocalFoldAgrees(parts[1..], stack[..|stack| - 1]);
        }
      } else {
        LocalFoldAgrees(parts[1..], stack + [parts[0]]);
      }
    }
  }

  /**
   The local normaliser refuses exactly the paths with a prefix that leaves the
   root, and gives the memory normaliser's answer on all others.
   */
  lemma LocalAgreesWithMemory(path: string)
    ensures LocalNormalize(path) == None <==> Escapes(Split(Trim(path)), 0)
    ensures LocalNormalize(path) != None ==> LocalNormalize(path) == Some(Normalize(path))
  {
    LocalFoldAgrees(Split(Trim(path)), []);
  }

  lemma {:induction false} CleanNeverEscapes(cs: seq<string>, depth: nat)
    requires Clean(cs)
    ensures !Escapes(cs, depth)
    decreases |cs|
  {
    if cs == [] {
      assert forall k :: 0 <= k <= |cs| ==> cs[..k] == [];
    } else {
      CleanNeverEscapes(cs[1..], depth + 1);
      EscapesStep(cs, depth);
    }
  }

  lemma LocalNormalizeIdempotent(path: string)
    requires LocalNormalize(path) != None
    ensures LocalNormalize(LocalNormalize(path).value) == LocalNormalize(path)
  {
    var cs := Components(path);
    LocalAgreesWithMemory(path);
    NormalizeIdempotent(path);
    LocalAgreesWithMemory(Join(cs));
    TrimOfJoin(cs);
    if cs != [] {
      SplitJoin(cs);
      CleanNeverEscapes(cs, 0);
    } else {
      EscapesStep([""], 0);
      CleanNeverEscapes([], 0);
    }
  }

  // ---------- normal paths keep their shape ----------

  lemma {:induction false} JoinEnds(cs: seq<string>)
    requires Clean(cs) && cs != []
    ensures Join(cs) != "" && Join(cs)[0] != '/' && Join(cs)[|Join(cs)| - 1] != '/'
  {
    assert CleanName(cs[0]);
    assert cs[0][0] in cs[0] && cs[0][|cs[0]| - 1] in cs[0];
    if |cs| > 1 {
      JoinEnds(cs[1..]);
    }
  }

  lemma TrimOfJoin(cs: seq<string>)
    requires Clean(cs)
    ensures Trim(Join(cs)) == Join(cs)
  {
    if cs != [] {
      JoinEnds(cs);
    }
  }

  /** Position of the last slash, or -1. */
  function LastSlash(s: string): (pos: int)
    ensures -1 <= pos < |s|
  {
    if s == "" then -1
    else if s[|s| - 1] == '/' then |s| - 1
    else LastSlash(s[..|s| - 1])
  }

  /** MemoryBackend::split_path: parent path and last name. */
  function SplitPath(path: string): Option<(string, string)> {
    var p := Trim(path);
    if p == "" then None
    else
      var pos := LastSlash(p);
      if pos >= 0 then Some((p[..pos], p[pos + 1..])) else Some(("", p))
  }

  lemma {:induction false} JoinLast(cs: seq<string>)
    requires |cs| > 1
    ensures Join(cs) == Join(cs[..|cs| - 1]) + "/" + cs[|cs| - 1]
  {
    var n := |cs| - 1;
    if |cs| == 2 {
      assert Join(cs[1..]) == cs[1];
      assert Join(cs[..1]) == cs[0];
    } else {
      JoinLast(cs[1..]);
      assert cs[1..][..n - 1] == cs[..n][1..];
      assert cs[1..][n - 1] == cs[n];
      assert Join(cs[..n]) == cs[0] + "/" + Join(cs[..n][1..]);
    }
  }

  lemma {:induction false} LastSlashOf(parent: string, name: string)
    requires '/' !in name
    ensures LastSlash(parent + "/" + name) == |parent|
    decreases |name|
  {
    var p := parent + "/" + name;
    if name != "" {
      var n := |name| - 1;
      assert p[..|p| - 1] == parent + "/" + name[..n];
      assert p[|p| - 1] == name[n] && name[n] in name;
      LastSlashOf(parent, name[..n]);
    }
  }

  lemma SplitPathAt(parent: string, name: string)
    requires '/' !in name
    requires Trim(parent + "/" + name) == parent + "/" + name
    ensures SplitPath(parent + "/" + name) == Some((parent, name))
  {
    LastSlashOf(parent, name);
    var p := parent + "/" + name;
    assert p[..|parent|] == parent && p[|parent| + 1..] == name;
  }

  lemma {:induction false} TrimStartSnoc(path: string)
    ensures TrimStart(path + "/") == if TrimStart(path) == "" then "" else TrimStart(path) + "/"
  {
    if path != "" && path[0] == '/' {
      assert (path + "/")[1..] == path[1..] + "/";
      TrimStartSnoc(path[1..]);
    } else if path == "" {
      assert path + "/" == "/" && "/"[1..] == "";
    }
  }

  /** Slashes around a path make no difference to its parent and last name. */
  lemma SlashesAround(path: string)
    ensures SplitPath("/" + path) == SplitPath(path) == SplitPath(path + "/")
  {
    assert ("/" + path)[1..] == path;
    TrimStartSnoc(path);
    var p := TrimStart(path);
    assert (p + "/")[..|p|] == p;
  }

  /** Splitting a normal path separates its last component. */
  lemma SplitPathOfJoin(cs: seq<string>)
    requires Clean(cs)
    ensures cs == [] ==> SplitPath(Join(cs)) == None
    ensures cs != [] ==> SplitPath(Join(cs)) == Some((Join(cs[..|cs| - 1]), cs[|cs| - 1]))
  {
    TrimOfJoin(cs);
    if cs != [] {
      var n := |cs| - 1;
      assert CleanName(cs[n]);
      if n == 0 {
        NoSlash(cs[0]);
      } else {
        JoinLast(cs);
        SplitPathAt(Join(cs[..n]), cs[n]);
      }
    }
  }

  lemma {:induction false} NoSlash(s: string)
    requires '/' !in s
    ensures LastSlash(s) == -1
  {
    if s != "" {
      assert s[|s| - 1] in s;
      NoSlash(s[..|s| - 1]);
    }
  }
}
