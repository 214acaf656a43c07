/** Workspace-relative paths: normalisation, and where the result leads inside the container. */
module PathNormalisation {
  import opened Options
  import opened Segments

  const MAX_BYTES: nat := 255
  const MAX_SEGMENTS: nat := 32
  const WORKSPACE_NAME: string := "workspace"
  const WORKSPACE: string := "/" + WORKSPACE_NAME

  /** Every accepted character is ASCII, so on accepted paths characters are bytes. */
  predicate AllowedChar(c: char) {
    'a' <= c <= 'z' || 'A' <= c <= 'Z' || '0' <= c <= '9' || c == '.' || c == '_' || c == '-'
  }

  const LOWER: string := "abcdefghijklmnopqrstuvwxyz"
  const UPPER: string := "ABCDEFGHIJKLMNOPQRSTUVWXYZ"
  const OTHERS: string := "0123456789._-"

  lemma LowerIs(c: char)
    ensures c in LOWER <==> 'a' <= c <= 'z'
  {
    if 'a' <= c <= 'z' {
      assert LOWER[c as int - 'a' as int] == c;
    }
  }

  lemma UpperIs(c: char)
    ensures c in UPPER <==> 'A' <= c <= 'Z'
  {
    if 'A' <= c <= 'Z' {
      assert UPPER[c as int - 'A' as int] == c;
    }
  }

  lemma OthersAre(c: char)
    ensures c in OTHERS <==> '0' <= c <= '9' || c == '.' || c == '_' || c == '-'
  {
    if '0' <= c <= '9' {
      assert OTHERS[c as int - '0' as int] == c;
    }
    assert OTHERS[10] == '.' && OTHERS[11] == '_' && OTHERS[12] == '-';
  }

  /** The accepted characters, one by one. */
  lemma AllowedAreListed(c: char)
    ensures AllowedChar(c) <==> c in LOWER || c in UPPER || c in OTHERS
  {
    LowerIs(c);
    UpperIs(c);
    OthersAre(c);
  }

  predicate Plain(segment: string) {
    segment != "" && segment != "." && segment != ".." && forall c :: c in segment ==> AllowedChar(c)
  }

  /** The paths normalisation leaves as they are. */
  predicate NormalForm(path: string) {
    && path != "" && |path| <= MAX_BYTES
    && |Split(path, '/')| <= MAX_SEGMENTS
    && forall i :: 0 <= i < |Split(path, '/')| ==> Plain(Split(path, '/')[i])
  }

  function Slashes(n: nat): string { seq(n, _ => '/') }

  function WithoutLead(value: string): string {
    if |value| >= 2 && value[0] == '.' && value[1] == '/' then value[2..] else value
  }

  /** A value spells a path when it is that path after an optional `./` and before any number of slashes. */
  ghost predicate Spells(value: string, path: string) {
    exists n: nat, lead :: lead in {"", "./"} && value == lead + path + Slashes(n)
  }

  ghost predicate NormalizesTo(value: string, path: string) { NormalForm(path) && Spells(value, path) }

  predicate EndsInSlash(path: string) { path != "" && path[|path| - 1] == '/' }

  lemma SlashesAt(path: string, n: nat)
    ensures |path + Slashes(n)| == |path| + n
    ensures forall i :: |path| <= i < |path| + n ==> (path + Slashes(n))[i] == '/'
  {
  }

  lemma LongerEndsInSlash(a: string, m: nat, b: string, n: nat)
    requires a + Slashes(m) == b + Slashes(n) && |a| < |b|
    ensures EndsInSlash(b)
  {
    SlashesAt(a, m);
    SlashesAt(b, n);
    assert (a + Slashes(m))[|b| - 1] == b[|b| - 1];
  }

  lemma TrimUnique(a: string, m: nat, b: string, n: nat)
    requires a + Slashes(m) == b + Slashes(n) && !EndsInSlash(a) && !EndsInSlash(b)
    ensures a == b
  {
    if |a| < |b| {
      LongerEndsInSlash(a, m, b, n);
    } else if |b| < |a| {
      LongerEndsInSlash(b, n, a, m);
    } else {
      assert a == (a + Slashes(m))[..|a|] == b;
    }
  }

  lemma BadEnds(path: string)
    requires EndsInSlash(path) || (path != "" && path[0] == '/') || path == "." || WithoutLead(path) != path
    ensures !NormalForm(path)
  {
    var parts := Split(path, '/');
    SplitPlain(".", '/');
    if EndsInSlash(path) {
      assert path == path[..|path| - 1] + ['/'] + "";
      SplitAt(path[..|path| - 1], '/', "");
      assert !Plain(parts[|parts| - 1]);
    } else if path[0] == '/' {
      assert path == "" + ['/'] + path[1..];
      SplitAt("", '/', path[1..]);
      assert !Plain(parts[0]);
    } else {
      if path != "." {
        assert path == "." + ['/'] + path[2..];
        SplitAt(".", '/', path[2..]);
      }
      assert !Plain(parts[0]);
    }
  }

  /** A path in normal form neither ends in a slash nor begins with `./`. */
  lemma NormalEnds(path: string)
    requires NormalForm(path)
    ensures !EndsInSlash(path) && path[0] != '/' && WithoutLead(path) == path && path != "."
  {
    if EndsInSlash(path) || path[0] == '/' || path == "." || WithoutLead(path) != path {
      BadEnds(path);
    }
  }

  lemma SpellsIsTrim(value: string, path: string)
    requires NormalizesTo(value, path)
    ensures exists n: nat :: WithoutLead(value) == path + Slashes(n)
  {
    var n: nat, lead :| lead in {"", "./"} && value == lead + path + Slashes(n);
    NormalEnds(path);
    if lead == "./" {
      assert WithoutLead(value) == path + Slashes(n);
    } else {
      assert value == path + Slashes(n);
      assert WithoutLead(value) == value by {
        if |value| >= 2 && |path| == 1 {
          assert value[0] == path[0];
        }
      }
    }
  }

  /** At most one normal form is spelt by a value: the one trimming finds. */
  lemma OnlyTrimmed(value: string, path: string, n: nat)
    requires WithoutLead(value) == path + Slashes(n) && !EndsInSlash(path)
    ensures forall y :: NormalizesTo(value, y) ==> y == path
    ensures Spells(value, path)
  {
    forall y | NormalizesTo(value, y) ensures y == path {
      SpellsIsTrim(value, y);
      var m: nat :| WithoutLead(value) == y + Slashes(m);
      NormalEnds(y);
      TrimUnique(y, m, path, n);
    }
    var lead := if WithoutLead(value) == value then "" else "./";
    assert value == lead + path + Slashes(n);
  }

  method NormalizeRelativePath(value: string) returns (r: Option<string>)
    ensures r.Some? ==> NormalForm(r.value)
    ensures forall y :: r == Some(y) <==> NormalizesTo(value, y)
  {
    var path := WithoutLead(value);
    ghost var n: nat := 0;
    while path != "" && path[|path| - 1] == '/'
      invariant WithoutLead(value) == path + Slashes(n)
      decreases |path|
    {
      path := path[..|path| - 1];
      n := n + 1;
    }
    if path == "" || |path| > MAX_BYTES {
      OnlyTrimmed(value, path, n);
      return None;
    }
    var segments := Split(path, '/');
    OnlyTrimmed(value, path, n);
    if |segments| > MAX_SEGMENTS {
      return None;
    }
    for i := 0 to |segments|
      invariant forall j :: 0 <= j < i ==> Plain(segments[j])
    {
      if segments[i] == "" || segments[i] == "." || segments[i] == ".." {
        return None;
      }
      if exists c :: c in segments[i] && !AllowedChar(c) {
        return None;
      }
    }
    return Some(path);
  }

  /** Normalising twice is normalising once, and the result is the only one. */
  lemma NormalizeIdempotent(value: string, path: string)
    requires NormalizesTo(value, path)
    ensures NormalizesTo(path, path)
    ensures forall y :: NormalizesTo(value, y) || NormalizesTo(path, y) ==> y == path
  {
    SpellsIsTrim(value, path);
    var n: nat :| WithoutLead(value) == path + Slashes(n);
    NormalEnds(path);
    OnlyTrimmed(value, path, n);
    assert path + Slashes(0) == path;
    OnlyTrimmed(path, path, 0);
  }

  datatype Outcome = Dir(path: string) | Unsafe

  method ResolveContainerWorkdir(step: Option<string>) returns (r: Outcome)
    ensures step == None ==> r == Dir(WORKSPACE)
    ensures step.Some? ==>
      forall p :: r == Dir(p) <==> exists y :: NormalizesTo(step.value, y) && p == WORKSPACE + "/" + y
  {
    if step == None {
      return Dir(WORKSPACE);
    }
    var path := NormalizeRelativePath(step.value);
    match path {
      case Some(y) =>
        assert NormalizesTo(step.value, y);
        return Dir(WORKSPACE + "/" + y);
      case None => return Unsafe;
    }
  }

  /** One step of lexical resolution on a stack of directory names. */
  function Enter(stack: seq<string>, component: string): seq<string> {
    if component == "" || component == "." then stack
    else if component == ".." then (if stack == [] then [] else stack[..|stack| - 1])
    else stack + [component]
  }

  function Walk(stack: seq<string>, components: seq<string>): seq<string>
    decreases |components|
  {
    if components == [] then stack else Walk(Enter(stack, components[0]), components[1..])
  }

  function Resolve(path: string): seq<string> { Walk([], Split(path, '/')) }

  lemma {:induction false} WalkBoth(stack: seq<string>, a: seq<string>, b: seq<string>)
    ensures Walk(stack, a + b) == Walk(Walk(stack, a), b)
    decreases |a|
  {
    if a == [] {
      assert a + b == b;
    } else {
      assert (a + b)[1..] == a[1..] + b;
      WalkBoth(Enter(stack, a[0]), a[1..], b);
    }
  }

  lemma {:induction false} WalkPlain(stack: seq<string>, parts: seq<string>)
    requires forall i :: 0 <= i < |parts| ==> Plain(parts[i])
    ensures Walk(stack, parts) == stack + parts
    decreases |parts|
  {
    if parts != [] {
      WalkPlain(stack + [parts[0]], parts[1..]);
      assert (stack + [parts[0]]) + parts[1..] == stack + parts;
    }
  }

  lemma UnderRoot(name: string, rest: string)
    requires Plain(name)
    ensures Split("/" + name + "/" + rest, '/') == ["", name] + Split(rest, '/')
  {
    assert "/" + name == "" + ['/'] + name;
    SplitAt("", '/', name);
    SplitPlain("", '/');
    SplitPlain(name, '/');
    SplitAt("/" + name, '/', rest);
    assert "/" + name + "/" + rest == ("/" + name) + ['/'] + rest;
  }

  lemma WalkToName(name: string)
    requires Plain(name)
    ensures Walk([], ["", name]) == [name]
  {
    assert ["", name][1..] == [name] && [name][1..] == [];
    assert Enter([], name) == [name];
    assert Walk([], ["", name]) == Walk(Enter([], ""), [name]);
    assert Walk([], [name]) == Walk([name], []);
  }

  lemma UnderWorkspace(rest: string)
    ensures Split(WORKSPACE + "/" + rest, '/') == ["", WORKSPACE_NAME] + Split(rest, '/')
    ensures Walk([], ["", WORKSPACE_NAME]) == [WORKSPACE_NAME]
  {
    UnderRoot(WORKSPACE_NAME, rest);
    WalkToName(WORKSPACE_NAME);
  }

  /**
   * The directory a step runs in is the workspace followed by the path's own segments, and no prefix of
   * the walk there leaves the workspace.
   */
  lemma StaysInside(value: string, path: string)
    requires NormalizesTo(value, path)
    ensures Resolve(WORKSPACE + "/" + path) == [WORKSPACE_NAME] + Split(path, '/')
    ensures var parts := Split(WORKSPACE + "/" + path, '/');
      forall k :: 2 <= k <= |parts| ==> [WORKSPACE_NAME] <= Walk([], parts[..k])
  {
    UnderWorkspace(path);
    var own := Split(path, '/');
    var parts := ["", WORKSPACE_NAME] + own;
    forall k | 2 <= k <= |parts| ensures Walk([], parts[..k]) == [WORKSPACE_NAME] + own[..k - 2] {
      assert parts[..k] == ["", WORKSPACE_NAME] + own[..k - 2];
      WalkBoth([], ["", WORKSPACE_NAME], own[..k - 2]);
      WalkPlain([WORKSPACE_NAME], own[..k - 2]);
    }
    assert parts[..|parts|] == parts && own[..|own|] == own;
  }

  /** Normalising does not change where a value leads. */
  lemma SameDirectory(value: string, path: string)
    requires NormalizesTo(value, path)
    ensures Resolve(WORKSPACE + "/" + value) == Resolve(WORKSPACE + "/" + path)
  {
    InWorkspace(value);
    InWorkspace(path);
    SpellingWalks([WORKSPACE_NAME], value, path);
  }

  lemma InWorkspace(rest: string)
    ensures Resolve(WORKSPACE + "/" + rest) == Walk([WORKSPACE_NAME], Split(rest, '/'))
  {
    UnderWorkspace(rest);
    WalkBoth([], ["", WORKSPACE_NAME], Split(rest, '/'));
  }

  lemma SpellingWalks(stack: seq<string>, value: string, path: string)
    requires NormalizesTo(value, path)
    ensures Walk(stack, Split(value, '/')) == Walk(stack, Split(path, '/'))
  {
    var n: nat, lead :| lead in {"", "./"} && value == lead + path + Slashes(n);
    TrailingSlashes(stack, path, n);
    if lead == "./" {
      LeadingDot(stack, path + Slashes(n));
      assert value == "./" + (path + Slashes(n));
    } else {
      assert value == path + Slashes(n);
    }
  }

  lemma LeadingDot(stack: seq<string>, path: string)
    ensures Walk(stack, Split("./" + path, '/')) == Walk(stack, Split(path, '/'))
  {
    assert "./" + path == "." + ['/'] + path;
    SplitAt(".", '/', path);
    SplitPlain(".", '/');
    WalkBoth(stack, ["."], Split(path, '/'));
    assert Walk(stack, ["."]) == Walk(Enter(stack, "."), []);
  }

  lemma {:induction false} TrailingSlashes(stack: seq<string>, path: string, n: nat)
    ensures Walk(stack, Split(path + Slashes(n), '/')) == Walk(stack, Split(path, '/'))
  {
    if n == 0 {
      assert path + Slashes(0) == path;
    } else {
      assert path + Slashes(n) == (path + Slashes(n - 1)) + ['/'] + "";
      SplitAt(path + Slashes(n - 1), '/', "");
      SplitPlain("", '/');
      WalkBoth(stack, Split(path + Slashes(n - 1), '/'), [""]);
      TrailingSlashes(stack, path, n - 1);
      var there := Walk(stack, Split(path, '/'));
      assert Walk(there, [""]) == Walk(Enter(there, ""), []);
    }
  }
}
