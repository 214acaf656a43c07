/** Aggregating the changed paths of a push: deduplicated, capped, and marked when incomplete. */
module ChangedPaths {
  import opened Options
  import opened Limits
  import opened Sequences

  const MAX_PATHS: nat := 300
  const MAX_PATH_BYTES: nat := 512

  /** Paths are byte strings. */
  type Path = seq<bv8>

  datatype Commit = Commit(added: Option<seq<Path>>, removed: Option<seq<Path>>, modified: Option<seq<Path>>)

  predicate Usable(path: Path) { path != [] && |path| <= MAX_PATH_BYTES }

  function Present(list: Option<seq<Path>>): seq<seq<Path>> { if list.Some? then [list.value] else [] }

  /** A commit's lists that are there, in the order they are read. */
  function ListsOf(commit: Commit): seq<seq<Path>> {
    Present(commit.added) + Present(commit.removed) + Present(commit.modified)
  }

  function Flat(lists: seq<seq<Path>>): seq<Path> {
    if lists == [] then [] else Flat(lists[..|lists| - 1]) + lists[|lists| - 1]
  }

  /** Every path of the push, in reading order. */
  function AllPaths(commits: seq<Commit>): seq<Path> {
    if commits == [] then [] else AllPaths(commits[..|commits| - 1]) + Flat(ListsOf(commits[|commits| - 1]))
  }

  predicate Among(path: Path, list: Option<seq<Path>>) { list.Some? && path in list.value }

  predicate TouchedBy(c: Commit, path: Path) {
    Among(path, c.added) || Among(path, c.removed) || Among(path, c.modified)
  }

  /** Some commit added, removed or modified the path. */
  predicate Touched(commits: seq<Commit>, path: Path) {
    exists c :: c in commits && TouchedBy(c, path)
  }

  function Listed(list: Option<seq<Path>>): seq<Path> { if list.Some? then list.value else [] }

  /** One commit is read as what it added, then what it removed, then what it modified … */
  lemma CommitReads(c: Commit)
    ensures AllPaths([c]) == Listed(c.added) + Listed(c.removed) + Listed(c.modified)
  {
    var lists := ListsOf(c);
    assert [c][..0] == [];
    OneList(c.added);
    OneList(c.removed);
    OneList(c.modified);
    FlatBoth(Present(c.added) + Present(c.removed), Present(c.modified));
    FlatBoth(Present(c.added), Present(c.removed));
    assert AllPaths([c]) == [] + Flat(lists);
  }

  lemma OneList(list: Option<seq<Path>>)
    ensures Flat(Present(list)) == Listed(list)
  {
    if list.Some? {
      assert [list.value][..0] == [];
      assert Flat([list.value]) == Flat([]) + list.value;
    }
  }

  lemma {:induction false} FlatBoth(a: seq<seq<Path>>, b: seq<seq<Path>>)
    ensures Flat(a + b) == Flat(a) + Flat(b)
  {
    if b == [] {
      assert a + b == a;
    } else {
      FlatBoth(a, b[..|b| - 1]);
      assert (a + b)[..|a + b| - 1] == a + b[..|b| - 1];
      Regroup(Flat(a), Flat(b[..|b| - 1]), b[|b| - 1]);
    }
  }

  /** … and a push commit by commit. The two facts determine the reading order. */
  lemma {:induction false} PushReads(a: seq<Commit>, b: seq<Commit>)
    ensures AllPaths(a + b) == AllPaths(a) + AllPaths(b)
  {
    if b == [] {
      assert a + b == a;
    } else {
      var front, last := b[..|b| - 1], b[|b| - 1];
      assert b == front + [last];
      PushReads(a, front);
      OneCommitMore(a, front, last);
    }
  }

  lemma OneCommitMore(a: seq<Commit>, front: seq<Commit>, last: Commit)
    requires AllPaths(a + front) == AllPaths(a) + AllPaths(front)
    ensures AllPaths(a + (front + [last])) == AllPaths(a) + AllPaths(front + [last])
  {
    PushSnoc(a + front, last);
    PushSnoc(front, last);
    Regroup(a, front, [last]);
    Regroup(AllPaths(a), AllPaths(front), Flat(ListsOf(last)));
  }

  lemma PushSnoc(before: seq<Commit>, c: Commit)
    ensures AllPaths(before + [c]) == AllPaths(before) + Flat(ListsOf(c))
  {
    assert (before + [c])[..|before|] == before;
  }

  lemma CommitPaths(c: Commit, path: Path)
    ensures path in AllPaths([c]) <==> TouchedBy(c, path)
  {
    CommitReads(c);
  }

  lemma TouchedSnoc(before: seq<Commit>, c: Commit, path: Path)
    ensures Touched(before + [c], path) <==> Touched(before, path) || TouchedBy(c, path)
  {
    if Touched(before, path) {
      var b :| b in before && TouchedBy(b, path);
      assert b in before + [c];
    }
    assert c in before + [c];
  }

  /** The paths read are those the push touched. */
  lemma {:induction false} AllPathsAre(commits: seq<Commit>, path: Path)
    ensures path in AllPaths(commits) <==> Touched(commits, path)
  {
    if commits != [] {
      var before, c := commits[..|commits| - 1], commits[|commits| - 1];
      AllPathsAre(before, path);
      OneCommitTouches(before, c, path);
      assert commits == before + [c];
    }
  }

  lemma OneCommitTouches(before: seq<Commit>, c: Commit, path: Path)
    requires path in AllPaths(before) <==> Touched(before, path)
    ensures path in AllPaths(before + [c]) <==> Touched(before + [c], path)
  {
    CommitPaths(c, path);
    TouchedSnoc(before, c, path);
    ReadsOneMore(before, c, path);
  }

  lemma ReadsOneMore(before: seq<Commit>, c: Commit, path: Path)
    ensures path in AllPaths(before + [c]) <==> path in AllPaths(before) || path in AllPaths([c])
  {
    PushReads(before, [c]);
  }

  /** The usable paths at their first occurrences. */
  function Distinct(paths: seq<Path>): seq<Path> {
    if paths == [] then []
    else
      var before, path := Distinct(paths[..|paths| - 1]), paths[|paths| - 1];
      if Usable(path) && path !in before then before + [path] else before
  }

  lemma DistinctSnoc(paths: seq<Path>, path: Path)
    ensures Distinct(paths + [path])
      == if Usable(path) && path !in Distinct(paths) then Distinct(paths) + [path] else Distinct(paths)
  {
    assert (paths + [path])[..|paths|] == paths;
  }

  /** Reading on never removes or reorders what was collected. */
  lemma {:induction false} DistinctGrows(a: seq<Path>, b: seq<Path>)
    requires a <= b
    ensures Distinct(a) <= Distinct(b)
    decreases |b|
  {
    if |a| < |b| {
      DistinctGrows(a, b[..|b| - 1]);
    } else {
      assert a == b;
    }
  }

  lemma {:induction false} FlatGrows(lists: seq<seq<Path>>, j: nat)
    requires j <= |lists|
    ensures Flat(lists[..j]) <= Flat(lists)
  {
    if j < |lists| {
      FlatGrows(lists[..|lists| - 1], j);
      assert lists[..|lists| - 1][..j] == lists[..j];
    } else {
      assert lists[..j] == lists;
    }
  }

  lemma {:induction false} AllPathsGrows(commits: seq<Commit>, i: nat)
    requires i <= |commits|
    ensures AllPaths(commits[..i]) <= AllPaths(commits)
  {
    if i < |commits| {
      AllPathsGrows(commits[..|commits| - 1], i);
      assert commits[..|commits| - 1][..i] == commits[..i];
    } else {
      assert commits[..i] == commits;
    }
  }

  lemma FlatSnoc(lists: seq<seq<Path>>, j: nat)
    requires j < |lists|
    ensures Flat(lists[..j + 1]) == Flat(lists[..j]) + lists[j]
  {
    assert lists[..j + 1][..j] == lists[..j];
  }

  lemma OnePathMore(before: seq<Path>, list: seq<Path>, k: nat)
    requires k < |list|
    ensures before + list[..k + 1] == (before + list[..k]) + [list[k]]
  {
  }

  /** One new path beyond the cap settles both answers. */
  lemma Overflows(read: seq<Path>, path: Path, all: seq<Path>)
    requires read + [path] <= all
    requires |Distinct(read)| == MAX_PATHS && Usable(path) && path !in Distinct(read)
    ensures |Distinct(all)| > MAX_PATHS && Take(Distinct(all), MAX_PATHS) == Distinct(read)
  {
    DistinctSnoc(read, path);
    DistinctGrows(read + [path], all);
    assert Distinct(all)[..MAX_PATHS] == Distinct(read);
  }

  ghost predicate Collected(paths: seq<Path>, read: seq<Path>) {
    paths == Distinct(read) && |paths| <= MAX_PATHS
  }

  /** One list of one commit; reading stops at a new path beyond the cap. */
  method AddList(collected: seq<Path>, list: seq<Path>, ghost read: seq<Path>, ghost all: seq<Path>)
    returns (paths: seq<Path>, overflow: bool)
    requires Collected(collected, read) && read + list <= all
    ensures !overflow ==> Collected(paths, read + list)
    ensures overflow ==> |Distinct(all)| > MAX_PATHS && paths == Take(Distinct(all), MAX_PATHS)
  {
    paths := collected;
    assert read + list[..0] == read;
    for k := 0 to |list|
      invariant Collected(paths, read + list[..k])
    {
      var path := list[k];
      OnePathMore(read, list, k);
      DistinctSnoc(read + list[..k], path);
      if path == [] || |path| > MAX_PATH_BYTES {
        continue;
      }
      if path !in paths {
        if |paths| >= MAX_PATHS {
          PrefixOfList(read, list, k, all);
          Overflows(read + list[..k], path, all);
          return paths, true;
        }
        paths := paths + [path];
      }
    }
    assert list[..|list|] == list;
    overflow := false;
  }

  lemma ListInPlace(lists: seq<seq<Path>>, j: nat, read: seq<Path>, all: seq<Path>)
    requires j < |lists| && read + Flat(lists) <= all
    ensures (read + Flat(lists[..j])) + lists[j] == read + Flat(lists[..j + 1]) <= all
  {
    FlatSnoc(lists, j);
    Regroup(read, Flat(lists[..j]), lists[j]);
    FlatGrows(lists, j + 1);
    PrefixAfter(read, Flat(lists[..j + 1]), Flat(lists), all);
  }

  lemma PrefixAfter(a: seq<Path>, b: seq<Path>, c: seq<Path>, all: seq<Path>)
    requires b <= c && a + c <= all
    ensures a + b <= all
  {
    assert all[..|a + c|] == a + c;
  }

  /** The lists of one commit. */
  method AddCommit(collected: seq<Path>, lists: seq<seq<Path>>, ghost read: seq<Path>, ghost all: seq<Path>)
    returns (paths: seq<Path>, overflow: bool)
    requires Collected(collected, read) && read + Flat(lists) <= all
    ensures !overflow ==> Collected(paths, read + Flat(lists))
    ensures overflow ==> |Distinct(all)| > MAX_PATHS && paths == Take(Distinct(all), MAX_PATHS)
  {
    paths := collected;
    assert read + Flat(lists[..0]) == read;
    for j := 0 to |lists|
      invariant Collected(paths, read + Flat(lists[..j]))
    {
      ListInPlace(lists, j, read, all);
      paths, overflow := AddList(paths, lists[j], read + Flat(lists[..j]), all);
      if overflow {
        return;
      }
    }
    assert lists[..|lists|] == lists;
    overflow := false;
  }

  lemma CommitInPlace(commits: seq<Commit>, i: nat)
    requires i < |commits|
    ensures AllPaths(commits[..i]) + Flat(ListsOf(commits[i])) == AllPaths(commits[..i + 1]) <= AllPaths(commits)
  {
    assert commits[..i + 1][..i] == commits[..i];
    AllPathsGrows(commits, i + 1);
  }

  predicate MorePushed(size: Option<int>, commits: seq<Commit>) { size.Some? && size.value > |commits| }

  /** The nested loops, leaving all of them when a new path exceeds the cap. */
  method Aggregate(size: Option<int>, commits: seq<Commit>) returns (paths: seq<Path>, truncated: bool)
    ensures paths == Take(Distinct(AllPaths(commits)), MAX_PATHS)
    ensures truncated <==> MorePushed(size, commits) || |Distinct(AllPaths(commits))| > MAX_PATHS
    ensures forall p :: p in paths ==> Touched(commits, p) && 1 <= |p| <= 512
    ensures truncated || forall p :: Touched(commits, p) && 1 <= |p| <= 512 ==> p in paths
  {
    paths := [];
    truncated := size.Some? && size.value > |commits|;
    for i := 0 to |commits|
      invariant Collected(paths, AllPaths(commits[..i]))
      invariant truncated == MorePushed(size, commits)
    {
      var overflow;
      CommitInPlace(commits, i);
      paths, overflow := AddCommit(paths, ListsOf(commits[i]), AllPaths(commits[..i]), AllPaths(commits));
      if overflow {
        WhatIsCollected(commits, paths, true);
        return paths, true;
      }
    }
    assert commits[..|commits|] == commits;
    WhatIsCollected(commits, paths, truncated);
  }

  lemma WhatIsCollected(commits: seq<Commit>, paths: seq<Path>, truncated: bool)
    requires paths == Take(Distinct(AllPaths(commits)), MAX_PATHS)
    requires !truncated ==> |Distinct(AllPaths(commits))| <= MAX_PATHS
    ensures forall p :: p in paths ==> Touched(commits, p) && 1 <= |p| <= 512
    ensures truncated || forall p :: Touched(commits, p) && 1 <= |p| <= 512 ==> p in paths
  {
    DistinctIs(AllPaths(commits));
    forall p ensures p in AllPaths(commits) <==> Touched(commits, p) {
      AllPathsAre(commits, p);
    }
    assert forall p :: p in paths ==> p in Distinct(AllPaths(commits));
  }

  lemma PrefixOfList(before: seq<Path>, list: seq<Path>, k: nat, all: seq<Path>)
    requires k < |list| && before + list <= all
    ensures before + list[..k] + [list[k]] <= all
  {
    assert all[..|before + list|] == before + list;
  }

  lemma {:induction false} DistinctIs(paths: seq<Path>)
    ensures forall p :: p in Distinct(paths) <==> p in paths && Usable(p)
    ensures forall i, j :: 0 <= i < j < |Distinct(paths)| ==> Distinct(paths)[i] != Distinct(paths)[j]
  {
    if paths != [] {
      DistinctIs(paths[..|paths| - 1]);
      assert paths == paths[..|paths| - 1] + [paths[|paths| - 1]];
    }
  }

  /** Each collected path stands where it first occurred, after those that occurred before it. */
  lemma {:induction false} FirstOccurrence(paths: seq<Path>, k: nat) returns (n: nat)
    requires k < |Distinct(paths)|
    ensures n < |paths| && paths[n] == Distinct(paths)[k] && paths[n] !in paths[..n]
    ensures Distinct(paths[..n]) == Distinct(paths)[..k]
  {
    var before := paths[..|paths| - 1];
    if k < |Distinct(before)| {
      n := FirstOccurrence(before, k);
      assert before[..n] == paths[..n];
    } else {
      n := |paths| - 1;
      DistinctIs(before);
    }
  }

  /** An unset flag means the set is complete: every usable path of a push whose commits are all listed. */
  lemma UnsetFlagIsComplete(size: Option<int>, commits: seq<Commit>, paths: seq<Path>, truncated: bool)
    requires paths == Take(Distinct(AllPaths(commits)), MAX_PATHS)
    requires truncated <==> MorePushed(size, commits) || |Distinct(AllPaths(commits))| > MAX_PATHS
    ensures !truncated ==>
      && (size == None || size.value <= |commits|)
      && forall p :: p in paths <==> Touched(commits, p) && 1 <= |p| <= 512
    ensures |paths| <= 300 && forall p :: p in paths ==> Touched(commits, p) && 1 <= |p| <= 512
  {
    WhatIsCollected(commits, paths, truncated);
  }
}
