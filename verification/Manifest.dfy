/** The runner's capped archive manifest, its JSON, and the server's check of it. */
module ManifestModel {
  import opened Options
  import opened Utf8
  import opened Digits
  import opened ManifestJson

  const MAX_ENTRIES: nat := 1000
  const MAX_MANIFEST_BYTES: nat := 64 * 1024
  const ENTRY_OVERHEAD: nat := 32
  const MAX_PATH_CHARS: nat := 512
  const MAX_JSON_BYTES: nat := 96 * 1024
  const MAX_UNCOMPRESSED: nat := 0x100_0000_0000
  const MAX_FILE_COUNT: nat := 1_000_000
  const MAX_U64: nat := 0xffff_ffff_ffff_ffff
  const MAX_U32: nat := 0xffff_ffff

  datatype Manifest = Manifest(uncompressed: nat, files: nat, entries: seq<Entry>)

  function Min(a: nat, b: nat): nat { if a <= b then a else b }

  function Cost(e: Entry): nat { |e.path| + ENTRY_OVERHEAD }

  function TotalCost(entries: seq<Entry>): nat {
    if entries == [] then 0 else TotalCost(entries[..|entries| - 1]) + Cost(entries[|entries| - 1])
  }

  function TotalSize(entries: seq<Entry>): nat {
    if entries == [] then 0 else TotalSize(entries[..|entries| - 1]) + entries[|entries| - 1].size
  }

  /** What stays listed of the files seen: each one that still fits when it comes. */
  function Listed(seen: seq<Entry>): seq<Entry> {
    if seen == [] then []
    else
      var before, e := Listed(seen[..|seen| - 1]), seen[|seen| - 1];
      if |before| < MAX_ENTRIES && TotalCost(before) + Cost(e) <= MAX_MANIFEST_BYTES then before + [e] else before
  }

  class ManifestBuilder {
    var uncompressed: nat
    var files: nat
    var entries: seq<Entry>
    var estimate: nat
    ghost var seen: seq<Entry>

    ghost predicate Valid() reads this {
      && uncompressed == Min(TotalSize(seen), MAX_U64)
      && files == Min(|seen|, MAX_U32)
      && entries == Listed(seen)
      && estimate == TotalCost(entries) <= MAX_MANIFEST_BYTES && |entries| <= MAX_ENTRIES
    }

    constructor ()
      ensures Valid() && seen == []
    {
      uncompressed, files, entries, estimate, seen := 0, 0, [], 0, [];
    }

    method Add(path: Text, size: nat)
      requires Valid() && size <= MAX_U64
      modifies this
      ensures Valid() && seen == old(seen) + [Entry(path, size)]
    {
      uncompressed := Min(uncompressed + size, MAX_U64);
      files := Min(files + 1, MAX_U32);
      var e := Entry(path, size);
      ghost var before := seen;
      seen := before + [e];
      assert seen[..|seen| - 1] == before;
      var cost := |path| + ENTRY_OVERHEAD;
      if |entries| < MAX_ENTRIES && estimate + cost <= MAX_MANIFEST_BYTES {
        assert (entries + [e])[..|entries|] == entries;
        estimate := estimate + cost;
        entries := entries + [e];
      }
    }

    method Finish() returns (r: Option<Manifest>)
      requires Valid()
      ensures r == Finished(seen)
    {
      return if files > 0 then Some(Manifest(uncompressed, files, entries)) else None;
    }
  }

  /** The manifest of an archive in which these regular files were seen. */
  function Finished(seen: seq<Entry>): Option<Manifest> {
    if seen == [] then None else Some(Manifest(Min(TotalSize(seen), MAX_U64), Min(|seen|, MAX_U32), Listed(seen)))
  }

  lemma {:induction false} ListedWithinCaps(seen: seq<Entry>)
    ensures |Listed(seen)| <= MAX_ENTRIES && TotalCost(Listed(seen)) <= MAX_MANIFEST_BYTES
    ensures |Listed(seen)| <= |seen| && TotalCost(Listed(seen)) <= TotalCost(seen)
    ensures forall e :: e in Listed(seen) ==> e in seen
  {
    if seen != [] {
      var before, e := Listed(seen[..|seen| - 1]), seen[|seen| - 1];
      ListedWithinCaps(seen[..|seen| - 1]);
      assert (before + [e])[..|before|] == before;
      assert seen == seen[..|seen| - 1] + [e];
    }
  }

  lemma ListedSnoc(before: seq<Entry>, e: Entry)
    ensures TotalCost(before + [e]) == TotalCost(before) + Cost(e)
    ensures Listed(before + [e])
      == if |Listed(before)| < MAX_ENTRIES && TotalCost(Listed(before)) + Cost(e) <= MAX_MANIFEST_BYTES
         then Listed(before) + [e] else Listed(before)
  {
    assert (before + [e])[..|before|] == before;
  }

  lemma ListedOneMore(before: seq<Entry>, e: Entry)
    requires Listed(before) == before
    requires |before + [e]| <= MAX_ENTRIES && TotalCost(before + [e]) <= MAX_MANIFEST_BYTES
    ensures Listed(before + [e]) == before + [e]
  {
    ListedSnoc(before, e);
  }

  lemma {:induction false} ListedAll(seen: seq<Entry>)
    requires |seen| <= MAX_ENTRIES && TotalCost(seen) <= MAX_MANIFEST_BYTES
    ensures Listed(seen) == seen
  {
    if seen != [] {
      var before, e := seen[..|seen| - 1], seen[|seen| - 1];
      var again := before + [e];
      assert seen == again;
      ListedSnoc(before, e);
      ListedAll(before);
      ListedOneMore(before, e);
    }
  }

  /** Every file is listed iff they all fit; the two totals count past the caps either way. */
  lemma ListedIsCompleteIff(seen: seq<Entry>)
    ensures Listed(seen) == seen <==> |seen| <= MAX_ENTRIES && TotalCost(seen) <= MAX_MANIFEST_BYTES
  {
    ListedWithinCaps(seen);
    if |seen| <= MAX_ENTRIES && TotalCost(seen) <= MAX_MANIFEST_BYTES {
      ListedAll(seen);
    }
  }

  /** JSON escapes quotes, backslashes and control characters, and nothing else. */
  predicate Escapes(b: Byte) { b < 0x20 || b == 0x22 || b == 0x5C }

  /** What the server measures. */
  function JsonLength(entries: seq<Entry>): nat { |Json(entries)| }

  function CharCount(path: Text): nat {
    if path == [] then 0 else CharCount(path[..|path| - 1]) + if Continuation(path[|path| - 1]) then 0 else 1
  }

  lemma {:induction false} CountBoth(a: Text, b: Text)
    ensures CharCount(a + b) == CharCount(a) + CharCount(b)
  {
    if b == [] {
      assert a + b == a;
    } else {
      CountBoth(a, b[..|b| - 1]);
      assert (a + b)[..|a + b| - 1] == a + b[..|b| - 1];
    }
  }

  lemma CountOne(b: Byte)
    ensures CharCount([b]) == if Continuation(b) then 0 else 1
  {
    assert [b][..0] == [];
  }

  lemma CountEncoded(c: Scalar)
    ensures CharCount(Encode(c)) == 1
  {
    var e := Encode(c);
    CountOne(e[0]);
    if |e| >= 2 {
      CountBoth([e[0]], [e[1]]);
      CountOne(e[1]);
      assert e[..2] == [e[0]] + [e[1]];
    }
    if |e| >= 3 {
      CountBoth(e[..2], [e[2]]);
      CountOne(e[2]);
      assert e[..3] == e[..2] + [e[2]];
    }
    if |e| == 4 {
      CountBoth(e[..3], [e[3]]);
      CountOne(e[3]);
    }
    assert e[..|e|] == e;
    assert |e| == 4 ==> e == e[..3] + [e[3]];
    assert |e| == 1 ==> e == [e[0]];
  }

  /** Bytes that are not continuations count the characters. */
  lemma {:induction false} CharCountIs(cs: seq<Scalar>)
    ensures CharCount(EncodeAll(cs)) == |cs|
  {
    if cs != [] {
      CountEncoded(cs[0]);
      CharCountIs(cs[1..]);
      CountBoth(Encode(cs[0]), EncodeAll(cs[1..]));
    }
  }

  datatype Upload = Upload(uncompressed: Option<nat>, files: Option<nat>, entries: Option<seq<Entry>>)

  /** The server's check; whatever fails it drops the whole manifest. */
  method SanitizeManifest(uncompressed: Option<nat>, files: Option<nat>, entries: Option<seq<Entry>>)
    returns (r: Option<Upload>)
    ensures r == if Acceptable(uncompressed, files, entries) then Some(Upload(uncompressed, files, entries)) else None
  {
    if uncompressed == None && files == None && entries == None {
      return None;
    }
    if (uncompressed.Some? && uncompressed.value > MAX_UNCOMPRESSED) || (files.Some? && files.value > MAX_FILE_COUNT) {
      return None;
    }
    match entries {
      case None =>
      case Some(list) =>
        if |list| > MAX_ENTRIES || exists e :: e in list && (e.path == [] || CharCount(e.path) > MAX_PATH_CHARS) {
          return None;
        }
        if JsonLength(list) > MAX_JSON_BYTES {
          return None;
        }
    }
    return Some(Upload(uncompressed, files, entries));
  }

  predicate PathsOk(entries: seq<Entry>) {
    forall e :: e in entries ==> e.path != [] && CharCount(e.path) <= MAX_PATH_CHARS
  }

  predicate Acceptable(uncompressed: Option<nat>, files: Option<nat>, entries: Option<seq<Entry>>) {
    && (uncompressed.Some? || files.Some? || entries.Some?)
    && (uncompressed.Some? ==> uncompressed.value <= MAX_UNCOMPRESSED)
    && (files.Some? ==> files.value <= MAX_FILE_COUNT)
    && (entries.Some? ==>
          |entries.value| <= MAX_ENTRIES && PathsOk(entries.value) && JsonLength(entries.value) <= MAX_JSON_BYTES)
  }

  predicate NoEscapes(path: Text) { forall i :: 0 <= i < |path| ==> !Escapes(path[i]) }

  lemma {:induction false} PlainLength(path: Text)
    requires NoEscapes(path)
    ensures |Body(path)| == |path|
  {
    if path != [] {
      PlainLength(path[1..]);
    }
  }

  lemma SizeDigits(n: nat)
    requires n <= MAX_U64
    ensures DigitCount(n, 10) <= 20
  {
    assert Power(10, 5) == 100_000;
    assert Power(10, 10) == 10_000_000_000;
    assert Power(10, 15) == 1_000_000_000_000_000;
    assert Power(10, 20) == 100_000_000_000_000_000_000;
    CountBound(n, 10, 20);
  }

  /** Per entry, the estimate is at most 13 bytes short, when nothing in the path needs escaping. */
  lemma {:induction false} LengthBound(entries: seq<Entry>)
    requires forall i :: 0 <= i < |entries| ==> NoEscapes(entries[i].path) && entries[i].size <= MAX_U64
    ensures EntriesLength(entries) <= TotalCost(entries) + 13 * |entries|
  {
    if entries != [] {
      var e := entries[0];
      LengthBound(entries[1..]);
      CostCons(entries);
      PlainLength(e.path);
      SizeDigits(e.size);
      ObjectLength(e);
    }
  }

  lemma {:induction false} CostCons(entries: seq<Entry>)
    requires entries != []
    ensures TotalCost(entries) == Cost(entries[0]) + TotalCost(entries[1..])
  {
    if |entries| == 1 {
      assert entries[..0] == [] && entries[1..] == [];
    } else {
      CostCons(entries[..|entries| - 1]);
      assert entries[1..][..|entries| - 2] == entries[..|entries| - 1][1..];
    }
  }

  lemma JsonBound(entries: seq<Entry>)
    requires |entries| <= MAX_ENTRIES && TotalCost(entries) <= MAX_MANIFEST_BYTES
    requires forall e :: e in entries ==> NoEscapes(e.path) && e.size <= MAX_U64
    ensures JsonLength(entries) <= MAX_MANIFEST_BYTES + 14 * MAX_ENTRIES + 2 <= MAX_JSON_BYTES
  {
    forall i | 0 <= i < |entries| ensures NoEscapes(entries[i].path) && entries[i].size <= MAX_U64 {
      assert entries[i] in entries;
    }
    LengthBound(entries);
    JsonLengthIs(entries);
  }

  lemma ListedJsonBound(seen: seq<Entry>)
    requires forall e :: e in seen ==> e.size <= MAX_U64
    requires forall e :: e in Listed(seen) ==> NoEscapes(e.path)
    ensures JsonLength(Listed(seen)) <= MAX_MANIFEST_BYTES + 14 * MAX_ENTRIES + 2
  {
    ListedWithinCaps(seen);
    forall e | e in Listed(seen) ensures NoEscapes(e.path) && e.size <= MAX_U64 {
      assert e in seen;
    }
    JsonBound(Listed(seen));
  }

  /** The runner's caps imply the server's: such a manifest is stored whole. */
  lemma CapsAgree(seen: seq<Entry>)
    requires seen != [] && TotalSize(seen) <= MAX_UNCOMPRESSED && |seen| <= MAX_FILE_COUNT
    requires forall e :: e in seen ==> e.size <= MAX_U64
    requires PathsOk(Listed(seen)) && forall e :: e in Listed(seen) ==> NoEscapes(e.path)
    ensures JsonLength(Listed(seen)) <= MAX_MANIFEST_BYTES + 14 * MAX_ENTRIES + 2 <= MAX_JSON_BYTES
    ensures var m := Finished(seen).value;
      && m == Manifest(TotalSize(seen), |seen|, Listed(seen))
      && Acceptable(Some(m.uncompressed), Some(m.files), Some(m.entries))
  {
    ListedJsonBound(seen);
    FinishedExactly(seen);
    StoredIff(seen);
  }

  lemma FinishedExactly(seen: seq<Entry>)
    requires seen != [] && TotalSize(seen) <= MAX_UNCOMPRESSED && |seen| <= MAX_FILE_COUNT
    ensures Finished(seen) == Some(Manifest(TotalSize(seen), |seen|, Listed(seen)))
  {
  }

  /** A manifest the runner finishes is stored iff its totals and paths are in range and its JSON is not too long. */
  lemma StoredIff(seen: seq<Entry>)
    requires seen != []
    ensures var m := Finished(seen).value;
      Acceptable(Some(m.uncompressed), Some(m.files), Some(m.entries)) <==>
        && TotalSize(seen) <= MAX_UNCOMPRESSED && |seen| <= MAX_FILE_COUNT
        && PathsOk(Listed(seen)) && JsonLength(Listed(seen)) <= MAX_JSON_BYTES
  {
    ListedWithinCaps(seen);
  }

  /** Without the two provisos the caps do not agree: a path of 513 characters … */
  lemma LongPathIsDropped(e: Entry)
    requires e.path == seq(MAX_PATH_CHARS + 1, _ => 0x61) && e.size == 0
    ensures Listed([e]) == [e] && !PathsOk(Listed([e]))
  {
    AllPlain(MAX_PATH_CHARS + 1);
    assert [e][..0] == [] && TotalCost([]) == 0;
    assert e in [e];
  }

  lemma {:induction false} AllPlain(n: nat)
    ensures CharCount(seq(n, _ => 0x61)) == n
  {
    var path: Text := seq(n, _ => 0x61);
    if n > 0 {
      AllPlain(n - 1);
      assert path[..n - 1] == seq(n - 1, _ => 0x61);
    }
  }

  /** … or 128 paths of 480 quotes each, all within the runner's caps, are dropped with everything else. */
  lemma QuotesAreDropped(seen: seq<Entry>)
    requires |seen| == 128 && forall i :: 0 <= i < |seen| ==> seen[i].path == seq(480, _ => 0x22)
    ensures Listed(seen) == seen && JsonLength(Listed(seen)) > MAX_JSON_BYTES
  {
    AllQuotes(seen);
    ListedIsCompleteIff(seen);
    JsonLengthIs(seen);
  }

  lemma {:induction false} AllQuotes(entries: seq<Entry>)
    requires forall i :: 0 <= i < |entries| ==> entries[i].path == seq(480, _ => 0x22)
    ensures TotalCost(entries) == 512 * |entries| && EntriesLength(entries) >= 960 * |entries|
  {
    if entries != [] {
      AllQuotes(entries[1..]);
      CostCons(entries);
      QuotesDouble(entries[0].path, 480);
      ObjectLength(entries[0]);
    }
  }

  lemma {:induction false} QuotesDouble(path: Text, n: nat)
    requires |path| == n && forall i :: 0 <= i < n ==> path[i] == 0x22
    ensures |Body(path)| == 2 * n
  {
    if n > 0 {
      QuotesDouble(path[1..], n - 1);
    }
  }
}
