/** Re-emitting a source tarball without its wrapper directory, links and pseudo-entries. */
module Repackage {
  import opened Options
  import opened Segments

  /** One record of a pax extended header; a key or value that cannot be decoded is absent. */
  datatype Record = Record(key: Option<string>, value: Option<string>)

  datatype Kind =
    | File | Directory | OtherKind
    | Symlink | Link
    | XHeader(records: seq<Record>) | XGlobalHeader | GnuLongName | GnuLongLink

  /** A decoded archive entry; `path` is absent where the header's own path cannot be read. */
  datatype Entry = Entry(kind: Kind, path: Option<string>, content: string)

  datatype Emitted = Emitted(kind: Kind, path: string, content: string)

  datatype Component = RootDir | CurDir | ParentDir | Normal(name: string)

  predicate Pseudo(kind: Kind) { kind.XHeader? || kind.XGlobalHeader? || kind.GnuLongName? || kind.GnuLongLink? }

  predicate IsLink(kind: Kind) { kind.Symlink? || kind.Link? }

  function Keep(parts: seq<string>): seq<Component> {
    if parts == [] then []
    else (if parts[0] == "" || parts[0] == "." then []
          else if parts[0] == ".." then [ParentDir]
          else [Normal(parts[0])]) + Keep(parts[1..])
  }

  /** `Path::components`: repeated and trailing slashes vanish, and so does every `.` but a leading one. */
  function Components(path: string): seq<Component> {
    var parts := Split(path, '/');
    (if path != "" && path[0] == '/' then [RootDir] else if parts[0] == "." then [CurDir] else []) + Keep(parts)
  }

  predicate SafeName(name: string) {
    name != "" && name != "." && name != ".." && '/' !in name
  }

  lemma {:induction false} KeepNames(parts: seq<string>)
    requires forall i :: 0 <= i < |parts| ==> '/' !in parts[i]
    ensures forall c :: c in Keep(parts) ==> c == ParentDir || (c.Normal? && SafeName(c.name))
  {
    if parts != [] {
      KeepNames(parts[1..]);
    }
  }

  /** A plain component is never empty, `.`, `..`, or two segments in one. */
  lemma ComponentNames(path: string)
    ensures forall c :: c in Components(path) && c.Normal? ==> SafeName(c.name)
  {
    KeepNames(Split(path, '/'));
  }

  /** What is left after an optional leading `.` and the wrapper directory. */
  function BelowWrapper(components: seq<Component>): seq<Component> {
    var rest := if components != [] && components[0] == CurDir then components[1..] else components;
    if rest == [] then [] else rest[1..]
  }

  predicate AllNormal(components: seq<Component>) {
    forall i :: 0 <= i < |components| ==> components[i].Normal?
  }

  function Names(components: seq<Component>): seq<string>
    requires AllNormal(components)
  {
    seq(|components|, i requires 0 <= i < |components| => components[i].name)
  }

  /** The path an entry is re-emitted under, if it is re-emitted. */
  function Stripped(path: string): Option<string> {
    var below := BelowWrapper(Components(path));
    if below != [] && AllNormal(below) then Some(Join(Names(below), "/")) else None
  }

  function LastPath(records: seq<Record>): Option<string> {
    if records == [] then None
    else
      var last := records[|records| - 1];
      if last.key == Some("path") && last.value.Some? then last.value else LastPath(records[..|records| - 1])
  }

  /** The pax path that applies to entry `i`: that of the nearest header with one and only pseudo-entries between. */
  function PaxPath(entries: seq<Entry>, i: nat): Option<string>
    requires i <= |entries|
  {
    if i == 0 then None
    else
      var kind := entries[i - 1].kind;
      if kind.XHeader? && LastPath(kind.records).Some? then LastPath(kind.records)
      else if Pseudo(kind) then PaxPath(entries, i - 1)
      else None
  }

  function NameOf(entries: seq<Entry>, i: nat): Option<string>
    requires i < |entries|
  {
    if PaxPath(entries, i).Some? then PaxPath(entries, i) else entries[i].path
  }

  predicate Copied(entries: seq<Entry>, i: nat)
    requires i < |entries|
  {
    !Pseudo(entries[i].kind) && !IsLink(entries[i].kind)
  }

  /** What an entry contributes under the name that applies to it. */
  function Emission(e: Entry, name: Option<string>): seq<Emitted> {
    if !Pseudo(e.kind) && !IsLink(e.kind) && name.Some? && Stripped(name.value).Some? then
      [Emitted(e.kind, Stripped(name.value).value, e.content)]
    else []
  }

  function EmitOne(entries: seq<Entry>, i: nat): seq<Emitted>
    requires i < |entries|
  {
    Emission(entries[i], NameOf(entries, i))
  }

  /** The first n entries, each mapped on its own. */
  function EmitAll(entries: seq<Entry>, n: nat): seq<Emitted>
    requires n <= |entries|
  {
    if n == 0 then [] else EmitAll(entries, n - 1) + EmitOne(entries, n - 1)
  }

  function FilesIn(out: seq<Emitted>): nat {
    if out == [] then 0 else FilesIn(out[..|out| - 1]) + if out[|out| - 1].kind.File? then 1 else 0
  }

  predicate Readable(entries: seq<Entry>, n: nat)
    requires n <= |entries|
  {
    forall i :: 0 <= i < n && Copied(entries, i) ==> NameOf(entries, i).Some?
  }

  datatype Result = Ok(out: seq<Emitted>, files: nat) | Failed

  /** The plain components from `start` on, joined one by one; anything else among them is unsafe. */
  method JoinFrom(components: seq<Component>, start: nat) returns (rel: string, safe: bool)
    requires start <= |components|
    requires forall i :: 0 <= i < |components| && components[i].Normal? ==> components[i].name != ""
    ensures safe <==> AllNormal(components[start..])
    ensures safe ==> rel == Join(Names(components[start..]), "/")
    ensures safe ==> (rel == "" <==> start == |components|)
  {
    rel := "";
    for k := start to |components|
      invariant AllNormal(components[start..k]) && rel == Join(Names(components[start..k]), "/")
      invariant rel == "" <==> k == start
    {
      if !components[k].Normal? {
        assert components[start..][k - start] == components[k];
        return rel, false;
      }
      JoinGrows(components, start, k);
      if rel != "" {
        rel := rel + "/";
      }
      rel := rel + components[k].name;
    }
    assert components[start..|components|] == components[start..];
    safe := true;
  }

  /** The path below the wrapper. */
  method StripWrapper(path: string) returns (rel: string, safe: bool)
    ensures (if safe && rel != "" then Some(rel) else None) == Stripped(path)
  {
    var components := Components(path);
    var k := 0;
    if |components| > 0 && components[0] == CurDir {
      k := 1;
    }
    if k < |components| {
      k := k + 1;
    }
    assert components[k..] == BelowWrapper(components);
    ComponentNames(path);
    rel, safe := JoinFrom(components, k);
  }

  lemma JoinGrows(components: seq<Component>, start: nat, k: nat)
    requires start <= k < |components| && AllNormal(components[start..k]) && components[k].Normal?
    ensures AllNormal(components[start..k + 1])
    ensures Join(Names(components[start..k + 1]), "/")
      == (if k == start then "" else Join(Names(components[start..k]), "/") + "/") + components[k].name
  {
    assert components[start..k + 1] == components[start..k] + [components[k]];
    assert Names(components[start..k + 1]) == Names(components[start..k]) + [components[k].name];
    JoinSnoc(Names(components[start..k]), components[k].name);
  }

  lemma {:induction false} JoinSnoc(parts: seq<string>, last: string)
    ensures Join(parts + [last], "/") == (if parts == [] then "" else Join(parts, "/") + "/") + last
  {
    if parts != [] {
      assert (parts + [last])[1..] == parts[1..] + [last];
      JoinSnoc(parts[1..], last);
    }
  }

  lemma FilesSnoc(out: seq<Emitted>, e: Emitted)
    ensures FilesIn(out + [e]) == FilesIn(out) + if e.kind.File? then 1 else 0
  {
    assert (out + [e])[..|out|] == out;
  }

  /** Each usable path record of an extended header replaces the path carried so far. */
  method ReadHeader(records: seq<Record>, carried: Option<string>) returns (pax: Option<string>)
    ensures pax == if LastPath(records).Some? then LastPath(records) else carried
  {
    pax := carried;
    for j := 0 to |records|
      invariant pax == if LastPath(records[..j]).Some? then LastPath(records[..j]) else carried
    {
      assert records[..j + 1][..j] == records[..j];
      if records[j].key == Some("path") && records[j].value.Some? {
        pax := records[j].value;
      }
    }
    assert records[..|records|] == records;
  }

  /** An entry that is neither link nor pseudo-entry, re-emitted unless its path is unsafe or the wrapper's own. */
  method CopyEntry(entry: Entry, path: string) returns (copied: Option<Emitted>)
    requires !Pseudo(entry.kind) && !IsLink(entry.kind)
    ensures Emission(entry, Some(path)) == if copied.Some? then [copied.value] else []
    ensures copied.Some? ==> copied.value.kind == entry.kind
  {
    var rel, safe := StripWrapper(path);
    copied := if safe && rel != "" then Some(Emitted(entry.kind, rel, entry.content)) else None;
  }

  datatype Step = Continue(pax: Option<string>, copied: Option<Emitted>) | Unreadable

  /** What an entry leaves of the carried pax path. */
  function PaxAfter(kind: Kind, pax: Option<string>): Option<string> {
    if kind.XHeader? && LastPath(kind.records).Some? then LastPath(kind.records)
    else if Pseudo(kind) then pax
    else None
  }

  /** One turn of the loop: the carried path is replaced, kept, dropped, or used up. */
  method ProcessEntry(entry: Entry, pax: Option<string>) returns (step: Step)
    ensures step.Unreadable? <==> !Pseudo(entry.kind) && !IsLink(entry.kind) && pax == None && entry.path == None
    ensures step.Continue? ==> step.pax == PaxAfter(entry.kind, pax)
    ensures step.Continue? ==>
      Emission(entry, if pax.Some? then pax else entry.path) == if step.copied.Some? then [step.copied.value] else []
  {
    match entry.kind {
      case XHeader(records) =>
        var next := ReadHeader(records, pax);
        return Continue(next, None);
      case XGlobalHeader | GnuLongName | GnuLongLink => return Continue(pax, None);
      case Symlink | Link => return Continue(None, None);
      case _ =>
        var path := if pax.Some? then pax else entry.path;
        if path == None {
          return Unreadable;
        }
        var copied := CopyEntry(entry, path.value);
        return Continue(None, copied);
    }
  }

  lemma EntryTurn(entries: seq<Entry>, i: nat, copied: Option<Emitted>)
    requires i < |entries|
    requires Emission(entries[i], if PaxPath(entries, i).Some? then PaxPath(entries, i) else entries[i].path)
      == if copied.Some? then [copied.value] else []
    ensures PaxPath(entries, i + 1) == PaxAfter(entries[i].kind, PaxPath(entries, i))
    ensures EmitAll(entries, i + 1) ==
      if copied.Some? then EmitAll(entries, i) + [copied.value] else EmitAll(entries, i)
  {
  }

  lemma UnreadableEntry(entries: seq<Entry>, i: nat)
    requires i < |entries| && !Pseudo(entries[i].kind) && !IsLink(entries[i].kind)
    requires PaxPath(entries, i) == None && entries[i].path == None
    ensures !Readable(entries, |entries|)
  {
    assert Copied(entries, i);
  }

  lemma ReadableEntry(entries: seq<Entry>, i: nat)
    requires i < |entries| && Readable(entries, i)
    requires !Pseudo(entries[i].kind) && !IsLink(entries[i].kind) ==>
      PaxPath(entries, i) != None || entries[i].path != None
    ensures Readable(entries, i + 1)
  {
  }

  /** The loop with the carried pax path maps every entry on its own, and fails only on an unreadable path. */
  method Repackage(entries: seq<Entry>) returns (r: Result)
    ensures r.Ok? <==> Readable(entries, |entries|)
    ensures r.Ok? ==> r.out == EmitAll(entries, |entries|) && r.files == FilesIn(r.out)
  {
    var pax: Option<string>, files, out := None, 0, [];
    for i := 0 to |entries|
      invariant Readable(entries, i) && pax == PaxPath(entries, i)
      invariant out == EmitAll(entries, i) && files == FilesIn(out)
    {
      var step := ProcessEntry(entries[i], pax);
      if step.Unreadable? {
        UnreadableEntry(entries, i);
        return Failed;
      }
      ReadableEntry(entries, i);
      EntryTurn(entries, i, step.copied);
      pax := step.pax;
      if step.copied.Some? {
        FilesSnoc(out, step.copied.value);
        files := files + if step.copied.value.kind.File? then 1 else 0;
        out := out + [step.copied.value];
      }
    }
    return Ok(out, files);
  }

  predicate SafeOutput(e: Emitted) {
    && !Pseudo(e.kind) && !IsLink(e.kind)
    && forall i :: 0 <= i < |Split(e.path, '/')| ==> SafeName(Split(e.path, '/')[i])
  }

  lemma EmissionIsSafe(e: Entry, name: Option<string>)
    ensures forall x :: x in Emission(e, name) ==> SafeOutput(x)
  {
    if Emission(e, name) != [] {
      StrippedIsSafe(name.value);
    }
  }

  /** Nothing but plain relative paths comes out, and no link or pseudo-entry. */
  lemma {:induction false} OutputIsSafe(entries: seq<Entry>, n: nat)
    requires n <= |entries|
    ensures forall x :: x in EmitAll(entries, n) ==> SafeOutput(x)
  {
    if n > 0 {
      OutputIsSafe(entries, n - 1);
      EmissionIsSafe(entries[n - 1], NameOf(entries, n - 1));
    }
  }

  lemma StrippedIsSafe(path: string)
    requires Stripped(path).Some?
    ensures forall i :: 0 <= i < |Split(Stripped(path).value, '/')| ==> SafeName(Split(Stripped(path).value, '/')[i])
  {
    var names := Names(BelowWrapper(Components(path)));
    ComponentNames(path);
    BelowIsSafe(Components(path));
    JoinThenSplit(names, '/');
  }

  lemma BelowIsSafe(components: seq<Component>)
    requires AllNormal(BelowWrapper(components))
    requires forall c :: c in components && c.Normal? ==> SafeName(c.name)
    ensures var names := Names(BelowWrapper(components));
      forall i :: 0 <= i < |names| ==> SafeName(names[i])
  {
    var below := BelowWrapper(components);
    forall i | 0 <= i < |below| ensures SafeName(below[i].name) {
      assert below[i] in components;
    }
  }

  /** A member of the tree being archived. */
  datatype Item = Item(kind: Kind, segments: seq<string>, content: string)

  predicate ItemOk(item: Item) {
    && !Pseudo(item.kind) && item.segments != []
    && forall i :: 0 <= i < |item.segments| ==> SafeName(item.segments[i])
  }

  /** How archivers differ: a leading `./`, the wrapper's name, which names need a header, what is left of those. */
  datatype Style = Style(dot: bool, wrapper: string, long: string -> bool, short: string -> Option<string>)

  function ArchivedName(style: Style, item: Item): string {
    Lead(style.dot) + style.wrapper + "/" + Join(item.segments, "/")
      + (if item.kind.Directory? then "/" else "")
  }

  function ArchiveOne(style: Style, item: Item): seq<Entry> {
    var name := ArchivedName(style, item);
    if style.long(name) then
      [Entry(XHeader([Record(Some("path"), Some(name))]), None, ""), Entry(item.kind, style.short(name), item.content)]
    else [Entry(item.kind, Some(name), item.content)]
  }

  /** A global header, the wrapper directory, then every item. */
  function Archive(style: Style, items: seq<Item>): seq<Entry> {
    if items == [] then
      [Entry(XGlobalHeader, None, ""),
       Entry(Directory, Some(Lead(style.dot) + style.wrapper + "/"), "")]
    else Archive(style, items[..|items| - 1]) + ArchiveOne(style, items[|items| - 1])
  }

  /** The items themselves, links left out. */
  function Unwrapped(items: seq<Item>): seq<Emitted> {
    if items == [] then []
    else
      var item := items[|items| - 1];
      Unwrapped(items[..|items| - 1])
        + if IsLink(item.kind) then [] else [Emitted(item.kind, Join(item.segments, "/"), item.content)]
  }

  lemma {:induction false} KeepBoth(a: seq<string>, b: seq<string>)
    ensures Keep(a + b) == Keep(a) + Keep(b)
  {
    if a == [] {
      assert a + b == b;
    } else {
      assert (a + b)[1..] == a[1..] + b;
      KeepBoth(a[1..], b);
    }
  }

  lemma {:induction false} KeepSafe(parts: seq<string>)
    requires forall i :: 0 <= i < |parts| ==> SafeName(parts[i])
    ensures AllNormal(Keep(parts)) && Names(Keep(parts)) == parts
  {
    if parts != [] {
      KeepSafe(parts[1..]);
      assert Keep(parts) == [Normal(parts[0])] + Keep(parts[1..]);
      assert Names(Keep(parts)) == [parts[0]] + Names(Keep(parts[1..]));
    }
  }

  lemma PlainWrapper(wrapper: string, rest: string)
    requires SafeName(wrapper)
    ensures Components(wrapper + "/" + rest) == [Normal(wrapper)] + Keep(Split(rest, '/'))
    ensures Keep(Split(wrapper + "/" + rest, '/')) == [Normal(wrapper)] + Keep(Split(rest, '/'))
  {
    var path := wrapper + "/" + rest;
    SplitAt(wrapper, '/', rest);
    SplitPlain(wrapper, '/');
    assert path[0] == wrapper[0];
    KeepBoth([wrapper], Split(rest, '/'));
    assert Keep([wrapper]) == [Normal(wrapper)];
  }

  lemma DottedComponents(plain: string)
    ensures Components("./" + plain) == [CurDir] + Keep(Split(plain, '/'))
  {
    var path := "." + ['/'] + plain;
    assert path == "./" + plain;
    SplitAt(".", '/', plain);
    SplitPlain(".", '/');
    assert Split(path, '/') == ["."] + Split(plain, '/');
    KeepBoth(["."], Split(plain, '/'));
    assert Keep(["."]) == [];
  }

  function Lead(dot: bool): string { if dot then "./" else "" }

  /** A path made of an optional dot, a wrapper and a rest has the rest's components below the wrapper. */
  lemma WrappedComponents(dot: bool, wrapper: string, rest: string)
    requires SafeName(wrapper)
    ensures BelowWrapper(Components(Lead(dot) + wrapper + "/" + rest)) == Keep(Split(rest, '/'))
  {
    var plain := wrapper + "/" + rest;
    Leading(wrapper, rest);
    LeadsIn(wrapper, Keep(Split(rest, '/')));
    if dot {
      assert Components("./" + plain) == [CurDir] + ([Normal(wrapper)] + Keep(Split(rest, '/'))) by {
        DottedComponents(plain);
        PlainWrapper(wrapper, rest);
      }
    } else {
      assert Components(plain) == [Normal(wrapper)] + Keep(Split(rest, '/')) by {
        PlainWrapper(wrapper, rest);
      }
    }
  }

  lemma Leading(wrapper: string, rest: string)
    ensures Lead(true) + wrapper + "/" + rest == "./" + (wrapper + "/" + rest)
    ensures Lead(false) + wrapper + "/" + rest == wrapper + "/" + rest
  {
  }

  lemma LeadsIn(wrapper: string, rest: seq<Component>)
    ensures BelowWrapper([Normal(wrapper)] + rest) == rest
    ensures BelowWrapper([CurDir] + ([Normal(wrapper)] + rest)) == rest
  {
  }

  lemma ItemComponents(item: Item)
    requires ItemOk(item)
    ensures var kept := Keep(Split(Join(item.segments, "/") + (if item.kind.Directory? then "/" else ""), '/'));
      AllNormal(kept) && Names(kept) == item.segments
  {
    var joined := Join(item.segments, "/");
    JoinThenSplit(item.segments, '/');
    KeepSafe(item.segments);
    if item.kind.Directory? {
      SplitAt(joined, '/', "");
      assert joined + ['/'] + "" == joined + "/";
      KeepBoth(item.segments, [""]);
      assert Keep([""]) == [];
    } else {
      assert joined + "" == joined;
    }
  }

  lemma ArchivedNameStrips(style: Style, item: Item)
    requires SafeName(style.wrapper) && ItemOk(item)
    ensures Stripped(ArchivedName(style, item)) == Some(Join(item.segments, "/"))
  {
    var rest := Join(item.segments, "/") + if item.kind.Directory? then "/" else "";
    assert ArchivedName(style, item) == Lead(style.dot) + style.wrapper + "/" + rest;
    WrappedComponents(style.dot, style.wrapper, rest);
    ItemComponents(item);
  }

  lemma WrapperItselfStrips(style: Style)
    requires SafeName(style.wrapper)
    ensures Stripped(Lead(style.dot) + style.wrapper + "/") == None
  {
    WrappedComponents(style.dot, style.wrapper, "");
    assert Lead(style.dot) + style.wrapper + "/" + "" == Lead(style.dot) + style.wrapper + "/";
    assert Keep([""]) == [];
  }

  lemma {:induction false} PrefixPax(a: seq<Entry>, longer: seq<Entry>, i: nat)
    requires a <= longer && i <= |a|
    ensures PaxPath(longer, i) == PaxPath(a, i)
  {
    if i > 0 {
      PrefixPax(a, longer, i - 1);
    }
  }

  lemma PrefixOne(a: seq<Entry>, longer: seq<Entry>, i: nat)
    requires a <= longer && i < |a|
    ensures Copied(longer, i) == Copied(a, i) && NameOf(longer, i) == NameOf(a, i)
  {
    PrefixPax(a, longer, i);
  }

  lemma SameEmission(a: seq<Entry>, longer: seq<Entry>, i: nat)
    requires a <= longer && i < |a|
    ensures EmitOne(longer, i) == EmitOne(a, i)
  {
    PrefixOne(a, longer, i);
  }

  lemma {:induction false} PrefixEmit(a: seq<Entry>, longer: seq<Entry>, n: nat)
    requires a <= longer && n <= |a|
    ensures EmitAll(longer, n) == EmitAll(a, n)
  {
    if n > 0 {
      PrefixEmit(a, longer, n - 1);
      SameEmission(a, longer, n - 1);
    }
  }

  lemma PrefixReadable(a: seq<Entry>, longer: seq<Entry>, n: nat)
    requires a <= longer && n <= |a|
    ensures Readable(longer, n) <==> Readable(a, n)
  {
    forall i | 0 <= i < n ensures Copied(longer, i) == Copied(a, i) && NameOf(longer, i) == NameOf(a, i) {
      PrefixOne(a, longer, i);
    }
  }

  /** Repackaging undoes archiving under a wrapper: same items, same order, same contents, links gone. */
  lemma {:induction false} UnwrapsArchive(style: Style, items: seq<Item>)
    requires SafeName(style.wrapper) && forall i :: 0 <= i < |items| ==> ItemOk(items[i])
    ensures var entries := Archive(style, items);
      && Readable(entries, |entries|) && PaxPath(entries, |entries|) == None
      && EmitAll(entries, |entries|) == Unwrapped(items)
  {
    var entries := Archive(style, items);
    var n := |entries|;
    if items == [] {
      WrapperItselfStrips(style);
      assert PaxPath(entries, 1) == PaxPath(entries, 0) == None;
      assert EmitAll(entries, 1) == EmitAll(entries, 0) + EmitOne(entries, 0) == [];
    } else {
      var before, item := Archive(style, items[..|items| - 1]), items[|items| - 1];
      UnwrapsArchive(style, items[..|items| - 1]);
      var added := ArchiveOne(style, item);
      PrefixEmit(before, entries, |before|);
      PrefixReadable(before, entries, |before|);
      PrefixPax(before, entries, |before|);
      ArchivedNameStrips(style, item);
      OneItem(style, item, entries, |before|);
    }
  }

  lemma OneItem(style: Style, item: Item, entries: seq<Entry>, at: nat)
    requires ItemOk(item) && at <= |entries| && entries[at..] == ArchiveOne(style, item)
    requires Stripped(ArchivedName(style, item)) == Some(Join(item.segments, "/"))
    requires PaxPath(entries, at) == None && Readable(entries, at)
    ensures Readable(entries, |entries|) && PaxPath(entries, |entries|) == None
    ensures EmitAll(entries, |entries|) == EmitAll(entries, at)
      + if IsLink(item.kind) then [] else [Emitted(item.kind, Join(item.segments, "/"), item.content)]
  {
    var name := ArchivedName(style, item);
    assert entries[at] == entries[at..][0];
    if style.long(name) {
      assert entries[at + 1] == entries[at..][1];
      HeaderNames(entries, at, name);
      LastItem(item, entries, at + 1, name);
    } else {
      LastItem(item, entries, at, name);
    }
  }

  lemma HeaderNames(entries: seq<Entry>, at: nat, name: string)
    requires at < |entries| && entries[at].kind == XHeader([Record(Some("path"), Some(name))])
    ensures PaxPath(entries, at + 1) == Some(name) && EmitAll(entries, at + 1) == EmitAll(entries, at)
    ensures Readable(entries, at) ==> Readable(entries, at + 1)
  {
    assert LastPath([Record(Some("path"), Some(name))]) == Some(name);
    EntryTurn(entries, at, None);
  }

  lemma ItemEmission(item: Item, e: Entry, name: string)
    requires !Pseudo(item.kind) && e.kind == item.kind && e.content == item.content
    requires Stripped(name) == Some(Join(item.segments, "/"))
    ensures Emission(e, Some(name))
      == if IsLink(item.kind) then [] else [Emitted(item.kind, Join(item.segments, "/"), item.content)]
  {
  }

  lemma LastItem(item: Item, entries: seq<Entry>, at: nat, name: string)
    requires !Pseudo(item.kind) && |entries| == at + 1
    requires entries[at].kind == item.kind && entries[at].content == item.content
    requires NameOf(entries, at) == Some(name) && Stripped(name) == Some(Join(item.segments, "/"))
    requires Readable(entries, at)
    ensures Readable(entries, at + 1) && PaxPath(entries, at + 1) == None
    ensures EmitAll(entries, at + 1) == EmitAll(entries, at)
      + if IsLink(item.kind) then [] else [Emitted(item.kind, Join(item.segments, "/"), item.content)]
  {
    ItemEmission(item, entries[at], name);
  }
}
