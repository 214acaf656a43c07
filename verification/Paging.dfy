/** Keyset pagination of the pipeline list: cursors, pages, and what following them returns. */
module Paging {
  import opened Options
  import opened OrderedScan
  import opened Limits
  import Rfc3339
  import UuidText

  type Time = Rfc3339.Time
  type Id = UuidText.Uuid

  /** What the list is ordered by: creation time, then id. */
  datatype Key = Key(at: Time, id: Id)

  predicate Newer(a: Key, b: Key) {
    a.at > b.at || (a.at == b.at && a.id > b.id)
  }

  datatype Result<T> = Ok(value: T) | Invalid

  function FormatCursor(key: Key): (raw: string)
    ensures |raw| <= 69
  {
    Rfc3339.Print(key.at) + "~" + UuidText.Print(key.id)
  }

  /** `str::split_once`: the text around the first occurrence of a character. */
  function SplitOnce(s: string, c: char): (r: Option<(string, string)>)
    ensures r == None <==> c !in s
    ensures r.Some? ==> s == r.value.0 + [c] + r.value.1 && c !in r.value.0
  {
    if s == "" then None
    else if s[0] == c then Some(("", s[1..]))
    else match SplitOnce(s[1..], c)
      case None => None
      case Some(parts) => Some(([s[0]] + parts.0, parts.1))
  }

  lemma {:induction false} SplitOnceUnique(a: string, c: char, b: string)
    requires c !in a
    ensures SplitOnce(a + [c] + b, c) == Some((a, b))
  {
    if a == "" {
      assert a + [c] + b == [c] + b;
    } else {
      assert (a + [c] + b)[1..] == a[1..] + [c] + b;
      SplitOnceUnique(a[1..], c, b);
      assert [a[0]] + a[1..] == a;
    }
  }

  function ParseCursor(raw: string): Result<Key> {
    if |raw| > 128 then Invalid else
    match SplitOnce(raw, '~')
    case None => Invalid
    case Some(parts) =>
      match Rfc3339.Parse(parts.0)
      case None => Invalid
      case Some(at) =>
        match UuidText.Parse(parts.1)
        case None => Invalid
        case Some(id) => Ok(Key(at, id))
  }

  /** Whatever cursor the server prints, it parses back to the same key. */
  lemma CursorRoundTrip(key: Key)
    ensures ParseCursor(FormatCursor(key)) == Ok(key)
  {
    Rfc3339.RoundTrip(key.at);
    UuidText.RoundTrip(key.id);
    Rfc3339.PrintedChars(key.at);
    SplitOnceUnique(Rfc3339.Print(key.at), '~', UuidText.Print(key.id));
  }

  /** What a cursor text has to be: at most 128 characters, and around its first `~` a time and an id. */
  lemma CursorParsesIff(raw: string, key: Key)
    ensures ParseCursor(raw) == Ok(key) <==>
      |raw| <= 128 && exists a, b ::
        && raw == a + "~" + b && '~' !in a
        && Rfc3339.Parse(a) == Some(key.at) && UuidText.Parse(b) == Some(key.id)
  {
    if ParseCursor(raw) == Ok(key) {
      var parts := SplitOnce(raw, '~').value;
      assert raw == parts.0 + "~" + parts.1;
    }
    forall a, b | raw == a + "~" + b && '~' !in a ensures SplitOnce(raw, '~') == Some((a, b)) {
      SplitOnceUnique(a, '~', b);
    }
  }

  /** The printer and the parser a cursor goes through between two requests. */
  datatype Codec = Codec(format: Key -> string, parse: string -> Result<Key>)

  ghost predicate Faithful(codec: Codec) {
    forall key {:trigger codec.format(key)} :: codec.parse(codec.format(key)) == Ok(key)
  }

  /** The server's own. */
  const CURSORS: Codec := Codec(FormatCursor, ParseCursor)

  lemma CursorsAreFaithful()
    ensures Faithful(CURSORS)
  {
    forall key ensures CURSORS.parse(CURSORS.format(key)) == Ok(key) {
      CursorRoundTrip(key);
    }
  }

  /** The rows the filter selects that come after the cursor. */
  function After(rows: set<Key>, cursor: Option<Key>): set<Key> {
    set k | k in rows && (cursor.Some? ==> Newer(cursor.value, k))
  }

  function ListPage(rows: set<Key>, cursor: Option<Key>, limit: int): seq<Key> {
    Take(Scan(Newer, After(rows, cursor)), Clamp(limit, 1, 100))
  }

  datatype Response = Response(rows: seq<Key>, next: Option<string>)

  function PageSize(limit: Option<int>): (n: nat)
    ensures 1 <= n <= 100
  {
    Clamp(if limit.Some? then limit.value else 50, 1, 100)
  }

  function Printed(codec: Codec, cursor: Option<Key>): Option<string> {
    if cursor.Some? then Some(codec.format(cursor.value)) else None
  }

  /** The cursor of a full page is its last row, a short page has none. */
  function NextCursor(page: seq<Key>, n: nat): Option<Key>
    requires n >= 1
  {
    if |page| == n then Some(page[n - 1]) else None
  }

  function Respond(codec: Codec, rows: set<Key>, cursor: Option<Key>, n: nat): Response
    requires n >= 1
  {
    Response(ListPage(rows, cursor, n), Printed(codec, NextCursor(ListPage(rows, cursor, n), n)))
  }

  /** The list handler, over the rows its filter selects. */
  function List(codec: Codec, rows: set<Key>, cursor: Option<string>, limit: Option<int>): Result<Response> {
    if cursor == None then Ok(Respond(codec, rows, None, PageSize(limit)))
    else
      match codec.parse(cursor.value)
      case Invalid => Invalid
      case Ok(key) => Ok(Respond(codec, rows, Some(key), PageSize(limit)))
  }

  /** Rows are only ever added to the selection while a client pages through it. */
  ghost predicate Grows(at: nat -> set<Key>) {
    forall i, j {:trigger at(i), at(j)} :: i <= j ==> at(i) <= at(j)
  }

  ghost predicate Fixed(at: nat -> set<Key>) { forall i :: at(i) == at(0) }

  function Rows(pages: seq<seq<Key>>): seq<Key> {
    if pages == [] then [] else Rows(pages[..|pages| - 1]) + pages[|pages| - 1]
  }

  /** The cursor page `i` is asked for with. */
  function CursorFor(pages: seq<seq<Key>>, i: nat, n: nat): Option<Key>
    requires i <= |pages| && n >= 1
  {
    if i == 0 then None else NextCursor(pages[i - 1], n)
  }

  ghost predicate Turn(at: nat -> set<Key>, n: nat, pages: seq<seq<Key>>, i: nat)
    requires i < |pages| && n >= 1
  {
    pages[i] == ListPage(at(i), CursorFor(pages, i, n), n) && (i > 0 ==> |pages[i - 1]| == n)
  }

  /** Pages of size n, each fetched after the last key of the one before, which was full. */
  ghost predicate Chain(at: nat -> set<Key>, n: nat, pages: seq<seq<Key>>)
    requires n >= 1
  {
    forall i {:trigger Turn(at, n, pages, i)} :: 0 <= i < |pages| ==> Turn(at, n, pages, i)
  }

  predicate Descending(s: seq<Key>) {
    forall i, j :: 0 <= i < j < |s| ==> Newer(s[i], s[j])
  }

  lemma PrefixIs(keys: set<Key>, left: seq<Key>, n: nat, page: seq<Key>)
    requires Descending(left) && n >= 1 && page == Take(left, n)
    requires forall k :: k in left <==> k in keys
    ensures Descending(page) && |page| <= n
    ensures forall k :: k in page ==> k in keys
    ensures forall k :: k in keys && k !in page ==> |page| == n && Newer(page[n - 1], k)
  {
    assert forall i :: 0 <= i < |page| ==> page[i] == left[i] && left[i] in left && left[i] in page;
    forall k | k in keys && k !in page ensures |page| == n && Newer(page[n - 1], k) {
      var i :| 0 <= i < |left| && left[i] == k;
      assert i >= |page|;
    }
  }

  /** A page in terms of the rows after the cursor: the first of them, all of them if it is short. */
  lemma PageIs(rows: set<Key>, cursor: Option<Key>, n: nat, page: seq<Key>)
    requires 1 <= n <= 100 && page == ListPage(rows, cursor, n)
    ensures Descending(page) && |page| <= n
    ensures forall k :: k in page ==> k in After(rows, cursor)
    ensures forall k :: k in After(rows, cursor) && k !in page ==> |page| == n && Newer(page[n - 1], k)
  {
    var keys := After(rows, cursor);
    ScanLists(Newer, keys);
    PrefixIs(keys, Scan(Newer, keys), n, page);
  }

  /** The pages so far hold, once each and newest first, everything up to the cursor. */
  ghost predicate Covered(first: set<Key>, now: set<Key>, all: seq<Key>, cursor: Option<Key>) {
    && Descending(all) && (forall k :: k in all ==> k in now)
    && (if cursor == None then all == [] else all != [] && all[|all| - 1] == cursor.value)
    && (forall k :: k in first && k !in all ==> k in After(first, cursor))
  }

  lemma PageFollows(now: set<Key>, all: seq<Key>, cursor: Option<Key>, page: seq<Key>)
    requires Descending(all) && Descending(page)
    requires if cursor == None then all == [] else all != [] && all[|all| - 1] == cursor.value
    requires forall k :: k in page ==> k in After(now, cursor)
    ensures Descending(all + page)
  {
    forall i, j | 0 <= i < j < |all + page| ensures Newer((all + page)[i], (all + page)[j]) {
      if i < |all| <= j {
        assert page[j - |all|] in page;
      }
    }
  }

  lemma PageCovers(first: set<Key>, now: set<Key>, all: seq<Key>, cursor: Option<Key>, page: seq<Key>, n: nat)
    requires Covered(first, now, all, cursor) && first <= now
    requires 1 <= n <= 100 && page == ListPage(now, cursor, n)
    ensures Descending(all + page) && forall k :: k in all + page ==> k in now
    ensures |page| <= n
    ensures |page| == n ==> Covered(first, now, all + page, Some(page[n - 1]))
    ensures |page| < n ==> forall k :: k in first ==> k in all + page
  {
    PageIs(now, cursor, n, page);
    PageFollows(now, all, cursor, page);
    forall k | k in first && k !in all + page ensures |page| == n && k in After(first, Some(page[n - 1])) {
      assert k in After(now, cursor);
    }
  }

  lemma RowsSnoc(pages: seq<seq<Key>>, k: nat)
    requires k < |pages|
    ensures Rows(pages[..k + 1]) == Rows(pages[..k]) + pages[k]
  {
    assert pages[..k + 1][..k] == pages[..k];
  }

  /** The first k pages, all full, hold everything up to the cursor of the last one. */
  lemma {:induction false} PagesCover(at: nat -> set<Key>, n: nat, pages: seq<seq<Key>>, k: nat)
    requires 1 <= n <= 100 && Grows(at) && Chain(at, n, pages)
    requires k <= |pages| && (k > 0 ==> |pages[k - 1]| == n)
    ensures |Rows(pages[..k])| == k * n
    ensures Covered(at(0), at(k), Rows(pages[..k]), CursorFor(pages, k, n))
  {
    if k > 0 {
      assert Turn(at, n, pages, k - 1);
      PagesCover(at, n, pages, k - 1);
      PageCovers(at(0), at(k - 1), Rows(pages[..k - 1]), CursorFor(pages, k - 1, n), pages[k - 1], n);
      RowsSnoc(pages, k - 1);
      assert at(k - 1) <= at(k);
    }
  }

  lemma ChainEnds(at: nat -> set<Key>, n: nat, pages: seq<seq<Key>>)
    requires 1 <= n <= 100 && Grows(at) && Chain(at, n, pages) && pages != [] && |pages[|pages| - 1]| != n
    ensures Descending(Rows(pages)) && at(0) <= (set k | k in Rows(pages)) <= at(|pages| - 1)
    ensures (|pages| - 1) * n <= |Rows(pages)| < |pages| * n
  {
    var k := |pages| - 1;
    assert Turn(at, n, pages, k);
    PagesCover(at, n, pages, k);
    PageCovers(at(0), at(k), Rows(pages[..k]), CursorFor(pages, k, n), pages[k], n);
    RowsSnoc(pages, k);
    assert pages[..k + 1] == pages;
  }

  lemma IsScan(rows: set<Key>, all: seq<Key>)
    requires Descending(all) && rows == set k | k in all
    ensures all == Scan(Newer, rows) && |all| == |rows|
  {
    ScanLists(Newer, rows);
    ListingUnique(Newer, all, Scan(Newer, rows), rows);
  }

  lemma SameRows(first: set<Key>, last: set<Key>, all: seq<Key>)
    requires Descending(all) && first <= (set k | k in all) <= last && first == last
    ensures all == Scan(Newer, first) && |all| == |first|
  {
    IsScan(first, all);
  }

  lemma AtMost(rows: set<Key>, all: seq<Key>)
    requires Descending(all) && forall k :: k in all ==> k in rows
    ensures |all| <= |rows|
  {
    IsScan((set k | k in all), all);
    Within((set k | k in all), rows);
  }

  lemma Within(a: set<Key>, b: set<Key>)
    requires a <= b
    ensures |a| <= |b|
  {
    assert b == a + (b - a);
  }

  /** One request and its answer; `i` is also the moment it is served. */
  ghost predicate Asked(codec: Codec, at: nat -> set<Key>, limit: Option<int>, pages: seq<Response>, i: nat)
    requires i < |pages|
  {
    if i == 0 then List(codec, at(0), None, limit) == Ok(pages[0])
    else pages[i - 1].next.Some? && List(codec, at(i), pages[i - 1].next, limit) == Ok(pages[i])
  }

  /** A client that starts without a cursor and follows each one it is given. */
  ghost predicate Follows(codec: Codec, at: nat -> set<Key>, limit: Option<int>, pages: seq<Response>) {
    forall i {:trigger Asked(codec, at, limit, pages, i)} :: 0 <= i < |pages| ==> Asked(codec, at, limit, pages, i)
  }

  function RowsOf(pages: seq<Response>): seq<seq<Key>> { seq(|pages|, i requires 0 <= i < |pages| => pages[i].rows) }

  /** A cursor the server printed leads on from the row it was printed for. */
  lemma Answer(codec: Codec, rows: set<Key>, cursor: Option<Key>, limit: Option<int>)
    requires Faithful(codec)
    ensures List(codec, rows, Printed(codec, cursor), limit) == Ok(Respond(codec, rows, cursor, PageSize(limit)))
  {
    if cursor.Some? {
      CursorRoundTrip(cursor.value);
    }
  }

  /** A response carries the cursor of its own page. */
  predicate EndsRight(codec: Codec, n: nat, response: Response)
    requires n >= 1
  {
    response.next == Printed(codec, NextCursor(response.rows, n))
  }

  lemma AnswerEndsRight(codec: Codec, rows: set<Key>, raw: Option<string>, limit: Option<int>, response: Response)
    requires List(codec, rows, raw, limit) == Ok(response)
    ensures EndsRight(codec, PageSize(limit), response)
  {
  }

  lemma FollowedAnswer(codec: Codec, rows: set<Key>, previous: Response, limit: Option<int>, response: Response)
    requires Faithful(codec)
    requires EndsRight(codec, PageSize(limit), previous) && previous.next.Some?
    requires List(codec, rows, previous.next, limit) == Ok(response)
    ensures |previous.rows| == PageSize(limit)
    ensures response.rows == ListPage(rows, NextCursor(previous.rows, PageSize(limit)), PageSize(limit))
  {
    Answer(codec, rows, NextCursor(previous.rows, PageSize(limit)), limit);
  }

  /** The cursors are read back, so the responses chain. */
  lemma FollowsTurn(codec: Codec, at: nat -> set<Key>, limit: Option<int>, pages: seq<Response>, i: nat)
    requires Faithful(codec) && Follows(codec, at, limit, pages) && i < |pages|
    ensures EndsRight(codec, PageSize(limit), pages[i]) && Turn(at, PageSize(limit), RowsOf(pages), i)
  {
    assert Asked(codec, at, limit, pages, i);
    AnswerEndsRight(codec, at(i), if i == 0 then None else pages[i - 1].next, limit, pages[i]);
    if i > 0 {
      assert Asked(codec, at, limit, pages, i - 1);
      AnswerEndsRight(codec, at(i - 1), if i == 1 then None else pages[i - 2].next, limit, pages[i - 1]);
      FollowedAnswer(codec, at(i), pages[i - 1], limit, pages[i]);
    }
  }

  lemma FollowsIsChain(codec: Codec, at: nat -> set<Key>, limit: Option<int>, pages: seq<Response>)
    requires Faithful(codec) && Follows(codec, at, limit, pages)
    ensures Chain(at, PageSize(limit), RowsOf(pages))
    ensures pages != [] ==> EndsRight(codec, PageSize(limit), pages[|pages| - 1])
  {
    forall i | 0 <= i < |RowsOf(pages)| ensures Turn(at, PageSize(limit), RowsOf(pages), i) {
      FollowsTurn(codec, at, limit, pages, i);
    }
    if pages != [] {
      FollowsTurn(codec, at, limit, pages, |pages| - 1);
    }
  }

  lemma ScanOf(codec: Codec, at: nat -> set<Key>, limit: Option<int>, pages: seq<Response>)
    requires Faithful(codec) && Grows(at) && Follows(codec, at, limit, pages)
    requires pages != [] && pages[|pages| - 1].next == None
    ensures var all := Rows(RowsOf(pages));
      && Descending(all) && at(0) <= (set k | k in all) <= at(|pages| - 1)
      && (Fixed(at) ==> all == Scan(Newer, at(0)))
      && (Fixed(at) ==> (|pages| - 1) * PageSize(limit) <= |at(0)| < |pages| * PageSize(limit))
  {
    FollowsIsChain(codec, at, limit, pages);
    ChainEnds(at, PageSize(limit), RowsOf(pages));
    if Fixed(at) {
      SameRows(at(0), at(|pages| - 1), Rows(RowsOf(pages)));
    }
  }

  lemma CursorsRunOut(codec: Codec, at: nat -> set<Key>, limit: Option<int>, pages: seq<Response>)
    requires Faithful(codec) && Grows(at) && Follows(codec, at, limit, pages)
    requires pages != [] && pages[|pages| - 1].next.Some?
    ensures List(codec, at(|pages|), pages[|pages| - 1].next, limit).Ok?
    ensures Fixed(at) ==> |pages| * PageSize(limit) <= |at(0)|
  {
    FollowsIsChain(codec, at, limit, pages);
    Answer(codec, at(|pages|), NextCursor(pages[|pages| - 1].rows, PageSize(limit)), limit);
    if Fixed(at) {
      PagesCover(at, PageSize(limit), RowsOf(pages), |pages|);
      assert RowsOf(pages)[..|pages|] == RowsOf(pages);
      AtMost(at(0), Rows(RowsOf(pages)));
    }
  }

  /**
   * Following the server's cursors to the end returns everything that was there at the start, newest first and
   * nothing twice; over rows that do not change it is one scan, in a number of requests known beforehand.
   */
  lemma PagingIsOneScan(at: nat -> set<Key>, limit: Option<int>, pages: seq<Response>)
    requires Grows(at) && Follows(CURSORS, at, limit, pages)
    requires pages != [] && pages[|pages| - 1].next == None
    ensures var all := Rows(RowsOf(pages));
      && Descending(all) && at(0) <= (set k | k in all) <= at(|pages| - 1)
      && (Fixed(at) ==> all == Scan(Newer, at(0)))
      && (Fixed(at) ==> (|pages| - 1) * PageSize(limit) <= |at(0)| < |pages| * PageSize(limit))
  {
    CursorsAreFaithful();
    ScanOf(CURSORS, at, limit, pages);
  }

  /** By time of creation, latest first; of equal times the larger id first. */
  predicate NewestFirst(s: seq<Key>) {
    forall i, j :: 0 <= i < j < |s| ==> s[i].at >= s[j].at && (s[i].at == s[j].at ==> s[i].id > s[j].id)
  }

  /** The rows a client collects come newest first. */
  lemma PagingIsNewestFirst(at: nat -> set<Key>, limit: Option<int>, pages: seq<Response>)
    requires Grows(at) && Follows(CURSORS, at, limit, pages)
    requires pages != [] && pages[|pages| - 1].next == None
    ensures NewestFirst(Rows(RowsOf(pages)))
  {
    PagingIsOneScan(at, limit, pages);
  }

  /** The first page is what was created last: as many rows as asked for, 50 if nothing is asked, at least 1 and
      at most 100, or all there are; and no row left off it was created later than a row on it. */
  lemma FirstPageIsLatest(rows: set<Key>, limit: Option<int>, answer: Response)
    requires List(CURSORS, rows, None, limit) == Ok(answer)
    ensures NewestFirst(answer.rows) && forall k :: k in answer.rows ==> k in rows
    ensures forall left, on :: left in rows && left !in answer.rows && on in answer.rows ==>
      left.at <= on.at && (left.at == on.at ==> left.id < on.id)
    ensures var asked := if limit == None then 50 else limit.value;
      var n := if asked < 1 then 1 else if asked > 100 then 100 else asked;
      |answer.rows| == if |rows| < n then |rows| else n
  {
    SizeOfPage(rows, None, PageSize(limit));
    FirstPageRows(rows, PageSize(limit), answer.rows);
  }

  /** The query clamps its limit, whatever it is given. */
  lemma SizeOfPage(rows: set<Key>, cursor: Option<Key>, limit: int)
    ensures var n := if limit < 1 then 1 else if limit > 100 then 100 else limit;
      |ListPage(rows, cursor, limit)| == if |After(rows, cursor)| < n then |After(rows, cursor)| else n
    ensures cursor == None ==> After(rows, cursor) == rows
  {
    ScanLists(Newer, After(rows, cursor));
  }

  lemma FirstPageRows(rows: set<Key>, n: nat, page: seq<Key>)
    requires 1 <= n <= 100 && page == ListPage(rows, None, n)
    ensures Descending(page) && forall k :: k in page ==> k in rows
    ensures forall left, on :: left in rows && left !in page && on in page ==> Newer(on, left)
  {
    assert After(rows, None) == rows;
    PageIs(rows, None, n, page);
    forall left, on | left in rows && left !in page && on in page ensures Newer(on, left) {
      var i :| 0 <= i < |page| && page[i] == on;
      assert i < |page| - 1 ==> Newer(page[i], page[|page| - 1]);
    }
  }

  /** A later page starts below the row its cursor was printed for: nothing on it was created later. */
  lemma LaterPageIsOlder(rows: set<Key>, last: Key, limit: Option<int>, answer: Response, k: Key)
    requires List(CURSORS, rows, Some(FormatCursor(last)), limit) == Ok(answer) && k in answer.rows
    ensures k in rows && k.at <= last.at && (k.at == last.at ==> k.id < last.id)
  {
    CursorRoundTrip(last);
    PageIs(rows, Some(last), PageSize(limit), answer.rows);
  }

  /** A cursor the server printed is always accepted, and over rows that do not change they run out. */
  lemma PagingGoesOn(at: nat -> set<Key>, limit: Option<int>, pages: seq<Response>)
    requires Grows(at) && Follows(CURSORS, at, limit, pages)
    requires pages != [] && pages[|pages| - 1].next.Some?
    ensures List(CURSORS, at(|pages|), pages[|pages| - 1].next, limit).Ok?
    ensures Fixed(at) ==> |pages| * PageSize(limit) <= |at(0)|
  {
    CursorsAreFaithful();
    CursorsRunOut(CURSORS, at, limit, pages);
  }

  lemma FollowsSnoc(codec: Codec, at: nat -> set<Key>, limit: Option<int>, pages: seq<Response>, next: Response)
    requires Follows(codec, at, limit, pages) && (pages != [] ==> pages[|pages| - 1].next.Some?)
    requires List(codec, at(|pages|), if pages == [] then None else pages[|pages| - 1].next, limit) == Ok(next)
    ensures Follows(codec, at, limit, pages + [next])
  {
    var longer := pages + [next];
    forall i | 0 <= i < |longer| ensures Asked(codec, at, limit, longer, i) {
      if i < |pages| {
        assert Asked(codec, at, limit, pages, i);
      }
    }
  }

  lemma {:induction false} FollowingEnds(codec: Codec, at: nat -> set<Key>, limit: Option<int>, pages: seq<Response>)
    returns (all: seq<Response>)
    requires Faithful(codec) && Fixed(at) && Grows(at) && Follows(codec, at, limit, pages)
    requires pages == [] || pages[|pages| - 1].next.Some?
    ensures Follows(codec, at, limit, all) && all != [] && all[|all| - 1].next == None
    decreases |at(0)| - |pages|
  {
    var raw := if pages == [] then None else pages[|pages| - 1].next;
    if pages != [] {
      CursorsRunOut(codec, at, limit, pages);
    }
    var next := List(codec, at(|pages|), raw, limit).value;
    all := pages + [next];
    FollowsSnoc(codec, at, limit, pages, next);
    if next.next.Some? {
      CursorsRunOut(codec, at, limit, all);
      AtLeastOneEach(|all|, PageSize(limit), |at(0)|);
      all := FollowingEnds(codec, at, limit, all);
    }
  }

  lemma AtLeastOneEach(k: nat, n: nat, total: nat)
    requires n >= 1 && k * n <= total
    ensures k <= total
  {
  }

  /** So over rows that do not change a client that keeps following does reach the end. */
  lemma PagingEnds(at: nat -> set<Key>, limit: Option<int>) returns (all: seq<Response>)
    requires Fixed(at) && Grows(at)
    ensures Follows(CURSORS, at, limit, all) && all != [] && all[|all| - 1].next == None
  {
    CursorsAreFaithful();
    all := FollowingEnds(CURSORS, at, limit, []);
  }
}
