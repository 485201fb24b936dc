/** Listings served page by page, and the "next" links between the pages. */
module PageLinks {
  import opened Wrappers
  import opened Directories
  import opened Storage
  import opened QueryCodec

  /** The two sides of a "next" link: reading a query, and writing the link to the page after the one read. */
  datatype Codec = Codec(read: Values -> Option<Options>, next: Options -> Values)

  /** A link is read back as the next page of the same listing. */
  ghost predicate Faithful(c: Codec) {
    forall o :: c.read(c.next(o)) == Some(NextPage(o))
  }

  function NextPage(o: Options): Options {
    Options(o.withDeleted, o.GetPage() + 1, o.GetPageSize())
  }

  function ReadQuery(query: Values): Option<Options> {
    var options := StorageOptionsFromQuery(query);
    if options.Ok? then Some(Built(options.value)) else None
  }

  function NextValues(o: Options): Values {
    StorageOptionsToValues(o, o.GetPage() + 1)
  }

  /** The server's own codec. */
  function ServerCodec(): Codec {
    Codec(ReadQuery, NextValues)
  }

  lemma NextIsRead(o: Options)
    ensures ReadQuery(NextValues(o)) == Some(NextPage(o))
  {
    NextRoundTrip(o);
  }

  lemma ServerCodecFaithful()
    ensures Faithful(ServerCodec())
  {
    forall o: Options
      ensures ServerCodec().read(ServerCodec().next(o)) == Some(NextPage(o))
    {
      NextIsRead(o);
    }
  }

  datatype PageResponse = PageResponse(rows: seq<DirectoryID>, page: nat, pageSize: nat, next: Option<Values>)

  /** A page as full as it may be links to the next one. */
  function PaginationResponse(c: Codec, rows: seq<DirectoryID>, o: Options): PageResponse {
    PageResponse(rows, o.GetPage(), o.GetPageSize(), if |rows| == o.GetPageSize() then Some(c.next(o)) else None)
  }

  /** What a list handler answers to a query it reads as `o`, when the store's whole list is `list(withDeleted)`. */
  function Respond(c: Codec, list: bool -> seq<DirectoryID>, o: Options): PageResponse {
    PaginationResponse(c, PageOf(list(o.withDeleted), o), o)
  }

  /**
   The page number and size in a response locate its rows in the list, and it links on exactly when the list reaches
   the next page's start.
   */
  lemma ResponseLocatesRows(c: Codec, list: bool -> seq<DirectoryID>, o: Options)
    ensures
      var all, r := list(o.withDeleted), Respond(c, list, o);
      && r.page >= 1
      && (forall i | 0 <= i < |r.rows| ::
           Offset(r.pageSize, r.page) + i < |all| && r.rows[i] == all[Offset(r.pageSize, r.page) + i])
      && (r.next.Some? <==> |all| >= Offset(r.pageSize, r.page + 1))
  {
    PageOfMeaning(list(o.withDeleted), o);
  }

  /** Rows of `all` from the page that `o` selects on. */
  function RowsLeft(all: seq<DirectoryID>, o: Options): nat {
    if o.GetPageOffset() > |all| then 0 else |all| - o.GetPageOffset()
  }

  /** The first `size` of the last `left` rows of `all`. */
  function Slice(all: seq<DirectoryID>, left: nat, size: nat): seq<DirectoryID>
    requires left <= |all|
  {
    all[|all| - left..][..Min(left, size)]
  }

  lemma PageIsSlice(all: seq<DirectoryID>, o: Options)
    ensures RowsLeft(all, o) <= |all| && PageOf(all, o) == Slice(all, RowsLeft(all, o), o.GetPageSize())
    ensures RowsLeft(all, o) >= o.GetPageSize() ==> RowsLeft(all, NextPage(o)) == RowsLeft(all, o) - o.GetPageSize()
  {
    NextOffset(o.GetPageSize(), o.GetPage());
  }

  /** A listing, with or without deleted directories. */
  type Listing = bool -> seq<DirectoryID>

  /**
   `queries` is what a client sends that starts with `queries[0]` and follows each "next" link to the end;
   `lists` are the listings that the requests find, in turn, and `rows` is everything the client receives.
   */
  ghost predicate Session(c: Codec, lists: seq<Listing>, queries: seq<Values>, rows: seq<DirectoryID>)
    decreases |queries|
  {
    && queries != [] && |lists| == |queries|
    && c.read(queries[0]).Some?
    && var r := Respond(c, lists[0], c.read(queries[0]).value);
       && r.rows <= rows
       && if r.next.None? then |queries| == 1 && rows == r.rows
          else |queries| > 1 && queries[1] == r.next.value && Session(c, lists[1..], queries[1..], rows[|r.rows|..])
  }

  /** From one request to the next the listing may only be added to at its end. */
  ghost predicate Growing(lists: seq<Listing>, withDeleted: bool) {
    forall i, j | 0 <= i < j < |lists| :: lists[i](withDeleted) <= lists[j](withDeleted)
  }

  function Last(lists: seq<Listing>): Listing
    requires lists != []
  {
    lists[|lists| - 1]
  }

  lemma SliceFirst(all: seq<DirectoryID>, left: nat, size: nat)
    requires size <= left <= |all|
    ensures all[|all| - left..] == Slice(all, left, size) + all[|all| - (left - size)..]
  {
  }

  lemma QuotientOf(n: nat, d: nat, q: nat, r: nat)
    requires r < d && n == q * d + r
    ensures n / d == q
  {
    var p := n / d;
    assert n == p * d + n % d;
    if p < q {
      TimesMonotone(p + 1, q, d);
    } else if q < p {
      TimesMonotone(q + 1, p, d);
    }
  }

  lemma TimesMonotone(a: nat, b: nat, d: nat)
    requires a <= b
    ensures a * d <= b * d
  {
  }

  lemma QuotientStep(n: nat, d: nat)
    requires 0 < d <= n
    ensures n / d == (n - d) / d + 1
  {
    var q, r := (n - d) / d, (n - d) % d;
    assert n - d == q * d + r;
    assert (q + 1) * d == q * d + d;
    QuotientOf(n, d, q + 1, r);
  }

  /** Requests to drain `left` rows, `size` at a time, until one is answered with less. */
  function Requests(left: nat, size: nat): nat
    requires size > 0
  {
    if left < size then 1 else 1 + Requests(left - size, size)
  }

  lemma {:induction false} RequestsCount(left: nat, size: nat)
    requires size > 0
    ensures Requests(left, size) == left / size + 1
  {
    if left < size {
      QuotientOf(left, size, 0, left);
    } else {
      RequestsCount(left - size, size);
      QuotientStep(left, size);
    }
  }

  /** The same session seen as options: how many pages and which rows remain. */
  ghost predicate Drains(all: seq<DirectoryID>, o: Options, requests: nat, rows: seq<DirectoryID>) {
    && rows == all[|all| - Min(RowsLeft(all, o), |all|)..]
    && requests == Requests(RowsLeft(all, o), o.GetPageSize())
  }

  lemma DrainsLast(all: seq<DirectoryID>, o: Options)
    requires |PageOf(all, o)| != o.GetPageSize()
    ensures Drains(all, o, 1, PageOf(all, o))
  {
    PageIsSlice(all, o);
  }

  lemma DrainsMore(all: seq<DirectoryID>, o: Options, requests: nat, rest: seq<DirectoryID>)
    requires |PageOf(all, o)| == o.GetPageSize() && Drains(all, NextPage(o), requests, rest)
    ensures Drains(all, o, requests + 1, PageOf(all, o) + rest)
  {
    PageIsSlice(all, o);
    SliceFirst(all, RowsLeft(all, o), o.GetPageSize());
  }

  /** A full page of a list is the same page of any longer one. */
  lemma FullPageStays(all: seq<DirectoryID>, more: seq<DirectoryID>, o: Options)
    requires all <= more && |PageOf(all, o)| == o.GetPageSize()
    ensures PageOf(more, o) == PageOf(all, o)
  {
    PageOfMeaning(all, o);
    PageOfMeaning(more, o);
  }

  lemma DrainsFromEarlier(first: seq<DirectoryID>, all: seq<DirectoryID>, o: Options,
                          requests: nat, rest: seq<DirectoryID>)
    requires first <= all && |PageOf(first, o)| == o.GetPageSize() && Drains(all, NextPage(o), requests, rest)
    ensures Drains(all, o, requests + 1, PageOf(first, o) + rest)
  {
    FullPageStays(first, all, o);
    DrainsMore(all, o, requests, rest);
  }

  /** A session of several requests is its first page and the session that starts at the link. */
  lemma SessionSplits(c: Codec, lists: seq<Listing>, queries: seq<Values>, rows: seq<DirectoryID>)
    requires Faithful(c) && Session(c, lists, queries, rows) && |queries| > 1
    ensures
      var o := c.read(queries[0]).value;
      var page := PageOf(lists[0](o.withDeleted), o);
      && |page| == o.GetPageSize() && page <= rows && rows == page + rows[|page|..]
      && c.read(queries[1..][0]) == Some(NextPage(o))
      && Session(c, lists[1..], queries[1..], rows[|page|..])
  {
    var o := c.read(queries[0]).value;
    assert c.read(c.next(o)) == Some(NextPage(o));
    assert queries[1..][0] == queries[1];
  }

  lemma GrowingTail(lists: seq<Listing>, withDeleted: bool)
    requires Growing(lists, withDeleted) && |lists| > 1
    ensures Growing(lists[1..], withDeleted) && Last(lists[1..]) == Last(lists)
    ensures lists[0](withDeleted) <= Last(lists)(withDeleted)
  {
  }

  lemma {:induction false} SessionFollows(c: Codec, lists: seq<Listing>, queries: seq<Values>, rows: seq<DirectoryID>)
    requires Faithful(c) && Session(c, lists, queries, rows) && Growing(lists, c.read(queries[0]).value.withDeleted)
    ensures Drains(Last(lists)(c.read(queries[0]).value.withDeleted), c.read(queries[0]).value, |queries|, rows)
    decreases |queries|
  {
    var o := c.read(queries[0]).value;
    var all := Last(lists)(o.withDeleted);
    if |queries| == 1 {
      DrainsLast(all, o);
    } else {
      var page := PageOf(lists[0](o.withDeleted), o);
      SessionSplits(c, lists, queries, rows);
      GrowingTail(lists, o.withDeleted);
      SessionFollows(c, lists[1..], queries[1..], rows[|page|..]);
      DrainsFromEarlier(lists[0](o.withDeleted), all, o, |queries| - 1, rows[|page|..]);
    }
  }

  /**
   The links lead through the rest of the list, page by page, in order, and end with a page that is not full.
   What the client receives is the rest of the list as its last request finds it.
   */
  lemma SessionDrains(c: Codec, lists: seq<Listing>, queries: seq<Values>, rows: seq<DirectoryID>)
    requires Faithful(c) && Session(c, lists, queries, rows) && Growing(lists, c.read(queries[0]).value.withDeleted)
    ensures
      var o := c.read(queries[0]).value;
      var all := Last(lists)(o.withDeleted);
      && rows == all[Min(o.GetPageOffset(), |all|)..]
      && |queries| == (|all| - Min(o.GetPageOffset(), |all|)) / o.GetPageSize() + 1
  {
    var o := c.read(queries[0]).value;
    SessionFollows(c, lists, queries, rows);
    RequestsCount(RowsLeft(Last(lists)(o.withDeleted), o), o.GetPageSize());
  }

  /** While the listing stays as it is, following the links comes to an end. */
  lemma {:induction false} SessionExists(c: Codec, list: Listing, query: Values, o: Options)
    returns (lists: seq<Listing>, queries: seq<Values>, rows: seq<DirectoryID>)
    requires Faithful(c) && c.read(query) == Some(o)
    ensures Session(c, lists, queries, rows) && queries[0] == query && forall i | 0 <= i < |lists| :: lists[i] == list
    decreases RowsLeft(list(o.withDeleted), o)
  {
    var r := Respond(c, list, o);
    PageIsSlice(list(o.withDeleted), o);
    if r.next.None? {
      lists, queries, rows := [list], [query], r.rows;
    } else {
      assert c.read(c.next(o)) == Some(NextPage(o));
      var moreLists, more, rest := SessionExists(c, list, c.next(o), NextPage(o));
      lists, queries, rows := [list] + moreLists, [query] + more, r.rows + rest;
      SessionCons(c, list, query, o, moreLists, more, rest);
    }
  }

  lemma SessionCons(c: Codec, list: Listing, query: Values, o: Options,
                    lists: seq<Listing>, more: seq<Values>, rest: seq<DirectoryID>)
    requires c.read(query) == Some(o) && Respond(c, list, o).next.Some?
    requires Session(c, lists, more, rest) && more[0] == c.next(o)
    ensures Session(c, [list] + lists, [query] + more, Respond(c, list, o).rows + rest)
  {
    var r := Respond(c, list, o);
    var queries, rows := [query] + more, r.rows + rest;
    assert queries[0] == query && queries[1..] == more && queries[1] == more[0];
    assert ([list] + lists)[0] == list && ([list] + lists)[1..] == lists;
    assert rows[|r.rows|..] == rest;
  }

  /**
   From the first page, following the links collects the whole list, as it is at the end, in order with n / s + 1
   requests, also when the page size divides the length, where the last page is empty.
   */
  lemma SessionCollectsAll(c: Codec, lists: seq<Listing>, queries: seq<Values>, rows: seq<DirectoryID>)
    requires Faithful(c) && Session(c, lists, queries, rows) && c.read(queries[0]).value.GetPage() == 1
    requires Growing(lists, c.read(queries[0]).value.withDeleted)
    ensures
      var o := c.read(queries[0]).value;
      var all := Last(lists)(o.withDeleted);
      rows == all && |queries| == |all| / o.GetPageSize() + 1
  {
    SessionDrains(c, lists, queries, rows);
    assert c.read(queries[0]).value.GetPageOffset() == 0;
  }

  /**
   A client that asks for the first page of any listing can follow the server's links to its end, and gets all of it.
   */
  lemma ClientListsEverything(list: Listing, options: seq<StorageOption>)
    returns (lists: seq<Listing>, queries: seq<Values>, rows: seq<DirectoryID>)
    requires Built(options).GetPage() == 1
    ensures Session(ServerCodec(), lists, queries, rows) && queries[0] == WithStorageOptions(map[], Built(options))
    ensures forall i | 0 <= i < |lists| :: lists[i] == list
    ensures
      var all := list(Built(options).withDeleted);
      rows == all && |queries| == |all| / Built(options).GetPageSize() + 1
  {
    var c, query := ServerCodec(), WithStorageOptions(map[], Built(options));
    ServerCodecFaithful();
    OptionsRoundTrip(options, map[]);
    assert c.read(query) == ReadQuery(query);
    lists, queries, rows := SessionExists(c, list, query, ReadQuery(query).value);
    SessionCollectsAll(c, lists, queries, rows);
  }
}
