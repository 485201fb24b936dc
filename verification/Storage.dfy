/** Errors and read options of the storage interface, and the page of a list that options select. */
module Storage {

  datatype StorageError =
    | RootWithParentDirectory
    | DirectoryWithoutParent
    | DirectoryNotFound
    | ReadOnly
    | QueryFailed
    | NilDereference

  const DEFAULT_PAGE_SIZE: nat := 10

  datatype Options = Options(withDeleted: bool, page: int, pageSize: int) {
    function GetPage(): (p: nat)
      ensures p >= 1
      ensures page >= 1 ==> p == page
    {
      if page < 1 then 1 else page
    }

    function GetPageSize(): (s: nat)
      ensures s >= 1
      ensures pageSize >= 1 ==> s == pageSize
    {
      if pageSize < 1 then DEFAULT_PAGE_SIZE else pageSize
    }

    function GetPageOffset(): (n: nat)
    {
      Offset(GetPageSize(), GetPage())
    }
  }

  /** Rows before page `page` when a page holds `size` rows. */
  function Offset(size: nat, page: nat): nat
    requires page >= 1
  {
    size * (page - 1)
  }

  datatype StorageOption =
    | WithDeletedDirectories
    | Pagination(page: int, size: int)

  function ApplyOption(o: Options, opt: StorageOption): Options {
    match opt
    case WithDeletedDirectories => o.(withDeleted := true)
    case Pagination(page, size) => o.(page := page, pageSize := size)
  }

  /** The options left after applying `opts` from left to right to a zero value. */
  function Built(opts: seq<StorageOption>): Options {
    if opts == [] then Options(false, 0, 0) else ApplyOption(Built(opts[..|opts| - 1]), opts[|opts| - 1])
  }

  /** `k` is the last pagination option of `opts`. */
  ghost predicate LastPagination(opts: seq<StorageOption>, k: int) {
    && 0 <= k < |opts|
    && opts[k].Pagination?
    && forall j | k < j < |opts| :: !opts[j].Pagination?
  }

  /** The deleted flag is set by any occurrence; of several paginations the last one wins. */
  lemma {:induction false} BuiltMeaning(opts: seq<StorageOption>)
    ensures Built(opts).withDeleted <==> WithDeletedDirectories in opts
    ensures forall k | LastPagination(opts, k) ::
              Built(opts).page == opts[k].page && Built(opts).pageSize == opts[k].size
    ensures (forall k | 0 <= k < |opts| :: !opts[k].Pagination?) ==> Built(opts).page == Built(opts).pageSize == 0
  {
    if opts != [] {
      var n := |opts| - 1;
      BuiltMeaning(opts[..n]);
      assert opts == opts[..n] + [opts[n]];
      forall k | LastPagination(opts, k)
        ensures Built(opts).page == opts[k].page && Built(opts).pageSize == opts[k].size
      {
        if k < n {
          assert LastPagination(opts[..n], k);
        }
      }
    }
  }

  method BuildOptions(opts: seq<StorageOption>) returns (options: Options)
    ensures options == Built(opts)
    ensures options.withDeleted <==> WithDeletedDirectories in opts
    ensures forall k | LastPagination(opts, k) :: options.page == opts[k].page && options.pageSize == opts[k].size
    ensures (forall k | 0 <= k < |opts| :: !opts[k].Pagination?) ==> options.page == options.pageSize == 0
  {
    options := Options(false, 0, 0);
    for i := 0 to |opts|
      invariant options == Built(opts[..i])
    {
      assert opts[..i + 1][..i] == opts[..i];
      options := ApplyOption(options, opts[i]);
    }
    assert opts[..|opts|] == opts;
    BuiltMeaning(opts);
  }

  function Min(a: nat, b: nat): nat {
    if a < b then a else b
  }

  /** The rows of `s` on the page that `o` selects. */
  function PageOf<T>(s: seq<T>, o: Options): seq<T> {
    if o.GetPageOffset() > |s| then []
    else s[o.GetPageOffset()..Min(o.GetPageOffset() + o.GetPageSize(), |s|)]
  }

  /** Position `i` of page `p` is position `(p - 1) * size + i` of the list, and a short page is the last one. */
  lemma PageOfMeaning<T>(s: seq<T>, o: Options)
    ensures |PageOf(s, o)| <= o.GetPageSize()
    ensures forall i | 0 <= i < |PageOf(s, o)| ::
              && Offset(o.GetPageSize(), o.GetPage()) + i < |s|
              && PageOf(s, o)[i] == s[Offset(o.GetPageSize(), o.GetPage()) + i]
    ensures |PageOf(s, o)| < o.GetPageSize() <==> |s| < Offset(o.GetPageSize(), o.GetPage() + 1)
    ensures o.page < 1 ==> PageOf(s, o) == PageOf(s, o.(page := 1))
    ensures o.pageSize < 1 ==> PageOf(s, o) == PageOf(s, o.(pageSize := DEFAULT_PAGE_SIZE))
  {
    assert Offset(o.GetPageSize(), o.GetPage() + 1) == Offset(o.GetPageSize(), o.GetPage()) + o.GetPageSize() by {
      NextOffset(o.GetPageSize(), o.GetPage());
    }
  }

  lemma NextOffset(size: nat, page: nat)
    requires page >= 1
    ensures Offset(size, page + 1) == Offset(size, page) + size
  {
    assert size * page == size * (page - 1) + size;
  }

  /** The first page with the default size. */
  lemma FirstPage<T>(s: seq<T>)
    ensures PageOf(s, Built([])) == s[..Min(DEFAULT_PAGE_SIZE, |s|)]
  {
    assert Built([]).GetPageOffset() == 0;
  }

  /** A first page large enough for the whole list is the whole list. */
  lemma WholePage<T>(s: seq<T>, o: Options)
    requires o.GetPage() == 1 && |s| <= o.GetPageSize()
    ensures PageOf(s, o) == s
  {
    assert o.GetPageOffset() == 0;
  }
}
