/** Storage options as URL query values: the client's encoding, the server's decoding, and the "next" link's values. */
module QueryCodec {
  import opened Wrappers
  import opened Storage

  type Values = map<string, string>

  datatype QueryError = InvalidSyntax

  function DigitChar(d: nat): char
    requires d < 10
  {
    (d + '0' as int) as char
  }

  function DigitOf(c: char): Option<nat> {
    if '0' <= c <= '9' then Some(c as int - '0' as int) else None
  }

  /** `strconv.Itoa` of a number that is not negative. */
  function Itoa(n: nat): string {
    if n < 10 then [DigitChar(n)] else Itoa(n / 10) + [DigitChar(n % 10)]
  }

  function ParseDigits(s: string): Option<nat> {
    if s == [] then None
    else
      var last := DigitOf(s[|s| - 1]);
      if |s| == 1 || last.None? then last
      else
        var rest := ParseDigits(s[..|s| - 1]);
        if rest.None? then None else Some(rest.value * 10 + last.value)
  }

  /** `strconv.Atoi`: an optional sign, then at least one digit and nothing else. */
  function Atoi(s: string): Result<int, QueryError> {
    var signed := s != [] && (s[0] == '-' || s[0] == '+');
    var digits := ParseDigits(if signed then s[1..] else s);
    if digits.None? then Err(InvalidSyntax)
    else
      var magnitude: int := digits.value;
      Ok(if signed && s[0] == '-' then -magnitude else magnitude)
  }

  /** `strconv.ParseBool`. */
  function ParseBool(s: string): Result<bool, QueryError> {
    if s in ["1", "t", "T", "TRUE", "true", "True"] then Ok(true)
    else if s in ["0", "f", "F", "FALSE", "false", "False"] then Ok(false)
    else Err(InvalidSyntax)
  }

  lemma {:induction false} DigitsRoundTrip(n: nat)
    ensures ParseDigits(Itoa(n)) == Some(n)
    ensures Itoa(n) != [] && DigitOf(Itoa(n)[0]).Some?
  {
    if n >= 10 {
      DigitsRoundTrip(n / 10);
      var s := Itoa(n);
      assert s[..|s| - 1] == Itoa(n / 10);
      assert DigitOf(s[|s| - 1]) == Some(n % 10);
    }
  }

  /** One or more decimal digits. */
  predicate IsNumeral(s: string) {
    s != [] && forall i | 0 <= i < |s| :: '0' <= s[i] <= '9'
  }

  predicate IsSignedNumeral(s: string) {
    s != [] && s[0] in "+-" && IsNumeral(s[1..])
  }

  /** A digit with `k` zeros after it. */
  function Weighted(digit: nat, k: nat): nat {
    if k == 0 then digit else 10 * Weighted(digit, k - 1)
  }

  /** The number that decimal digits stand for. */
  function DecimalValue(s: string): nat
    requires forall i | 0 <= i < |s| :: '0' <= s[i] <= '9'
  {
    if s == [] then 0 else Weighted(s[0] as int - '0' as int, |s| - 1) + DecimalValue(s[1..])
  }

  /** A leading minus sign negates the number. */
  function SignedValue(s: string): int
    requires IsNumeral(s) || IsSignedNumeral(s)
  {
    var magnitude: int := DecimalValue(if IsNumeral(s) then s else s[1..]);
    if s[0] == '-' then -magnitude else magnitude
  }

  lemma {:induction false} DecimalSnoc(s: string, c: char)
    requires forall i | 0 <= i < |s| :: '0' <= s[i] <= '9'
    requires '0' <= c <= '9'
    ensures DecimalValue(s + [c]) == DecimalValue(s) * 10 + (c as int - '0' as int)
  {
    if s == [] {
      assert [c][1..] == "";
      assert s + [c] == [c];
    } else {
      assert (s + [c])[0] == s[0] && (s + [c])[1..] == s[1..] + [c];
      DecimalSnoc(s[1..], c);
    }
  }

  /** Exactly the numerals parse, to the number they stand for. */
  lemma {:induction false} ParseDigitsMeaning(s: string)
    ensures ParseDigits(s) == if IsNumeral(s) then Some(DecimalValue(s)) else None
  {
    if s != [] {
      var n := |s| - 1;
      assert s == s[..n] + [s[n]];
      if n == 0 {
        if IsNumeral(s) {
          DecimalSnoc("", s[0]);
          assert "" + [s[0]] == s;
        }
      } else {
        ParseDigitsMeaning(s[..n]);
        if IsNumeral(s) {
          DecimalSnoc(s[..n], s[n]);
        }
      }
    }
  }

  /** Exactly the numerals with or without a sign parse, to the number they stand for. */
  lemma AtoiMeaning(s: string)
    ensures Atoi(s) == if IsNumeral(s) || IsSignedNumeral(s) then Ok(SignedValue(s)) else Err(InvalidSyntax)
  {
    ParseDigitsMeaning(s);
    if s != [] {
      ParseDigitsMeaning(s[1..]);
    }
  }

  /** Printing and parsing a number are inverse. */
  lemma AtoiItoa(n: nat)
    ensures Atoi(Itoa(n)) == Ok(n)
  {
    DigitsRoundTrip(n);
  }

  /** A positive number under `key`; 0 when the key is absent or its number is not positive. */
  function PositiveValue(query: Values, key: string): Result<nat, QueryError> {
    if key !in query then Ok(0)
    else
      var n :- Atoi(query[key]);
      Ok(if n > 0 then n else 0)
  }

  /** The deleted flag; false when its key is absent. */
  function FlagValue(query: Values): Result<bool, QueryError> {
    if "with_deleted" in query then ParseBool(query["with_deleted"]) else Ok(false)
  }

  /** The server's decoding of a request's query. */
  function StorageOptionsFromQuery(query: Values): Result<seq<StorageOption>, QueryError> {
    var withDeleted :- FlagValue(query);
    var page :- PositiveValue(query, "page");
    var limit :- PositiveValue(query, "limit");
    Ok((if withDeleted then [WithDeletedDirectories] else [])
       + (if page > 0 || limit > 0 then [Pagination(page, limit)] else []))
  }

  /** The client's query values for `o`, set over those already there. */
  function WithStorageOptions(values: Values, o: Options): Values {
    var deleted := if o.withDeleted then values["with_deleted" := "true"] else values;
    var paged := if o.page > 0 then deleted["page" := Itoa(o.page)] else deleted;
    if o.pageSize > 0 then paged["limit" := Itoa(o.pageSize)] else paged
  }

  /** The server's query values for page `page` under `o`. */
  function StorageOptionsToValues(o: Options, page: int): Values {
    var deleted: Values := if o.withDeleted then map["with_deleted" := "true"] else map[];
    if page > 0
    then (if o.GetPage() >= 1 then deleted["page" := Itoa(page)] else deleted)["limit" := Itoa(o.GetPageSize())]
    else deleted
  }

  /** The query carries none of the option keys. */
  predicate Unpaged(values: Values) {
    "with_deleted" !in values && "page" !in values && "limit" !in values
  }

  /** What the query already says about anything `o` leaves open is the default. */
  predicate LeavesDefaults(values: Values, o: Options) {
    && (o.withDeleted || FlagValue(values) == Ok(false))
    && (o.page > 0 || PositiveValue(values, "page") == Ok(0) || PositiveValue(values, "page") == Ok(1))
    && (o.pageSize > 0 || PositiveValue(values, "limit") == Ok(0) ||
        PositiveValue(values, "limit") == Ok(DEFAULT_PAGE_SIZE))
  }

  /** Two option values that select the same rows. */
  predicate SameEffect(a: Options, b: Options) {
    a.withDeleted == b.withDeleted && a.GetPage() == b.GetPage() && a.GetPageSize() == b.GetPageSize()
  }

  lemma BuiltOfDecoded(withDeleted: bool, page: nat, limit: nat)
    ensures Built((if withDeleted then [WithDeletedDirectories] else []) +
                  (if page > 0 || limit > 0 then [Pagination(page, limit)] else []))
         == Options(withDeleted, page, limit)
  {
    var flag: seq<StorageOption> := if withDeleted then [WithDeletedDirectories] else [];
    assert Built(flag) == Options(withDeleted, 0, 0) by {
      assert flag[..0] == [];
    }
    if page > 0 || limit > 0 {
      assert (flag + [Pagination(page, limit)])[..|flag|] == flag;
    } else {
      assert flag + [] == flag;
    }
  }

  lemma KeysDiffer()
    ensures "with_deleted" != "page" && "with_deleted" != "limit" && "page" != "limit"
  {
    assert |"with_deleted"| == 12 && |"page"| == 4 && |"limit"| == 5;
  }

  lemma PositiveRead(query: Values, key: string, n: nat)
    requires key in query ==> query[key] == Itoa(n)
    requires key !in query ==> n == 0
    ensures PositiveValue(query, key) == Ok(n)
  {
    AtoiItoa(n);
  }

  lemma FlagRead(query: Values, flag: bool)
    requires "with_deleted" in query <==> flag
    requires flag ==> query["with_deleted"] == "true"
    ensures FlagValue(query) == Ok(flag)
  {
    assert "true" in ["1", "t", "T", "TRUE", "true", "True"];
  }

  /** A query whose three values print a flag and two numbers is decoded to them. */
  lemma ReadsAs(query: Values, flag: bool, page: nat, limit: nat)
    requires "with_deleted" in query <==> flag
    requires flag ==> query["with_deleted"] == "true"
    requires "page" in query ==> query["page"] == Itoa(page)
    requires "page" !in query ==> page == 0
    requires "limit" in query ==> query["limit"] == Itoa(limit)
    requires "limit" !in query ==> limit == 0
    ensures StorageOptionsFromQuery(query).Ok?
              && Built(StorageOptionsFromQuery(query).value) == Options(flag, page, limit)
  {
    FlagRead(query, flag);
    PositiveRead(query, "page", page);
    PositiveRead(query, "limit", limit);
    BuiltOfDecoded(flag, page, limit);
  }

  lemma DecodedMeaning(query: Values)
    ensures
      var decoded, flag, page, limit :=
        StorageOptionsFromQuery(query), FlagValue(query), PositiveValue(query, "page"), PositiveValue(query, "limit");
      && (decoded.Ok? <==> flag.Ok? && page.Ok? && limit.Ok?)
      && (decoded.Ok? ==> Built(decoded.value) == Options(flag.value, page.value, limit.value))
  {
    var flag, page, limit := FlagValue(query), PositiveValue(query, "page"), PositiveValue(query, "limit");
    if flag.Ok? && page.Ok? && limit.Ok? {
      BuiltOfDecoded(flag.value, page.value, limit.value);
    }
  }

  /** The client's values read back as what `o` sets, and as what was there before for the rest. */
  lemma EncodedValues(values: Values, o: Options)
    ensures
      var query := WithStorageOptions(values, o);
      && FlagValue(query) == (if o.withDeleted then Ok(true) else FlagValue(values))
      && PositiveValue(query, "page") == (if o.page > 0 then Ok(o.page) else PositiveValue(values, "page"))
      && PositiveValue(query, "limit") == (if o.pageSize > 0 then Ok(o.pageSize) else PositiveValue(values, "limit"))
  {
    var query := WithStorageOptions(values, o);
    KeysDiffer();
    if o.withDeleted {
      FlagRead(query, true);
    }
    if o.page > 0 {
      PositiveRead(query, "page", o.page);
    }
    if o.pageSize > 0 {
      PositiveRead(query, "limit", o.pageSize);
    }
  }

  /** The flag and the numbers read from a query into which `o` was written over `flag0`, `page0` and `limit0`. */
  lemma SameEffectWhenDefault(o: Options, flag0: Result<bool, QueryError>, page0: Result<nat, QueryError>,
                              limit0: Result<nat, QueryError>)
    ensures
      var flag := if o.withDeleted then Ok(true) else flag0;
      var page := if o.page > 0 then Ok(o.page) else page0;
      var limit := if o.pageSize > 0 then Ok(o.pageSize) else limit0;
      (&& flag.Ok? && page.Ok? && limit.Ok?
       && SameEffect(Options(flag.value, page.value, limit.value), o)) <==>
      (&& (o.withDeleted || flag0 == Ok(false))
       && (o.page > 0 || page0 == Ok(0) || page0 == Ok(1))
       && (o.pageSize > 0 || limit0 == Ok(0) || limit0 == Ok(DEFAULT_PAGE_SIZE)))
  {
  }

  /**
   Whatever options a caller gives the client, and whatever query the URL already has: the server decodes options
   of the same effect exactly when that query holds nothing but defaults for what the options leave open.
   */
  lemma OptionsRoundTrip(options: seq<StorageOption>, values: Values)
    ensures
      var decoded := StorageOptionsFromQuery(WithStorageOptions(values, Built(options)));
      decoded.Ok? && SameEffect(Built(decoded.value), Built(options)) <==> LeavesDefaults(values, Built(options))
    ensures Unpaged(values) ==> LeavesDefaults(values, Built(options))
  {
    EncodedValues(values, Built(options));
    DecodedMeaning(WithStorageOptions(values, Built(options)));
    SameEffectWhenDefault(Built(options), FlagValue(values), PositiveValue(values, "page"),
                          PositiveValue(values, "limit"));
  }

  /** Decoding the values of the "next" link gives the same listing, one page on. */
  lemma NextRoundTrip(o: Options)
    ensures
      var decoded := StorageOptionsFromQuery(StorageOptionsToValues(o, o.GetPage() + 1));
      decoded.Ok? && Built(decoded.value) == Options(o.withDeleted, o.GetPage() + 1, o.GetPageSize())
  {
    KeysDiffer();
    ReadsAs(StorageOptionsToValues(o, o.GetPage() + 1), o.withDeleted, o.GetPage() + 1, o.GetPageSize());
  }

  /** The server rejects a query exactly when one of the three values is there and does not parse. */
  lemma DecodeFails(query: Values)
    ensures
      StorageOptionsFromQuery(query).Err? <==>
        || ("with_deleted" in query &&
            query["with_deleted"] !in ["1", "t", "T", "TRUE", "true", "True"] +
                                      ["0", "f", "F", "FALSE", "false", "False"])
        || ("page" in query && !(IsNumeral(query["page"]) || IsSignedNumeral(query["page"])))
        || ("limit" in query && !(IsNumeral(query["limit"]) || IsSignedNumeral(query["limit"])))
  {
    if "page" in query {
      AtoiMeaning(query["page"]);
    }
    if "limit" in query {
      AtoiMeaning(query["limit"]);
    }
  }

  /**
   Whatever else a query says: a spelling of false is read like an absent flag, and one of true as the same options
   with the flag set.
   */
  lemma FlagDecoded(query: Values, spelling: string)
    ensures
      var given := StorageOptionsFromQuery(query["with_deleted" := spelling]);
      var absent := StorageOptionsFromQuery(query - {"with_deleted"});
      && (spelling in ["0", "f", "F", "FALSE", "false", "False"] ==> given == absent)
      && (spelling in ["1", "t", "T", "TRUE", "true", "True"] ==>
            && (given.Ok? <==> absent.Ok?)
            && (given.Ok? ==> Built(given.value) == Built(absent.value).(withDeleted := true)))
      && (absent.Ok? ==> !Built(absent.value).withDeleted)
  {
    var given, absent := query["with_deleted" := spelling], query - {"with_deleted"};
    KeysDiffer();
    assert PositiveValue(given, "page") == PositiveValue(absent, "page");
    assert PositiveValue(given, "limit") == PositiveValue(absent, "limit");
    DecodedMeaning(given);
    DecodedMeaning(absent);
  }

  /**
   Whatever else a query says: a page or limit that is zero or negative is read like an absent one, and a positive one
   as the same options with that number.
   */
  lemma NumberDecoded(query: Values, key: string, text: string)
    requires key in ["page", "limit"] && (IsNumeral(text) || IsSignedNumeral(text))
    ensures
      var given, absent := StorageOptionsFromQuery(query[key := text]), StorageOptionsFromQuery(query - {key});
      var n := SignedValue(text);
      && (n <= 0 ==> given == absent)
      && (given.Ok? <==> absent.Ok?)
      && (n > 0 && given.Ok? ==>
            Built(given.value) == if key == "page" then Built(absent.value).(page := n)
                                  else Built(absent.value).(pageSize := n))
  {
    var given, absent := query[key := text], query - {key};
    var other := if key == "page" then "limit" else "page";
    KeysDiffer();
    AtoiMeaning(text);
    assert FlagValue(given) == FlagValue(absent) && PositiveValue(given, other) == PositiveValue(absent, other);
    DecodedMeaning(given);
    DecodedMeaning(absent);
  }

  /** A URL as the client builds it; only its query changes. */
  class RequestURL {
    const path: string
    var rawQuery: Values

    constructor (path: string)
      ensures this.path == path && rawQuery == map[]
    {
      this.path := path;
      this.rawQuery := map[];
    }

    method AddStorageOptions(options: seq<StorageOption>)
      modifies this`rawQuery
      ensures rawQuery == WithStorageOptions(old(rawQuery), Built(options))
      ensures LeavesDefaults(old(rawQuery), Built(options)) <==>
                var decoded := StorageOptionsFromQuery(rawQuery);
                decoded.Ok? && SameEffect(Built(decoded.value), Built(options))
      ensures forall key | key !in ["with_deleted", "page", "limit"] ::
                && (key in rawQuery <==> key in old(rawQuery))
                && (key in rawQuery ==> rawQuery[key] == old(rawQuery)[key])
    {
      var opts := BuildOptions(options);
      var values := rawQuery;
      if opts.withDeleted {
        values := values["with_deleted" := "true"];
      }
      if opts.page > 0 {
        values := values["page" := Itoa(opts.page)];
      }
      if opts.pageSize > 0 {
        values := values["limit" := Itoa(opts.pageSize)];
      }
      rawQuery := values;
      OptionsRoundTrip(options, old(rawQuery));
    }
  }
}
