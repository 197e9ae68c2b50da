/** The link records and the parts of the link handlers that are not the
    redirect path: short-code derivation, the code syntax the resolver accepts,
    list pagination, and deactivation. */
module Links {
  import opened Wrappers
  import Text
  import B = Base62Codec
  import Cache
  import Http

  // ---------------------------------------------------------------- records

  /** A row of the `links` table. `code` is NULL until the creating transaction
      sets it; `expireAt` (ms) may be NULL. */
  datatype Link = Link(id: nat, code: Option<string>, longUrl: string, createdAt: int,
                       expireAt: Option<int>, isActive: bool)

  /** `expire_at > now()` in SQL: false for a NULL expiry. */
  predicate Unexpired(l: Link, now: int) {
    l.expireAt.Some? && l.expireAt.value > now
  }

  predicate UniqueIds(rows: seq<Link>) {
    forall i, j :: 0 <= i < j < |rows| ==> rows[i].id != rows[j].id
  }

  /** How a template string renders a possibly NULL code. */
  function CodeText(code: Option<string>): string {
    match code
    case Some(c) => c
    case None => "null"
  }

  function ShortKey(code: string): string { "short:" + code }
  function TombKey(code: string): string { "short404:" + code }
  function LockKey(code: string): string { "lock:short:" + code }

  /** The three key families of a code never collide, whatever the codes. */
  lemma KeyFamiliesDisjoint(c1: string, c2: string)
    ensures ShortKey(c1) != TombKey(c2) && ShortKey(c1) != LockKey(c2) && TombKey(c1) != LockKey(c2)
    ensures ShortKey(c1) == ShortKey(c2) ==> c1 == c2
    ensures TombKey(c1) == TombKey(c2) ==> c1 == c2
    ensures LockKey(c1) == LockKey(c2) ==> c1 == c2
  {
    assert ShortKey(c1)[5] == ':' && TombKey(c2)[5] == '4';
    assert ShortKey(c1)[0] == 's' && LockKey(c2)[0] == 'l';
    assert TombKey(c1)[0] == 's';
    if ShortKey(c1) == ShortKey(c2) { assert c1 == ShortKey(c1)[6..] && c2 == ShortKey(c2)[6..]; }
    if TombKey(c1) == TombKey(c2) { assert c1 == TombKey(c1)[9..] && c2 == TombKey(c2)[9..]; }
    if LockKey(c1) == LockKey(c2) { assert c1 == LockKey(c1)[11..] && c2 == LockKey(c2)[11..]; }
  }

  // ---------------------------------------------------------------- code derivation

  const MinLength: nat := 5
  /** 62^(MinLength - 1): added to the id so that every code has MinLength characters or more. */
  const Offset: nat := 14776336
  /** Largest value of a Postgres BIGINT. */
  const MaxBigint: nat := 0x7fff_ffff_ffff_ffff

  lemma OffsetIsPower()
    ensures Offset == B.Pow(62, MinLength - 1)
  {
    assert B.Pow(62, 2) == 3844;
  }

  /** What the code derivation relies on in an alphabet: 62 distinct ASCII letters
      and digits. `DefaultAlphabetIsCodeAlphabet` shows the default one qualifies. */
  predicate CodeAlphabet(alphabet: string) {
    |alphabet| == 62 && B.Distinct(alphabet) && forall c :: c in alphabet ==> Text.IsAsciiAlnum(c)
  }

  lemma DefaultAlphabetIsCodeAlphabet()
    ensures CodeAlphabet(B.DefaultAlphabet)
  {
    B.DefaultAlphabetAccepted();
    forall c | c in B.DefaultAlphabet ensures Text.IsAsciiAlnum(c) {
      var i :| 0 <= i < 62 && B.DefaultAlphabet[i] == c;
      if i < 26 { assert B.DefaultAlphabet[i] as int == 'a' as int + i; }
      else if i < 52 { assert B.DefaultAlphabet[i] as int == 'A' as int + i - 26; }
      else { assert B.DefaultAlphabet[i] as int == '0' as int + i - 52; }
    }
  }

  /** The code `createShortUrl` stores for a new row with id `id` (the service's
      codec uses `B.DefaultAlphabet`). */
  function NewCode(alphabet: string, id: nat): string
    requires CodeAlphabet(alphabet)
  {
    B.EncodeSpec(alphabet, id + Offset)
  }

  /** The call `base62.encode10to62(idBig + OFFSET)`. */
  method DeriveCode(codec: B.Base62, id: nat) returns (code: string)
    requires codec.Valid() && CodeAlphabet(codec.alphabet)
    ensures code == NewCode(codec.alphabet, id)
  {
    var r := codec.Encode(id + Offset);
    code := r.value;
  }

  lemma PowEleven()
    ensures B.Pow(62, 11) > MaxBigint + Offset
  {
    assert B.Pow(62, 2) == 3844;
    assert B.Pow(62, 4) == 14776336;
    assert B.Pow(62, 8) == B.Pow(62, 4) * B.Pow(62, 4) by { PowAdd(62, 4, 4); }
    assert B.Pow(62, 11) == B.Pow(62, 8) * 238328;
  }

  lemma {:induction false} PowAdd(b: nat, e1: nat, e2: nat)
    ensures B.Pow(b, e1 + e2) == B.Pow(b, e1) * B.Pow(b, e2)
    decreases e2
  {
    if e2 > 0 {
      PowAdd(b, e1, e2 - 1);
      assert B.Pow(b, e1 + e2) == b * B.Pow(b, e1 + e2 - 1);
    }
  }

  /** Every code has at least five characters; a code for a BIGINT id has at most eleven. */
  lemma CodeLength(alphabet: string, id: nat)
    requires CodeAlphabet(alphabet)
    ensures |NewCode(alphabet, id)| >= MinLength
    ensures id <= MaxBigint ==> |NewCode(alphabet, id)| <= 11
  {
    var n := id + Offset;
    var k := |NewCode(alphabet, id)|;
    B.EncodeLength(alphabet, n);
    OffsetIsPower();
    if k < MinLength {
      B.PowMonotone(62, k, MinLength - 1);
    }
    if id <= MaxBigint && k > 11 {
      PowEleven();
      B.PowMonotone(62, 11, k - 1);
    }
  }

  /** Distinct ids get distinct codes. */
  lemma CodesInjective(alphabet: string, id1: nat, id2: nat)
    requires CodeAlphabet(alphabet) && NewCode(alphabet, id1) == NewCode(alphabet, id2)
    ensures id1 == id2
  {
    B.EncodeInjective(alphabet, id1 + Offset, id2 + Offset);
  }

  // ---------------------------------------------------------------- code syntax

  predicate CodeChar(c: char) {
    Text.IsAsciiAlnum(c) || c == '_' || c == '-'
  }

  /** `^[A-Za-z0-9_-]{1,64}$` */
  predicate ValidCode(s: string) {
    1 <= |s| <= 64 && forall k :: 0 <= k < |s| ==> CodeChar(s[k])
  }

  /** The code check both resolver stages start with: trim, then reject an empty
      code or one that does not match the pattern (400 either way). */
  function ParseCode(raw: string): Option<string> {
    var code := Text.Trim(raw);
    if code == [] || !ValidCode(code) then None else Some(code)
  }

  /** Every code the service issues for a BIGINT id passes the resolver's check unchanged. */
  lemma IssuedCodesResolve(alphabet: string, id: nat)
    requires CodeAlphabet(alphabet) && id <= MaxBigint
    ensures ParseCode(NewCode(alphabet, id)) == Some(NewCode(alphabet, id))
  {
    var c := NewCode(alphabet, id);
    B.EncodeShape(alphabet, id + Offset);
    CodeLength(alphabet, id);
    assert c[0] in alphabet && c[|c| - 1] in alphabet;
    Text.TrimKeeps(c);
  }

  /** Codes issued by the service decode back to id + 62^4. */
  lemma IssuedCodesDecode(alphabet: string, charToVal: map<char, nat>, id: nat)
    requires CodeAlphabet(alphabet) && B.Inverts(alphabet, charToVal) && id + Offset <= B.MaxSafeInteger
    ensures B.DecodeSpec(charToVal, 62, NewCode(alphabet, id)) == Success(id + Offset)
  {
    B.RoundTrip(alphabet, charToVal, id + Offset);
  }

  /** What ParseCode accepts: exactly the trimmed strings matching the pattern. */
  lemma ParseCodeMeaning(raw: string)
    ensures ParseCode(raw).Some? <==> ValidCode(Text.Trim(raw))
    ensures ParseCode(raw).Some? ==>
      ParseCode(raw).value == Text.Trim(raw) && ParseCode(ParseCode(raw).value) == ParseCode(raw)
  {
    var c := Text.Trim(raw);
    if ValidCode(c) {
      Text.TrimKeeps(c);
    }
  }

  // ---------------------------------------------------------------- pagination

  /** A JavaScript number as `Number(...)` produces it from a query parameter. */
  datatype JsNumber = NaN | Infinite(positive: bool) | Finite(x: real)

  const DefaultPageSize: nat := 30
  const MaxPageSize: nat := 200

  /** The page number as written: a finite positive number is floored, else 1. */
  function PageAsWritten(raw: JsNumber): int {
    if raw.Finite? && raw.x > 0.0 then raw.x.Floor else 1
  }

  /** A fractional page below 1 floors to page 0: the offset is then negative. */
  lemma FractionalPageIsZero()
    ensures PageAsWritten(Finite(0.5)) == 0
    ensures (PageAsWritten(Finite(0.5)) - 1) * PageSize(Finite(30.0)) < 0
  {
  }

  /** The page number with the same lower clamp the page size gets. */
  function Page(raw: JsNumber): (p: nat)
    ensures p >= 1
    ensures raw.Finite? && raw.x >= 1.0 ==> p == raw.x.Floor
    ensures !(raw.Finite? && raw.x >= 1.0) ==> p == 1
  {
    var p := PageAsWritten(raw);
    if p < 1 then 1 else p
  }

  function PageSize(raw: JsNumber): (s: nat)
    ensures 1 <= s <= MaxPageSize
    ensures raw.Finite? && 1.0 <= raw.x < (MaxPageSize + 1) as real ==> s == raw.x.Floor
    ensures raw.Finite? && 0.0 < raw.x < 1.0 ==> s == 1
    ensures raw.Finite? && raw.x >= (MaxPageSize + 1) as real ==> s == MaxPageSize
    ensures !(raw.Finite? && raw.x > 0.0) ==> s == DefaultPageSize
  {
    var clamped := if raw.Finite? && raw.x > 0.0 then raw.x.Floor else DefaultPageSize;
    var atLeastOne := if clamped < 1 then 1 else clamped;
    if atLeastOne > MaxPageSize then MaxPageSize else atLeastOne
  }

  /** Query-string flags, as the handler reads them (the parameter names are the source's). */
  function IncludeExpired(query: map<string, string>): bool {
    "inCludeExoired" in query && query["inCludeExoired"] == "true"
  }

  function IncludeInactive(query: map<string, string>): bool {
    "inActive" in query && query["inActive"] == "true"
  }

  /** The rows the listing's WHERE clause keeps, in table order. */
  function Listed(rows: seq<Link>, includeExpired: bool, includeInactive: bool, now: int): (r: seq<Link>)
    ensures |r| <= |rows|
    ensures forall l :: l in r <==> l in rows && (includeExpired || Unexpired(l, now)) && (includeInactive || l.isActive)
  {
    if rows == [] then []
    else
      var rest := Listed(rows[1..], includeExpired, includeInactive, now);
      if (includeExpired || Unexpired(rows[0], now)) && (includeInactive || rows[0].isActive)
      then [rows[0]] + rest else rest
  }

  /** Where a page starts: (page - 1) * pageSize. */
  function PageStart(page: nat, size: nat): nat
    requires page >= 1
  {
    (page - 1) * size
  }

  lemma NextPageStart(page: nat, size: nat)
    requires page >= 1
    ensures page * size == PageStart(page, size) + size
  {
  }

  datatype ListPage = ListPage(page: nat, pageSize: nat, total: nat, hasMore: bool, data: seq<Link>)

  /** A listing response: a page, or the 500 the catch answers when Postgres
      refuses the query. */
  datatype Listing = Listing(result: ListPage) | ServerError

  /** The listing with the corrected page: LIMIT pageSize OFFSET (page - 1) *
      pageSize over the listed rows; `total` is COUNT(*) OVER () read from the
      first returned row, so 0 when the page is empty. */
  function IntendedListing(rows: seq<Link>, rawPage: JsNumber, rawPageSize: JsNumber,
                           query: map<string, string>, now: int): ListPage
  {
    PageOf(Listed(rows, IncludeExpired(query), IncludeInactive(query), now), Page(rawPage), PageSize(rawPageSize))
  }

  /** The OFFSET as written: (page - 1) * pageSize with the page as written. */
  function OffsetAsWritten(rawPage: JsNumber, rawPageSize: JsNumber): int {
    (PageAsWritten(rawPage) - 1) * PageSize(rawPageSize)
  }

  /** `getAllLinks` as written. Postgres refuses an OFFSET outside 0 ..
      MaxBigint, and the catch answers 500: a page in (0, 1) floors to 0 and
      makes the OFFSET negative, and a huge page pushes it past the bigint
      range. Any other page is the page as written and gets the intended
      listing. */
  function ListLinks(rows: seq<Link>, rawPage: JsNumber, rawPageSize: JsNumber,
                     query: map<string, string>, now: int): (r: Listing)
    ensures r.ServerError? <==>
              (rawPage.Finite? && 0.0 < rawPage.x < 1.0)
              || (PageAsWritten(rawPage) - 1) * PageSize(rawPageSize) > MaxBigint
    ensures r.Listing? ==> Page(rawPage) == PageAsWritten(rawPage)
    ensures r.Listing? ==> 0 <= PageStart(Page(rawPage), PageSize(rawPageSize)) <= MaxBigint
    ensures r.Listing? ==> r.result == IntendedListing(rows, rawPage, rawPageSize, query, now)
  {
    var offset := OffsetAsWritten(rawPage, rawPageSize);
    if offset < 0 || offset > MaxBigint then ServerError
    else Listing(IntendedListing(rows, rawPage, rawPageSize, query, now))
  }

  /** Page 10^18 with the default page size asks for OFFSET 3 * 10^19, past
      the bigint range, so the listing answers 500. */
  lemma HugePageRefused(rows: seq<Link>, query: map<string, string>, now: int)
    ensures OffsetAsWritten(Finite(1000000000000000000.0), Finite(30.0)) == 29999999999999999970
    ensures ListLinks(rows, Finite(1000000000000000000.0), Finite(30.0), query, now) == ServerError
  {
  }

  /** The LIMIT/OFFSET window over the listed rows. */
  function PageOf(listed: seq<Link>, page: nat, size: nat): ListPage
    requires page >= 1
  {
    var offset := PageStart(page, size);
    var data := if offset >= |listed| then []
                else listed[offset..if offset + size <= |listed| then offset + size else |listed|];
    var total := if data == [] then 0 else |listed|;
    ListPage(page, size, total, page * size < total, data)
  }

  /** The window holds the listed rows from position (page - 1) * pageSize on,
      at most pageSize of them; `hasMore` holds exactly when the next page
      would not be empty. */
  lemma PageOfWindow(listed: seq<Link>, page: nat, size: nat)
    requires page >= 1 && size >= 1
    ensures var r := PageOf(listed, page, size);
      && r.page == page && r.pageSize == size && |r.data| <= size
      && (forall k :: 0 <= k < |r.data| ==>
            PageStart(page, size) + k < |listed| && r.data[k] == listed[PageStart(page, size) + k])
      && (r.data != [] ==> r.total == |listed|)
      && (r.hasMore <==> page * size < |listed|)
  {
    var offset := PageStart(page, size);
    NextPageStart(page, size);
    if offset < |listed| {
      var end := if offset + size <= |listed| then offset + size else |listed|;
      assert PageOf(listed, page, size).data == listed[offset..end];
    } else {
      assert PageOf(listed, page, size).data == [];
    }
  }

  /** `hasMore` holds exactly when the next page would not be empty. */
  lemma HasMoreIffNextPageNonEmpty(rows: seq<Link>, rawPage: JsNumber, rawPageSize: JsNumber,
                                   query: map<string, string>, now: int)
    ensures var r := IntendedListing(rows, rawPage, rawPageSize, query, now);
      var listed := Listed(rows, IncludeExpired(query), IncludeInactive(query), now);
      r.hasMore <==> r.page * r.pageSize < |listed|
  {
    var listed := Listed(rows, IncludeExpired(query), IncludeInactive(query), now);
    PageOfWindow(listed, Page(rawPage), PageSize(rawPageSize));
  }

  // ---------------------------------------------------------------- deactivation

  /** The position of the row with this id, if any. */
  function IndexOfId(rows: seq<Link>, id: nat): (r: Option<nat>)
    ensures r.Some? ==> r.value < |rows| && rows[r.value].id == id
    ensures r.None? ==> forall k :: 0 <= k < |rows| ==> rows[k].id != id
  {
    if rows == [] then None
    else if rows[0].id == id then Some(0)
    else match IndexOfId(rows[1..], id)
      case None => None
      case Some(k) => Some(k + 1)
  }

  datatype DeactivateResult = DeactivateResult(outcome: Http.Outcome, rows: seq<Link>, cache: Cache.Entries)

  /** The path parameter check `^\d+$` after trimming, and the BIGINT cast. */
  function ParseId(raw: string): Option<int> {
    var s := Text.Trim(raw);
    if s == [] || !Text.AllDigits(s) then None else Some(Text.DigitsValue(s))
  }

  /** `deactivateLink`. The UPDATE runs against the database clock `dbNow`; the
      follow-up expiry check uses the server clock `appNow`. */
  function DeactivateSpec(rows: seq<Link>, cache: Cache.Entries, rawId: string,
                          dbNow: int, appNow: int, faults: seq<bool>): DeactivateResult
  {
    match ParseId(rawId)
    case None => DeactivateResult(Http.Status(400), rows, cache)
    case Some(id) =>
      if id > MaxBigint then DeactivateResult(Http.Status(500), rows, cache)
      else match IndexOfId(rows, id)
        case None => DeactivateResult(Http.Status(404), rows, cache)
        case Some(k) =>
          var l := rows[k];
          if l.isActive && Unexpired(l, dbNow) then
            var updated := rows[k := l.(isActive := false)];
            var s := Cache.Attempt(Cache.Fault(faults, 0), cache,
                                   Cache.DelStep(cache, [ShortKey(CodeText(l.code))], appNow));
            DeactivateResult(if s.reply.Err? then Http.Status(500) else Http.Status(200), updated, s.after)
          else if !l.isActive then DeactivateResult(Http.Status(409), rows, cache)
          else if !Unexpired(l, appNow) then DeactivateResult(Http.Status(410), rows, cache)
          else DeactivateResult(Http.Status(409), rows, cache)
  }

  /** Deactivation succeeds exactly for an active, unexpired row: that row alone
      becomes inactive and its positive cache entry is gone. Every other outcome
      leaves the table and the cache as they were. */
  lemma DeactivateEffect(rows: seq<Link>, cache: Cache.Entries, rawId: string,
                         dbNow: int, appNow: int, faults: seq<bool>)
    requires UniqueIds(rows)
    ensures var r := DeactivateSpec(rows, cache, rawId, dbNow, appNow, faults);
      && (r.outcome == Http.Status(200) <==>
            ParseId(rawId).Some? && ParseId(rawId).value <= MaxBigint && !Cache.Fault(faults, 0)
            && exists k :: 0 <= k < |rows| && rows[k].id == ParseId(rawId).value
                           && rows[k].isActive && Unexpired(rows[k], dbNow))
      && (r.outcome == Http.Status(200) ==>
            exists k :: 0 <= k < |rows| && r.rows == rows[k := rows[k].(isActive := false)]
                        && ShortKey(CodeText(rows[k].code)) !in r.cache)
      && (r.rows != rows ==> UniqueIds(r.rows) && |r.rows| == |rows|)
      && (r.outcome != Http.Status(200) && r.outcome != Http.Status(500) ==> r.rows == rows && r.cache == cache)
  {
    var r := DeactivateSpec(rows, cache, rawId, dbNow, appNow, faults);
    if ParseId(rawId).Some? && ParseId(rawId).value <= MaxBigint {
      var id := ParseId(rawId).value;
      match IndexOfId(rows, id)
      case None =>
      case Some(k) =>
        forall j | 0 <= j < |rows| && rows[j].id == id ensures j == k {}
        if rows[k].isActive && Unexpired(rows[k], dbNow) {
          var updated := rows[k := rows[k].(isActive := false)];
          assert UniqueIds(updated) by {
            forall i, j | 0 <= i < j < |updated| ensures updated[i].id != updated[j].id {
              assert updated[i].id == rows[i].id && updated[j].id == rows[j].id;
            }
          }
        }
    }
  }

  /** The refusals, by the row's state: 404 absent, 409 already inactive, 410
      expired by the server clock, 409 otherwise. */
  lemma DeactivateRefusals(rows: seq<Link>, cache: Cache.Entries, id: nat,
                           dbNow: int, appNow: int, faults: seq<bool>)
    requires UniqueIds(rows) && id <= MaxBigint
    ensures var r := DeactivateSpec(rows, cache, Text.NatToString(id), dbNow, appNow, faults);
      && ((forall k :: 0 <= k < |rows| ==> rows[k].id != id) ==> r.outcome == Http.Status(404))
      && (forall k :: 0 <= k < |rows| && rows[k].id == id ==>
            && (!rows[k].isActive ==> r.outcome == Http.Status(409))
            && (rows[k].isActive && !Unexpired(rows[k], dbNow) && !Unexpired(rows[k], appNow) ==> r.outcome == Http.Status(410))
            && (rows[k].isActive && !Unexpired(rows[k], dbNow) && Unexpired(rows[k], appNow) ==> r.outcome == Http.Status(409)))
  {
    NatToStringParses(id);
    match IndexOfId(rows, id)
    case None =>
    case Some(k) =>
      forall j | 0 <= j < |rows| && rows[j].id == id ensures j == k {}
  }

  lemma {:induction false} NatToStringParses(n: nat)
    ensures ParseId(Text.NatToString(n)) == Some(n)
  {
    var s := Text.NatToString(n);
    Text.TrimKeeps(s);
    DigitsOfNatToString(n);
  }

  lemma {:induction false} DigitsOfNatToString(n: nat)
    ensures Text.DigitsValue(Text.NatToString(n)) == n
    decreases n
  {
    var s := Text.NatToString(n);
    if n < 10 {
      assert s[..0] == [];
    } else {
      DigitsOfNatToString(n / 10);
      assert s[..|s| - 1] == Text.NatToString(n / 10);
    }
  }

  /** The record table the handlers update in place. */
  class LinkTable {
    var rows: seq<Link>

    constructor (rows: seq<Link>)
      ensures this.rows == rows
    {
      this.rows := rows;
    }

    /** `deactivateLink`: the conditional UPDATE, then the cache delete or the
        status lookup. */
    method Deactivate(redis: Cache.Redis, rawId: string, dbNow: int, appNow: int, faults: seq<bool>)
      returns (o: Http.Outcome)
      modifies this, redis
      ensures DeactivateResult(o, rows, redis.entries)
           == DeactivateSpec(old(rows), old(redis.entries), rawId, dbNow, appNow, faults)
    {
      var parsed := ParseId(rawId);
      if parsed.None? {
        return Http.Status(400);
      }
      var id := parsed.value;
      if id > MaxBigint {
        return Http.Status(500);
      }
      var k := IndexOfId(rows, id);
      if k.Some? && rows[k.value].isActive && Unexpired(rows[k.value], dbNow) {
        var l := rows[k.value];
        rows := rows[k.value := l.(isActive := false)];
        var r := redis.Del([ShortKey(CodeText(l.code))], appNow, Cache.Fault(faults, 0));
        if r.Err? {
          return Http.Status(500);
        }
        return Http.Status(200);
      }
      if k.None? {
        return Http.Status(404);
      }
      var l := rows[k.value];
      if !l.isActive {
        return Http.Status(409);
      }
      if !Unexpired(l, appNow) {
        return Http.Status(410);
      }
      return Http.Status(409);
    }
  }
}
