/**
 The match listing service: query normalisation, the repository query and the result cache in
 front of it.
 */
module MatchCache {
  import opened Basics
  import opened MatchQuery
  import opened MatchPages
  import Order

  /** A query as it arrives: its own keys in insertion order, None for `undefined`. */
  type RawQuery = seq<(string, Option<string>)>

  type Entries = seq<(string, string)>

  ghost predicate DistinctKeys(raw: RawQuery) {
    forall i, j | 0 <= i < j < |raw| :: raw[i].0 != raw[j].0
  }

  function Defined(raw: RawQuery): Entries {
    if raw == [] then []
    else if raw[0].1.Some? then [(raw[0].0, raw[0].1.value)] + Defined(raw[1..])
    else Defined(raw[1..])
  }

  // ----- Normalisation

  /** The order `sort()` puts strings in. */
  predicate StringLess(a: string, b: string) {
    if b == "" then false
    else if a == "" then true
    else a[0] < b[0] || (a[0] == b[0] && StringLess(a[1..], b[1..]))
  }

  predicate KeyLess(a: (string, string), b: (string, string)) {
    StringLess(a.0, b.0)
  }

  lemma {:induction false} StringLessAsymmetric(a: string, b: string)
    ensures !(StringLess(a, b) && StringLess(b, a))
  {
    if a != "" && b != "" {
      StringLessAsymmetric(a[1..], b[1..]);
    }
  }

  lemma {:induction false} StringLessTransitive(a: string, b: string, c: string)
    requires StringLess(a, b) && StringLess(b, c)
    ensures StringLess(a, c)
  {
    if a != "" && a[0] == b[0] && b[0] == c[0] {
      StringLessTransitive(a[1..], b[1..], c[1..]);
    }
  }

  lemma {:induction false} StringLessTotal(a: string, b: string)
    requires a != b
    ensures StringLess(a, b) || StringLess(b, a)
  {
    if a != "" && b != "" && a[0] == b[0] {
      assert a == [a[0]] + a[1..] && b == [b[0]] + b[1..];
      StringLessTotal(a[1..], b[1..]);
    }
  }

  lemma KeyLessIsOrder()
    ensures Order.Asymmetric(KeyLess) && Order.Transitive(KeyLess)
  {
    forall a: (string, string), b: (string, string) ensures !(KeyLess(a, b) && KeyLess(b, a)) {
      StringLessAsymmetric(a.0, b.0);
    }
    forall a: (string, string), b: (string, string), c: (string, string) | KeyLess(a, b) && KeyLess(b, c)
      ensures KeyLess(a, c)
    {
      StringLessTransitive(a.0, b.0, c.0);
    }
  }

  /** The defined entries in key order; the cache key is made from them. */
  function Normalize(raw: RawQuery): Entries {
    Order.Sort(KeyLess, Defined(raw))
  }

  lemma {:induction false} DefinedEntries(raw: RawQuery)
    requires DistinctKeys(raw)
    ensures forall e :: e in Defined(raw) <==> (e.0, Some(e.1)) in raw
    ensures forall i, j | 0 <= i < j < |Defined(raw)| :: Defined(raw)[i].0 != Defined(raw)[j].0
  {
    if raw != [] {
      var rest := raw[1..];
      assert forall i | 0 <= i < |rest| :: rest[i] == raw[i + 1];
      DefinedEntries(rest);
      assert forall x :: x in raw <==> x == raw[0] || x in rest;
      if raw[0].1.Some? {
        forall e | e in Defined(rest) ensures e.0 != raw[0].0 {
          var k :| 0 <= k < |rest| && rest[k] == (e.0, Some(e.1));
          assert raw[k + 1].0 == e.0;
        }
      }
    }
  }

  lemma NormalizeSorts(raw: RawQuery)
    requires DistinctKeys(raw)
    ensures Order.Sorted(KeyLess, Normalize(raw)) && multiset(Normalize(raw)) == multiset(Defined(raw))
  {
    KeyLessIsOrder();
    DefinedEntries(raw);
    var d := Defined(raw);
    forall i, j | 0 <= i < j < |d| ensures KeyLess(d[i], d[j]) || KeyLess(d[j], d[i]) {
      StringLessTotal(d[i].0, d[j].0);
    }
    Order.SortIsSorted(KeyLess, d);
  }

  lemma {:induction false} SameElementsOnce(a: Entries, b: Entries)
    requires forall i, j | 0 <= i < j < |a| :: a[i] != a[j]
    requires forall i, j | 0 <= i < j < |b| :: b[i] != b[j]
    requires forall e :: e in a <==> e in b
    ensures multiset(a) == multiset(b)
  {
    forall e ensures multiset(a)[e] == multiset(b)[e] {
      OnceInMultiset(a, e);
      OnceInMultiset(b, e);
      assert e in a <==> e in multiset(a);
      assert e in b <==> e in multiset(b);
    }
  }

  lemma {:induction false} OnceInMultiset(a: Entries, e: (string, string))
    requires forall i, j | 0 <= i < j < |a| :: a[i] != a[j]
    ensures multiset(a)[e] <= 1
  {
    if a != [] {
      var rest, last := a[..|a| - 1], a[|a| - 1];
      assert a == rest + [last];
      OnceInMultiset(rest, e);
      assert last !in rest;
      assert last !in multiset(rest);
    }
  }

  /** Two queries get the same cache entry exactly when they define the same entries, in whatever order. */
  lemma NormalizeExact(a: RawQuery, b: RawQuery)
    requires DistinctKeys(a) && DistinctKeys(b)
    ensures Normalize(a) == Normalize(b) <==> forall key, v :: (key, Some(v)) in a <==> (key, Some(v)) in b
  {
    NormalizeSorts(a);
    NormalizeSorts(b);
    DefinedEntries(a);
    DefinedEntries(b);
    var da, db := Defined(a), Defined(b);
    if Normalize(a) == Normalize(b) {
      forall key, v ensures (key, Some(v)) in a <==> (key, Some(v)) in b {
        assert (key, v) in da <==> (key, v) in multiset(da);
        assert (key, v) in db <==> (key, v) in multiset(db);
      }
    }
    if forall key, v :: (key, Some(v)) in a <==> (key, Some(v)) in b {
      forall e ensures e in da <==> e in db {
        assert e == (e.0, e.1);
        assert (e.0, Some(e.1)) in a <==> (e.0, Some(e.1)) in b;
      }
      SameElementsOnce(da, db);
      KeyLessIsOrder();
      Order.SortedIsUnique(KeyLess, Normalize(a), Normalize(b));
    }
  }

  // ----- The listing

  datatype SortChoice = DefaultSort | Chosen(sort: SortParam) | UnknownSort

  /** What the service reads out of the defined entries. */
  datatype Params = Params(query: Query, sort: SortChoice, page: Option<nat>, limit: Option<nat>)

  datatype MatchList = MatchList(data: seq<Match>, page: nat, limit: nat, total: nat, pages: nat, syncedAt: int)

  datatype ListError = InvalidSort | InvalidRange

  function Filter(rows: seq<Match>, p: Match -> bool): (r: seq<Match>)
    ensures forall m :: m in r <==> m in rows && p(m)
  {
    if rows == [] then []
    else if p(rows[0]) then [rows[0]] + Filter(rows[1..], p)
    else Filter(rows[1..], p)
  }

  lemma {:induction false} FilterCongruence(rows: seq<Match>, p: Match -> bool, q: Match -> bool)
    requires forall m :: p(m) == q(m)
    ensures Filter(rows, p) == Filter(rows, q)
  {
    if rows != [] {
      FilterCongruence(rows[1..], p, q);
    }
  }

  function SortOf(c: SortChoice): SortParam {
    if c.Chosen? then c.sort else ScoreDesc
  }

  function InOrder(sort: SortParam, rows: seq<Match>): seq<Match> {
    Order.Sort(Ordering(sort), rows)
  }

  function ShownBy(user: User, d: Query, now: int): Match -> bool {
    m => Shown(user, d, now, m)
  }

  function ShownRows(user: User, d: Query, rows: seq<Match>, now: int): seq<Match> {
    Filter(rows, ShownBy(user, d, now))
  }

  /** All the rows the query is shown, in order. */
  function Ordered(user: User, d: Query, sort: SortParam, rows: seq<Match>, now: int): seq<Match> {
    InOrder(sort, ShownRows(user, d, rows, now))
  }

  /** `findMany` and `count` both look at the rows the clause selects. */
  function Selected(where: MatchWhere, sort: SortParam, rows: seq<Match>): seq<Match> {
    InOrder(sort, Filter(rows, m => Selects(where, m)))
  }

  lemma SelectedAreShown(where: MatchWhere, user: User, d: Query, sort: SortParam, rows: seq<Match>, now: int)
    requires forall m :: Selects(where, m) <==> Shown(user, d, now, m)
    ensures Selected(where, sort, rows) == Ordered(user, d, sort, rows, now)
  {
    FilterCongruence(rows, m => Selects(where, m), ShownBy(user, d, now));
  }

  /** The listing without the cache: the requested page of the shown rows. */
  function Listing(user: User, p: Params, rows: seq<Match>, now: int): Result<MatchList, ListError> {
    if p.sort.UnknownSort? then Err(InvalidSort)
    else if BadRange(p.query) then Err(InvalidRange)
    else
      var (limit, page) := (EffectiveLimit(p.limit), EffectivePage(p.page));
      var all := Ordered(user, p.query, SortOf(p.sort), rows, now);
      Ok(MatchList(Page(all, page, limit), page, limit, |all|, CeilDiv(|all|, limit), now))
  }

  /** The table has one row per user and opportunity. */
  ghost predicate OneRowPerPair(rows: seq<Match>) {
    forall i, j | 0 <= i < j < |rows| ::
      rows[i].userId != rows[j].userId || rows[i].opportunityId != rows[j].opportunityId
  }

  lemma {:induction false} FilterKeepsDistinct(rows: seq<Match>, p: Match -> bool, user: User)
    requires OneRowPerPair(rows) && forall m :: p(m) ==> m.userId == user
    ensures OneRowPerOpportunity(Filter(rows, p))
  {
    if rows != [] {
      var rest := rows[1..];
      assert forall i | 0 <= i < |rest| :: rest[i] == rows[i + 1];
      FilterKeepsDistinct(rest, p, user);
      if p(rows[0]) {
        forall m | m in Filter(rest, p) ensures m.opportunityId != rows[0].opportunityId {
          assert m in rest;
        }
      }
    }
  }

  lemma InOrderIsArranged(sort: SortParam, rows: seq<Match>)
    requires OneRowPerOpportunity(rows)
    ensures Arranged(sort, rows, InOrder(sort, rows))
    ensures forall s :: Arranged(sort, rows, s) ==> s == InOrder(sort, rows)
  {
    Order.SortIsSorted(Ordering(sort), rows);
    forall s | Arranged(sort, rows, s) ensures s == InOrder(sort, rows) {
      Order.SortedIsUnique(Ordering(sort), s, InOrder(sort, rows));
    }
  }

  /**
   The listing is the one arrangement of the shown rows: no row is lost, none is doubled, and
   the order is strict.  Its pages, one after the other, give it back.
   */
  lemma ListingIsArranged(user: User, d: Query, sort: SortParam, rows: seq<Match>, now: int, limit: nat)
    requires OneRowPerPair(rows) && limit > 0
    ensures var shown, all := ShownRows(user, d, rows, now), Ordered(user, d, sort, rows, now);
      && Arranged(sort, shown, all)
      && (forall s :: Arranged(sort, shown, s) ==> s == all)
      && Pages(all, CeilDiv(|all|, limit), limit) == all
  {
    FilterKeepsDistinct(rows, ShownBy(user, d, now), user);
    InOrderIsArranged(sort, ShownRows(user, d, rows, now));
    PagesCoverAll(Ordered(user, d, sort, rows, now), limit);
  }

  /** The order of two rows by the ordering's column, in the rows' own fields; equal ones follow the opportunity id. */
  ghost predicate InPlace(sort: SortParam, a: Match, b: Match) {
    match sort
    case ScoreDesc => a.scorePct > b.scorePct || (a.scorePct == b.scorePct && a.opportunityId < b.opportunityId)
    case ScoreAsc => a.scorePct < b.scorePct || (a.scorePct == b.scorePct && a.opportunityId < b.opportunityId)
    case CalculatedAtDesc =>
      a.calculatedAt > b.calculatedAt || (a.calculatedAt == b.calculatedAt && a.opportunityId < b.opportunityId)
  }

  /** Any earlier row of the listing stands before any later one. */
  lemma RowsInPlace(user: User, d: Query, sort: SortParam, rows: seq<Match>, now: int, i: nat, j: nat)
    requires OneRowPerPair(rows) && i < j < |Ordered(user, d, sort, rows, now)|
    ensures InPlace(sort, Ordered(user, d, sort, rows, now)[i], Ordered(user, d, sort, rows, now)[j])
  {
    var all := Ordered(user, d, sort, rows, now);
    ListingIsArranged(user, d, sort, rows, now, 1);
    assert Order.Sorted(Ordering(sort), all);
    assert Ordering(sort)(all[i], all[j]);
  }

  /** The list holds the rows from `skip` on, at most `limit` of them, and tells the numbers of rows and pages. */
  ghost predicate ShowsPage(list: MatchList, all: seq<Match>, skip: int, limit: nat) {
    && list.total == |all|
    && (list.pages - 1) * limit < |all| <= list.pages * limit
    && |list.data| == Max(0, Min(limit, |all| - skip))
    && forall i | 0 <= i < |list.data| :: 0 <= skip + i < |all| && list.data[i] == all[skip + i]
  }

  /** Exactly when a request for a listing is refused, and with which error. */
  lemma ListingErrors(user: User, p: Params, rows: seq<Match>, now: int)
    ensures var d, r := p.query, Listing(user, p, rows, now);
      && (r == Err(InvalidSort) <==> p.sort == UnknownSort)
      && (r == Err(InvalidRange) <==>
            && p.sort != UnknownSort
            && d.deadlineFrom.Some? && d.deadlineTo.Some? && d.deadlineTo.value < d.deadlineFrom.value)
  {
  }

  lemma PageShows(all: seq<Match>, page: nat, limit: nat, now: int)
    requires page >= 1 && limit > 0
    ensures ShowsPage(MatchList(Page(all, page, limit), page, limit, |all|, CeilDiv(|all|, limit), now),
                      all, (page - 1) * limit, limit)
  {
    CeilDivBounds(|all|, limit);
    assert (CeilDiv(|all|, limit) - 1) * limit == CeilDiv(|all|, limit) * limit - limit;
    SliceContents(all, (page - 1) * limit, limit);
  }

  /**
   The listing of a request: the page and limit it asks for within their bounds, the rows of that
   page, the total and the number of pages.  Without a sort the best scores come first.
   */
  lemma ListingExact(user: User, p: Params, rows: seq<Match>, now: int)
    requires Listing(user, p, rows, now).Ok?
    ensures var list := Listing(user, p, rows, now).value;
      var sort := if p.sort.Chosen? then p.sort.sort else ScoreDesc;
      var limit := if p.limit.None? || p.limit == Some(0) then 20 else Min(p.limit.value, 100);
      var page := if p.page.None? || p.page == Some(0) then 1 else p.page.value;
      && list.page == page && list.limit == limit && list.syncedAt == now
      && ShowsPage(list, Ordered(user, p.query, sort, rows, now), (page - 1) * limit, limit)
  {
    var limit, page := EffectiveLimit(p.limit), EffectivePage(p.page);
    PageShows(Ordered(user, p.query, SortOf(p.sort), rows, now), page, limit, now);
  }

  datatype Cached = Cached(list: MatchList, expires: int)

  type Cache = map<(User, Entries), Cached>

  function Lookup(cache: Cache, user: User, raw: RawQuery, now: int): Option<MatchList> {
    var key := (user, Normalize(raw));
    if key in cache && now < cache[key].expires then Some(cache[key].list) else None
  }

  /** The service call: an unknown sort is refused first, then the cache is asked, then the repository. */
  function Get(read: set<(string, string)> -> Params, ttl: nat, cache: Cache, user: User, raw: RawQuery,
               rows: seq<Match>, now: int): (Cache, Result<MatchList, ListError>)
  {
    var p := read(set e | e in Defined(raw));
    var hit := Lookup(cache, user, raw, now);
    if p.sort.UnknownSort? then (cache, Err(InvalidSort))
    else if hit.Some? then (cache, Ok(hit.value))
    else
      var listing := Listing(user, p, rows, now);
      (if listing.Ok? then cache[(user, Normalize(raw)) := Cached(listing.value, now + ttl)] else cache, listing)
  }

  /**
   A listing that was computed is served again, to the same user for the same defined entries and
   whatever the rows are by then, exactly while the TTL lasts.
   */
  lemma ServedAgain(read: set<(string, string)> -> Params, ttl: nat, cache: Cache, user: User, raw: RawQuery,
                    rows: seq<Match>, now: int, again: RawQuery, rows': seq<Match>, later: int)
    requires DistinctKeys(raw) && DistinctKeys(again)
    requires forall key, v :: (key, Some(v)) in raw <==> (key, Some(v)) in again
    requires (user, Normalize(raw)) !in cache && Get(read, ttl, cache, user, raw, rows, now).1.Ok?
    ensures
      var (cache', r) := Get(read, ttl, cache, user, raw, rows, now);
      var p := read(set e | e in Defined(raw));
      && r == Listing(user, p, rows, now)
      && Get(read, ttl, cache', user, again, rows', later).1 ==
         if later < now + ttl then r else Listing(user, p, rows', later)
  {
    NormalizeExact(raw, again);
    SameDefined(raw, again);
  }

  /** A refused call leaves the cache alone, and an unknown sort is refused even if a listing is kept for it. */
  lemma RefusalExact(read: set<(string, string)> -> Params, ttl: nat, cache: Cache, user: User, raw: RawQuery,
                     rows: seq<Match>, now: int)
    ensures
      var (cache', r) := Get(read, ttl, cache, user, raw, rows, now);
      && (r == Err(InvalidSort) <==> read(set e | e in Defined(raw)).sort == UnknownSort)
      && (r.Err? ==> cache' == cache)
      && (forall key | key in cache && key != (user, Normalize(raw)) :: key in cache' && cache'[key] == cache[key])
  {
  }

  lemma SameDefined(a: RawQuery, b: RawQuery)
    requires DistinctKeys(a) && DistinctKeys(b) && Normalize(a) == Normalize(b)
    ensures (set e | e in Defined(a)) == (set e | e in Defined(b))
  {
    NormalizeExact(a, b);
    DefinedEntries(a);
    DefinedEntries(b);
    forall e ensures e in Defined(a) <==> e in Defined(b) {
      assert e == (e.0, e.1);
      assert (e.0, Some(e.1)) in a <==> (e.0, Some(e.1)) in b;
    }
  }

  class MatchService {
    const read: set<(string, string)> -> Params
    const ttl: nat
    var cache: Cache

    constructor (read: set<(string, string)> -> Params, ttl: nat)
      ensures cache == map[] && this.read == read && this.ttl == ttl
    {
      this.read, this.ttl, cache := read, ttl, map[];
    }

    method FindMatches(user: User, d: Query, sort: SortParam, limit: nat, skip: nat, rows: seq<Match>, now: int)
      returns (r: Result<(seq<Match>, nat), ListError>)
      ensures r ==
        if BadRange(d) then Err(InvalidRange)
        else Ok((Slice(Ordered(user, d, sort, rows, now), skip, limit), |Ordered(user, d, sort, rows, now)|))
    {
      var where := BuildWhere(user, d, now);
      if where.Err? {
        return Err(InvalidRange);
      }
      SelectedAreShown(where.value, user, d, sort, rows, now);
      var selected := Selected(where.value, sort, rows);
      return Ok((Slice(selected, skip, limit), |selected|));
    }

    method GetMatches(user: User, raw: RawQuery, rows: seq<Match>, now: int) returns (r: Result<MatchList, ListError>)
      modifies this
      ensures (cache, r) == Get(read, ttl, old(cache), user, raw, rows, now)
    {
      var p := read(set e | e in Defined(raw));
      if p.sort.UnknownSort? {
        return Err(InvalidSort);
      }
      var limit := EffectiveLimit(p.limit);
      var page := EffectivePage(p.page);
      var skip := (page - 1) * limit;
      var key := (user, Normalize(raw));
      if key in cache && now < cache[key].expires {
        return Ok(cache[key].list);
      }
      var found := FindMatches(user, p.query, SortOf(p.sort), limit, skip, rows, now);
      if found.Err? {
        return Err(found.error);
      }
      var result := MatchList(found.value.0, page, limit, found.value.1, CeilDiv(found.value.1, limit), now);
      cache := cache[key := Cached(result, now + ttl)];
      return Ok(result);
    }
  }

  // ----- What the cache serves

  /** One call, with the rows the repository holds at that moment. */
  datatype Call = Call(user: User, raw: RawQuery, rows: seq<Match>, now: int)

  datatype Run = Run(read: set<(string, string)> -> Params, ttl: nat, states: seq<Cache>, calls: seq<Call>)
  {
    ghost predicate Valid() {
      && |states| == |calls| + 1
      && states[0] == map[]
      && (forall i | 0 <= i < |calls| :: DistinctKeys(calls[i].raw))
      && (forall i | 0 <= i < |calls| ::
            states[i + 1] == Get(read, ttl, states[i], calls[i].user, calls[i].raw, calls[i].rows, calls[i].now).0)
    }

    function Answer(i: nat): Result<MatchList, ListError>
      requires i < |calls| && |states| == |calls| + 1
    {
      Get(read, ttl, states[i], calls[i].user, calls[i].raw, calls[i].rows, calls[i].now).1
    }

    function ParamsOf(i: nat): Params
      requires i < |calls|
    {
      read(set e | e in Defined(calls[i].raw))
    }
  }

  /** The cache entry was computed by call m. */
  ghost predicate StoredBy(run: Run, m: nat, key: (User, Entries), c: Cached) {
    && m < |run.calls|
    && key == (run.calls[m].user, Normalize(run.calls[m].raw))
    && Listing(run.calls[m].user, run.ParamsOf(m), run.calls[m].rows, run.calls[m].now) == Ok(c.list)
    && c.expires == run.calls[m].now + run.ttl
  }

  lemma {:induction false} CacheIsStored(run: Run, n: nat, key: (User, Entries))
    requires run.Valid() && n < |run.states| && key in run.states[n]
    ensures exists m: nat | m < n :: StoredBy(run, m, key, run.states[n][key])
  {
    assert n > 0;
    if key in run.states[n - 1] && run.states[n - 1][key] == run.states[n][key] {
      CacheIsStored(run, n - 1, key);
      var m: nat :| m < n - 1 && StoredBy(run, m, key, run.states[n - 1][key]);
    } else {
      assert StoredBy(run, n - 1, key, run.states[n][key]);
    }
  }

  lemma SameParams(run: Run, m: nat, n: nat)
    requires run.Valid() && m < |run.calls| && n < |run.calls|
    requires Normalize(run.calls[m].raw) == Normalize(run.calls[n].raw)
    ensures run.ParamsOf(m) == run.ParamsOf(n)
  {
    SameDefined(run.calls[m].raw, run.calls[n].raw);
  }

  /**
   Every listing served is the true listing, for this user and these parameters, of the rows
   the repository held at the moment of some call less than the TTL ago, or now.
   */
  lemma AnswersAreListings(run: Run, n: nat)
    requires run.Valid() && n < |run.calls| && run.Answer(n).Ok?
    ensures exists m: nat | m <= n ::
      && run.calls[m].user == run.calls[n].user
      && run.Answer(n) == Listing(run.calls[n].user, run.ParamsOf(n), run.calls[m].rows, run.calls[m].now)
      && (m < n ==> run.calls[n].now < run.calls[m].now + run.ttl)
  {
    var call := run.calls[n];
    var hit := Lookup(run.states[n], call.user, call.raw, call.now);
    if hit.Some? {
      var key := (call.user, Normalize(call.raw));
      CacheIsStored(run, n, key);
      var m: nat :| m < n && StoredBy(run, m, key, run.states[n][key]);
      SameParams(run, m, n);
    } else {
      assert run.Answer(n) == Listing(call.user, run.ParamsOf(n), call.rows, call.now);
    }
  }
}
