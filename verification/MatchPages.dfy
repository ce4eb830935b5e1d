/** The order of the match listing and its division into pages. */
module MatchPages {
  import opened Basics
  import opened MatchQuery
  import Order

  datatype SortParam = ScoreDesc | ScoreAsc | CalculatedAtDesc

  /** The primary key of each ordering, larger first or smaller first, then the opportunity id. */
  predicate Before(sort: SortParam, a: Match, b: Match) {
    var (x, y) :=
      match sort
      case ScoreDesc => (b.scorePct, a.scorePct)
      case ScoreAsc => (a.scorePct, b.scorePct)
      case CalculatedAtDesc => (b.calculatedAt, a.calculatedAt);
    x < y || (x == y && a.opportunityId < b.opportunityId)
  }

  function Ordering(sort: SortParam): (Match, Match) -> bool {
    (a, b) => Before(sort, a, b)
  }

  /** One row per user and opportunity: among one user's rows the opportunities differ. */
  ghost predicate OneRowPerOpportunity(rows: seq<Match>) {
    forall i, j | 0 <= i < j < |rows| :: rows[i].opportunityId != rows[j].opportunityId
  }

  ghost predicate Arranged(sort: SortParam, rows: seq<Match>, s: seq<Match>) {
    multiset(s) == multiset(rows) && Order.Sorted(Ordering(sort), s)
  }

  /** Each ordering admits exactly one arrangement of a user's rows. */
  lemma ExactlyOneArrangement(sort: SortParam, rows: seq<Match>)
    requires OneRowPerOpportunity(rows)
    ensures exists s :: Arranged(sort, rows, s)
    ensures forall s, t :: Arranged(sort, rows, s) && Arranged(sort, rows, t) ==> s == t
  {
    var less := Ordering(sort);
    Order.SortIsSorted(less, rows);
    assert Arranged(sort, rows, Order.Sort(less, rows));
    forall s, t | Arranged(sort, rows, s) && Arranged(sort, rows, t) ensures s == t {
      Order.SortedIsUnique(less, s, t);
    }
  }

  // ----- Pages

  const DEFAULT_LIMIT := 20
  const MAX_LIMIT := 100

  function EffectiveLimit(limit: Option<nat>): (r: nat)
    ensures 1 <= r <= 100
    ensures limit == None || limit == Some(0) ==> r == 20
    ensures limit.Some? && 1 <= limit.value <= 100 ==> r == limit.value
    ensures limit.Some? && limit.value > 100 ==> r == 100
  {
    Min(if limit.Some? && limit.value != 0 then limit.value else DEFAULT_LIMIT, MAX_LIMIT)
  }

  function EffectivePage(page: Option<nat>): (r: nat)
    ensures r >= 1
    ensures page == None || page == Some(0) ==> r == 1
    ensures page.Some? && page.value >= 1 ==> r == page.value
  {
    if page.Some? && page.value != 0 then page.value else 1
  }

  /** `Math.ceil(total / limit)`. */
  function CeilDiv(total: nat, limit: nat): nat
    requires limit > 0
  {
    (total + limit - 1) / limit
  }

  /** `skip` and `take` on the ordered rows. */
  function Slice<T>(s: seq<T>, skip: nat, take: nat): seq<T> {
    s[Min(skip, |s|)..Min(skip + take, |s|)]
  }

  lemma SliceContents<T>(s: seq<T>, skip: nat, take: nat)
    ensures |Slice(s, skip, take)| == Max(0, Min(take, |s| - skip))
    ensures forall i | 0 <= i < |Slice(s, skip, take)| :: Slice(s, skip, take)[i] == s[skip + i]
  {
  }

  function Page<T>(s: seq<T>, page: nat, limit: nat): seq<T>
    requires page >= 1
  {
    Slice(s, (page - 1) * limit, limit)
  }

  /** Pages 1 to n, one after the other. */
  function Pages<T>(s: seq<T>, n: nat, limit: nat): seq<T> {
    if n == 0 then [] else Pages(s, n - 1, limit) + Page(s, n, limit)
  }

  lemma CeilDivBounds(total: nat, limit: nat)
    requires limit > 0
    ensures total <= CeilDiv(total, limit) * limit
    ensures CeilDiv(total, limit) * limit < total + limit
  {
    var n := total + limit - 1;
    assert n == limit * (n / limit) + n % limit;
  }

  lemma {:induction false} PagesArePrefix<T>(s: seq<T>, n: nat, limit: nat)
    ensures Pages(s, n, limit) == s[..Min(n * limit, |s|)]
  {
    if n > 0 {
      PagesArePrefix(s, n - 1, limit);
      assert n * limit == (n - 1) * limit + limit;
      var from, to := Min((n - 1) * limit, |s|), Min((n - 1) * limit + limit, |s|);
      assert Page(s, n, limit) == s[from..to];
      assert s[..from] + s[from..to] == s[..to];
    }
  }

  /** Pages 1 to ceil(total / limit) together are the whole listing. */
  lemma PagesCoverAll<T>(s: seq<T>, limit: nat)
    requires limit > 0
    ensures Pages(s, CeilDiv(|s|, limit), limit) == s
  {
    PagesArePrefix(s, CeilDiv(|s|, limit), limit);
    CeilDivBounds(|s|, limit);
  }

  /** A page is empty exactly when it lies after the last one. */
  lemma PageEmptyExact<T>(s: seq<T>, page: nat, limit: nat)
    requires page >= 1 && limit > 0
    ensures Page(s, page, limit) == [] <==> CeilDiv(|s|, limit) < page
  {
    var total := CeilDiv(|s|, limit);
    CeilDivBounds(|s|, limit);
    assert total * limit - limit == (total - 1) * limit;
    if total < page {
      Monotone(total, page - 1, limit);
    } else {
      Monotone(page - 1, total - 1, limit);
    }
  }

  lemma Monotone(a: int, b: int, limit: nat)
    requires a <= b
    ensures a * limit <= b * limit
  {
  }

  /** Page p holds the positions of quotient p - 1. */
  lemma PageOfPosition(i: nat, page: nat, limit: nat)
    requires page >= 1 && limit > 0
    ensures (page - 1) * limit <= i < (page - 1) * limit + limit <==> page == i / limit + 1
  {
    var q := i / limit;
    assert i == limit * q + i % limit;
    if page - 1 < q {
      Monotone(page, q, limit);
      assert page * limit == (page - 1) * limit + limit;
    } else if page - 1 > q {
      Monotone(q + 1, page - 1, limit);
      assert (q + 1) * limit == limit * q + limit;
    } else {
      assert (page - 1) * limit == limit * q;
    }
  }

  /** Row i of the listing is on page i / limit + 1 and on no other. */
  lemma RowOnOnePage<T(!new)>(s: seq<T>, i: nat, page: nat, limit: nat)
    requires page >= 1 && limit > 0 && i < |s|
    requires forall j, k | 0 <= j < k < |s| :: s[j] != s[k]
    ensures s[i] in Page(s, page, limit) <==> page == i / limit + 1
  {
    var from := (page - 1) * limit;
    PageOfPosition(i, page, limit);
    SliceHolds(s, i, from, limit);
  }

  lemma SliceHolds<T(!new)>(s: seq<T>, i: nat, from: nat, limit: nat)
    requires i < |s| && forall j, k | 0 <= j < k < |s| :: s[j] != s[k]
    ensures s[i] in Slice(s, from, limit) <==> from <= i < from + limit
  {
    var p := Slice(s, from, limit);
    assert forall k | 0 <= k < |p| :: p[k] == s[from + k];
    if from <= i < from + limit {
      assert p[i - from] == s[i];
    }
  }

  /** The pages of the one arrangement of a user's rows: each row is on exactly one of them. */
  lemma MatchOnOnePage(sort: SortParam, rows: seq<Match>, s: seq<Match>, m: Match, limit: nat)
    requires OneRowPerOpportunity(rows) && Arranged(sort, rows, s) && m in rows && limit > 0
    ensures exists page: nat | 1 <= page <= CeilDiv(|rows|, limit) ::
      && m in Page(s, page, limit)
      && forall other: nat | other >= 1 && other != page :: m !in Page(s, other, limit)
  {
    assert |multiset(s)| == |multiset(rows)|;
    assert m in multiset(s);
    var i :| 0 <= i < |s| && s[i] == m;
    var page := i / limit + 1;
    assert forall j, k | 0 <= j < k < |s| :: Before(sort, s[j], s[k]);
    forall other: nat | other >= 1 ensures m in Page(s, other, limit) <==> other == page {
      RowOnOnePage(s, i, other, limit);
    }
    PageEmptyExact(s, page, limit);
  }

  // ----- Page information

  datatype Meta = Meta(page: nat, limit: nat, total: nat, totalPages: nat, hasNext: bool, hasPrev: bool)

  function BuildMeta(total: nat, page: nat, limit: nat): Meta
    requires limit > 0
  {
    var totalPages := CeilDiv(total, limit);
    Meta(page, limit, total, totalPages, page < totalPages, page > 1 && page <= totalPages + 1)
  }

  /** `hasNext` says that rows remain after the page, `hasPrev` that the page before it has rows. */
  lemma MetaMeaning<T>(s: seq<T>, page: nat, limit: nat)
    requires page >= 1 && limit > 0
    ensures var meta := BuildMeta(|s|, page, limit);
      && meta.page == page && meta.limit == limit && meta.total == |s|
      && (meta.totalPages - 1) * limit < |s| <= meta.totalPages * limit
      && (meta.hasNext <==> page * limit < |s|)
      && (meta.hasNext <==> Page(s, page + 1, limit) != [])
      && (meta.hasPrev <==> page > 1 && Page(s, page - 1, limit) != [])
  {
    PageEmptyExact(s, page + 1, limit);
    assert (page + 1 - 1) * limit == page * limit;
    CeilDivBounds(|s|, limit);
    assert (CeilDiv(|s|, limit) - 1) * limit == CeilDiv(|s|, limit) * limit - limit;
    if page > 1 {
      PageEmptyExact(s, page - 1, limit);
    }
  }
}
