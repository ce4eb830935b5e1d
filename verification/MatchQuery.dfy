/**
 The where-clause of the match listing: how the clause is built from a query, and what it
 means.  Clauses are evaluated as SQL does: a comparison with a null column is unknown, and a
 row is selected only if its clause is true.
 */
module MatchQuery {
  import opened Basics
  import opened Text

  type User = nat

  datatype Opportunity = Opportunity(
    title: string, description: Option<string>, country: Option<string>, opportunityType: Option<string>,
    fundingType: Option<string>, isRemote: Option<bool>, sourceId: Option<string>, deadline: Option<int>,
    studyLevels: seq<string>, fieldsOfStudy: seq<string>, status: Option<string>)

  datatype Match = Match(userId: User, opportunityId: nat, scorePct: int, calculatedAt: int, opportunity: Opportunity)

  datatype Query = Query(
    q: Option<string>, country: Option<string>, opportunityType: Option<string>, fundingType: Option<string>,
    isRemote: Option<bool>, sourceId: Option<string>, deadlineFrom: Option<int>, deadlineTo: Option<int>,
    studyLevels: Option<string>, fieldsOfStudy: Option<string>,
    minScore: Option<int>, calculatedAfter: Option<int>, includeExpired: Option<bool>)

  datatype Error = InvalidDateRange

  // ----- Clauses

  datatype DateFilter = IsNull | Range(gte: Option<int>, lte: Option<int>)

  /** A clause on opportunities; all the keys that are present must hold. */
  datatype Where = Where(
    country: Option<string>, opportunityType: Option<string>, fundingType: Option<string>,
    isRemote: Option<bool>, sourceId: Option<string>, deadline: Option<DateFilter>,
    studyLevels: Option<seq<string>>, fieldsOfStudy: Option<seq<string>>,
    titleContains: Option<string>, descriptionContains: Option<string>,
    statusNotIn: Option<seq<string>>,
    OR: Clauses, AND: Clauses)

  /** The value of an `OR` or `AND` key, or its absence. */
  datatype Clauses = Absent | Clauses(items: seq<Where>)
  {
    function OrEmpty(): seq<Where> {
      if Absent? then [] else items
    }
  }

  const EMPTY_WHERE := Where(None, None, None, None, None, None, None, None, None, None, None, Absent, Absent)

  datatype MatchWhere = MatchWhere(
    userId: User, scoreGt: int, scoreGte: Option<int>, calculatedGt: Option<int>, opportunity: Option<Where>)

  const INACTIVE_STATUSES := ["closed", "expired", "archived", "rejected"]

  datatype Truth = True | False | Unknown
  {
    function And(other: Truth): (r: Truth)
      ensures r.True? <==> this.True? && other.True?
    {
      if this.False? || other.False? then False
      else if this.Unknown? || other.Unknown? then Unknown
      else True
    }

    function Or(other: Truth): (r: Truth)
      ensures r.True? <==> this.True? || other.True?
    {
      if this.True? || other.True? then True
      else if this.Unknown? || other.Unknown? then Unknown
      else False
    }
  }

  function Bool(b: bool): Truth {
    if b then True else False
  }

  function Equals<T(==)>(filter: Option<T>, column: Option<T>): Truth {
    if filter.None? then True else if column.None? then Unknown else Bool(column.value == filter.value)
  }

  /** `contains` with mode insensitive. */
  function ContainsText(filter: Option<string>, column: Option<string>): Truth {
    if filter.None? then True
    else if column.None? then Unknown
    else Bool(Find(Lower(column.value), Lower(filter.value)).Some?)
  }

  function HasSome(filter: Option<seq<string>>, column: seq<string>): Truth {
    if filter.None? then True else Bool(exists x | x in filter.value :: x in column)
  }

  function NotIn(filter: Option<seq<string>>, column: Option<string>): Truth {
    if filter.None? then True else if column.None? then Unknown else Bool(column.value !in filter.value)
  }

  function InRange(filter: Option<DateFilter>, column: Option<int>): Truth {
    match filter
    case None => True
    case Some(IsNull) => Bool(column.None?)
    case Some(Range(gte, lte)) =>
      (if gte.None? then True else if column.None? then Unknown else Bool(column.value >= gte.value)).And(
      if lte.None? then True else if column.None? then Unknown else Bool(column.value <= lte.value))
  }

  function Eval(w: Where, o: Opportunity): Truth
    decreases w, 1
  {
    EvalColumns(w, o)
      .And(if w.OR.Clauses? then EvalAny(w.OR.items, o) else True)
      .And(if w.AND.Clauses? then EvalAll(w.AND.items, o) else True)
  }

  function EvalColumns(w: Where, o: Opportunity): Truth {
    Equals(w.country, o.country)
      .And(Equals(w.opportunityType, o.opportunityType))
      .And(Equals(w.fundingType, o.fundingType))
      .And(Equals(w.isRemote, o.isRemote))
      .And(Equals(w.sourceId, o.sourceId))
      .And(InRange(w.deadline, o.deadline))
      .And(HasSome(w.studyLevels, o.studyLevels))
      .And(HasSome(w.fieldsOfStudy, o.fieldsOfStudy))
      .And(ContainsText(w.titleContains, Some(o.title)))
      .And(ContainsText(w.descriptionContains, o.description))
      .And(NotIn(w.statusNotIn, o.status))
  }

  function EvalAny(ws: seq<Where>, o: Opportunity): Truth
    decreases ws, 0
  {
    if ws == [] then False else Eval(ws[0], o).Or(EvalAny(ws[1..], o))
  }

  function EvalAll(ws: seq<Where>, o: Opportunity): Truth
    decreases ws, 0
  {
    if ws == [] then True else Eval(ws[0], o).And(EvalAll(ws[1..], o))
  }

  /** Whether the match listing selects the row. */
  predicate Selects(w: MatchWhere, m: Match) {
    && m.userId == w.userId
    && m.scorePct > w.scoreGt
    && (w.scoreGte.Some? ==> m.scorePct >= w.scoreGte.value)
    && (w.calculatedGt.Some? ==> m.calculatedAt > w.calculatedGt.value)
    && (w.opportunity.Some? ==> Eval(w.opportunity.value, m.opportunity).True?)
  }

  // ----- What a query asks for

  /** A text parameter that is present and not empty. */
  predicate Given(s: Option<string>) {
    s.Some? && s.value != ""
  }

  function Kept(s: Option<string>): Option<string> {
    if Given(s) then s else None
  }

  /** The non-empty trimmed parts between commas. */
  function Words(s: string): seq<string> {
    WordsFrom(s, "")
  }

  function WordsFrom(s: string, part: string): seq<string>
    decreases |s|
  {
    if s == "" then Word(part)
    else if s[0] == ',' then Word(part) + WordsFrom(s[1..], "")
    else WordsFrom(s[1..], part + [s[0]])
  }

  function Word(part: string): seq<string> {
    if Trim(part) == "" then [] else [Trim(part)]
  }

  /** Positions i to j of the string are one of its parts between commas. */
  predicate IsPart(s: string, i: nat, j: nat) {
    && i <= j <= |s|
    && (i == 0 || s[i - 1] == ',') && (j == |s| || s[j] == ',')
    && forall k | i <= k < j :: s[k] != ','
  }

  /** The words of a list are exactly its parts between commas that are not blank, without the spaces around them. */
  lemma WordsExact(s: string, x: string)
    ensures x in Words(s) <==> x != "" && exists i: nat, j: nat :: IsPart(s, i, j) && Trim(s[i..j]) == x
  {
    assert s[0..] == s && s[0..0] == "";
    WordsFromExact(s, 0, 0, x);
  }

  /** The words still to come when the part that starts at i has been read up to k. */
  lemma {:induction false} WordsFromExact(s: string, i: nat, k: nat, x: string)
    requires i <= k <= |s| && (i == 0 || s[i - 1] == ',') && forall l | i <= l < k :: s[l] != ','
    ensures x in WordsFrom(s[k..], s[i..k])
       <==> x != "" && exists a: nat, b: nat :: i <= a && IsPart(s, a, b) && Trim(s[a..b]) == x
    decreases |s| - k
  {
    if k == |s| {
      assert IsPart(s, i, k);
      assert forall a: nat, b: nat :: i <= a && IsPart(s, a, b) ==> (a == i && b == k);
    } else if s[k] == ',' {
      assert s[k..][1..] == s[k + 1..] && s[k + 1..k + 1] == "";
      WordsFromExact(s, k + 1, k + 1, x);
      assert IsPart(s, i, k);
      assert forall a: nat, b: nat :: i <= a && IsPart(s, a, b) ==> (a == i && b == k) || k + 1 <= a;
    } else {
      assert s[k..][1..] == s[k + 1..] && s[i..k] + [s[k]] == s[i..k + 1];
      WordsFromExact(s, i, k + 1, x);
    }
  }

  /** The phrase stands somewhere in the text, with no regard to case. */
  predicate Mentions(text: string, phrase: string) {
    exists i | 0 <= i <= |text| :: OccursAt(Lower(text), Lower(phrase), i)
  }

  /** Every filter the query gives holds of the opportunity; an empty text gives none. */
  predicate FiltersHold(d: Query, o: Opportunity) {
    && (d.country.Some? && d.country.value != "" ==> o.country == d.country)
    && (d.opportunityType.Some? && d.opportunityType.value != "" ==> o.opportunityType == d.opportunityType)
    && (d.fundingType.Some? && d.fundingType.value != "" ==> o.fundingType == d.fundingType)
    && (d.isRemote.Some? ==> o.isRemote == d.isRemote)
    && (d.sourceId.Some? && d.sourceId.value != "" ==> o.sourceId == d.sourceId)
    && (d.deadlineFrom.Some? ==> o.deadline.Some? && o.deadline.value >= d.deadlineFrom.value)
    && (d.deadlineTo.Some? ==> o.deadline.Some? && o.deadline.value <= d.deadlineTo.value)
    && (d.studyLevels.Some? && d.studyLevels.value != "" ==>
          exists x | x in Words(d.studyLevels.value) :: x in o.studyLevels)
    && (d.fieldsOfStudy.Some? && d.fieldsOfStudy.value != "" ==>
          exists x | x in Words(d.fieldsOfStudy.value) :: x in o.fieldsOfStudy)
    && TextHolds(d, o)
  }

  predicate TextHolds(d: Query, o: Opportunity) {
    d.q.Some? && Trim(d.q.value) != "" ==>
      var phrase := Trim(d.q.value);
      Mentions(o.title, phrase) || (o.description.Some? && Mentions(o.description.value, phrase))
  }

  /** Neither past its deadline nor known to be inactive. */
  predicate Current(o: Opportunity, now: int) {
    && (o.deadline.Some? ==> o.deadline.value >= now)
    && (o.status.Some? ==>
          var s := o.status.value; s != "closed" && s != "expired" && s != "archived" && s != "rejected")
  }

  predicate IncludesExpired(d: Query) {
    d.includeExpired == Some(true)
  }

  /** The rows a query asks for. */
  predicate Wanted(user: User, d: Query, now: int, m: Match) {
    && m.userId == user
    && m.scorePct > 0
    && (d.minScore.Some? ==> m.scorePct >= d.minScore.value)
    && (d.calculatedAfter.Some? ==> m.calculatedAt > d.calculatedAfter.value)
    && FiltersHold(d, m.opportunity)
    && (d.includeExpired == Some(true) || Current(m.opportunity, now))
  }

  /** The rows it gets: a row without a status is only shown among the expired ones. */
  predicate Shown(user: User, d: Query, now: int, m: Match) {
    Wanted(user, d, now, m) && (d.includeExpired == Some(true) || m.opportunity.status.Some?)
  }

  // ----- The builders

  predicate BadRange(d: Query) {
    d.deadlineFrom.Some? && d.deadlineTo.Some? && d.deadlineFrom.value > d.deadlineTo.value
  }

  function TextClauses(phrase: string): seq<Where> {
    [EMPTY_WHERE.(titleContains := Some(phrase)), EMPTY_WHERE.(descriptionContains := Some(phrase))]
  }

  /** What `buildOpportunityWhere` fills in. */
  function FilterClause(d: Query): Where {
    var phrase := if d.q.Some? then Trim(d.q.value) else "";
    EMPTY_WHERE.(
      country := Kept(d.country), opportunityType := Kept(d.opportunityType), fundingType := Kept(d.fundingType),
      isRemote := d.isRemote, sourceId := Kept(d.sourceId),
      deadline :=
        if d.deadlineFrom.Some? || d.deadlineTo.Some? then Some(Range(d.deadlineFrom, d.deadlineTo)) else None,
      studyLevels := if Given(d.studyLevels) then Some(Words(d.studyLevels.value)) else None,
      fieldsOfStudy := if Given(d.fieldsOfStudy) then Some(Words(d.fieldsOfStudy.value)) else None,
      OR := if phrase != "" then Clauses(TextClauses(phrase)) else Absent)
  }

  lemma EvalTextClauses(phrase: string, o: Opportunity)
    ensures EvalAny(TextClauses(phrase), o).True?
       <==> Mentions(o.title, phrase) || (o.description.Some? && Mentions(o.description.value, phrase))
  {
    var ws := TextClauses(phrase);
    assert EvalAny(ws, o) == Eval(ws[0], o).Or(EvalAny(ws[1..], o));
    assert ws[1..] == [ws[1]];
    assert EvalAny([ws[1]], o) == Eval(ws[1], o).Or(EvalAny([], o));
  }

  /** The opportunity clause holds exactly of the opportunities that pass every given filter. */
  lemma FilterClauseMeaning(d: Query, o: Opportunity)
    ensures Eval(FilterClause(d), o).True? <==> FiltersHold(d, o)
  {
    TextClauseMeaning(d, o);
    ColumnsMeaning(d, o);
  }

  lemma TextClauseMeaning(d: Query, o: Opportunity)
    ensures var w := FilterClause(d);
      w.OR.Clauses? ==> (EvalAny(w.OR.items, o).True? <==> TextHolds(d, o))
    ensures FilterClause(d).OR.Absent? ==> TextHolds(d, o)
  {
    if FilterClause(d).OR.Clauses? {
      EvalTextClauses(Trim(d.q.value), o);
    }
  }

  lemma ColumnsMeaning(d: Query, o: Opportunity)
    ensures EvalColumns(FilterClause(d), o).True? && TextHolds(d, o) <==> FiltersHold(d, o)
  {
  }

  /** The keys that compare one column with one value. */
  method BuildEquals(d: Query) returns (w: Where)
    ensures w == EMPTY_WHERE.(
      country := Kept(d.country), opportunityType := Kept(d.opportunityType), fundingType := Kept(d.fundingType),
      isRemote := d.isRemote, sourceId := Kept(d.sourceId))
  {
    w := EMPTY_WHERE;
    if Given(d.country) {
      w := w.(country := d.country);
    }
    if Given(d.opportunityType) {
      w := w.(opportunityType := d.opportunityType);
    }
    if Given(d.fundingType) {
      w := w.(fundingType := d.fundingType);
    }
    if d.isRemote.Some? {
      w := w.(isRemote := d.isRemote);
    }
    if Given(d.sourceId) {
      w := w.(sourceId := d.sourceId);
    }
  }

  method BuildOpportunityWhere(d: Query) returns (r: Result<Where, Error>)
    ensures r == if BadRange(d) then Err(InvalidDateRange) else Ok(FilterClause(d))
  {
    if d.deadlineFrom.Some? && d.deadlineTo.Some? {
      if d.deadlineFrom.value > d.deadlineTo.value {
        return Err(InvalidDateRange);
      }
    }
    var w := BuildEquals(d);
    if d.deadlineFrom.Some? || d.deadlineTo.Some? {
      var range := Range(None, None);
      if d.deadlineFrom.Some? {
        range := range.(gte := d.deadlineFrom);
      }
      if d.deadlineTo.Some? {
        range := range.(lte := d.deadlineTo);
      }
      w := w.(deadline := Some(range));
    }
    if Given(d.studyLevels) {
      w := w.(studyLevels := Some(Words(d.studyLevels.value)));
    }
    if Given(d.fieldsOfStudy) {
      w := w.(fieldsOfStudy := Some(Words(d.fieldsOfStudy.value)));
    }
    if Given(d.q) {
      var trimmed := Trim(d.q.value);
      if trimmed != "" {
        w := w.(OR := Clauses(TextClauses(trimmed)));
      }
    }
    return Ok(w);
  }

  function ExpiredRule(now: int): seq<Where> {
    [EMPTY_WHERE.(deadline := Some(IsNull)), EMPTY_WHERE.(deadline := Some(Range(Some(now), None)))]
  }

  lemma EvalExpiredRule(now: int, o: Opportunity)
    ensures EvalAny(ExpiredRule(now), o).True? <==> (o.deadline.Some? ==> o.deadline.value >= now)
  {
    var ws := ExpiredRule(now);
    assert EvalAny(ws, o) == Eval(ws[0], o).Or(EvalAny(ws[1..], o));
    assert ws[1..] == [ws[1]];
    assert EvalAny([ws[1]], o) == Eval(ws[1], o).Or(EvalAny([], o));
  }

  lemma {:induction false} EvalAllConcat(a: seq<Where>, b: seq<Where>, o: Opportunity)
    ensures EvalAll(a + b, o).True? <==> EvalAll(a, o).True? && EvalAll(b, o).True?
  {
    if a == [] {
      assert a + b == b;
    } else {
      assert (a + b)[0] == a[0] && (a + b)[1..] == a[1..] + b;
      EvalAllConcat(a[1..], b, o);
    }
  }

  /** The clause with its OR moved under AND, beside another disjunction. */
  function MovedOr(w: Where, rule: seq<Where>): Where
    requires w.OR.Clauses?
  {
    var others := w.AND.OrEmpty();
    w.(OR := Absent, AND := Clauses(others + [EMPTY_WHERE.(OR := Clauses(rule)), EMPTY_WHERE.(OR := w.OR)]))
  }

  /** Moving OR under AND keeps the meaning of the clause and adds the other disjunction to it. */
  lemma MovedOrMeaning(w: Where, rule: seq<Where>, o: Opportunity)
    requires w.OR.Clauses?
    ensures Eval(MovedOr(w, rule), o).True? <==> Eval(w, o).True? && EvalAny(rule, o).True?
  {
    var others := w.AND.OrEmpty();
    var first, second := EMPTY_WHERE.(OR := Clauses(rule)), EMPTY_WHERE.(OR := w.OR);
    EvalAllConcat(others, [first, second], o);
    assert [first, second][1..] == [second];
    assert EvalAll([first, second], o) == Eval(first, o).And(EvalAll([second], o));
    assert EvalAll([second], o) == Eval(second, o).And(EvalAll([], o));
    assert EvalColumns(MovedOr(w, rule), o) == EvalColumns(w, o);
    assert EvalAll([], o) == True;
  }

  /** The clause that leaves out inactive statuses as well. */
  lemma StatusMeaning(w: Where, o: Opportunity)
    requires w.statusNotIn.None?
    ensures Eval(w.(statusNotIn := Some(INACTIVE_STATUSES)), o).True?
       <==> Eval(w, o).True? && o.status.Some? && o.status.value !in INACTIVE_STATUSES
  {
  }

  lemma EmptyOrMeaning(w: Where, rule: seq<Where>, o: Opportunity)
    requires w.OR.Absent?
    ensures Eval(w.(OR := Clauses(rule)), o).True? <==> Eval(w, o).True? && EvalAny(rule, o).True?
  {
  }

  /** The clause on opportunities, with the rule about expired ones unless they are included. */
  function OpportunityClause(d: Query, now: int): Where {
    var w := FilterClause(d);
    if IncludesExpired(d) then w
    else
      var ruled := if w.OR.Clauses? then MovedOr(w, ExpiredRule(now)) else w.(OR := Clauses(ExpiredRule(now)));
      ruled.(statusNotIn := Some(INACTIVE_STATUSES))
  }

  /** The clause on matches around a clause on their opportunities. */
  function MatchClause(user: User, d: Query, w: Where): MatchWhere {
    MatchWhere(
      user, 0, if d.minScore.Some? then Some(Max(d.minScore.value, 1)) else None, d.calculatedAfter,
      if w != EMPTY_WHERE then Some(w) else None)
  }

  function WhereClause(user: User, d: Query, now: int): MatchWhere {
    MatchClause(user, d, OpportunityClause(d, now))
  }

  lemma MatchClauseMeaning(user: User, d: Query, w: Where, m: Match)
    ensures Selects(MatchClause(user, d, w), m) <==>
      && m.userId == user
      && m.scorePct > 0
      && (d.minScore.Some? ==> m.scorePct >= d.minScore.value)
      && (d.calculatedAfter.Some? ==> m.calculatedAt > d.calculatedAfter.value)
      && Eval(w, m.opportunity).True?
  {
    assert Eval(EMPTY_WHERE, m.opportunity).True?;
  }

  lemma OpportunityClauseMeaning(d: Query, now: int, o: Opportunity)
    ensures Eval(OpportunityClause(d, now), o).True?
       <==> FiltersHold(d, o) && (IncludesExpired(d) || (Current(o, now) && o.status.Some?))
  {
    var w := FilterClause(d);
    FilterClauseMeaning(d, o);
    if !IncludesExpired(d) {
      EvalExpiredRule(now, o);
      if w.OR.Clauses? {
        MovedOrMeaning(w, ExpiredRule(now), o);
        StatusMeaning(MovedOr(w, ExpiredRule(now)), o);
      } else {
        EmptyOrMeaning(w, ExpiredRule(now), o);
        StatusMeaning(w.(OR := Clauses(ExpiredRule(now))), o);
      }
    }
  }

  /**
   The built clause selects exactly the rows the query asks for, less those without a status
   when expired ones are not included.
   */
  lemma WhereClauseMeaning(user: User, d: Query, now: int, m: Match)
    ensures Selects(WhereClause(user, d, now), m)
       <==> Wanted(user, d, now, m) && (d.includeExpired == Some(true) || m.opportunity.status.Some?)
  {
    OpportunityClauseMeaning(d, now, m.opportunity);
    MatchClauseMeaning(user, d, OpportunityClause(d, now), m);
  }

  /** `buildWhere`: moves the text search from OR to AND where the rule about expired rows needs its place. */
  method BuildWhere(user: User, d: Query, now: int) returns (r: Result<MatchWhere, Error>)
    ensures r == if BadRange(d) then Err(InvalidDateRange) else Ok(WhereClause(user, d, now))
    ensures r.Err? <==> d.deadlineFrom.Some? && d.deadlineTo.Some? && d.deadlineTo.value < d.deadlineFrom.value
    ensures r.Ok? ==> forall m :: Selects(r.value, m) <==> Shown(user, d, now, m)
  {
    var where := MatchWhere(user, 0, None, None, None);
    if d.minScore.Some? {
      where := where.(scoreGte := Some(Max(d.minScore.value, 1)));
    }
    if d.calculatedAfter.Some? {
      where := where.(calculatedGt := d.calculatedAfter);
    }
    var built := BuildOpportunityWhere(d);
    if built.Err? {
      return Err(built.error);
    }
    var w := built.value;
    if !(d.includeExpired == Some(true)) {
      if w.OR.Clauses? {
        w := w.(AND := Clauses(w.AND.OrEmpty()));
        var rule, search := EMPTY_WHERE.(OR := Clauses(ExpiredRule(now))), EMPTY_WHERE.(OR := w.OR);
        w := w.(AND := Clauses(w.AND.items + [rule, search]));
        w := w.(OR := Absent);
      } else {
        w := w.(OR := Clauses(ExpiredRule(now)));
      }
      w := w.(statusNotIn := Some(INACTIVE_STATUSES));
    }
    if w != EMPTY_WHERE {
      where := where.(opportunity := Some(w));
    }
    forall m ensures Selects(WhereClause(user, d, now), m) <==> Shown(user, d, now, m) {
      WhereClauseMeaning(user, d, now, m);
    }
    return Ok(where);
  }

  const NO_FILTERS := Query(None, None, None, None, None, None, None, None, None, None, None, None, None)

  /** A grant that says nothing about itself but its title. */
  const BARE_GRANT := Opportunity("Grant", None, None, None, None, None, None, None, [], [], None)

  /** A row without a status that a query without filters asks for, and its clause does not select. */
  lemma MissingStatusIsHidden(user: User, now: int)
    ensures var m := Match(user, 0, 50, now, BARE_GRANT);
      && Wanted(user, NO_FILTERS, now, m)
      && !Selects(WhereClause(user, NO_FILTERS, now), m)
      && Selects(WhereClause(user, NO_FILTERS.(includeExpired := Some(true)), now), m)
  {
    var m := Match(user, 0, 50, now, BARE_GRANT);
    WhereClauseMeaning(user, NO_FILTERS, now, m);
    WhereClauseMeaning(user, NO_FILTERS.(includeExpired := Some(true)), now, m);
  }
}
