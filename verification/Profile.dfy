/**
 A user's profile with the rows that hang off it: the completion score, its recalculation
 after every change, profile updates and target preferences.

 Numbers that JavaScript computes in floating point are exact reals here.
 */
module Profile {
  import opened Basics

  type Id = nat

  datatype Scale = OUT_OF_100 | OUT_OF_5 | OUT_OF_4

  datatype Education = Education(
    level: Id, institution: Id, major: Id, minor: Option<Id>,
    startDate: Option<int>, endDate: Option<int>, expectedGraduation: Option<int>, isCurrent: bool,
    gpaRaw: Option<real>, gpaScale: Option<Scale>, gpaNormalized: Option<real>)

  /** Fields that never affect the score are kept only as far as a check looks at them. */
  datatype Fields = Fields(
    firstName: Option<string>, lastName: Option<string>, dateOfBirth: Option<int>, gender: Option<bool>,
    maritalStatus: Option<Id>, country: Option<Id>, nationality: Option<Id>, educationLevel: Option<Id>,
    city: Option<Id>, bio: Option<string>, experiences: nat)

  /** A profile row and its dependent rows; only the number of languages, tests and statuses matters. */
  datatype Profile = Profile(
    fields: Fields,
    educations: map<Id, Education>, languages: nat, tests: nat, statuses: nat,
    targets: map<Target, set<Id>>,
    completionPct: int, isMatchable: bool, matchingVersion: nat)

  datatype Target = Degree | Major | Institution

  function Targets(p: Profile, t: Target): set<Id> {
    if t in p.targets then p.targets[t] else {}
  }

  datatype Weights = Weights(
    personalIdentity: real, locationOrigin: real, education: real, languages: real, tests: real, preferences: real)
  {
    function Total(): real {
      personalIdentity + locationOrigin + education + languages + tests + preferences
    }

    predicate NonNegative() {
      && personalIdentity >= 0.0 && locationOrigin >= 0.0 && education >= 0.0
      && languages >= 0.0 && tests >= 0.0 && preferences >= 0.0
    }
  }

  /** The system settings in force at a call. */
  datatype Settings = Settings(
    weights: Weights, threshold: real, maxBio: int, maxExperiences: int, maxEducations: int,
    maxTargets: map<Target, int>)
  {
    function MaxTargets(t: Target): int {
      if t in maxTargets then maxTargets[t] else if t.Degree? then 5 else 10
    }
  }

  /** The reference tables; `cities` gives the country of each city. */
  datatype Reference = Reference(
    maritalStatuses: set<Id>, countries: set<Id>, levels: set<Id>, cities: map<Id, Id>,
    institutions: set<Id>, majors: set<Id>)

  datatype Error =
    | BioTooLong | TooManyExperiences | InvalidMaritalStatus | InvalidCountry | InvalidEducationLevel
    | InvalidCity | CityCountryMismatch | CityWithoutCountry
    | InvalidTarget | MaxTargetsReached | TargetNotFound
    | EducationNotFound | MinorEqualsMajor | InvalidDateRange | InvalidInstitution | InvalidMajor | InvalidMinor
    | EducationDuplicate | MaxEducationsReached | GpaScaleRequired | DatabaseRejects
    | WeightsNotTotal100

  type Reply = Result<(), Error>

  // ----- The completion score

  /** Which of the scored fields are filled. */
  datatype Filled = Filled(
    firstName: bool, lastName: bool, dateOfBirth: bool, gender: bool, maritalStatus: bool,
    country: bool, nationality: bool,
    educationLevel: bool, educations: bool,
    languages: bool, tests: bool,
    statuses: bool, degrees: bool, majors: bool, institutions: bool)
  {
    /** Everything filled here is filled there too. */
    predicate Within(f: Filled) {
      && (firstName ==> f.firstName) && (lastName ==> f.lastName) && (dateOfBirth ==> f.dateOfBirth)
      && (gender ==> f.gender) && (maritalStatus ==> f.maritalStatus)
      && (country ==> f.country) && (nationality ==> f.nationality)
      && (educationLevel ==> f.educationLevel) && (educations ==> f.educations)
      && (languages ==> f.languages) && (tests ==> f.tests)
      && (statuses ==> f.statuses) && (degrees ==> f.degrees) && (majors ==> f.majors)
      && (institutions ==> f.institutions)
    }
  }

  const NOTHING := Filled(
    false, false, false, false, false, false, false, false, false, false, false, false, false, false, false)
  const EVERYTHING := Filled(true, true, true, true, true, true, true, true, true, true, true, true, true, true, true)

  predicate NonEmpty(s: Option<string>) {
    s.Some? && s.value != ""
  }

  function FilledIn(p: Profile): Filled {
    var f := p.fields;
    Filled(
      NonEmpty(f.firstName), NonEmpty(f.lastName), f.dateOfBirth.Some?, f.gender.Some?, f.maritalStatus.Some?,
      f.country.Some?, f.nationality.Some?,
      f.educationLevel.Some?, p.educations != map[],
      p.languages > 0, p.tests > 0,
      p.statuses > 0, Targets(p, Degree) != {}, Targets(p, Major) != {}, Targets(p, Institution) != {})
  }

  /** The points of those items that are there. */
  function Total(items: seq<(bool, real)>): real {
    if items == [] then 0.0 else Given(items[0]) + Total(items[1..])
  }

  function Given(item: (bool, real)): real {
    if item.0 then item.1 else 0.0
  }

  function IdentityItems(f: Filled, scale: real): seq<(bool, real)> {
    [(f.firstName, 3.0 * scale), (f.lastName, 3.0 * scale), (f.dateOfBirth, 5.0 * scale), (f.gender, 4.0 * scale),
     (f.maritalStatus, 3.0 * scale)]
  }

  function LocationItems(f: Filled, scale: real): seq<(bool, real)> {
    [(f.country, 8.0 * scale), (f.nationality, 7.0 * scale)]
  }

  function EducationItems(f: Filled, scale: real): seq<(bool, real)> {
    [(f.educationLevel, 10.0 * scale), (f.educations, 25.0 * scale)]
  }

  function RecordsItems(f: Filled, scales: Weights): seq<(bool, real)> {
    [(f.languages, 10.0 * scales.languages), (f.tests, 7.0 * scales.tests)]
  }

  function PreferenceItems(f: Filled, scale: real): seq<(bool, real)> {
    [(f.statuses, 3.0 * scale), (f.degrees, 4.0 * scale), (f.majors, 5.0 * scale), (f.institutions, 3.0 * scale)]
  }

  /** The factor of each group: its configured weight over its documented points. */
  function Scales(w: Weights): Weights {
    Weights(w.personalIdentity / 18.0, w.locationOrigin / 15.0, w.education / 35.0,
            w.languages / 10.0, w.tests / 7.0, w.preferences / 15.0)
  }

  function ScaledScore(f: Filled, scales: Weights): real {
    Total(IdentityItems(f, scales.personalIdentity)) + Total(LocationItems(f, scales.locationOrigin))
    + Total(EducationItems(f, scales.education)) + Total(RecordsItems(f, scales))
    + Total(PreferenceItems(f, scales.preferences))
  }

  /** The exact score: each group's documented points, scaled to the group's configured weight. */
  function Score(f: Filled, w: Weights): real {
    ScaledScore(f, Scales(w))
  }

  /** `Math.round`. */
  function Round(x: real): (r: int)
    ensures x - 0.5 < r as real <= x + 0.5
  {
    (x + 0.5).Floor
  }

  function Pct(f: Filled, w: Weights): int {
    Min(Round(Score(f, w)), 100)
  }

  ghost predicate ItemsGrow(a: seq<(bool, real)>, b: seq<(bool, real)>) {
    |a| == |b| && forall i | 0 <= i < |a| :: a[i].1 == b[i].1 >= 0.0 && (a[i].0 ==> b[i].0)
  }

  lemma {:induction false} TotalGrows(a: seq<(bool, real)>, b: seq<(bool, real)>)
    requires ItemsGrow(a, b)
    ensures Total(a) <= Total(b)
  {
    if a != [] {
      TotalGrows(a[1..], b[1..]);
    }
  }

  lemma {:induction false} TotalAppend(items: seq<(bool, real)>, item: (bool, real))
    ensures Total(items + [item]) == Total(items) + Given(item)
  {
    if items == [] {
      assert items + [item] == [item];
    } else {
      assert (items + [item])[1..] == items[1..] + [item];
      TotalAppend(items[1..], item);
    }
  }

  /** One more item there adds its points. */
  lemma {:induction false} TotalAdds(items: seq<(bool, real)>, i: nat, points: real)
    requires i < |items| && items[i] == (false, points)
    ensures Total(items[i := (true, points)]) == Total(items) + points
  {
    if i > 0 {
      assert items[i := (true, points)][1..] == items[1..][i - 1 := (true, points)];
      TotalAdds(items[1..], i - 1, points);
    } else {
      assert items[i := (true, points)][1..] == items[1..];
    }
  }

  lemma IdentityGrows(f: Filled, g: Filled, scale: real)
    requires scale >= 0.0 && f.Within(g)
    ensures Total(IdentityItems(f, scale)) <= Total(IdentityItems(g, scale))
  {
    TotalOfItems((f.firstName, 3.0 * scale), (f.lastName, 3.0 * scale), (f.dateOfBirth, 5.0 * scale),
                 (f.gender, 4.0 * scale), (f.maritalStatus, 3.0 * scale));
    TotalOfItems((g.firstName, 3.0 * scale), (g.lastName, 3.0 * scale), (g.dateOfBirth, 5.0 * scale),
                 (g.gender, 4.0 * scale), (g.maritalStatus, 3.0 * scale));
  }

  lemma LocationGrows(f: Filled, g: Filled, scale: real)
    requires scale >= 0.0 && f.Within(g)
    ensures Total(LocationItems(f, scale)) <= Total(LocationItems(g, scale))
  {
    var a, b := LocationItems(f, scale), LocationItems(g, scale);
    assert ItemsGrow(a, b);
    TotalGrows(a, b);
  }

  lemma EducationGrows(f: Filled, g: Filled, scale: real)
    requires scale >= 0.0 && f.Within(g)
    ensures Total(EducationItems(f, scale)) <= Total(EducationItems(g, scale))
  {
    var a, b := EducationItems(f, scale), EducationItems(g, scale);
    assert ItemsGrow(a, b);
    TotalGrows(a, b);
  }

  lemma RecordsGrows(f: Filled, g: Filled, scales: Weights)
    requires scales.NonNegative() && f.Within(g)
    ensures Total(RecordsItems(f, scales)) <= Total(RecordsItems(g, scales))
  {
    var a, b := RecordsItems(f, scales), RecordsItems(g, scales);
    assert ItemsGrow(a, b);
    TotalGrows(a, b);
  }

  lemma PreferenceGrows(f: Filled, g: Filled, scale: real)
    requires scale >= 0.0 && f.Within(g)
    ensures Total(PreferenceItems(f, scale)) <= Total(PreferenceItems(g, scale))
  {
    var a, b := PreferenceItems(f, scale), PreferenceItems(g, scale);
    assert ItemsGrow(a, b);
    TotalGrows(a, b);
  }

  lemma ScaledScoreGrows(f: Filled, g: Filled, scales: Weights)
    requires scales.NonNegative() && f.Within(g)
    ensures ScaledScore(f, scales) <= ScaledScore(g, scales)
  {
    IdentityGrows(f, g, scales.personalIdentity);
    LocationGrows(f, g, scales.locationOrigin);
    EducationGrows(f, g, scales.education);
    RecordsGrows(f, g, scales);
    PreferenceGrows(f, g, scales.preferences);
  }

  lemma RoundMonotone(x: real, y: real)
    requires x <= y
    ensures Round(x) <= Round(y)
  {
  }

  /** Filling fields never lowers the score. */
  lemma ScoreMonotone(f: Filled, g: Filled, w: Weights)
    requires w.NonNegative() && f.Within(g)
    ensures Score(f, w) <= Score(g, w) && Pct(f, w) <= Pct(g, w)
  {
    ScaledScoreGrows(f, g, Scales(w));
    RoundMonotone(Score(f, w), Score(g, w));
  }

  lemma {:induction false} TotalOfNothing(items: seq<(bool, real)>)
    requires forall i | 0 <= i < |items| :: !items[i].0
    ensures Total(items) == 0.0
  {
    if items != [] {
      TotalOfNothing(items[1..]);
    }
  }

  lemma TotalOfItems(x: (bool, real), y: (bool, real), z: (bool, real), u: (bool, real), v: (bool, real))
    ensures Total([x, y]) == Given(x) + Given(y)
    ensures Total([x, y, z, u]) == Given(x) + Given(y) + Given(z) + Given(u)
    ensures Total([x, y, z, u, v]) == Given(x) + Given(y) + Given(z) + Given(u) + Given(v)
  {
    TotalAppend([], x);
    assert [x] == [] + [x] && [x, y] == [x] + [y] && [x, y, z] == [x, y] + [z];
    TotalAppend([x], y);
    TotalAppend([x, y], z);
    assert [x, y, z, u] == [x, y, z] + [u] && [x, y, z, u, v] == [x, y, z, u] + [v];
    TotalAppend([x, y, z], u);
    TotalAppend([x, y, z, u], v);
  }

  /** An empty profile scores 0 and a full one exactly the total weight. */
  lemma ScoreEnds(w: Weights)
    ensures Score(NOTHING, w) == 0.0 && Score(EVERYTHING, w) == w.Total()
  {
    var s := Scales(w);
    TotalOfNothing(IdentityItems(NOTHING, s.personalIdentity));
    TotalOfNothing(LocationItems(NOTHING, s.locationOrigin));
    TotalOfNothing(EducationItems(NOTHING, s.education));
    TotalOfNothing(RecordsItems(NOTHING, s));
    TotalOfNothing(PreferenceItems(NOTHING, s.preferences));
    var (i, l, e, p) := (s.personalIdentity, s.locationOrigin, s.education, s.preferences);
    var none := (false, 0.0);
    TotalOfItems((true, 3.0 * i), (true, 3.0 * i), (true, 5.0 * i), (true, 4.0 * i), (true, 3.0 * i));
    TotalOfItems((true, 8.0 * l), (true, 7.0 * l), none, none, none);
    TotalOfItems((true, 10.0 * e), (true, 25.0 * e), none, none, none);
    TotalOfItems((true, 10.0 * s.languages), (true, 7.0 * s.tests), none, none, none);
    TotalOfItems((true, 3.0 * p), (true, 4.0 * p), (true, 5.0 * p), (true, 3.0 * p), none);
  }

  /** With non-negative weights totalling 100 the percentage is within 0..100, and reaches both ends. */
  lemma PctBounds(f: Filled, w: Weights)
    requires w.NonNegative() && w.Total() == 100.0
    ensures 0 <= Pct(f, w) <= 100
    ensures Pct(NOTHING, w) == 0 && Pct(EVERYTHING, w) == 100
  {
    ScoreEnds(w);
    ScoreMonotone(NOTHING, f, w);
  }

  // ----- Recalculation

  /** The stored derived fields are what a recalculation would store. */
  predicate Fresh(p: Profile, s: Settings) {
    && p.completionPct == Pct(FilledIn(p), s.weights)
    && (p.isMatchable <==> p.completionPct as real >= s.threshold)
  }

  /** Every mutation ends with a recalculation; one that refuses the weights leaves the mutated rows behind. */
  function Recalculated(p: Profile, s: Settings): (Profile, Reply) {
    if s.weights.Total() != 100.0 then (p, Err(WeightsNotTotal100))
    else
      var pct := Pct(FilledIn(p), s.weights);
      (p.(completionPct := pct, isMatchable := pct as real >= s.threshold, matchingVersion := p.matchingVersion + 1),
       Ok(()))
  }

  // ----- Profile updates

  datatype UpdateDto = UpdateDto(
    firstName: Patch<string>, lastName: Patch<string>, dateOfBirth: Patch<int>, gender: Patch<bool>,
    maritalStatus: Patch<Id>, country: Patch<Id>, nationality: Patch<Id>, educationLevel: Patch<Id>,
    city: Patch<Id>, bio: Patch<string>, experiences: Option<nat>)

  function UpdateError(ref: Reference, s: Settings, f: Fields, dto: UpdateDto): Option<Error> {
    var country, city := dto.country.Over(f.country), dto.city.Over(f.city);
    if dto.bio.Set? && |dto.bio.value| > Max(s.maxBio, 0) then Some(BioTooLong)
    else if dto.experiences.Some? && dto.experiences.value > s.maxExperiences then Some(TooManyExperiences)
    else if dto.maritalStatus.Set? && dto.maritalStatus.value !in ref.maritalStatuses then Some(InvalidMaritalStatus)
    else if dto.country.Set? && dto.country.value !in ref.countries then Some(InvalidCountry)
    else if dto.nationality.Set? && dto.nationality.value !in ref.countries then Some(InvalidCountry)
    else if dto.educationLevel.Set? && dto.educationLevel.value !in ref.levels then Some(InvalidEducationLevel)
    else if city.None? then None
    else if country.None? then Some(CityWithoutCountry)
    else if city.value !in ref.cities then Some(InvalidCity)
    else if ref.cities[city.value] != country.value && !dto.city.Unset? then Some(CityCountryMismatch)
    else None
  }

  /** The columns after the update; a city that the new country does not contain is cleared. */
  function UpdatedFields(ref: Reference, f: Fields, dto: UpdateDto): Fields {
    var country, city := dto.country.Over(f.country), dto.city.Over(f.city);
    var stale := city.Some? && country.Some? && city.value in ref.cities && ref.cities[city.value] != country.value;
    Fields(
      dto.firstName.Over(f.firstName), dto.lastName.Over(f.lastName), dto.dateOfBirth.Over(f.dateOfBirth),
      dto.gender.Over(f.gender), dto.maritalStatus.Over(f.maritalStatus), country, dto.nationality.Over(f.nationality),
      dto.educationLevel.Over(f.educationLevel), if stale then None else city, dto.bio.Over(f.bio),
      if dto.experiences.Some? then dto.experiences.value else f.experiences)
  }

  function UpdateProfile(ref: Reference, s: Settings, p: Profile, dto: UpdateDto): (Profile, Reply) {
    var error := UpdateError(ref, s, p.fields, dto);
    if error.Some? then (p, Err(error.value))
    else Recalculated(p.(fields := UpdatedFields(ref, p.fields, dto)), s)
  }

  /** A stored city always lies in the stored country of residence. */
  ghost predicate CityInCountry(ref: Reference, f: Fields) {
    f.city.Some? ==> f.country.Some? && f.city.value in ref.cities && ref.cities[f.city.value] == f.country.value
  }

  /** Any update keeps the city in the country: a lone change of country drops a city that no longer fits. */
  lemma UpdateKeepsCity(ref: Reference, s: Settings, p: Profile, dto: UpdateDto)
    requires CityInCountry(ref, p.fields)
    ensures var (p', reply) := UpdateProfile(ref, s, p, dto);
      && CityInCountry(ref, p'.fields)
      && (reply.Ok? && dto.city.Unset? && p.fields.city.Some? ==>
            p'.fields.city == if p'.fields.country == p.fields.country then p.fields.city else None)
  {
  }

  // ----- Preferences

  function TargetTable(ref: Reference, t: Target): set<Id> {
    match t
    case Degree => ref.levels
    case Major => ref.majors
    case Institution => ref.institutions
  }

  function AddTargetError(ref: Reference, s: Settings, p: Profile, t: Target, id: Id): Option<Error> {
    if id !in TargetTable(ref, t) then Some(InvalidTarget)
    else if |Targets(p, t)| >= s.MaxTargets(t) && id !in Targets(p, t) then Some(MaxTargetsReached)
    else None
  }

  function WithTarget(p: Profile, t: Target, id: Id): Profile {
    p.(targets := p.targets[t := Targets(p, t) + {id}])
  }

  function AddTarget(ref: Reference, s: Settings, p: Profile, t: Target, id: Id): (Profile, Reply) {
    var error := AddTargetError(ref, s, p, t, id);
    if error.Some? then (p, Err(error.value)) else Recalculated(WithTarget(p, t, id), s)
  }

  function RemoveTargetError(p: Profile, t: Target, id: Id): Option<Error> {
    if id !in Targets(p, t) then Some(TargetNotFound) else None
  }

  function WithoutTarget(p: Profile, t: Target, id: Id): Profile {
    p.(targets := p.targets[t := Targets(p, t) - {id}])
  }

  function RemoveTarget(s: Settings, p: Profile, t: Target, id: Id): (Profile, Reply) {
    var error := RemoveTargetError(p, t, id);
    if error.Some? then (p, Err(error.value)) else Recalculated(WithoutTarget(p, t, id), s)
  }

  lemma WithTargetRows(p: Profile, t: Target, id: Id)
    ensures Targets(WithTarget(p, t, id), t) == Targets(p, t) + {id}
    ensures forall other | other != t :: Targets(WithTarget(p, t, id), other) == Targets(p, other)
    ensures id in Targets(p, t) ==> WithTarget(p, t, id) == p
  {
    if id in Targets(p, t) {
      assert Targets(p, t) + {id} == Targets(p, t);
      assert WithTarget(p, t, id).targets == p.targets;
    }
  }

  lemma WithoutTargetRows(p: Profile, t: Target, id: Id)
    ensures Targets(WithoutTarget(p, t, id), t) == Targets(p, t) - {id}
    ensures forall other | other != t :: Targets(WithoutTarget(p, t, id), other) == Targets(p, other)
  {
  }

  lemma RecalculationKeepsRows(p: Profile, s: Settings)
    ensures Recalculated(p, s).0.(completionPct := p.completionPct, isMatchable := p.isMatchable,
                                  matchingVersion := p.matchingVersion) == p
    ensures FilledIn(Recalculated(p, s).0) == FilledIn(p)
    ensures forall t :: Targets(Recalculated(p, s).0, t) == Targets(p, t)
  {
  }

  /** Recalculating again changes nothing but the version. */
  lemma RecalculatedTwice(p: Profile, s: Settings)
    requires s.weights.Total() == 100.0
    ensures var q := Recalculated(p, s).0; Recalculated(q, s) == (q.(matchingVersion := q.matchingVersion + 1), Ok(()))
  {
    RecalculationKeepsRows(p, s);
  }

  /** Additions never exceed the cap in force, and leave the other kinds of targets alone. */
  lemma TargetsStayCapped(ref: Reference, s: Settings, p: Profile, t: Target, id: Id)
    ensures var p' := AddTarget(ref, s, p, t, id).0;
      && (Targets(p', t) == Targets(p, t) || |Targets(p', t)| <= s.MaxTargets(t))
      && (forall other | other != t :: Targets(p', other) == Targets(p, other))
  {
    WithTargetRows(p, t, id);
    RecalculationKeepsRows(WithTarget(p, t, id), s);
  }

  /** Adding again succeeds, even at the cap, and changes nothing but the version. */
  lemma AddTargetTwice(ref: Reference, s: Settings, p: Profile, t: Target, id: Id)
    requires AddTarget(ref, s, p, t, id).1.Ok?
    ensures var p' := AddTarget(ref, s, p, t, id).0;
      AddTarget(ref, s, p', t, id) == (p'.(matchingVersion := p'.matchingVersion + 1), Ok(()))
  {
    var q := WithTarget(p, t, id);
    WithTargetRows(p, t, id);
    RecalculationKeepsRows(q, s);
    WithTargetRows(Recalculated(q, s).0, t, id);
    RecalculatedTwice(q, s);
  }

  /** A removal never adds to any kind of targets. */
  lemma RemovalShrinks(s: Settings, p: Profile, k: Target, id: Id, t: Target)
    ensures |Targets(RemoveTarget(s, p, k, id).0, t)| <= |Targets(p, t)|
  {
    WithoutTargetRows(p, k, id);
    RecalculationKeepsRows(WithoutTarget(p, k, id), s);
    if id in Targets(p, k) {
      assert |Targets(p, k) - {id}| == |Targets(p, k)| - 1;
    }
  }

  lemma WithAndWithout(p: Profile, p': Profile, t: Target, id: Id)
    requires p' == WithTarget(p, t, id).(completionPct := p'.completionPct, isMatchable := p'.isMatchable,
                                         matchingVersion := p'.matchingVersion)
    requires id !in Targets(p, t)
    ensures forall k :: Targets(WithoutTarget(p', t, id), k) == Targets(p, k)
    ensures FilledIn(WithoutTarget(p', t, id)) == FilledIn(p)
  {
    WithTargetRows(p, t, id);
    WithoutTargetRows(p', t, id);
    assert Targets(p', t) - {id} == Targets(p, t);
  }

  /** Removing a target that was new undoes its addition: all targets and the score are those of before. */
  lemma RemoveUndoesAdd(ref: Reference, s: Settings, p: Profile, t: Target, id: Id)
    requires AddTarget(ref, s, p, t, id).1.Ok? && id !in Targets(p, t)
    ensures var (undone, reply) := RemoveTarget(s, AddTarget(ref, s, p, t, id).0, t, id);
      && reply.Ok?
      && (forall k :: Targets(undone, k) == Targets(p, k))
      && undone.fields == p.fields && undone.educations == p.educations
      && undone.completionPct == Pct(FilledIn(p), s.weights)
  {
    var q := WithTarget(p, t, id);
    var p' := Recalculated(q, s).0;
    WithTargetRows(p, t, id);
    RecalculationKeepsRows(q, s);
    WithAndWithout(p, p', t, id);
    RecalculationKeepsRows(WithoutTarget(p', t, id), s);
  }
}
