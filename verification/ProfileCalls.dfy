/**
 What each change of a profile does, read off the rows alone: exactly when it passes its checks,
 which error it gives otherwise, and every column it writes.
 */
module ProfileCalls {
  import opened Basics
  import P = Profile
  import opened Profile
  import opened Educations
  import opened ProfileRuns

  /** A recalculation needs weights totalling 100, and writes the three derived columns only. */
  lemma RecalculatedExact(p: Profile, s: Settings)
    ensures var (q, r) := Recalculated(p, s);
      var w := s.weights;
      var total := w.personalIdentity + w.locationOrigin + w.education + w.languages + w.tests + w.preferences;
      && (r == Err(WeightsNotTotal100) <==> total != 100.0)
      && (r == Ok(()) <==> total == 100.0)
      && (r.Err? ==> q == p)
      && (r.Ok? ==>
            var score := Score(FilledIn(p), w);
            && q == p.(completionPct := q.completionPct, isMatchable := q.isMatchable,
                       matchingVersion := p.matchingVersion + 1)
            && (q.completionPct == 100 || score - 0.5 < q.completionPct as real <= score + 0.5)
            && q.completionPct <= 100 && (q.completionPct == 100 ==> score >= 99.5)
            && (q.isMatchable <==> q.completionPct as real >= s.threshold))
  {
  }

  // ----- Profile fields

  /** The value after a three-valued field: the stored one, none, or the given one. */
  ghost predicate Merges<T>(given: Patch<T>, stored: Option<T>, after: Option<T>) {
    && (given.Unset? ==> after == stored)
    && (given.Null? ==> after == None)
    && (given.Set? ==> after == Some(given.value))
  }

  lemma OverMerges<T>(given: Patch<T>, stored: Option<T>)
    ensures Merges(given, stored, given.Over(stored))
  {
  }

  ghost predicate UnknownReference(ref: Reference, dto: UpdateDto) {
    || (dto.maritalStatus.Set? && dto.maritalStatus.value !in ref.maritalStatuses)
    || (dto.country.Set? && dto.country.value !in ref.countries)
    || (dto.nationality.Set? && dto.nationality.value !in ref.countries)
    || (dto.educationLevel.Set? && dto.educationLevel.value !in ref.levels)
  }

  /** Too long a biography, or too many experiences. */
  ghost predicate TooLarge(s: Settings, dto: UpdateDto) {
    || (dto.bio.Set? && |dto.bio.value| > 0 && |dto.bio.value| > s.maxBio)
    || (dto.experiences.Some? && dto.experiences.value > s.maxExperiences)
  }

  /** The country and city in force after the update; a city is refused or dropped by them. */
  lemma UpdateErrorExact(ref: Reference, s: Settings, f: Fields, dto: UpdateDto, country: Option<Id>, city: Option<Id>)
    requires Merges(dto.country, f.country, country) && Merges(dto.city, f.city, city)
    ensures var e := UpdateError(ref, s, f, dto);
      var earlier := TooLarge(s, dto) || UnknownReference(ref, dto);
      && (e == Some(BioTooLong) <==> dto.bio.Set? && |dto.bio.value| > 0 && |dto.bio.value| > s.maxBio)
      && (e == Some(TooManyExperiences) <==> e != Some(BioTooLong) && TooLarge(s, dto))
      && (e == Some(InvalidMaritalStatus) <==>
            !TooLarge(s, dto) && dto.maritalStatus.Set? && dto.maritalStatus.value !in ref.maritalStatuses)
      && (e == Some(InvalidCountry) <==>
            && !TooLarge(s, dto) && e != Some(InvalidMaritalStatus)
            && ((dto.country.Set? && dto.country.value !in ref.countries) ||
                (dto.nationality.Set? && dto.nationality.value !in ref.countries)))
      && (e == Some(InvalidEducationLevel) <==>
            && !TooLarge(s, dto) && e != Some(InvalidMaritalStatus) && e != Some(InvalidCountry)
            && UnknownReference(ref, dto))
      && (e == Some(CityWithoutCountry) <==> !earlier && city.Some? && country == None)
      && (e == Some(InvalidCity) <==> !earlier && city.Some? && country.Some? && city.value !in ref.cities)
      && (e == Some(CityCountryMismatch) <==>
            && !earlier && city.Some? && country.Some? && city.value in ref.cities
            && ref.cities[city.value] != country.value && !dto.city.Unset?)
      && (e == None <==>
            && !earlier
            && (city.Some? ==>
                  && country.Some? && city.value in ref.cities
                  && (dto.city.Unset? || ref.cities[city.value] == country.value)))
  {
  }

  /** Every column after an update; a stored city outside the new country is dropped. */
  lemma UpdatedFieldsExact(ref: Reference, f: Fields, dto: UpdateDto)
    ensures var g := UpdatedFields(ref, f, dto);
      && Merges(dto.firstName, f.firstName, g.firstName) && Merges(dto.lastName, f.lastName, g.lastName)
      && Merges(dto.dateOfBirth, f.dateOfBirth, g.dateOfBirth) && Merges(dto.gender, f.gender, g.gender)
      && Merges(dto.maritalStatus, f.maritalStatus, g.maritalStatus) && Merges(dto.country, f.country, g.country)
      && Merges(dto.nationality, f.nationality, g.nationality)
      && Merges(dto.educationLevel, f.educationLevel, g.educationLevel) && Merges(dto.bio, f.bio, g.bio)
      && g.experiences == (if dto.experiences.Some? then dto.experiences.value else f.experiences)
      && (g.city == None || Merges(dto.city, f.city, g.city))
      && (g.city == None && !Merges(dto.city, f.city, None) ==>
            exists city: Id, country: Id ::
              && Merges(dto.city, f.city, Some(city)) && g.country == Some(country)
              && city in ref.cities && ref.cities[city] != country)
      && (g.city.Some? && g.country.Some? && g.city.value in ref.cities ==> ref.cities[g.city.value] == g.country.value)
  {
    if dto.city.Over(f.city).Some? && dto.country.Over(f.country).Some? {
      var city, country := dto.city.Over(f.city).value, dto.country.Over(f.country).value;
      assert Merges(dto.city, f.city, Some(city));
      assert UpdatedFields(ref, f, dto).country == Some(country);
    }
  }

  // ----- Targets

  /** Adding a target needs a known id and room under the cap, 5 degrees and 10 of each other kind unless configured. */
  lemma AddTargetExact(ref: Reference, s: Settings, p: Profile, t: Target, id: Id)
    ensures
      var e := AddTargetError(ref, s, p, t, id);
      var known := id in (if t == Degree then ref.levels else if t == Major then ref.majors else ref.institutions);
      var rows := if t in p.targets then p.targets[t] else {};
      var cap := if t in s.maxTargets then s.maxTargets[t] else if t == Degree then 5 else 10;
      && (e == Some(InvalidTarget) <==> !known)
      && (e == Some(MaxTargetsReached) <==> known && |rows| >= cap && id !in rows)
      && (e == None <==> known && (id in rows || |rows| < cap))
      && WithTarget(p, t, id) == p.(targets := p.targets[t := rows + {id}])
  {
  }

  lemma RemoveTargetExact(p: Profile, t: Target, id: Id)
    ensures
      var there := t in p.targets && id in p.targets[t];
      && RemoveTargetError(p, t, id) == (if there then None else Some(TargetNotFound))
      && (there ==> WithoutTarget(p, t, id) == p.(targets := p.targets[t := p.targets[t] - {id}]))
  {
  }

  // ----- Educations

  ghost predicate SameKind(e: Education, level: Id, institution: Id, major: Id) {
    e.level == level && e.institution == institution && e.major == major
  }

  lemma CreateErrorExact(ref: Reference, s: Settings, p: Profile, dto: CreateDto)
    ensures
      var e := CreateError(ref, s, p, dto);
      var distinct := dto.minor != Some(dto.major);
      var ordered := distinct &&
        (dto.isCurrent != Some(true) && dto.startDate.Some? && dto.endDate.Some? ==>
           dto.startDate.value <= dto.endDate.value);
      var level := ordered && dto.level in ref.levels;
      var institution := level && dto.institution in ref.institutions;
      var major := institution && dto.major in ref.majors;
      var minor := major && (dto.minor.Some? ==> dto.minor.value in ref.majors);
      var single := minor &&
        !exists k :: k in p.educations && SameKind(p.educations[k], dto.level, dto.institution, dto.major);
      var room := single && |p.educations| < s.maxEducations;
      var scaled := room && (dto.gpaRaw.Some? ==> dto.gpaScale.Some?);
      && (e == Some(MinorEqualsMajor) <==> !distinct)
      && (e == Some(InvalidDateRange) <==> distinct && !ordered)
      && (e == Some(InvalidEducationLevel) <==> ordered && !level)
      && (e == Some(InvalidInstitution) <==> level && !institution)
      && (e == Some(InvalidMajor) <==> institution && !major)
      && (e == Some(InvalidMinor) <==> major && !minor)
      && (e == Some(EducationDuplicate) <==> minor && !single)
      && (e == Some(MaxEducationsReached) <==> single && !room)
      && (e == Some(GpaScaleRequired) <==> room && !scaled)
      && (e == Some(DatabaseRejects) <==> scaled && dto.gpaRaw.Some? && dto.gpaRaw.value >= 999.995)
      && (e == None <==> scaled && (dto.gpaRaw.Some? ==> dto.gpaRaw.value < 999.995))
  {
    if dto.gpaRaw.Some? && dto.gpaScale.Some? {
      FitsExact(dto.gpaRaw.value, dto.gpaScale.value);
    }
  }

  /** A GPA and its normalisation fit their columns exactly if the GPA rounds to less than 1000. */
  lemma FitsExact(raw: Gpa, scale: Scale)
    ensures FitsColumn(Some(raw)) && FitsColumn(Some(Normalized(raw, scale))) <==> raw < 999.995
  {
    assert Normalized(raw, scale) <= raw;
  }

  /** A column holds the value to the nearest hundredth, halves upwards. */
  ghost predicate Holds(column: Option<real>, x: Option<real>) {
    if x.None? then column.None?
    else column.Some? && exists n: int :: Hundredths(n, x.value) && column.value == n as real / 100.0
  }

  /** The nearest number of hundredths, halves upwards. */
  ghost predicate Hundredths(n: int, x: real) {
    x * 100.0 - 0.5 < n as real <= x * 100.0 + 0.5
  }

  lemma ColumnHolds(x: Option<real>)
    ensures Holds(Column(x), x)
  {
    if x.Some? {
      assert Hundredths(Cents(x.value), x.value);
    }
  }

  /** The normalisation of a GPA: as it is out of 4, four fifths out of 5, a twenty-fifth out of 100. */
  ghost predicate Normalizes(raw: Option<real>, scale: Option<Scale>, x: Option<real>) {
    if raw.None? || scale.None? then x.None?
    else
      && x.Some?
      && (scale.value == OUT_OF_4 ==> x.value == raw.value)
      && (scale.value == OUT_OF_5 ==> x.value * 5.0 == raw.value * 4.0)
      && (scale.value == OUT_OF_100 ==> x.value * 25.0 == raw.value)
  }

  lemma NormalizedHolds(raw: Option<real>, scale: Option<Scale>)
    ensures exists x :: Normalizes(raw, scale, x) && Holds(Column(NormalizedGpa(raw, scale)), x)
  {
    var x := NormalizedGpa(raw, scale);
    ColumnHolds(x);
    assert Normalizes(raw, scale, x);
  }

  /** Every column of a new record. */
  lemma NewEducationExact(dto: CreateDto)
    ensures var e := NewEducation(dto);
      && e.level == dto.level && e.institution == dto.institution && e.major == dto.major && e.minor == dto.minor
      && e.startDate == dto.startDate
      && e.isCurrent == (dto.isCurrent == Some(true))
      && e.endDate == (if dto.isCurrent == Some(true) then None else dto.endDate)
      && e.expectedGraduation == (if dto.isCurrent == Some(false) then None else dto.expectedGraduation)
      && e.gpaScale == dto.gpaScale && Holds(e.gpaRaw, dto.gpaRaw)
      && exists x :: Normalizes(dto.gpaRaw, dto.gpaScale, x) && Holds(e.gpaNormalized, x)
  {
    ColumnHolds(dto.gpaRaw);
    NormalizedHolds(dto.gpaRaw, dto.gpaScale);
  }

  /** What a patch leads to: the values in force after it, before the columns round. */
  ghost predicate Leads(e: Education, dto: PatchDto, major: Option<Id>, minor: Option<Id>, start: Option<int>,
                        end: Option<int>, current: Option<bool>, raw: Option<real>, scale: Option<Scale>)
  {
    && Merges(dto.major, Some(e.major), major) && Merges(dto.minor, e.minor, minor)
    && Merges(dto.startDate, e.startDate, start) && Merges(dto.isCurrent, Some(e.isCurrent), current)
    && (current == Some(true) ==> end == None)
    && (current != Some(true) ==> Merges(dto.endDate, e.endDate, end))
    && (dto.gpaRaw.Unset? ==> raw == e.gpaRaw) && (dto.gpaRaw.Null? ==> raw == None)
    && (dto.gpaRaw.Set? ==> raw == Some(dto.gpaRaw.value))
    && Merges(dto.gpaScale, e.gpaScale, scale)
  }

  /** Every reference that a patch gives is known. */
  ghost predicate KnownParts(ref: Reference, dto: PatchDto) {
    && (dto.level.Set? ==> dto.level.value in ref.levels)
    && (dto.institution.Set? ==> dto.institution.value in ref.institutions)
    && (dto.major.Set? ==> dto.major.value in ref.majors)
    && (dto.minor.Set? ==> dto.minor.value in ref.majors)
  }

  /** The first checks of a patch: its minor against its major, then each reference it gives. */
  lemma PatchReferencesExact(ref: Reference, es: map<Id, Education>, id: Id, dto: PatchDto,
                             major: Option<Id>, minor: Option<Id>)
    requires id in es && Merges(dto.major, Some(es[id].major), major) && Merges(dto.minor, es[id].minor, minor)
    ensures
      var e, distinct := PatchError(ref, es, id, dto), minor.None? || major != minor;
      var badLevel := dto.level.Set? && dto.level.value !in ref.levels;
      var badInstitution := dto.institution.Set? && dto.institution.value !in ref.institutions;
      var badMajor := dto.major.Set? && dto.major.value !in ref.majors;
      && (e == Some(MinorEqualsMajor) <==> !distinct)
      && (e == Some(InvalidEducationLevel) <==> distinct && badLevel)
      && (e == Some(InvalidInstitution) <==> distinct && !badLevel && badInstitution)
      && (e == Some(InvalidMajor) <==> distinct && !badLevel && !badInstitution && badMajor)
      && (e == Some(InvalidMinor) <==>
            distinct && !badLevel && !badInstitution && !badMajor && dto.minor.Set? && dto.minor.value !in ref.majors)
  {
  }

  /** No other record has the level, institution and major that the patch leads to. */
  ghost predicate StaysSingle(es: map<Id, Education>, id: Id, dto: PatchDto)
    requires id in es
  {
    forall k | k in es && k != id ::
      || es[k].level != (if dto.level.Set? then dto.level.value else es[id].level)
      || es[k].institution != (if dto.institution.Set? then dto.institution.value else es[id].institution)
      || es[k].major != (if dto.major.Set? then dto.major.value else es[id].major)
  }

  /** The later checks of a patch: no second record, ordered dates, a scale for the GPA, and the columns. */
  lemma PatchErrorExact(ref: Reference, es: map<Id, Education>, id: Id, dto: PatchDto,
                        major: Option<Id>, minor: Option<Id>, start: Option<int>, end: Option<int>,
                        current: Option<bool>, raw: Option<real>, scale: Option<Scale>)
    requires id in es && Leads(es[id], dto, major, minor, start, end, current, raw, scale)
    ensures
      var e := PatchError(ref, es, id, dto);
      var known := (minor.None? || major != minor) && KnownParts(ref, dto);
      var moved := dto.level.Set? || dto.institution.Set? || dto.major.Set?;
      var single := known && (moved ==> StaysSingle(es, id, dto));
      var ordered := single && (start.Some? && end.Some? ==> start.value <= end.value);
      var scaled := ordered && (raw.Some? ==> scale.Some?);
      var nulls := dto.level.Null? || dto.institution.Null? || dto.major.Null? || dto.isCurrent.Null?;
      && (e == Some(EducationDuplicate) <==> known && !single)
      && (e == Some(InvalidDateRange) <==> single && !ordered)
      && (e == Some(GpaScaleRequired) <==> ordered && !scaled)
      && (e == None || e == Some(DatabaseRejects) <==> scaled)
      && (e == None <==> scaled && !nulls && FitsColumn(raw) && FitsColumn(NormalizedGpa(raw, scale)))
  {
  }

  /** Every column of a patched record. */
  lemma PatchedEducationExact(e: Education, dto: PatchDto, major: Option<Id>, minor: Option<Id>, start: Option<int>,
                              end: Option<int>, current: Option<bool>, raw: Option<real>, scale: Option<Scale>)
    requires Leads(e, dto, major, minor, start, end, current, raw, scale) && !dto.isCurrent.Null?
    ensures var q := PatchedEducation(e, dto);
      && q.level == (if dto.level.Set? then dto.level.value else e.level)
      && q.institution == (if dto.institution.Set? then dto.institution.value else e.institution)
      && q.major == (if dto.major.Set? then dto.major.value else e.major)
      && q.minor == minor && q.startDate == start && q.endDate == end && Some(q.isCurrent) == current
      && (current == Some(false) ==> q.expectedGraduation == None)
      && (current == Some(true) ==> Merges(dto.expectedGraduation, e.expectedGraduation, q.expectedGraduation))
      && q.gpaScale == scale
      && (dto.gpaRaw.Unset? ==> q.gpaRaw == e.gpaRaw) && (!dto.gpaRaw.Unset? ==> Holds(q.gpaRaw, raw))
      && exists x :: Normalizes(raw, scale, x) && Holds(q.gpaNormalized, x)
  {
    ColumnHolds(raw);
    NormalizedHolds(raw, scale);
  }
}
