/**
 The profile, preference and education services as the code runs them, over the rows of one
 user.  Every method is proved to do what its function in `Profile` or `Educations` says.
 */
module ProfileService {
  import opened Basics
  import P = Profile
  import opened Profile
  import opened Educations

  class Service {
    const ref: Reference
    var fields: Fields
    var educations: map<Id, Education>
    var languages: nat
    var tests: nat
    var statuses: nat
    var targets: map<Target, set<Id>>
    var completionPct: int
    var isMatchable: bool
    var matchingVersion: nat

    ghost function View(): Profile
      reads this
    {
      Profile(fields, educations, languages, tests, statuses, targets, completionPct, isMatchable, matchingVersion)
    }

    constructor (ref: Reference, fields: Fields)
      ensures View() == Profile(fields, map[], 0, 0, 0, map[], 0, false, 1) && this.ref == ref
    {
      this.ref, this.fields := ref, fields;
      educations, languages, tests, statuses, targets := map[], 0, 0, 0, map[];
      completionPct, isMatchable, matchingVersion := 0, false, 1;
    }

    method HasTargets(t: Target) returns (b: bool)
      ensures b == (Targets(View(), t) != {})
    {
      b := t in targets && targets[t] != {};
    }

    /** The score, accumulated field by field. */
    method ComputeCompletionPct(w: Weights) returns (pct: int)
      ensures pct == Pct(FilledIn(View()), w)
    {
      var score := ScoreWith(Scales(w));
      return Min(Round(score), 100);
    }

    method ScoreWith(scales: Weights) returns (score: real)
      ensures score == ScaledScore(FilledIn(View()), scales)
    {
      var identity := IdentitySubtotal(scales.personalIdentity);
      var location := LocationSubtotal(scales.locationOrigin);
      var education := EducationSubtotal(scales.education);
      var records := RecordsSubtotal(scales);
      var preferences := PreferenceSubtotal(scales.preferences);
      return identity + location + education + records + preferences;
    }

    method IdentitySubtotal(scale: real) returns (score: real)
      ensures score == Total(IdentityItems(FilledIn(View()), scale))
    {
      score := 0.0;
      if NonEmpty(fields.firstName) {
        score := score + 3.0 * scale;
      }
      if NonEmpty(fields.lastName) {
        score := score + 3.0 * scale;
      }
      if fields.dateOfBirth.Some? {
        score := score + 5.0 * scale;
      }
      if fields.gender.Some? {
        score := score + 4.0 * scale;
      }
      if fields.maritalStatus.Some? {
        score := score + 3.0 * scale;
      }
      ghost var f := FilledIn(View());
      TotalOfItems((f.firstName, 3.0 * scale), (f.lastName, 3.0 * scale), (f.dateOfBirth, 5.0 * scale),
                   (f.gender, 4.0 * scale), (f.maritalStatus, 3.0 * scale));
    }

    method LocationSubtotal(scale: real) returns (score: real)
      ensures score == Total(LocationItems(FilledIn(View()), scale))
    {
      score := 0.0;
      if fields.country.Some? {
        score := score + 8.0 * scale;
      }
      if fields.nationality.Some? {
        score := score + 7.0 * scale;
      }
      ghost var f, none := FilledIn(View()), (false, 0.0);
      TotalOfItems((f.country, 8.0 * scale), (f.nationality, 7.0 * scale), none, none, none);
    }

    method EducationSubtotal(scale: real) returns (score: real)
      ensures score == Total(EducationItems(FilledIn(View()), scale))
    {
      score := 0.0;
      if fields.educationLevel.Some? {
        score := score + 10.0 * scale;
      }
      if educations != map[] {
        score := score + 25.0 * scale;
      }
      ghost var f, none := FilledIn(View()), (false, 0.0);
      TotalOfItems((f.educationLevel, 10.0 * scale), (f.educations, 25.0 * scale), none, none, none);
    }

    method RecordsSubtotal(scales: Weights) returns (score: real)
      ensures score == Total(RecordsItems(FilledIn(View()), scales))
    {
      score := 0.0;
      if languages > 0 {
        score := score + 10.0 * scales.languages;
      }
      if tests > 0 {
        score := score + 7.0 * scales.tests;
      }
      ghost var f, none := FilledIn(View()), (false, 0.0);
      TotalOfItems((f.languages, 10.0 * scales.languages), (f.tests, 7.0 * scales.tests), none, none, none);
    }

    method PreferenceSubtotal(scale: real) returns (score: real)
      ensures score == Total(PreferenceItems(FilledIn(View()), scale))
    {
      score := 0.0;
      if statuses > 0 {
        score := score + 3.0 * scale;
      }
      var degrees := HasTargets(Degree);
      if degrees {
        score := score + 4.0 * scale;
      }
      var majors := HasTargets(Major);
      if majors {
        score := score + 5.0 * scale;
      }
      var institutions := HasTargets(Institution);
      if institutions {
        score := score + 3.0 * scale;
      }
      ghost var f, none := FilledIn(View()), (false, 0.0);
      TotalOfItems((f.statuses, 3.0 * scale), (f.degrees, 4.0 * scale), (f.majors, 5.0 * scale),
                   (f.institutions, 3.0 * scale), none);
    }

    method Recalculate(s: Settings) returns (r: Reply)
      modifies this`completionPct, this`isMatchable, this`matchingVersion
      ensures (View(), r) == Recalculated(old(View()), s)
    {
      var total := s.weights.Total();
      if total != 100.0 {
        return Err(WeightsNotTotal100);
      }
      var pct := ComputeCompletionPct(s.weights);
      completionPct := pct;
      isMatchable := pct as real >= s.threshold;
      matchingVersion := matchingVersion + 1;
      return Ok(());
    }

    method UpdateProfile(s: Settings, dto: UpdateDto) returns (r: Reply)
      modifies this
      ensures (View(), r) == P.UpdateProfile(ref, s, old(View()), dto)
    {
      if dto.bio.Set? && dto.bio.value != "" {
        if |dto.bio.value| > s.maxBio {
          return Err(BioTooLong);
        }
      }
      if dto.experiences.Some? && dto.experiences.value > s.maxExperiences {
        return Err(TooManyExperiences);
      }
      var missing := MissingReference(dto);
      if missing.Some? {
        return Err(missing.value);
      }
      var updated := Patched(dto);
      var countryId := if dto.country.Unset? then fields.country else dto.country.Over(None);
      var cityId := if dto.city.Unset? then fields.city else dto.city.Over(None);
      if cityId.Some? && countryId.Some? {
        if cityId.value !in ref.cities {
          return Err(InvalidCity);
        }
        if ref.cities[cityId.value] != countryId.value {
          if !dto.city.Unset? {
            return Err(CityCountryMismatch);
          }
          updated := updated.(city := None);
        }
      } else if cityId.Some? {
        return Err(CityWithoutCountry);
      }
      fields := updated;
      r := Recalculate(s);
    }

    method MissingReference(dto: UpdateDto) returns (r: Option<Error>)
      ensures r ==
        if dto.maritalStatus.Set? && dto.maritalStatus.value !in ref.maritalStatuses then Some(InvalidMaritalStatus)
        else if dto.country.Set? && dto.country.value !in ref.countries then Some(InvalidCountry)
        else if dto.nationality.Set? && dto.nationality.value !in ref.countries then Some(InvalidCountry)
        else if dto.educationLevel.Set? && dto.educationLevel.value !in ref.levels then Some(InvalidEducationLevel)
        else None
    {
      if dto.maritalStatus.Set? && dto.maritalStatus.value !in ref.maritalStatuses {
        return Some(InvalidMaritalStatus);
      }
      if dto.country.Set? && dto.country.value !in ref.countries {
        return Some(InvalidCountry);
      }
      if dto.nationality.Set? && dto.nationality.value !in ref.countries {
        return Some(InvalidCountry);
      }
      if dto.educationLevel.Set? && dto.educationLevel.value !in ref.levels {
        return Some(InvalidEducationLevel);
      }
      return None;
    }

    /** Every given field written over the stored one. */
    method Patched(dto: UpdateDto) returns (f: Fields)
      ensures f == Fields(
        dto.firstName.Over(fields.firstName), dto.lastName.Over(fields.lastName),
        dto.dateOfBirth.Over(fields.dateOfBirth), dto.gender.Over(fields.gender),
        dto.maritalStatus.Over(fields.maritalStatus), dto.country.Over(fields.country),
        dto.nationality.Over(fields.nationality), dto.educationLevel.Over(fields.educationLevel),
        dto.city.Over(fields.city), dto.bio.Over(fields.bio),
        if dto.experiences.Some? then dto.experiences.value else fields.experiences)
    {
      f := fields;
      f := f.(firstName := dto.firstName.Over(f.firstName), lastName := dto.lastName.Over(f.lastName));
      f := f.(dateOfBirth := dto.dateOfBirth.Over(f.dateOfBirth), gender := dto.gender.Over(f.gender));
      f := f.(maritalStatus := dto.maritalStatus.Over(f.maritalStatus), country := dto.country.Over(f.country));
      f := f.(nationality := dto.nationality.Over(f.nationality), city := dto.city.Over(f.city));
      f := f.(educationLevel := dto.educationLevel.Over(f.educationLevel), bio := dto.bio.Over(f.bio));
      if dto.experiences.Some? {
        f := f.(experiences := dto.experiences.value);
      }
    }

    // ----- Preferences

    method AddTarget(s: Settings, t: Target, id: Id) returns (r: Reply)
      modifies this
      ensures (View(), r) == P.AddTarget(ref, s, old(View()), t, id)
    {
      if id !in TargetTable(ref, t) {
        return Err(InvalidTarget);
      }
      var rows := if t in targets then targets[t] else {};
      if |rows| >= s.MaxTargets(t) {
        if id !in rows {
          return Err(MaxTargetsReached);
        }
      }
      targets := targets[t := rows + {id}];
      r := Recalculate(s);
    }

    method RemoveTarget(s: Settings, t: Target, id: Id) returns (r: Reply)
      modifies this
      ensures (View(), r) == P.RemoveTarget(s, old(View()), t, id)
    {
      var rows := if t in targets then targets[t] else {};
      if id !in rows {
        return Err(TargetNotFound);
      }
      targets := targets[t := rows - {id}];
      r := Recalculate(s);
    }

    // ----- Educations

    method CreateEducation(s: Settings, id: Id, dto: CreateDto) returns (r: Reply)
      requires id !in educations
      modifies this
      ensures (View(), r) == Educations.CreateEducation(ref, s, old(View()), id, dto)
    {
      if dto.minor == Some(dto.major) {
        return Err(MinorEqualsMajor);
      }
      var endDate, expected := dto.endDate, dto.expectedGraduation;
      if dto.isCurrent == Some(true) {
        endDate := None;
      } else if dto.isCurrent == Some(false) {
        expected := None;
      }
      if dto.startDate.Some? && endDate.Some? && endDate.value < dto.startDate.value {
        return Err(InvalidDateRange);
      }
      var refError := ReferenceError(ref, Some(dto.level), Some(dto.institution), Some(dto.major), dto.minor);
      if refError.Some? {
        return Err(refError.value);
      }
      if Duplicate(educations, None, dto.level, dto.institution, dto.major) {
        return Err(EducationDuplicate);
      }
      if |educations| >= s.maxEducations {
        return Err(MaxEducationsReached);
      }
      if dto.gpaRaw.Some? && dto.gpaScale.None? {
        return Err(GpaScaleRequired);
      }
      var gpaNormalized := NormalizedGpa(dto.gpaRaw, dto.gpaScale);
      if !(FitsColumn(dto.gpaRaw) && FitsColumn(gpaNormalized)) {
        return Err(DatabaseRejects);
      }
      var isCurrent := dto.isCurrent.Some? && dto.isCurrent.value;
      educations := educations[id := Education(
        dto.level, dto.institution, dto.major, dto.minor, dto.startDate, endDate, expected, isCurrent,
        Column(dto.gpaRaw), dto.gpaScale, Column(gpaNormalized))];
      r := Recalculate(s);
    }

    method UpdateEducation(s: Settings, id: Id, dto: PatchDto) returns (r: Reply)
      modifies this
      ensures (View(), r) == Educations.UpdateEducation(ref, s, old(View()), id, dto)
    {
      if id !in educations {
        return Err(EducationNotFound);
      }
      var error, updated := Patch(educations[id], id, dto);
      if error.Some? {
        return Err(error.value);
      }
      educations := educations[id := updated];
      r := Recalculate(s);
    }

    /** The checks of an update and the row it would write. */
    method Patch(edu: Education, id: Id, dto: PatchDto) returns (error: Option<Error>, updated: Education)
      requires id in educations && educations[id] == edu
      ensures error == PatchError(ref, educations, id, dto)
      ensures error.None? ==> updated == PatchedEducation(edu, dto)
    {
      updated := edu;
      var major := dto.major.Over(Some(edu.major));
      var minor := dto.minor.Over(edu.minor);
      if minor.Some? && major == minor {
        return Some(MinorEqualsMajor), updated;
      }
      var refError :=
        ReferenceError(ref, SetValue(dto.level), SetValue(dto.institution), SetValue(dto.major), SetValue(dto.minor));
      if refError.Some? {
        return refError, updated;
      }
      var levelId := if dto.level.Set? then dto.level.value else edu.level;
      var instId := if dto.institution.Set? then dto.institution.value else edu.institution;
      var majId := if dto.major.Set? then dto.major.value else edu.major;
      if dto.level.Set? || dto.institution.Set? || dto.major.Set? {
        if Duplicate(educations, Some(id), levelId, instId, majId) {
          return Some(EducationDuplicate), updated;
        }
      }
      var isCurrent := dto.isCurrent.Over(Some(edu.isCurrent));
      var endDate := dto.endDate.Over(edu.endDate);
      var expected := dto.expectedGraduation.Over(edu.expectedGraduation);
      if isCurrent == Some(true) {
        endDate := None;
      } else if isCurrent == Some(false) {
        expected := None;
      }
      var startDate := dto.startDate.Over(edu.startDate);
      if startDate.Some? && endDate.Some? && endDate.value < startDate.value {
        return Some(InvalidDateRange), updated;
      }
      var gpaRaw := MergedRaw(edu, dto);
      var gpaScale := dto.gpaScale.Over(edu.gpaScale);
      if gpaRaw.Some? && gpaScale.None? {
        return Some(GpaScaleRequired), updated;
      }
      var gpaNormalized := NormalizedGpa(gpaRaw, gpaScale);
      if dto.level.Null? || dto.institution.Null? || dto.major.Null? || dto.isCurrent.Null? {
        return Some(DatabaseRejects), updated;
      }
      if !(FitsColumn(gpaRaw) && FitsColumn(gpaNormalized)) {
        return Some(DatabaseRejects), updated;
      }
      updated := Education(
        levelId, instId, majId, minor, startDate, endDate, expected, isCurrent.value,
        if dto.gpaRaw.Unset? then edu.gpaRaw else Column(gpaRaw), gpaScale, Column(gpaNormalized));
      return None, updated;
    }

    method RemoveEducation(s: Settings, id: Id) returns (r: Reply)
      modifies this
      ensures (View(), r) == Educations.RemoveEducation(s, old(View()), id)
    {
      if id !in educations {
        return Err(EducationNotFound);
      }
      educations := educations - {id};
      r := Recalculate(s);
    }
  }
}
