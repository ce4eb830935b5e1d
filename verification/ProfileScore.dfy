/** What every field of a profile is worth in its completion score. */
module ProfileScore {
  import opened Basics
  import opened Profile

  /** The second set of filled fields scores higher by these points, on the scale of the group's weight. */
  ghost predicate Adds(f: Filled, g: Filled, w: Weights, points: real, weight: real, ofPoints: real)
    requires ofPoints > 0.0
  {
    Score(g, w) == Score(f, w) + points * (weight / ofPoints)
  }

  lemma PartsAdd(f: Filled, g: Filled, s: Weights, d: seq<real>)
    requires |d| == 5
    requires Total(IdentityItems(g, s.personalIdentity)) == Total(IdentityItems(f, s.personalIdentity)) + d[0]
    requires Total(LocationItems(g, s.locationOrigin)) == Total(LocationItems(f, s.locationOrigin)) + d[1]
    requires Total(EducationItems(g, s.education)) == Total(EducationItems(f, s.education)) + d[2]
    requires Total(RecordsItems(g, s)) == Total(RecordsItems(f, s)) + d[3]
    requires Total(PreferenceItems(g, s.preferences)) == Total(PreferenceItems(f, s.preferences)) + d[4]
    ensures ScaledScore(g, s) == ScaledScore(f, s) + d[0] + d[1] + d[2] + d[3] + d[4]
  {
  }

  lemma FirstNameAdds(f: Filled, w: Weights)
    requires !f.firstName
    ensures Adds(f, f.(firstName := true), w, 3.0, w.personalIdentity, 18.0)
  {
    var s, g := Scales(w), f.(firstName := true);
    FirstNameStep(f, s.personalIdentity);
    PartsAdd(f, g, s, [3.0 * s.personalIdentity, 0.0, 0.0, 0.0, 0.0]);
  }

  lemma FirstNameStep(f: Filled, scale: real)
    requires !f.firstName
    ensures Total(IdentityItems(f.(firstName := true), scale)) == Total(IdentityItems(f, scale)) + 3.0 * scale
  {
    assert IdentityItems(f.(firstName := true), scale) == IdentityItems(f, scale)[0 := (true, 3.0 * scale)];
    TotalAdds(IdentityItems(f, scale), 0, 3.0 * scale);
  }

  lemma LastNameAdds(f: Filled, w: Weights)
    requires !f.lastName
    ensures Adds(f, f.(lastName := true), w, 3.0, w.personalIdentity, 18.0)
  {
    var s, g := Scales(w), f.(lastName := true);
    LastNameStep(f, s.personalIdentity);
    PartsAdd(f, g, s, [3.0 * s.personalIdentity, 0.0, 0.0, 0.0, 0.0]);
  }

  lemma LastNameStep(f: Filled, scale: real)
    requires !f.lastName
    ensures Total(IdentityItems(f.(lastName := true), scale)) == Total(IdentityItems(f, scale)) + 3.0 * scale
  {
    assert IdentityItems(f.(lastName := true), scale) == IdentityItems(f, scale)[1 := (true, 3.0 * scale)];
    TotalAdds(IdentityItems(f, scale), 1, 3.0 * scale);
  }

  lemma DateOfBirthAdds(f: Filled, w: Weights)
    requires !f.dateOfBirth
    ensures Adds(f, f.(dateOfBirth := true), w, 5.0, w.personalIdentity, 18.0)
  {
    var s, g := Scales(w), f.(dateOfBirth := true);
    DateOfBirthStep(f, s.personalIdentity);
    PartsAdd(f, g, s, [5.0 * s.personalIdentity, 0.0, 0.0, 0.0, 0.0]);
  }

  lemma DateOfBirthStep(f: Filled, scale: real)
    requires !f.dateOfBirth
    ensures Total(IdentityItems(f.(dateOfBirth := true), scale)) == Total(IdentityItems(f, scale)) + 5.0 * scale
  {
    assert IdentityItems(f.(dateOfBirth := true), scale) == IdentityItems(f, scale)[2 := (true, 5.0 * scale)];
    TotalAdds(IdentityItems(f, scale), 2, 5.0 * scale);
  }

  lemma GenderAdds(f: Filled, w: Weights)
    requires !f.gender
    ensures Adds(f, f.(gender := true), w, 4.0, w.personalIdentity, 18.0)
  {
    var s, g := Scales(w), f.(gender := true);
    GenderStep(f, s.personalIdentity);
    PartsAdd(f, g, s, [4.0 * s.personalIdentity, 0.0, 0.0, 0.0, 0.0]);
  }

  lemma GenderStep(f: Filled, scale: real)
    requires !f.gender
    ensures Total(IdentityItems(f.(gender := true), scale)) == Total(IdentityItems(f, scale)) + 4.0 * scale
  {
    assert IdentityItems(f.(gender := true), scale) == IdentityItems(f, scale)[3 := (true, 4.0 * scale)];
    TotalAdds(IdentityItems(f, scale), 3, 4.0 * scale);
  }

  lemma MaritalStatusAdds(f: Filled, w: Weights)
    requires !f.maritalStatus
    ensures Adds(f, f.(maritalStatus := true), w, 3.0, w.personalIdentity, 18.0)
  {
    var s, g := Scales(w), f.(maritalStatus := true);
    MaritalStatusStep(f, s.personalIdentity);
    PartsAdd(f, g, s, [3.0 * s.personalIdentity, 0.0, 0.0, 0.0, 0.0]);
  }

  lemma MaritalStatusStep(f: Filled, scale: real)
    requires !f.maritalStatus
    ensures Total(IdentityItems(f.(maritalStatus := true), scale)) == Total(IdentityItems(f, scale)) + 3.0 * scale
  {
    assert IdentityItems(f.(maritalStatus := true), scale) == IdentityItems(f, scale)[4 := (true, 3.0 * scale)];
    TotalAdds(IdentityItems(f, scale), 4, 3.0 * scale);
  }

  lemma CountryAdds(f: Filled, w: Weights)
    requires !f.country
    ensures Adds(f, f.(country := true), w, 8.0, w.locationOrigin, 15.0)
  {
    var s, g := Scales(w), f.(country := true);
    CountryStep(f, s.locationOrigin);
    PartsAdd(f, g, s, [0.0, 8.0 * s.locationOrigin, 0.0, 0.0, 0.0]);
  }

  lemma CountryStep(f: Filled, scale: real)
    requires !f.country
    ensures Total(LocationItems(f.(country := true), scale)) == Total(LocationItems(f, scale)) + 8.0 * scale
  {
    assert LocationItems(f.(country := true), scale) == LocationItems(f, scale)[0 := (true, 8.0 * scale)];
    TotalAdds(LocationItems(f, scale), 0, 8.0 * scale);
  }

  lemma NationalityAdds(f: Filled, w: Weights)
    requires !f.nationality
    ensures Adds(f, f.(nationality := true), w, 7.0, w.locationOrigin, 15.0)
  {
    var s, g := Scales(w), f.(nationality := true);
    NationalityStep(f, s.locationOrigin);
    PartsAdd(f, g, s, [0.0, 7.0 * s.locationOrigin, 0.0, 0.0, 0.0]);
  }

  lemma NationalityStep(f: Filled, scale: real)
    requires !f.nationality
    ensures Total(LocationItems(f.(nationality := true), scale)) == Total(LocationItems(f, scale)) + 7.0 * scale
  {
    assert LocationItems(f.(nationality := true), scale) == LocationItems(f, scale)[1 := (true, 7.0 * scale)];
    TotalAdds(LocationItems(f, scale), 1, 7.0 * scale);
  }

  lemma EducationLevelAdds(f: Filled, w: Weights)
    requires !f.educationLevel
    ensures Adds(f, f.(educationLevel := true), w, 10.0, w.education, 35.0)
  {
    var s, g := Scales(w), f.(educationLevel := true);
    EducationLevelStep(f, s.education);
    PartsAdd(f, g, s, [0.0, 0.0, 10.0 * s.education, 0.0, 0.0]);
  }

  lemma EducationLevelStep(f: Filled, scale: real)
    requires !f.educationLevel
    ensures Total(EducationItems(f.(educationLevel := true), scale)) == Total(EducationItems(f, scale)) + 10.0 * scale
  {
    assert EducationItems(f.(educationLevel := true), scale) == EducationItems(f, scale)[0 := (true, 10.0 * scale)];
    TotalAdds(EducationItems(f, scale), 0, 10.0 * scale);
  }

  lemma EducationsAdds(f: Filled, w: Weights)
    requires !f.educations
    ensures Adds(f, f.(educations := true), w, 25.0, w.education, 35.0)
  {
    var s, g := Scales(w), f.(educations := true);
    EducationsStep(f, s.education);
    PartsAdd(f, g, s, [0.0, 0.0, 25.0 * s.education, 0.0, 0.0]);
  }

  lemma EducationsStep(f: Filled, scale: real)
    requires !f.educations
    ensures Total(EducationItems(f.(educations := true), scale)) == Total(EducationItems(f, scale)) + 25.0 * scale
  {
    assert EducationItems(f.(educations := true), scale) == EducationItems(f, scale)[1 := (true, 25.0 * scale)];
    TotalAdds(EducationItems(f, scale), 1, 25.0 * scale);
  }

  lemma StatusesAdds(f: Filled, w: Weights)
    requires !f.statuses
    ensures Adds(f, f.(statuses := true), w, 3.0, w.preferences, 15.0)
  {
    var s, g := Scales(w), f.(statuses := true);
    StatusesStep(f, s.preferences);
    PartsAdd(f, g, s, [0.0, 0.0, 0.0, 0.0, 3.0 * s.preferences]);
  }

  lemma StatusesStep(f: Filled, scale: real)
    requires !f.statuses
    ensures Total(PreferenceItems(f.(statuses := true), scale)) == Total(PreferenceItems(f, scale)) + 3.0 * scale
  {
    assert PreferenceItems(f.(statuses := true), scale) == PreferenceItems(f, scale)[0 := (true, 3.0 * scale)];
    TotalAdds(PreferenceItems(f, scale), 0, 3.0 * scale);
  }

  lemma DegreesAdds(f: Filled, w: Weights)
    requires !f.degrees
    ensures Adds(f, f.(degrees := true), w, 4.0, w.preferences, 15.0)
  {
    var s, g := Scales(w), f.(degrees := true);
    DegreesStep(f, s.preferences);
    PartsAdd(f, g, s, [0.0, 0.0, 0.0, 0.0, 4.0 * s.preferences]);
  }

  lemma DegreesStep(f: Filled, scale: real)
    requires !f.degrees
    ensures Total(PreferenceItems(f.(degrees := true), scale)) == Total(PreferenceItems(f, scale)) + 4.0 * scale
  {
    assert PreferenceItems(f.(degrees := true), scale) == PreferenceItems(f, scale)[1 := (true, 4.0 * scale)];
    TotalAdds(PreferenceItems(f, scale), 1, 4.0 * scale);
  }

  lemma MajorsAdds(f: Filled, w: Weights)
    requires !f.majors
    ensures Adds(f, f.(majors := true), w, 5.0, w.preferences, 15.0)
  {
    var s, g := Scales(w), f.(majors := true);
    MajorsStep(f, s.preferences);
    PartsAdd(f, g, s, [0.0, 0.0, 0.0, 0.0, 5.0 * s.preferences]);
  }

  lemma MajorsStep(f: Filled, scale: real)
    requires !f.majors
    ensures Total(PreferenceItems(f.(majors := true), scale)) == Total(PreferenceItems(f, scale)) + 5.0 * scale
  {
    assert PreferenceItems(f.(majors := true), scale) == PreferenceItems(f, scale)[2 := (true, 5.0 * scale)];
    TotalAdds(PreferenceItems(f, scale), 2, 5.0 * scale);
  }

  lemma InstitutionsAdds(f: Filled, w: Weights)
    requires !f.institutions
    ensures Adds(f, f.(institutions := true), w, 3.0, w.preferences, 15.0)
  {
    var s, g := Scales(w), f.(institutions := true);
    InstitutionsStep(f, s.preferences);
    PartsAdd(f, g, s, [0.0, 0.0, 0.0, 0.0, 3.0 * s.preferences]);
  }

  lemma InstitutionsStep(f: Filled, scale: real)
    requires !f.institutions
    ensures Total(PreferenceItems(f.(institutions := true), scale)) == Total(PreferenceItems(f, scale)) + 3.0 * scale
  {
    assert PreferenceItems(f.(institutions := true), scale) == PreferenceItems(f, scale)[3 := (true, 3.0 * scale)];
    TotalAdds(PreferenceItems(f, scale), 3, 3.0 * scale);
  }

  lemma LanguagesAdds(f: Filled, w: Weights)
    requires !f.languages
    ensures Adds(f, f.(languages := true), w, 10.0, w.languages, 10.0)
  {
    var s, g := Scales(w), f.(languages := true);
    LanguagesStep(f, s);
    PartsAdd(f, g, s, [0.0, 0.0, 0.0, 10.0 * s.languages, 0.0]);
  }

  lemma LanguagesStep(f: Filled, s: Weights)
    requires !f.languages
    ensures Total(RecordsItems(f.(languages := true), s)) == Total(RecordsItems(f, s)) + 10.0 * s.languages
  {
    assert RecordsItems(f.(languages := true), s) == RecordsItems(f, s)[0 := (true, 10.0 * s.languages)];
    TotalAdds(RecordsItems(f, s), 0, 10.0 * s.languages);
  }

  lemma TestsAdds(f: Filled, w: Weights)
    requires !f.tests
    ensures Adds(f, f.(tests := true), w, 7.0, w.tests, 7.0)
  {
    var s, g := Scales(w), f.(tests := true);
    TestsStep(f, s);
    PartsAdd(f, g, s, [0.0, 0.0, 0.0, 7.0 * s.tests, 0.0]);
  }

  lemma TestsStep(f: Filled, s: Weights)
    requires !f.tests
    ensures Total(RecordsItems(f.(tests := true), s)) == Total(RecordsItems(f, s)) + 7.0 * s.tests
  {
    assert RecordsItems(f.(tests := true), s) == RecordsItems(f, s)[1 := (true, 7.0 * s.tests)];
    TotalAdds(RecordsItems(f, s), 1, 7.0 * s.tests);
  }

  /** Of the 18 points for identity, each name is worth 3, the date of birth 5, the gender 4, the marital status 3. */
  lemma IdentityWorth(f: Filled, w: Weights)
    ensures !f.firstName ==> Adds(f, f.(firstName := true), w, 3.0, w.personalIdentity, 18.0)
    ensures !f.lastName ==> Adds(f, f.(lastName := true), w, 3.0, w.personalIdentity, 18.0)
    ensures !f.dateOfBirth ==> Adds(f, f.(dateOfBirth := true), w, 5.0, w.personalIdentity, 18.0)
    ensures !f.gender ==> Adds(f, f.(gender := true), w, 4.0, w.personalIdentity, 18.0)
    ensures !f.maritalStatus ==> Adds(f, f.(maritalStatus := true), w, 3.0, w.personalIdentity, 18.0)
  {
    if !f.firstName {
      FirstNameAdds(f, w);
    }
    if !f.lastName {
      LastNameAdds(f, w);
    }
    if !f.dateOfBirth {
      DateOfBirthAdds(f, w);
    }
    if !f.gender {
      GenderAdds(f, w);
    }
    if !f.maritalStatus {
      MaritalStatusAdds(f, w);
    }
  }

  /** Of the 15 points for origin, the country of residence is worth 8 and the nationality 7. */
  lemma LocationWorth(f: Filled, w: Weights)
    ensures !f.country ==> Adds(f, f.(country := true), w, 8.0, w.locationOrigin, 15.0)
    ensures !f.nationality ==> Adds(f, f.(nationality := true), w, 7.0, w.locationOrigin, 15.0)
  {
    if !f.country {
      CountryAdds(f, w);
    }
    if !f.nationality {
      NationalityAdds(f, w);
    }
  }

  /** Of the 35 points for education, the level is worth 10 and having a record 25. */
  lemma EducationWorth(f: Filled, w: Weights)
    ensures !f.educationLevel ==> Adds(f, f.(educationLevel := true), w, 10.0, w.education, 35.0)
    ensures !f.educations ==> Adds(f, f.(educations := true), w, 25.0, w.education, 35.0)
  {
    if !f.educationLevel {
      EducationLevelAdds(f, w);
    }
    if !f.educations {
      EducationsAdds(f, w);
    }
  }

  /** Of the 15 points for preferences, a special status is worth 3, a target degree 4, a major 5, an institution 3. */
  lemma PreferenceWorth(f: Filled, w: Weights)
    ensures !f.statuses ==> Adds(f, f.(statuses := true), w, 3.0, w.preferences, 15.0)
    ensures !f.degrees ==> Adds(f, f.(degrees := true), w, 4.0, w.preferences, 15.0)
    ensures !f.majors ==> Adds(f, f.(majors := true), w, 5.0, w.preferences, 15.0)
    ensures !f.institutions ==> Adds(f, f.(institutions := true), w, 3.0, w.preferences, 15.0)
  {
    if !f.statuses {
      StatusesAdds(f, w);
    }
    if !f.degrees {
      DegreesAdds(f, w);
    }
    if !f.majors {
      MajorsAdds(f, w);
    }
    if !f.institutions {
      InstitutionsAdds(f, w);
    }
  }

  /** Having a language is worth the whole weight of its group, and so is having a test. */
  lemma RecordsWorth(f: Filled, w: Weights)
    ensures !f.languages ==> Adds(f, f.(languages := true), w, 10.0, w.languages, 10.0)
    ensures !f.tests ==> Adds(f, f.(tests := true), w, 7.0, w.tests, 7.0)
  {
    if !f.languages {
      LanguagesAdds(f, w);
    }
    if !f.tests {
      TestsAdds(f, w);
    }
  }

  ghost predicate HasTarget(p: Profile, t: Target) {
    t in p.targets && exists id :: id in p.targets[t]
  }

  /** What counts as filled, in the rows: a name that is not empty, a column that is not null, one row or more. */
  lemma FilledExact(p: Profile)
    ensures var f, g := p.fields, FilledIn(p);
      && (g.firstName <==> f.firstName.Some? && |f.firstName.value| > 0)
      && (g.lastName <==> f.lastName.Some? && |f.lastName.value| > 0)
      && (g.dateOfBirth <==> f.dateOfBirth.Some?) && (g.gender <==> f.gender.Some?)
      && (g.maritalStatus <==> f.maritalStatus.Some?)
      && (g.country <==> f.country.Some?) && (g.nationality <==> f.nationality.Some?)
      && (g.educationLevel <==> f.educationLevel.Some?) && (g.educations <==> exists id :: id in p.educations)
      && (g.languages <==> p.languages >= 1) && (g.tests <==> p.tests >= 1) && (g.statuses <==> p.statuses >= 1)
      && (g.degrees <==> HasTarget(p, Degree)) && (g.majors <==> HasTarget(p, Major))
      && (g.institutions <==> HasTarget(p, Institution))
  {
  }
}
