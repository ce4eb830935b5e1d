/**
 The education records of a profile: creation, three-valued partial updates, removal, and the
 normalised GPA.  The GPA columns are DECIMAL(5,2): the database rounds to two decimals and
 rejects 1000 and more.
 */
module Educations {
  import opened Basics
  import opened Profile

  /** A GPA as the validation lets it through. */
  type Gpa = r: real | r >= 0.0 witness 0.0

  /** Absent and null fields of a new record mean the same. */
  datatype CreateDto = CreateDto(
    level: Id, institution: Id, major: Id, minor: Option<Id>,
    startDate: Option<int>, endDate: Option<int>, expectedGraduation: Option<int>, isCurrent: Option<bool>,
    gpaRaw: Option<Gpa>, gpaScale: Option<Scale>)

  datatype PatchDto = PatchDto(
    level: Patch<Id>, institution: Patch<Id>, major: Patch<Id>, minor: Patch<Id>,
    startDate: Patch<int>, endDate: Patch<int>, expectedGraduation: Patch<int>, isCurrent: Patch<bool>,
    gpaRaw: Patch<Gpa>, gpaScale: Patch<Scale>)

  // ----- GPA

  function Normalized(raw: real, scale: Scale): (r: real)
    ensures scale == OUT_OF_4 ==> r == raw
    ensures scale == OUT_OF_5 ==> r * 5.0 == raw * 4.0
    ensures scale == OUT_OF_100 ==> r * 25.0 == raw
  {
    match scale
    case OUT_OF_4 => raw
    case OUT_OF_5 => raw * 4.0 / 5.0
    case OUT_OF_100 => raw * 4.0 / 100.0
  }

  function NormalizedGpa(raw: Option<real>, scale: Option<Scale>): Option<real> {
    if raw.None? || scale.None? then None else Some(Normalized(raw.value, scale.value))
  }

  /** A non-negative value in hundredths, rounded half up. */
  function Cents(x: real): (r: int)
    ensures x * 100.0 - 0.5 < r as real <= x * 100.0 + 0.5
  {
    (x * 100.0 + 0.5).Floor
  }

  function Column(x: Option<real>): Option<real> {
    if x.None? then None else Some(Cents(x.value) as real / 100.0)
  }

  predicate FitsColumn(x: Option<real>) {
    x.Some? ==> Cents(x.value) < 100000
  }

  // ----- Checks

  function ReferenceError(
    ref: Reference, level: Option<Id>, institution: Option<Id>, major: Option<Id>, minor: Option<Id>): Option<Error>
  {
    if level.Some? && level.value !in ref.levels then Some(InvalidEducationLevel)
    else if institution.Some? && institution.value !in ref.institutions then Some(InvalidInstitution)
    else if major.Some? && major.value !in ref.majors then Some(InvalidMajor)
    else if minor.Some? && minor.value !in ref.majors then Some(InvalidMinor)
    else None
  }

  /** Another record with the same level, institution and major. */
  predicate Duplicate(es: map<Id, Education>, except: Option<Id>, level: Id, institution: Id, major: Id) {
    exists k | k in es ::
      Some(k) != except && es[k].level == level && es[k].institution == institution && es[k].major == major
  }

  predicate EndsBeforeStart(start: Option<int>, end: Option<int>) {
    start.Some? && end.Some? && end.value < start.value
  }

  // ----- Create

  function CreateError(ref: Reference, s: Settings, p: Profile, dto: CreateDto): Option<Error> {
    var end := if dto.isCurrent == Some(true) then None else dto.endDate;
    if dto.minor == Some(dto.major) then Some(MinorEqualsMajor)
    else if EndsBeforeStart(dto.startDate, end) then Some(InvalidDateRange)
    else
      var refError := ReferenceError(ref, Some(dto.level), Some(dto.institution), Some(dto.major), dto.minor);
      if refError.Some? then refError
      else if Duplicate(p.educations, None, dto.level, dto.institution, dto.major) then Some(EducationDuplicate)
      else if |p.educations| >= s.maxEducations then Some(MaxEducationsReached)
      else if dto.gpaRaw.Some? && dto.gpaScale.None? then Some(GpaScaleRequired)
      else if !(FitsColumn(dto.gpaRaw) && FitsColumn(NormalizedGpa(dto.gpaRaw, dto.gpaScale))) then
        Some(DatabaseRejects)
      else None
  }

  function NewEducation(dto: CreateDto): Education {
    Education(
      dto.level, dto.institution, dto.major, dto.minor,
      dto.startDate,
      if dto.isCurrent == Some(true) then None else dto.endDate,
      if dto.isCurrent == Some(false) then None else dto.expectedGraduation,
      dto.isCurrent == Some(true),
      Column(dto.gpaRaw), dto.gpaScale, Column(NormalizedGpa(dto.gpaRaw, dto.gpaScale)))
  }

  /** The database picks an unused id for the new row. */
  function CreateEducation(ref: Reference, s: Settings, p: Profile, id: Id, dto: CreateDto): (Profile, Reply)
    requires id !in p.educations
  {
    var error := CreateError(ref, s, p, dto);
    if error.Some? then (p, Err(error.value))
    else Recalculated(p.(educations := p.educations[id := NewEducation(dto)]), s)
  }

  // ----- Update

  /** The GPA and scale a patch leads to, before the columns round. */
  function MergedRaw(e: Education, dto: PatchDto): Option<real> {
    match dto.gpaRaw
    case Unset => e.gpaRaw
    case Null => None
    case Set(raw) => Some(raw)
  }

  function MergedEnd(e: Education, dto: PatchDto): Option<int> {
    if dto.isCurrent.Over(Some(e.isCurrent)) == Some(true) then None else dto.endDate.Over(e.endDate)
  }

  function MergedExpected(e: Education, dto: PatchDto): Option<int> {
    if dto.isCurrent.Over(Some(e.isCurrent)) == Some(false) then None
    else dto.expectedGraduation.Over(e.expectedGraduation)
  }

  /** The part of a patch that is a value; a null required column only fails in the database. */
  function SetValue<T>(p: Patch<T>): Option<T> {
    if p.Set? then Some(p.value) else None
  }

  function PatchError(ref: Reference, es: map<Id, Education>, id: Id, dto: PatchDto): Option<Error>
    requires id in es
  {
    var e := es[id];
    var major, minor := dto.major.Over(Some(e.major)), dto.minor.Over(e.minor);
    if minor.Some? && major == minor then Some(MinorEqualsMajor)
    else
      var refError :=
        ReferenceError(ref, SetValue(dto.level), SetValue(dto.institution), SetValue(dto.major), SetValue(dto.minor));
      if refError.Some? then refError
      else if (dto.level.Set? || dto.institution.Set? || dto.major.Set?) &&
              Duplicate(es, Some(id), if dto.level.Set? then dto.level.value else e.level,
                        if dto.institution.Set? then dto.institution.value else e.institution,
                        if dto.major.Set? then dto.major.value else e.major) then Some(EducationDuplicate)
      else if EndsBeforeStart(dto.startDate.Over(e.startDate), MergedEnd(e, dto)) then Some(InvalidDateRange)
      else
        var raw, scale := MergedRaw(e, dto), dto.gpaScale.Over(e.gpaScale);
        if raw.Some? && scale.None? then Some(GpaScaleRequired)
        else if dto.level.Null? || dto.institution.Null? || dto.major.Null? || dto.isCurrent.Null? then
          Some(DatabaseRejects)
        else if !(FitsColumn(raw) && FitsColumn(NormalizedGpa(raw, scale))) then Some(DatabaseRejects)
        else None
  }

  function PatchedEducation(e: Education, dto: PatchDto): Education {
    var raw, scale := MergedRaw(e, dto), dto.gpaScale.Over(e.gpaScale);
    Education(
      if dto.level.Set? then dto.level.value else e.level,
      if dto.institution.Set? then dto.institution.value else e.institution,
      if dto.major.Set? then dto.major.value else e.major,
      dto.minor.Over(e.minor),
      dto.startDate.Over(e.startDate), MergedEnd(e, dto), MergedExpected(e, dto),
      if dto.isCurrent.Set? then dto.isCurrent.value else e.isCurrent,
      if dto.gpaRaw.Unset? then e.gpaRaw else Column(raw),
      scale, Column(NormalizedGpa(raw, scale)))
  }

  function UpdateEducation(ref: Reference, s: Settings, p: Profile, id: Id, dto: PatchDto): (Profile, Reply) {
    if id !in p.educations then (p, Err(EducationNotFound))
    else
      var error := PatchError(ref, p.educations, id, dto);
      if error.Some? then (p, Err(error.value))
      else Recalculated(p.(educations := p.educations[id := PatchedEducation(p.educations[id], dto)]), s)
  }

  function RemoveEducation(s: Settings, p: Profile, id: Id): (Profile, Reply) {
    if id !in p.educations then (p, Err(EducationNotFound))
    else Recalculated(p.(educations := p.educations - {id}), s)
  }

  // ----- Record invariants

  /** What every stored record satisfies by itself. */
  predicate RecordOk(e: Education) {
    && !EndsBeforeStart(e.startDate, e.endDate)
    && (e.isCurrent ==> e.endDate.None?)
    && e.minor != Some(e.major)
    && (e.gpaRaw.Some? ==> e.gpaScale.Some?)
    && (e.gpaNormalized.Some? <==> e.gpaRaw.Some?)
    && (e.gpaRaw.Some? ==> e.gpaRaw.value >= 0.0 && InCents(e.gpaRaw.value))
  }

  /** At most two decimals. */
  predicate InCents(x: real) {
    x == Cents(x) as real / 100.0
  }

  /** The stored normalised GPA is the normalisation of the stored GPA, as the column holds it. */
  predicate NormalizedExactly(e: Education) {
    e.gpaNormalized == Column(NormalizedGpa(e.gpaRaw, e.gpaScale))
  }

  ghost predicate DistinctRecords(es: map<Id, Education>) {
    forall j, k | j in es && k in es && j != k ::
      (es[j].level, es[j].institution, es[j].major) != (es[k].level, es[k].institution, es[k].major)
  }

  ghost predicate RecordsOk(es: map<Id, Education>) {
    DistinctRecords(es) && forall k | k in es :: RecordOk(es[k])
  }

  lemma ColumnInCents(x: real)
    requires x >= 0.0
    ensures Column(Some(x)).value >= 0.0 && InCents(Column(Some(x)).value)
  {
    var c := Cents(x);
    FloorBounds(x * 100.0 + 0.5, c);
    assert (c as real / 100.0) * 100.0 + 0.5 == c as real + 0.5;
    FloorIs(c as real + 0.5, c);
  }

  lemma NewEducationOk(ref: Reference, s: Settings, p: Profile, dto: CreateDto)
    requires CreateError(ref, s, p, dto).None?
    ensures RecordOk(NewEducation(dto))
  {
    if dto.gpaRaw.Some? {
      ColumnInCents(dto.gpaRaw.value);
    }
  }

  lemma PatchedEducationOk(ref: Reference, es: map<Id, Education>, id: Id, dto: PatchDto)
    requires id in es && RecordOk(es[id]) && PatchError(ref, es, id, dto).None?
    ensures RecordOk(PatchedEducation(es[id], dto))
  {
    if dto.gpaRaw.Set? {
      ColumnInCents(dto.gpaRaw.value);
    }
  }

  lemma CreatedRecords(ref: Reference, s: Settings, p: Profile, id: Id, dto: CreateDto)
    requires id !in p.educations && CreateError(ref, s, p, dto).None?
    ensures CreateEducation(ref, s, p, id, dto).0.educations == p.educations[id := NewEducation(dto)]
    ensures |p.educations[id := NewEducation(dto)]| == |p.educations| + 1 <= s.maxEducations
  {
    var es := p.educations[id := NewEducation(dto)];
    assert es.Keys == p.educations.Keys + {id};
    assert |es| == |es.Keys| && |p.educations| == |p.educations.Keys|;
  }

  lemma CreateKeepsRecords(ref: Reference, s: Settings, p: Profile, id: Id, dto: CreateDto)
    requires id !in p.educations && RecordsOk(p.educations)
    ensures var p' := CreateEducation(ref, s, p, id, dto).0;
      && RecordsOk(p'.educations)
      && (|p'.educations| <= |p.educations| || |p'.educations| <= s.maxEducations)
  {
    if CreateError(ref, s, p, dto).None? {
      NewEducationOk(ref, s, p, dto);
      CreateKeepsDistinct(p.educations, id, NewEducation(dto));
      CreatedRecords(ref, s, p, id, dto);
    }
  }

  lemma CreateKeepsDistinct(es: map<Id, Education>, id: Id, e: Education)
    requires DistinctRecords(es) && id !in es && !Duplicate(es, None, e.level, e.institution, e.major)
    ensures DistinctRecords(es[id := e])
  {
    assert forall k | k in es :: (es[k].level, es[k].institution, es[k].major) != (e.level, e.institution, e.major);
  }

  lemma UpdateKeepsRecords(ref: Reference, s: Settings, p: Profile, id: Id, dto: PatchDto)
    requires RecordsOk(p.educations)
    ensures var p' := UpdateEducation(ref, s, p, id, dto).0;
      RecordsOk(p'.educations) && p'.educations.Keys == p.educations.Keys
  {
    if id in p.educations && PatchError(ref, p.educations, id, dto).None? {
      PatchedEducationOk(ref, p.educations, id, dto);
      PatchKeepsDistinct(ref, p.educations, id, dto);
    }
  }

  lemma PatchKeepsDistinct(ref: Reference, es: map<Id, Education>, id: Id, dto: PatchDto)
    requires DistinctRecords(es) && id in es && PatchError(ref, es, id, dto).None?
    ensures DistinctRecords(es[id := PatchedEducation(es[id], dto)])
  {
    var e := PatchedEducation(es[id], dto);
    forall k | k in es && k != id
      ensures (es[k].level, es[k].institution, es[k].major) != (e.level, e.institution, e.major)
    {
      if dto.level.Set? || dto.institution.Set? || dto.major.Set? {
        assert !Duplicate(es, Some(id), e.level, e.institution, e.major);
      }
    }
  }

  // ----- When the normalised GPA drifts

  /**
   Whether rounding the raw GPA to two decimals leaves its normalisation alone.  On the scale
   of 5 that depends on how far the value is from its rounding, and on the last digit.
   */
  predicate RoundsSafely(raw: real, scale: Scale) {
    var drift := raw * 100.0 - Cents(raw) as real;
    scale.OUT_OF_5? ==>
      match Cents(raw) % 5
      case 1 => drift >= -0.375
      case 2 => drift >= -0.125
      case 3 => drift < 0.125
      case 4 => drift < 0.375
      case _ => true
  }

  lemma FloorIs(x: real, n: int)
    requires n as real <= x < n as real + 1.0
    ensures x.Floor == n
  {
  }

  lemma FloorBounds(x: real, n: int)
    requires x.Floor == n
    ensures n as real <= x < n as real + 1.0
  {
  }

  /** The cents of the normalisation on the scale of 5, from the cents and the drift of the raw value. */
  lemma FifthCents(c: int, drift: real)
    requires -0.5 <= drift < 0.5
    ensures var (q, m) := (c / 5, c % 5);
      var cents := 4 * q + (if m == 0 then 0 else if m == 1 then 1 else if m == 2 then 2 else if m == 3 then 2 else 3);
      && Cents(Normalized(c as real / 100.0, OUT_OF_5)) == cents
      && (Cents(Normalized((c as real + drift) / 100.0, OUT_OF_5)) == cents <==>
            (match m
             case 1 => drift >= -0.375
             case 2 => drift >= -0.125
             case 3 => drift < 0.125
             case 4 => drift < 0.375
             case _ => true))
  {
    var q, m := c / 5, c % 5;
    var x := (c as real + drift) * 0.8 + 0.5;
    assert Normalized((c as real + drift) / 100.0, OUT_OF_5) * 100.0 + 0.5 == x;
    assert Normalized(c as real / 100.0, OUT_OF_5) * 100.0 + 0.5 == c as real * 0.8 + 0.5;
    assert c as real * 0.8 == 4.0 * q as real + 0.8 * m as real;
    var cents := 4 * q + (if m == 0 then 0 else if m == 1 then 1 else if m == 2 then 2 else if m == 3 then 2 else 3);
    FloorIs(c as real * 0.8 + 0.5, cents);
    if x.Floor == cents {
      FloorBounds(x, cents);
    } else if cents as real <= x < cents as real + 1.0 {
      FloorIs(x, cents);
    }
  }

  /** On the scale of 100 the drift of the raw value never reaches the cents of the normalisation. */
  lemma HundredthCents(c: int, drift: real)
    requires -0.5 <= drift < 0.5
    ensures Cents(Normalized((c as real + drift) / 100.0, OUT_OF_100))
         == Cents(Normalized(c as real / 100.0, OUT_OF_100))
  {
    var q, m := c / 25, c % 25;
    var cents := if m <= 12 then q else q + 1;
    assert Normalized((c as real + drift) / 100.0, OUT_OF_100) * 100.0 + 0.5 == (c as real + drift) * 0.04 + 0.5;
    assert Normalized(c as real / 100.0, OUT_OF_100) * 100.0 + 0.5 == c as real * 0.04 + 0.5;
    assert c as real * 0.04 == q as real + 0.04 * m as real;
    FloorIs((c as real + drift) * 0.04 + 0.5, cents);
    FloorIs(c as real * 0.04 + 0.5, cents);
  }

  /** Normalising the rounded GPA gives the stored value exactly when the raw GPA rounds safely. */
  lemma NormalizationExact(raw: real, scale: Scale)
    requires raw >= 0.0
    ensures Column(Some(Normalized(raw, scale))) == Column(Some(Normalized(Column(Some(raw)).value, scale)))
       <==> RoundsSafely(raw, scale)
  {
    var c := Cents(raw);
    var drift := raw * 100.0 - c as real;
    FloorBounds(raw * 100.0 + 0.5, c);
    assert raw == (c as real + drift) / 100.0;
    match scale {
      case OUT_OF_4 =>
        assert (c as real / 100.0) * 100.0 + 0.5 == c as real + 0.5;
        FloorIs(c as real + 0.5, c);
      case OUT_OF_5 => FifthCents(c, drift);
      case OUT_OF_100 => HundredthCents(c, drift);
    }
  }

  /** A value with two decimals rounds safely on every scale. */
  lemma CentsRoundSafely(raw: real, scale: Scale)
    requires InCents(raw)
    ensures RoundsSafely(raw, scale)
  {
    assert raw * 100.0 == Cents(raw) as real;
  }

  /** A new record is exactly normalised if and only if its GPA rounds safely. */
  lemma CreatedExactly(dto: CreateDto)
    requires dto.gpaRaw.Some? ==> dto.gpaScale.Some?
    ensures NormalizedExactly(NewEducation(dto))
       <==> (dto.gpaRaw.Some? ==> RoundsSafely(dto.gpaRaw.value, dto.gpaScale.value))
  {
    if dto.gpaRaw.Some? {
      NormalizationExact(dto.gpaRaw.value, dto.gpaScale.value);
    }
  }

  /** A patched record is exactly normalised, unless the patch sets a GPA that does not round safely. */
  lemma PatchedExactly(e: Education, dto: PatchDto)
    requires RecordOk(e)
    requires MergedRaw(e, dto).Some? ==> dto.gpaScale.Over(e.gpaScale).Some?
    ensures NormalizedExactly(PatchedEducation(e, dto))
       <==> (dto.gpaRaw.Set? ==> RoundsSafely(dto.gpaRaw.value, dto.gpaScale.Over(e.gpaScale).value))
  {
    if dto.gpaRaw.Set? {
      NormalizationExact(dto.gpaRaw.value, dto.gpaScale.Over(e.gpaScale).value);
    }
  }

  /** The stored normalisation can drift: 3.456 of 5 is stored as 3.46, with 2.76 and not 2.77. */
  lemma NormalizationCanDrift()
    ensures Column(Some(3.456)) == Some(3.46)
    ensures Column(NormalizedGpa(Some(3.456), Some(OUT_OF_5))) == Some(2.76)
    ensures Column(NormalizedGpa(Some(3.46), Some(OUT_OF_5))) == Some(2.77)
    ensures !RoundsSafely(3.456, OUT_OF_5)
  {
  }
}
