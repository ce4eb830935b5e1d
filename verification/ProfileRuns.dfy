/** What every sequence of changes to a profile keeps. */
module ProfileRuns {
  import opened Basics
  import opened Profile
  import opened Educations

  datatype Op =
    | UpdateProfileOp(dto: UpdateDto)
    | AddTargetOp(target: Target, id: Id)
    | RemoveTargetOp(target: Target, id: Id)
    | CreateEducationOp(id: Id, create: CreateDto)
    | UpdateEducationOp(id: Id, patch: PatchDto)
    | RemoveEducationOp(id: Id)

  /** A new row never gets the id of an existing one. */
  predicate Enabled(p: Profile, op: Op) {
    op.CreateEducationOp? ==> op.id !in p.educations
  }

  function Step(ref: Reference, s: Settings, p: Profile, op: Op): (Profile, Reply)
    requires Enabled(p, op)
  {
    match op
    case UpdateProfileOp(dto) => UpdateProfile(ref, s, p, dto)
    case AddTargetOp(t, id) => AddTarget(ref, s, p, t, id)
    case RemoveTargetOp(t, id) => RemoveTarget(s, p, t, id)
    case CreateEducationOp(id, dto) => CreateEducation(ref, s, p, id, dto)
    case UpdateEducationOp(id, dto) => UpdateEducation(ref, s, p, id, dto)
    case RemoveEducationOp(id) => RemoveEducation(s, p, id)
  }

  /** The checks an operation makes before it writes. */
  function CheckError(ref: Reference, s: Settings, p: Profile, op: Op): Option<Error> {
    match op
    case UpdateProfileOp(dto) => UpdateError(ref, s, p.fields, dto)
    case AddTargetOp(t, id) => AddTargetError(ref, s, p, t, id)
    case RemoveTargetOp(t, id) => RemoveTargetError(p, t, id)
    case CreateEducationOp(id, dto) => CreateError(ref, s, p, dto)
    case UpdateEducationOp(id, dto) =>
      if id !in p.educations then Some(EducationNotFound) else PatchError(ref, p.educations, id, dto)
    case RemoveEducationOp(id) => if id !in p.educations then Some(EducationNotFound) else None
  }

  /** The rows an operation writes when its checks pass, before the recalculation. */
  function Written(ref: Reference, p: Profile, op: Op): Profile {
    match op
    case UpdateProfileOp(dto) => p.(fields := UpdatedFields(ref, p.fields, dto))
    case AddTargetOp(t, id) => WithTarget(p, t, id)
    case RemoveTargetOp(t, id) => WithoutTarget(p, t, id)
    case CreateEducationOp(id, dto) => p.(educations := p.educations[id := NewEducation(dto)])
    case UpdateEducationOp(id, dto) =>
      if id !in p.educations then p
      else p.(educations := p.educations[id := PatchedEducation(p.educations[id], dto)])
    case RemoveEducationOp(id) => p.(educations := p.educations - {id})
  }

  /** Every operation checks, then writes, then recalculates. */
  lemma StepInParts(ref: Reference, s: Settings, p: Profile, op: Op)
    requires Enabled(p, op)
    ensures Step(ref, s, p, op) ==
      var error := CheckError(ref, s, p, op);
      if error.Some? then (p, Err(error.value)) else Recalculated(Written(ref, p, op), s)
  {
  }

  ghost predicate SameDerived(p: Profile, q: Profile) {
    p.completionPct == q.completionPct && p.isMatchable == q.isMatchable && p.matchingVersion == q.matchingVersion
  }

  lemma WrittenKeepsDerived(ref: Reference, p: Profile, op: Op)
    ensures SameDerived(Written(ref, p, op), p)
  {
  }

  lemma RecalculationRefreshes(s: Settings, q: Profile)
    ensures var (r, reply) := Recalculated(q, s);
      && (reply.Ok? <==> s.weights.Total() == 100.0)
      && (reply.Ok? ==> Fresh(r, s) && r.matchingVersion == q.matchingVersion + 1)
      && (reply.Err? ==> r == q)
  {
    assert FilledIn(Recalculated(q, s).0) == FilledIn(q);
  }

  /**
   After every successful mutation the stored percentage and match flag equal a fresh
   recomputation and the version has grown by exactly one.  A failing one leaves the derived
   fields alone.
   */
  lemma MutationRefreshes(ref: Reference, s: Settings, p: Profile, op: Op)
    requires Enabled(p, op)
    ensures var (p', reply) := Step(ref, s, p, op);
      && (reply.Ok? ==> Fresh(p', s) && p'.matchingVersion == p.matchingVersion + 1)
      && (reply.Err? ==> SameDerived(p', p))
  {
    StepInParts(ref, s, p, op);
    WrittenKeepsDerived(ref, p, op);
    RecalculationRefreshes(s, Written(ref, p, op));
  }

  /**
   A failed mutation changes the profile exactly when its own checks pass, the weights do not
   total 100, and the rows it writes differ from the old ones.
   */
  lemma FailedMutationWritesExact(ref: Reference, s: Settings, p: Profile, op: Op)
    requires Enabled(p, op) && Step(ref, s, p, op).1.Err?
    ensures Step(ref, s, p, op).0 != p
       <==> s.weights.Total() != 100.0 && CheckError(ref, s, p, op).None? && Written(ref, p, op) != p
  {
    StepInParts(ref, s, p, op);
    RecalculationRefreshes(s, Written(ref, p, op));
  }

  /** When the weights total 100, every failed mutation leaves the whole profile as it was. */
  lemma FailuresAreAtomic(ref: Reference, s: Settings, p: Profile, op: Op)
    requires Enabled(p, op) && s.weights.Total() == 100.0 && Step(ref, s, p, op).1.Err?
    ensures Step(ref, s, p, op).0 == p
  {
    FailedMutationWritesExact(ref, s, p, op);
  }

  /** Creations and removals that pass their checks always change a row, an addition exactly when the target is new. */
  lemma WrittenDiffers(ref: Reference, s: Settings, p: Profile, op: Op)
    requires Enabled(p, op) && CheckError(ref, s, p, op).None?
    ensures op.RemoveTargetOp? || op.CreateEducationOp? || op.RemoveEducationOp? ==> Written(ref, p, op) != p
    ensures op.AddTargetOp? ==> (Written(ref, p, op) != p <==> op.id !in Targets(p, op.target))
  {
    var q := Written(ref, p, op);
    match op {
      case AddTargetOp(t, id) =>
        assert Targets(q, t) == Targets(p, t) + {id};
        if id in Targets(p, t) {
          assert Targets(p, t) + {id} == Targets(p, t);
          assert q.targets == p.targets;
        }
      case RemoveTargetOp(t, id) => assert id !in Targets(q, t);
      case CreateEducationOp(id, _) => assert id in q.educations;
      case RemoveEducationOp(id) => assert id !in q.educations;
      case _ =>
    }
  }

  /** With weights that do not total 100, removing a target fails and yet removes it. */
  lemma RefusedWeightsStillRemove(ref: Reference, s: Settings, p: Profile, t: Target, id: Id)
    requires s.weights.Total() != 100.0 && id in Targets(p, t)
    ensures var (p', reply) := Step(ref, s, p, RemoveTargetOp(t, id));
      reply == Err(WeightsNotTotal100) && p' != p && id !in Targets(p', t)
  {
    assert id !in Targets(WithoutTarget(p, t, id), t);
  }

  /** A call with the settings in force at its moment. */
  datatype Event = Event(op: Op, settings: Settings)

  const NEW_PROFILE :=
    Profile(Fields(None, None, None, None, None, None, None, None, None, None, 0), map[], 0, 0, 0, map[], 0, false, 1)

  /** A run from a new profile. */
  datatype Run = Run(ref: Reference, states: seq<Profile>, events: seq<Event>)
  {
    ghost predicate Valid() {
      && |states| == |events| + 1
      && states[0] == NEW_PROFILE
      && forall i | 0 <= i < |events| ::
           Enabled(states[i], events[i].op) && states[i + 1] == Step(ref, events[i].settings, states[i], events[i].op).0
    }

    /** The limit on education records never exceeds this number during the run. */
    predicate LimitedTo(max: nat) {
      forall i | 0 <= i < |events| :: events[i].settings.maxEducations <= max
    }

    /** Nor does the cap on one kind of targets. */
    predicate CappedAt(t: Target, cap: nat) {
      forall i | 0 <= i < |events| :: events[i].settings.MaxTargets(t) <= cap
    }

    /** Every GPA that is set rounds safely on the scale it is stored with. */
    predicate SafeGpas() {
      |states| == |events| + 1 && forall i | 0 <= i < |events| :: SafeGpa(states[i], events[i].op)
    }
  }

  predicate SafeGpa(p: Profile, op: Op) {
    match op
    case CreateEducationOp(_, dto) =>
      dto.gpaRaw.Some? && dto.gpaScale.Some? ==> RoundsSafely(dto.gpaRaw.value, dto.gpaScale.value)
    case UpdateEducationOp(id, dto) =>
      id in p.educations && dto.gpaRaw.Set? && dto.gpaScale.Over(p.educations[id].gpaScale).Some? ==>
        RoundsSafely(dto.gpaRaw.value, dto.gpaScale.Over(p.educations[id].gpaScale).value)
    case _ => true
  }

  predicate ChangesEducations(op: Op) {
    op.CreateEducationOp? || op.UpdateEducationOp? || op.RemoveEducationOp?
  }

  lemma WrittenFrames(ref: Reference, p: Profile, op: Op)
    ensures var q := Written(ref, p, op);
      && (!ChangesEducations(op) ==> q.educations == p.educations)
      && (!op.UpdateProfileOp? ==> q.fields == p.fields)
      && (!op.AddTargetOp? && !op.RemoveTargetOp? ==> q.targets == p.targets)
  {
  }

  /** The outcome of a step has the rows of some profile that is the old one or the written one. */
  lemma StepRows(ref: Reference, s: Settings, p: Profile, op: Op) returns (q: Profile)
    requires Enabled(p, op)
    ensures q == p || q == Written(ref, p, op)
    ensures var r := Step(ref, s, p, op).0;
      r.fields == q.fields && r.educations == q.educations && r.targets == q.targets
  {
    StepInParts(ref, s, p, op);
    q := if CheckError(ref, s, p, op).Some? then p else Written(ref, p, op);
  }

  /** Each row is changed by its own operations only. */
  lemma StepFrames(ref: Reference, s: Settings, p: Profile, op: Op)
    requires Enabled(p, op)
    ensures !ChangesEducations(op) ==> Step(ref, s, p, op).0.educations == p.educations
    ensures !op.UpdateProfileOp? ==> Step(ref, s, p, op).0.fields == p.fields
    ensures !op.AddTargetOp? && !op.RemoveTargetOp? ==> Step(ref, s, p, op).0.targets == p.targets
  {
    var q := StepRows(ref, s, p, op);
    WrittenFrames(ref, p, op);
  }

  lemma RemoveKeepsRecords(s: Settings, p: Profile, id: Id)
    requires RecordsOk(p.educations)
    ensures var p' := RemoveEducation(s, p, id).0;
      RecordsOk(p'.educations) && |p'.educations| <= |p.educations|
  {
    var es := RemoveEducation(s, p, id).0.educations;
    assert es == p.educations || es == p.educations - {id};
    SubmapSize(es, p.educations);
  }

  lemma SubmapSize(es: map<Id, Education>, all: map<Id, Education>)
    requires es.Keys <= all.Keys
    ensures |es| <= |all|
  {
    var rest := all.Keys - es.Keys;
    assert |es.Keys + rest| == |es.Keys| + |rest|;
    assert es.Keys + rest == all.Keys;
    assert |es| == |es.Keys| && |all| == |all.Keys|;
  }

  lemma StepKeepsRecords(ref: Reference, s: Settings, p: Profile, op: Op)
    requires Enabled(p, op) && RecordsOk(p.educations)
    ensures var es := Step(ref, s, p, op).0.educations;
      RecordsOk(es) && (|es| <= |p.educations| || |es| <= s.maxEducations)
  {
    match op {
      case CreateEducationOp(id, dto) => CreateKeepsRecords(ref, s, p, id, dto);
      case UpdateEducationOp(id, dto) =>
        UpdateKeepsRecords(ref, s, p, id, dto);
        SubmapSize(UpdateEducation(ref, s, p, id, dto).0.educations, p.educations);
      case RemoveEducationOp(id) => RemoveKeepsRecords(s, p, id);
      case _ => StepFrames(ref, s, p, op);
    }
  }

  /** In every reachable state the records are distinct and each satisfies its invariants. */
  lemma {:induction false} RecordsStayOk(run: Run, n: nat)
    requires run.Valid() && n < |run.states|
    ensures RecordsOk(run.states[n].educations)
  {
    if n > 0 {
      RecordsStayOk(run, n - 1);
      var e := run.events[n - 1];
      StepKeepsRecords(run.ref, e.settings, run.states[n - 1], e.op);
    }
  }

  /** In every reachable state a profile has at most as many records as the largest limit that was in force. */
  lemma {:induction false} RecordsStayLimited(run: Run, n: nat, max: nat)
    requires run.Valid() && n < |run.states| && run.LimitedTo(max)
    ensures |run.states[n].educations| <= max
  {
    if n > 0 {
      RecordsStayLimited(run, n - 1, max);
      RecordsStayOk(run, n - 1);
      var e := run.events[n - 1];
      StepKeepsRecords(run.ref, e.settings, run.states[n - 1], e.op);
    }
  }

  lemma StepKeepsCap(ref: Reference, s: Settings, p: Profile, op: Op, t: Target)
    requires Enabled(p, op)
    ensures var ts := Targets(Step(ref, s, p, op).0, t);
      |ts| <= |Targets(p, t)| || |ts| <= s.MaxTargets(t)
  {
    match op {
      case AddTargetOp(k, id) => TargetsStayCapped(ref, s, p, k, id);
      case RemoveTargetOp(k, id) => RemovalShrinks(s, p, k, id, t);
      case _ => StepFrames(ref, s, p, op);
    }
  }

  lemma StepOfRunKeepsCap(run: Run, i: nat, t: Target, cap: nat)
    requires run.Valid() && i < |run.events| && run.CappedAt(t, cap) && |Targets(run.states[i], t)| <= cap
    ensures |Targets(run.states[i + 1], t)| <= cap
  {
    var e := run.events[i];
    StepKeepsCap(run.ref, e.settings, run.states[i], e.op, t);
  }

  /** In every reachable state each kind of targets stays within the largest cap that was in force. */
  lemma {:induction false} TargetsAlwaysCapped(run: Run, n: nat, t: Target, cap: nat)
    requires run.Valid() && n < |run.states| && run.CappedAt(t, cap)
    ensures |Targets(run.states[n], t)| <= cap
  {
    if n > 0 {
      TargetsAlwaysCapped(run, n - 1, t, cap);
      StepOfRunKeepsCap(run, n - 1, t, cap);
    }
  }

  lemma StepKeepsCity(ref: Reference, s: Settings, p: Profile, op: Op)
    requires Enabled(p, op) && CityInCountry(ref, p.fields)
    ensures CityInCountry(ref, Step(ref, s, p, op).0.fields)
  {
    if op.UpdateProfileOp? {
      UpdateKeepsCity(ref, s, p, op.dto);
    } else {
      StepFrames(ref, s, p, op);
    }
  }

  /** In every reachable state a stored city lies in the stored country of residence. */
  lemma {:induction false} CityStaysInCountry(run: Run, n: nat)
    requires run.Valid() && n < |run.states|
    ensures CityInCountry(run.ref, run.states[n].fields)
  {
    if n > 0 {
      CityStaysInCountry(run, n - 1);
      var e := run.events[n - 1];
      StepKeepsCity(run.ref, e.settings, run.states[n - 1], e.op);
    }
  }

  ghost predicate AllExact(es: map<Id, Education>) {
    forall k | k in es :: NormalizedExactly(es[k])
  }

  lemma CreateKeepsExact(ref: Reference, s: Settings, p: Profile, id: Id, dto: CreateDto)
    requires id !in p.educations && AllExact(p.educations) && SafeGpa(p, CreateEducationOp(id, dto))
    ensures AllExact(CreateEducation(ref, s, p, id, dto).0.educations)
  {
    if CreateError(ref, s, p, dto).None? {
      CreatedExactly(dto);
    }
  }

  lemma PatchKeepsExact(ref: Reference, s: Settings, p: Profile, id: Id, dto: PatchDto)
    requires RecordsOk(p.educations) && AllExact(p.educations) && SafeGpa(p, UpdateEducationOp(id, dto))
    ensures AllExact(UpdateEducation(ref, s, p, id, dto).0.educations)
  {
    if id in p.educations && PatchError(ref, p.educations, id, dto).None? {
      PatchedExactly(p.educations[id], dto);
    }
  }

  lemma StepKeepsExact(ref: Reference, s: Settings, p: Profile, op: Op)
    requires Enabled(p, op) && RecordsOk(p.educations) && SafeGpa(p, op) && AllExact(p.educations)
    ensures AllExact(Step(ref, s, p, op).0.educations)
  {
    match op {
      case CreateEducationOp(id, dto) => CreateKeepsExact(ref, s, p, id, dto);
      case UpdateEducationOp(id, dto) => PatchKeepsExact(ref, s, p, id, dto);
      case RemoveEducationOp(id) =>
      case _ => StepFrames(ref, s, p, op);
    }
  }

  /** If every GPA set along the run rounds safely, every stored normalised GPA is that of the stored GPA. */
  lemma {:induction false} GpasStayExact(run: Run, n: nat)
    requires run.Valid() && run.SafeGpas() && n < |run.states|
    ensures AllExact(run.states[n].educations)
  {
    if n > 0 {
      GpasStayExact(run, n - 1);
      RecordsStayOk(run, n - 1);
      var e := run.events[n - 1];
      StepKeepsExact(run.ref, e.settings, run.states[n - 1], e.op);
    }
  }
}
