/**
 The idempotency middleware: a request with an `Idempotency-Key` begins, its handler responds,
 and the response is persisted in the cache, where repetitions of the request find it.

 The cache read and write of a beginning request are one step.
 */
module Idempotency {
  import opened Basics

  type ReqId = nat

  const TTL_MS := 86_400_000

  datatype Method = GET | POST | PATCH | OTHER

  /** `fingerprint` is what the request hash is made from: method, path and body. */
  datatype Request = Request(httpMethod: Method, key: Option<string>, fingerprint: string)

  /** `body` is None when it has no JSON form. */
  datatype Response = Response(status: int, body: Option<string>)

  /** `completed` is None while processing; `owner` is the request whose handler runs or ran. */
  datatype Record = Record(fingerprint: string, owner: ReqId, createdAt: int, completed: Option<Response>)

  datatype Cached = Cached(record: Record, expires: int)

  /** A request whose handler was started, with the record its `res.json` will complete. */
  datatype Running = Running(key: string, record: Record, reply: Option<Response>)

  datatype State = State(cache: map<string, Cached>, running: map<ReqId, Running>, next: ReqId)

  const EMPTY := State(map[], map[], 0)

  /** What the middleware does with a request; `Handle` starts the handler under the key. */
  datatype Decision = PassThrough | InvalidKey | Conflict | InProgress | Replay(response: Response) | Handle(id: ReqId)

  predicate IsHex(c: char) {
    '0' <= c <= '9' || 'a' <= c <= 'f' || 'A' <= c <= 'F'
  }

  predicate IsUuidV4(s: string) {
    && |s| == 36
    && (forall i | 0 <= i < 36 :: if i in {8, 13, 18, 23} then s[i] == '-' else IsHex(s[i]))
    && s[14] == '4' && s[19] in "89abAB"
  }

  predicate Live(s: State, key: string, now: int) {
    key in s.cache && now < s.cache[key].expires
  }

  /** Requests that come under the protocol. */
  predicate Keyed(req: Request) {
    (req.httpMethod.POST? || req.httpMethod.PATCH?) && req.key.Some? && req.key.value != "" && IsUuidV4(req.key.value)
  }

  function Decide(s: State, req: Request, now: int): Decision {
    if !(req.httpMethod.POST? || req.httpMethod.PATCH?) || req.key.None? || req.key.value == "" then PassThrough
    else if !IsUuidV4(req.key.value) then InvalidKey
    else if !Live(s, req.key.value, now) then Handle(s.next)
    else
      var record := s.cache[req.key.value].record;
      if record.fingerprint != req.fingerprint then Conflict
      else if record.completed.None? then InProgress
      else if record.completed.value.body.None? then Handle(s.next)
      else Replay(record.completed.value)
  }

  function Begin(s: State, req: Request, now: int): (State, Decision) {
    var decision := Decide(s, req, now);
    if !decision.Handle? then (s, decision)
    else
      var record := Record(req.fingerprint, s.next, now, None);
      (State(s.cache[req.key.value := Cached(record, now + TTL_MS)],
             s.running[s.next := Running(req.key.value, record, None)],
             s.next + 1),
       decision)
  }

  /** The handler sends its response, once. */
  function Respond(s: State, id: ReqId, response: Response): State {
    if id in s.running && s.running[id].reply.None? then
      s.(running := s.running[id := s.running[id].(reply := Some(response))])
    else s
  }

  /** The completed record reaches the cache, once. */
  function Persist(s: State, id: ReqId, now: int): State {
    if id in s.running && s.running[id].reply.Some? then
      var r := s.running[id];
      s.(cache := s.cache[r.key := Cached(r.record.(completed := r.reply), now + TTL_MS)],
         running := s.running - {id})
    else s
  }

  /** The middleware object: the cache, and the closures it has put in place of `res.json`. */
  class Middleware {
    var cache: map<string, Cached>
    var running: map<ReqId, Running>
    var next: ReqId

    ghost function View(): State
      reads this
    {
      State(cache, running, next)
    }

    constructor ()
      ensures View() == EMPTY
    {
      cache, running, next := map[], map[], 0;
    }

    method Use(req: Request, now: int) returns (decision: Decision)
      modifies this
      ensures (View(), decision) == Begin(old(View()), req, now)
    {
      if !req.httpMethod.POST? && !req.httpMethod.PATCH? {
        return PassThrough;
      }
      if req.key.None? || req.key.value == "" {
        return PassThrough;
      }
      var key := req.key.value;
      if !IsUuidV4(key) {
        return InvalidKey;
      }
      if key in cache && now < cache[key].expires {
        var existing := cache[key].record;
        if existing.fingerprint != req.fingerprint {
          return Conflict;
        }
        if existing.completed.None? {
          return InProgress;
        }
        if existing.completed.value.body.Some? {
          return Replay(existing.completed.value);
        }
      }
      var processing := Record(req.fingerprint, next, now, None);
      cache := cache[key := Cached(processing, now + TTL_MS)];
      running := running[next := Running(key, processing, None)];
      decision := Handle(next);
      next := next + 1;
    }

    method Json(id: ReqId, response: Response)
      modifies this
      ensures View() == Respond(old(View()), id, response)
    {
      if id in running && running[id].reply.None? {
        running := running[id := running[id].(reply := Some(response))];
      }
    }

    method Persisted(id: ReqId, now: int)
      modifies this
      ensures View() == Persist(old(View()), id, now)
    {
      if id in running && running[id].reply.Some? {
        var r := running[id];
        cache := cache[r.key := Cached(r.record.(completed := r.reply), now + TTL_MS)];
        running := running - {id};
      }
    }
  }

  // ----- Runs

  datatype Op =
    | BeginOp(req: Request)
    | RespondOp(id: ReqId, response: Response)
    | PersistOp(id: ReqId)

  function Step(s: State, op: Op, now: int): State {
    match op
    case BeginOp(req) => Begin(s, req, now).0
    case RespondOp(id, response) => Respond(s, id, response)
    case PersistOp(id) => Persist(s, id, now)
  }

  datatype Event = Event(op: Op, now: int)

  /** Any interleaving of requests; `states[i]` is the state before `events[i]`. */
  datatype Run = Run(states: seq<State>, events: seq<Event>)
  {
    ghost predicate Valid() {
      && |states| == |events| + 1
      && states[0] == EMPTY
      && (forall i | 0 <= i < |events| :: states[i + 1] == Step(states[i], events[i].op, events[i].now))
      && (forall i, j | 0 <= i < j < |events| :: events[i].now <= events[j].now)
    }

    /** Event i is a request with this key. */
    predicate Asks(i: nat, key: string) {
      i < |events| && events[i].op.BeginOp? && Keyed(events[i].op.req) && events[i].op.req.key == Some(key)
    }

    function DecisionAt(i: nat): Decision
      requires i < |events| && |states| == |events| + 1 && events[i].op.BeginOp?
    {
      Decide(states[i], events[i].op.req, events[i].now)
    }

    /** Event i starts the handler under this key, as request `states[i].next`. */
    predicate Handles(i: nat, key: string) {
      |states| == |events| + 1 && Asks(i, key) && DecisionAt(i).Handle?
    }

    /** Event i is the response of request `id`. */
    predicate Responds(i: nat, id: ReqId, response: Response) {
      && i < |events| && |states| == |events| + 1
      && events[i].op == RespondOp(id, response)
      && id in states[i].running && states[i].running[id].reply.None?
    }

    /** Every response to a request begun under the key has a JSON body. */
    predicate JsonBodies(key: string) {
      && |states| == |events| + 1
      && forall i | 0 <= i < |events| && events[i].op.RespondOp? ::
           var (s, id) := (states[i], events[i].op.id);
           id in s.running && s.running[id].key == key ==> events[i].op.response.body.Some?
    }

    /** Every such response is persisted less than 24 h after its request began. */
    predicate Prompt(key: string) {
      && |states| == |events| + 1
      && forall i | 0 <= i < |events| && events[i].op.PersistOp? ::
           var (s, id) := (states[i], events[i].op.id);
           id in s.running && s.running[id].key == key && s.running[id].reply.Some? ==>
             events[i].now < s.running[id].record.createdAt + TTL_MS
    }
  }

  // ----- One call

  ghost predicate AllHex(s: string) {
    forall i | 0 <= i < |s| ::
      var code := s[i] as int; 48 <= code <= 57 || 65 <= code <= 70 || 97 <= code <= 102
  }

  /** A UUID of version 4: 8, 4, 4, 4 and 12 hexadecimal digits; the third group begins with 4, the next with 8 to b. */
  lemma UuidExact(s: string)
    ensures IsUuidV4(s) <==>
      && |s| == 36
      && AllHex(s[..8]) && s[8] == '-' && AllHex(s[9..13]) && s[13..15] == "-4" && AllHex(s[15..18])
      && s[18] == '-' && s[19] in "89abAB" && AllHex(s[20..23]) && s[23] == '-' && AllHex(s[24..])
  {
    if |s| == 36 {
      HexGroup(s, 0, 8);
      HexGroup(s, 9, 13);
      HexGroup(s, 15, 18);
      HexGroup(s, 20, 23);
      HexGroup(s, 24, 36);
    }
  }

  lemma HexGroup(s: string, i: nat, j: nat)
    requires i <= j <= |s|
    ensures AllHex(s[i..j]) <==> forall k | i <= k < j :: IsHex(s[k])
  {
    if AllHex(s[i..j]) {
      forall k | i <= k < j ensures IsHex(s[k]) {
        assert s[k] == s[i..j][k - i];
      }
    }
  }

  /** A request that is under the protocol, and the unexpired record of its key. */
  ghost predicate UnderProtocol(req: Request) {
    (req.httpMethod == POST || req.httpMethod == PATCH) && req.key.Some? && IsUuidV4(req.key.value)
  }

  ghost predicate Recorded(s: State, key: string, now: int) {
    key in s.cache && now < s.cache[key].expires
  }

  /** Every decision, by the method, the key, and the unexpired record of the key. */
  lemma DecideExact(s: State, req: Request, now: int)
    ensures var d := Decide(s, req, now);
      var plain := (req.httpMethod != POST && req.httpMethod != PATCH) || req.key == None || req.key == Some("");
      && (d == PassThrough <==> plain)
      && (d == InvalidKey <==> !plain && !IsUuidV4(req.key.value))
      && (UnderProtocol(req) && !Recorded(s, req.key.value, now) ==> d == Handle(s.next))
      && (UnderProtocol(req) && Recorded(s, req.key.value, now) ==>
            var r := s.cache[req.key.value].record;
            && (d == Conflict <==> r.fingerprint != req.fingerprint)
            && (r.fingerprint == req.fingerprint ==>
                  && (d == InProgress <==> r.completed == None)
                  && (d == Handle(s.next) <==> r.completed.Some? && r.completed.value.body == None)
                  && (r.completed.Some? && r.completed.value.body != None ==> d == Replay(r.completed.value))))
  {
  }

  /** A begin records the request for 24 h and starts it under the next id; other decisions change nothing. */
  lemma BeginExact(s: State, req: Request, now: int)
    ensures var (s', d) := Begin(s, req, now);
      && d == Decide(s, req, now)
      && (!d.Handle? ==> s' == s)
      && (d.Handle? ==>
            var record := Record(req.fingerprint, s.next, now, None);
            && s'.next == s.next + 1
            && s'.cache == s.cache[req.key.value := Cached(record, now + 24 * 60 * 60 * 1000)]
            && s'.running == s.running[s.next := Running(req.key.value, record, None)])
  {
  }

  /** A running request keeps its first response; persisting it completes its record for 24 h and ends the request. */
  lemma RespondAndPersistExact(s: State, id: ReqId, response: Response, now: int)
    ensures
      var running := id in s.running;
      var answered := running && s.running[id].reply.Some?;
      && Respond(s, id, response) ==
         (if running && !answered then s.(running := s.running[id := s.running[id].(reply := Some(response))]) else s)
      && Persist(s, id, now) ==
         (if !answered then s
          else
            var r := s.running[id];
            State(s.cache[r.key := Cached(r.record.(completed := r.reply), now + 24 * 60 * 60 * 1000)],
                  s.running - {id}, s.next))
  {
  }

  // ----- The handler runs once

  /** Cache entries outlive everything written before: their expiry only moves forward. */
  lemma {:induction false} ExpiryGrows(run: Run, m: nat, n: nat, key: string)
    requires run.Valid() && m < n < |run.states| && run.Handles(m, key)
    ensures key in run.states[n].cache
    ensures run.events[m].now + TTL_MS <= run.states[n].cache[key].expires <= run.events[n - 1].now + TTL_MS
    decreases n
  {
    if m + 1 < n {
      ExpiryGrows(run, m, n - 1, key);
    }
  }

  /**
   Within 24 h of a begin, a second begin under the same key starts the handler only if the
   response kept so far has no JSON body, and then only for the same request.
   */
  lemma RerunExact(run: Run, m: nat, n: nat, key: string)
    requires run.Valid() && m < n < |run.events| && run.Handles(m, key) && run.Asks(n, key)
    requires run.events[n].now < run.events[m].now + TTL_MS
    ensures Live(run.states[n], key, run.events[n].now)
    ensures var record := run.states[n].cache[key].record;
      run.Handles(n, key) <==>
        && record.fingerprint == run.events[n].op.req.fingerprint
        && record.completed.Some? && record.completed.value.body.None?
  {
    ExpiryGrows(run, m, n, key);
  }

  /** With JSON bodies under the key, no response to its requests lacks a body. */
  lemma {:induction false} BodiesPresent(run: Run, n: nat, key: string)
    requires run.Valid() && run.JsonBodies(key) && n < |run.states|
    ensures var s := run.states[n];
      && (forall id | id in s.running && s.running[id].key == key && s.running[id].reply.Some? ::
            s.running[id].reply.value.body.Some?)
      && (key in s.cache && s.cache[key].record.completed.Some? ==>
            s.cache[key].record.completed.value.body.Some?)
  {
    if n > 0 {
      BodiesPresent(run, n - 1, key);
      var (s, e) := (run.states[n - 1], run.events[n - 1]);
      if e.op.RespondOp? && e.op.id in s.running && s.running[e.op.id].key == key {
        assert e.op.response.body.Some?;
      }
    }
  }

  /** With JSON bodies, the handler runs at most once per key within 24 h of a begin, whatever the interleaving. */
  lemma HandledOnce(run: Run, m: nat, n: nat, key: string)
    requires run.Valid() && run.JsonBodies(key) && m < n < |run.events|
    requires run.Handles(m, key) && run.Handles(n, key)
    ensures run.events[m].now + TTL_MS <= run.events[n].now
  {
    if run.events[n].now < run.events[m].now + TTL_MS {
      RerunExact(run, m, n, key);
      BodiesPresent(run, n, key);
    }
  }

  // ----- Where records come from

  /** Request `id` began at event m under this key, as this record says. */
  ghost predicate BeganAs(run: Run, m: nat, key: string, record: Record)
    requires run.Valid()
  {
    && run.Handles(m, key) && record.owner == run.states[m].next
    && record.fingerprint == run.events[m].op.req.fingerprint && record.createdAt == run.events[m].now
  }

  /** A record is the begin of some request, and its response is one the handler of that request gave. */
  ghost predicate Genuine(run: Run, n: nat, key: string, record: Record, response: Option<Response>)
    requires run.Valid()
  {
    && (exists m: nat | m < n :: BeganAs(run, m, key, record))
    && (response.Some? ==> exists p: nat | p < n :: run.Responds(p, record.owner, response.value))
  }

  lemma GenuineLater(run: Run, m: nat, n: nat, key: string, record: Record, response: Option<Response>)
    requires run.Valid() && m <= n && Genuine(run, m, key, record, response)
    ensures Genuine(run, n, key, record, response)
  {
  }

  lemma {:induction false} RecordsAreGenuine(run: Run, n: nat)
    requires run.Valid() && n < |run.states|
    ensures var s := run.states[n];
      && (forall id | id in s.running ::
            id < s.next && s.running[id].record.owner == id && s.running[id].record.completed.None? &&
            Genuine(run, n, s.running[id].key, s.running[id].record, s.running[id].reply))
      && (forall key | key in s.cache ::
            Genuine(run, n, key, s.cache[key].record.(completed := None), s.cache[key].record.completed))
  {
    if n > 0 {
      RecordsAreGenuine(run, n - 1);
      var (s, s', e) := (run.states[n - 1], run.states[n], run.events[n - 1]);
      forall id | id in s'.running
        ensures id < s'.next && s'.running[id].record.owner == id && s'.running[id].record.completed.None?
        ensures Genuine(run, n, s'.running[id].key, s'.running[id].record, s'.running[id].reply)
      {
        RunningStaysGenuine(run, n - 1, id);
      }
      forall key | key in s'.cache
        ensures Genuine(run, n, key, s'.cache[key].record.(completed := None), s'.cache[key].record.completed)
      {
        CacheStaysGenuine(run, n - 1, key);
      }
    }
  }

  lemma RunningStaysGenuine(run: Run, n: nat, id: ReqId)
    requires run.Valid() && n < |run.events| && id in run.states[n + 1].running
    requires var s := run.states[n];
      id in s.running ==>
        id < s.next && s.running[id].record.owner == id && s.running[id].record.completed.None? &&
        Genuine(run, n, s.running[id].key, s.running[id].record, s.running[id].reply)
    ensures var s := run.states[n + 1];
      id < s.next && s.running[id].record.owner == id && s.running[id].record.completed.None? &&
      Genuine(run, n + 1, s.running[id].key, s.running[id].record, s.running[id].reply)
  {
    var (s, s', e) := (run.states[n], run.states[n + 1], run.events[n]);
    var r := s'.running[id];
    if id in s.running && s.running[id] == r {
      GenuineLater(run, n, n + 1, r.key, r.record, r.reply);
    } else if e.op.BeginOp? {
      assert BeganAs(run, n, r.key, r.record);
    } else {
      GenuineLater(run, n, n + 1, r.key, r.record, s.running[id].reply);
      assert run.Responds(n, id, r.reply.value);
    }
  }

  lemma CacheStaysGenuine(run: Run, n: nat, key: string)
    requires run.Valid() && n < |run.events| && key in run.states[n + 1].cache
    requires var s := run.states[n];
      && (forall id | id in s.running ::
            s.running[id].record.completed.None? &&
            Genuine(run, n, s.running[id].key, s.running[id].record, s.running[id].reply))
      && (key in s.cache ==>
            Genuine(run, n, key, s.cache[key].record.(completed := None), s.cache[key].record.completed))
    ensures var s := run.states[n + 1];
      Genuine(run, n + 1, key, s.cache[key].record.(completed := None), s.cache[key].record.completed)
  {
    var (s, s', e) := (run.states[n], run.states[n + 1], run.events[n]);
    var record := s'.cache[key].record;
    if key in s.cache && s.cache[key].record == record {
      GenuineLater(run, n, n + 1, key, record.(completed := None), record.completed);
    } else if e.op.BeginOp? {
      assert BeganAs(run, n, key, record);
    } else {
      var r := s.running[e.op.id];
      GenuineLater(run, n, n + 1, key, r.record, r.reply);
      assert record.(completed := None) == r.record;
    }
  }

  /** Every replay gives the status and body that the handler of an earlier, identical request gave. */
  lemma ReplayIsGenuine(run: Run, n: nat, key: string)
    requires run.Valid() && n < |run.events| && run.Asks(n, key) && run.DecisionAt(n).Replay?
    ensures exists m: nat, p: nat | m < n && p < n ::
      && run.Handles(m, key)
      && run.events[m].op.req.fingerprint == run.events[n].op.req.fingerprint
      && run.Responds(p, run.states[m].next, run.DecisionAt(n).response)
  {
    RecordsAreGenuine(run, n);
    var record := run.states[n].cache[key].record;
    var m: nat :| m < n && BeganAs(run, m, key, record.(completed := None));
    var p: nat :| p < n && run.Responds(p, record.owner, record.completed.value);
  }

  /** A response without a JSON body, once persisted, lets the same request run a second time. */
  lemma NoBodyRunsTwice(key: string, now: int, later: int)
    requires IsUuidV4(key) && now <= later < now + TTL_MS
    ensures var (request, response) := (Request(POST, Some(key), "a"), Response(204, None));
      var s1 := Begin(EMPTY, request, now).0;
      var s2 := Persist(Respond(s1, 0, response), 0, later);
      Begin(EMPTY, request, now).1 == Handle(0) && Begin(s2, request, later).1 == Handle(1)
  {
  }

  // ----- Which run is replayed

  /** Event i persists the response of request `id`. */
  ghost predicate Persists(run: Run, i: nat, id: ReqId)
    requires i < |run.events| && |run.states| == |run.events| + 1
  {
    run.events[i].op == PersistOp(id) && id in run.states[i].running && run.states[i].running[id].reply.Some?
  }

  /** Event i persists a response under this key. */
  ghost predicate Writes(run: Run, i: nat, key: string)
    requires i < |run.events| && |run.states| == |run.events| + 1
  {
    && run.events[i].op.PersistOp?
    && Persists(run, i, run.events[i].op.id)
    && run.states[i].running[run.events[i].op.id].key == key
  }

  /** The last response persisted under the key between begin m and event n, if there is one, is that of begin m. */
  ghost predicate LastIsOwn(run: Run, m: nat, n: nat, key: string)
    requires m < n < |run.states| == |run.events| + 1
  {
    forall i | m < i < n && Writes(run, i, key) && Quiet(run, i, n, key) :: run.events[i].op.id == run.states[m].next
  }

  ghost predicate Quiet(run: Run, i: nat, n: nat, key: string)
    requires i < n < |run.states| == |run.events| + 1
  {
    forall j | i < j < n :: !Writes(run, j, key)
  }

  /** Begin m is the latest one under the key before event n. */
  ghost predicate LatestBegin(run: Run, m: nat, n: nat, key: string)
    requires m < n < |run.states| == |run.events| + 1
  {
    run.Handles(m, key) && forall i | m < i < n :: !run.Handles(i, key)
  }

  /** Between a begin and the next one, a record changes only when a response is persisted under its key. */
  lemma StepOwner(run: Run, n: nat, key: string)
    requires run.Valid() && n < |run.events| && !run.Handles(n, key) && key in run.states[n].cache
    ensures key in run.states[n + 1].cache
    ensures var (before, after) := (run.states[n].cache[key].record, run.states[n + 1].cache[key].record);
      if Writes(run, n, key) then after.owner == run.events[n].op.id && after.completed.Some? else after == before
  {
    RecordsAreGenuine(run, n);
  }

  lemma LastIsOwnStep(run: Run, m: nat, n: nat, key: string)
    requires m < n < |run.events| && |run.states| == |run.events| + 1
    ensures LastIsOwn(run, m, n + 1, key)
       <==> if Writes(run, n, key) then run.events[n].op.id == run.states[m].next else LastIsOwn(run, m, n, key)
  {
    if Writes(run, n, key) {
      assert LastIsOwn(run, m, n + 1, key) ==> run.events[n].op.id == run.states[m].next;
    } else {
      assert forall i | m < i < n :: Quiet(run, i, n + 1, key) <==> Quiet(run, i, n, key);
    }
  }

  /**
   In every run, the record of a key belongs to the latest begin under it exactly when no other
   request had the last word.  It is completed exactly when a response was persisted since.
   */
  lemma {:induction false} OwnerExact(run: Run, m: nat, n: nat, key: string)
    requires run.Valid() && m < n < |run.states| && LatestBegin(run, m, n, key)
    ensures key in run.states[n].cache
    ensures run.states[n].cache[key].record.owner == run.states[m].next <==> LastIsOwn(run, m, n, key)
    ensures run.states[n].cache[key].record.completed.Some? <==> exists i | m < i < n :: Writes(run, i, key)
    decreases n
  {
    if m + 1 < n {
      OwnerExact(run, m, n - 1, key);
      StepOwner(run, n - 1, key);
      LastIsOwnStep(run, m, n - 1, key);
    }
  }

  lemma {:induction false} NextGrows(run: Run, m: nat, n: nat)
    requires run.Valid() && m <= n < |run.states|
    ensures run.states[m].next <= run.states[n].next
    decreases n
  {
    if m < n {
      NextGrows(run, m, n - 1);
    }
  }

  /** A request id belongs to one begin. */
  lemma OneBegin(run: Run, m: nat, n: nat, key: string, other: string)
    requires run.Valid() && run.Handles(m, key) && run.Handles(n, other) && run.states[m].next == run.states[n].next
    ensures m == n
  {
    if m < n {
      NextGrows(run, m + 1, n);
    } else if n < m {
      NextGrows(run, n + 1, m);
    }
  }

  /** With JSON bodies a begin is the latest one under its key for 24 h. */
  lemma LatestFor24Hours(run: Run, m: nat, n: nat, key: string)
    requires run.Valid() && run.JsonBodies(key) && m < n < |run.states| && run.Handles(m, key)
    requires run.events[n - 1].now < run.events[m].now + TTL_MS
    ensures LatestBegin(run, m, n, key)
  {
    forall i | m < i < n ensures !run.Handles(i, key) {
      if run.Handles(i, key) {
        HandledOnce(run, m, i, key);
      }
    }
  }

  /**
   Request n is answered from the run that began at k: a different request conflicts, an
   identical one is told to wait or gets exactly a response of that run.
   */
  ghost predicate AnsweredFrom(run: Run, k: nat, n: nat, key: string)
    requires run.Valid() && n < |run.events| && run.Asks(n, key)
  {
    && run.Handles(k, key)
    && if run.events[n].op.req.fingerprint != run.events[k].op.req.fingerprint then run.DecisionAt(n) == Conflict
       else
         || run.DecisionAt(n) == InProgress
         || (run.DecisionAt(n).Replay? &&
             exists p: nat | p < n :: run.Responds(p, run.states[k].next, run.DecisionAt(n).response))
  }

  /** Whoever owns the record, the request is answered from the run of the owner. */
  lemma AnsweredFromOwner(run: Run, m: nat, n: nat, key: string) returns (k: nat)
    requires run.Valid() && run.JsonBodies(key) && m < n < |run.events| && run.Handles(m, key)
    requires run.Asks(n, key) && run.events[n].now < run.events[m].now + TTL_MS
    ensures k < n && run.Handles(k, key) && AnsweredFrom(run, k, n, key)
    ensures key in run.states[n].cache && run.states[n].cache[key].record.owner == run.states[k].next
    ensures run.DecisionAt(n) == InProgress ==> run.states[n].cache[key].record.completed.None?
    ensures run.DecisionAt(n).Replay? ==> run.states[n].cache[key].record.completed.Some?
  {
    ExpiryGrows(run, m, n, key);
    BodiesPresent(run, n, key);
    RecordsAreGenuine(run, n);
    var record := run.states[n].cache[key].record;
    k :| k < n && BeganAs(run, k, key, record.(completed := None));
  }

  /**
   With JSON bodies, every request within 24 h of a begin under its key is answered from one run.
   That is the run of this begin if no other request had the last word; then the request is told
   to wait exactly while nothing is persisted.  Otherwise it is a finished earlier run.
   */
  lemma AnsweredFromOneRun(run: Run, m: nat, n: nat, key: string)
    requires run.Valid() && run.JsonBodies(key) && m < n < |run.events| && run.Handles(m, key)
    requires run.Asks(n, key) && run.events[n].now < run.events[m].now + TTL_MS
    ensures LastIsOwn(run, m, n, key) ==>
      && AnsweredFrom(run, m, n, key)
      && (run.DecisionAt(n) == InProgress <==>
            && run.events[n].op.req.fingerprint == run.events[m].op.req.fingerprint
            && !(exists i | m < i < n :: Writes(run, i, key)))
    ensures !LastIsOwn(run, m, n, key) ==>
      run.DecisionAt(n) != InProgress && exists k: nat | k < m :: AnsweredFrom(run, k, n, key)
  {
    LatestFor24Hours(run, m, n, key);
    OwnerExact(run, m, n, key);
    var k := AnsweredFromOwner(run, m, n, key);
    ExpiryGrows(run, m, n, key);
    if LastIsOwn(run, m, n, key) {
      OneBegin(run, m, k, key, key);
    } else if m < k {
      HandledOnce(run, m, k, key);
    }
  }

  /** A request that was begun under a key persists its response under that key. */
  lemma OwnPersistWrites(run: Run, m: nat, p: nat, key: string)
    requires run.Valid() && m < p < |run.events| && run.Handles(m, key) && Persists(run, p, run.states[m].next)
    ensures Writes(run, p, key)
  {
    RecordsAreGenuine(run, p);
    var r := run.states[p].running[run.states[m].next];
    var k: nat :| k < p && BeganAs(run, k, r.key, r.record);
    OneBegin(run, m, k, key, r.key);
  }

  /**
   Once the response of a run is persisted, an identical request within 24 h of its begin gets
   it, unless another request had the last word.
   */
  lemma ReplayedOncePersisted(run: Run, m: nat, p: nat, n: nat, key: string)
    requires run.Valid() && run.JsonBodies(key) && m < p < n < |run.events| && LastIsOwn(run, m, n, key)
    requires run.Handles(m, key) && Persists(run, p, run.states[m].next)
    requires run.Asks(n, key) && run.events[n].now < run.events[m].now + TTL_MS
    requires run.events[n].op.req.fingerprint == run.events[m].op.req.fingerprint
    ensures run.DecisionAt(n).Replay?
    ensures exists q: nat | q < n :: run.Responds(q, run.states[m].next, run.DecisionAt(n).response)
  {
    OwnPersistWrites(run, m, p, key);
    AnsweredFromOneRun(run, m, n, key);
  }

  /** If responses under the key are persisted less than 24 h after their begin, nobody else ever has the last word. */
  lemma PromptIsOwn(run: Run, m: nat, n: nat, key: string)
    requires run.Valid() && run.JsonBodies(key) && run.Prompt(key) && m < n < |run.states| && run.Handles(m, key)
    requires run.events[n - 1].now < run.events[m].now + TTL_MS
    ensures LastIsOwn(run, m, n, key)
  {
    forall i | m < i < n && Writes(run, i, key) ensures run.events[i].op.id == run.states[m].next {
      RecordsAreGenuine(run, i);
      var r := run.states[i].running[run.events[i].op.id];
      var k: nat :| k < i && BeganAs(run, k, key, r.record);
      if k < m {
        HandledOnce(run, k, m, key);
      } else if m < k {
        HandledOnce(run, m, k, key);
      }
    }
  }

  /**
   Promptness matters: a response persisted after its record expired takes the place of a later
   run, and identical requests then get the response of the earlier one.
   */
  lemma LatePersistReplaysOldRun(key: string)
    requires IsUuidV4(key)
    ensures var (a, b) := (Request(POST, Some(key), "a"), Request(POST, Some(key), "b"));
      var response := Response(200, Some("{}"));
      var s1 := Begin(EMPTY, a, 0).0;
      var s2 := Begin(s1, b, TTL_MS).0;
      var s3 := Persist(Respond(s2, 0, response), 0, TTL_MS);
      && Begin(EMPTY, a, 0).1 == Handle(0) && Begin(s1, b, TTL_MS).1 == Handle(1)
      && Decide(s3, a, TTL_MS + 1) == Replay(response) && Decide(s3, b, TTL_MS + 1) == Conflict
  {
  }
}
