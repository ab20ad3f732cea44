/** The in-memory schema registry (internal/schema/registry.go, MemoryRegistry). */
module Registry {
  import opened Base
  import opened SchemaTypes

  datatype ResolveRequest = ResolveRequest(
    subject: string,
    kind: string,
    schemaId: Option<int>,
    version: Option<int>,
    schema: string)

  datatype Resolved = Resolved(subject: string, kind: string, schemaId: int, version: int, schema: string)

  datatype Lookup = IdNotFound(id: int) | SubjectRequired | VersionNotFound(subject: string, version: int) | SubjectNotFound(subject: string)

  /** The registry's fields: the id counter, the index by id, and each subject's versions. */
  datatype State = State(nextId: int, byId: map<int, Resolved>, versions: map<string, seq<Resolved>>)

  const EMPTY: State := State(1, map[], map[])

  function VersionsOf(s: State, subject: string): seq<Resolved> {
    if subject in s.versions then s.versions[subject] else []
  }

  // ---------------------------------------------------------------------------------------
  // Specification

  /** Selectors have a precedence: id, then version, then schema text, then the latest version.
      Only a request that falls through to the schema text registers something. */
  predicate Registers(req: ResolveRequest) {
    req.schemaId.None? && req.subject != "" && req.version.None? && req.schema != ""
  }

  function NewEntry(s: State, req: ResolveRequest): Resolved {
    Resolved(req.subject, NormalizeSchemaType(req.kind), if s.nextId == 0 then 1 else s.nextId,
             |VersionsOf(s, req.subject)| + 1, req.schema)
  }

  function Register(s: State, e: Resolved): State {
    State(e.schemaId + 1, s.byId[e.schemaId := e], s.versions[e.subject := VersionsOf(s, e.subject) + [e]])
  }

  function Next(s: State, req: ResolveRequest): State {
    if Registers(req) then Register(s, NewEntry(s, req))
    else if s.nextId == 0 then s.(nextId := 1)
    else s
  }

  function Answer(s: State, req: ResolveRequest): Result<Resolved, Lookup> {
    var vs := VersionsOf(s, req.subject);
    if req.schemaId.Some? then
      if req.schemaId.value !in s.byId then Err(IdNotFound(req.schemaId.value))
      else
        var e := s.byId[req.schemaId.value];
        Ok(if req.subject != "" then e.(subject := req.subject) else e)
    else if req.subject == "" then Err(SubjectRequired)
    else if req.version.Some? then
      if 1 <= req.version.value <= |vs| then Ok(vs[req.version.value - 1])
      else Err(VersionNotFound(req.subject, req.version.value))
    else if req.schema != "" then Ok(NewEntry(s, req))
    else if vs == [] then Err(SubjectNotFound(req.subject))
    else Ok(vs[|vs| - 1])
  }

  /** The state after a run of requests. */
  function After(reqs: seq<ResolveRequest>): State {
    if reqs == [] then EMPTY else Next(After(reqs[..|reqs| - 1]), reqs[|reqs| - 1])
  }

  // ---------------------------------------------------------------------------------------
  // The object

  class MemoryRegistry {
    var nextId: int
    var byId: map<int, Resolved>
    var versions: map<string, seq<Resolved>>

    ghost function Value(): State
      reads this
    {
      State(nextId, byId, versions)
    }

    /** NewMemoryRegistry */
    constructor ()
      ensures Value() == EMPTY
    {
      nextId, byId, versions := 1, map[], map[];
    }

    method Resolve(req: ResolveRequest) returns (r: Result<Resolved, Lookup>)
      modifies this
      ensures Value() == Next(old(Value()), req)
      ensures r == Answer(old(Value()), req)
    {
      if nextId == 0 {
        nextId := 1;
      }
      if req.schemaId.Some? {
        if req.schemaId.value !in byId {
          return Err(IdNotFound(req.schemaId.value));
        }
        var res := byId[req.schemaId.value];
        if req.subject != "" {
          res := res.(subject := req.subject);
        }
        return Ok(res);
      }
      if req.subject == "" {
        return Err(SubjectRequired);
      }
      var vs := if req.subject in versions then versions[req.subject] else [];
      if req.version.Some? {
        var idx := req.version.value - 1;
        if idx < 0 || idx >= |vs| {
          return Err(VersionNotFound(req.subject, req.version.value));
        }
        return Ok(vs[idx]);
      }
      if req.schema != "" {
        var id := nextId;
        nextId := nextId + 1;
        var res := Resolved(req.subject, NormalizeSchemaType(req.kind), id, |vs| + 1, req.schema);
        byId := byId[id := res];
        versions := versions[req.subject := vs + [res]];
        return Ok(res);
      }
      if |vs| == 0 {
        return Err(SubjectNotFound(req.subject));
      }
      return Ok(vs[|vs| - 1]);
    }
  }

  // ---------------------------------------------------------------------------------------
  // The invariant of every run

  /** Slot k of a subject's list carries version k + 1, that subject, and an id that finds it. */
  predicate SlotOk(s: State, subject: string, k: nat, e: Resolved) {
    e.subject == subject && e.version == k + 1 && e.schemaId in s.byId && s.byId[e.schemaId] == e
  }

  /** An entry found by id carries that id and sits in its own slot of its own subject. */
  predicate EntryOk(s: State, id: int, e: Resolved) {
    && e.schemaId == id
    && 1 <= e.version <= |VersionsOf(s, e.subject)|
    && VersionsOf(s, e.subject)[e.version - 1] == e
  }

  /** Ids in use are exactly 1 to nextId - 1, and the two indexes agree. */
  ghost predicate Consistent(s: State) {
    && s.nextId >= 1
    && (forall id :: id in s.byId <==> 1 <= id < s.nextId)
    && (forall id :: id in s.byId ==> EntryOk(s, id, s.byId[id]))
    && (forall subject, k :: subject in s.versions && 0 <= k < |s.versions[subject]| ==>
          SlotOk(s, subject, k, s.versions[subject][k]))
  }

  lemma {:induction false} RegisterKeepsConsistent(s: State, req: ResolveRequest)
    requires Consistent(s)
    ensures Consistent(Register(s, NewEntry(s, req)))
  {
    var e := NewEntry(s, req);
    var s' := Register(s, e);
    forall subject, k | subject in s'.versions && 0 <= k < |s'.versions[subject]|
      ensures SlotOk(s', subject, k, s'.versions[subject][k])
    {
      if subject != e.subject || k + 1 < e.version {
        assert SlotOk(s, subject, k, s.versions[subject][k]);
      }
    }
    forall id | id in s'.byId
      ensures EntryOk(s', id, s'.byId[id])
    {
      if id != e.schemaId {
        assert EntryOk(s, id, s.byId[id]);
      }
    }
  }

  lemma {:induction false} RunsStayConsistent(reqs: seq<ResolveRequest>)
    ensures Consistent(After(reqs))
  {
    if reqs != [] {
      var s := After(reqs[..|reqs| - 1]);
      RunsStayConsistent(reqs[..|reqs| - 1]);
      RegisterKeepsConsistent(s, reqs[|reqs| - 1]);
    }
  }

  /** In every run each id in use occupies exactly one slot of exactly one subject's list. */
  lemma {:induction false} EachIdHasOneSlot(reqs: seq<ResolveRequest>, id: int)
    requires 1 <= id < After(reqs).nextId
    ensures
      var s := After(reqs);
      && id in s.byId
      && var e := s.byId[id];
      && 1 <= e.version <= |VersionsOf(s, e.subject)| && VersionsOf(s, e.subject)[e.version - 1].schemaId == id
      && (forall subject, k :: 0 <= k < |VersionsOf(s, subject)| && VersionsOf(s, subject)[k].schemaId == id ==>
            subject == e.subject && k + 1 == e.version)
  {
    var s := After(reqs);
    RunsStayConsistent(reqs);
    assert EntryOk(s, id, s.byId[id]);
    forall subject, k | 0 <= k < |VersionsOf(s, subject)| && VersionsOf(s, subject)[k].schemaId == id
      ensures subject == s.byId[id].subject && k + 1 == s.byId[id].version
    {
      assert SlotOk(s, subject, k, s.versions[subject][k]);
    }
  }

  // ---------------------------------------------------------------------------------------
  // Ids and versions count the registrations

  function Registrations(reqs: seq<ResolveRequest>): nat {
    if reqs == [] then 0 else Registrations(reqs[..|reqs| - 1]) + (if Registers(reqs[|reqs| - 1]) then 1 else 0)
  }

  function RegistrationsOf(reqs: seq<ResolveRequest>, subject: string): nat {
    if reqs == [] then 0
    else
      var last := reqs[|reqs| - 1];
      RegistrationsOf(reqs[..|reqs| - 1], subject) + (if Registers(last) && last.subject == subject then 1 else 0)
  }

  lemma {:induction false} NumbersCountRegistrations(reqs: seq<ResolveRequest>, subject: string)
    ensures After(reqs).nextId == Registrations(reqs) + 1
    ensures |VersionsOf(After(reqs), subject)| == RegistrationsOf(reqs, subject)
  {
    if reqs != [] {
      NumbersCountRegistrations(reqs[..|reqs| - 1], subject);
    }
  }

  // ---------------------------------------------------------------------------------------
  // Nothing registered is ever lost or changed

  predicate IsPrefix(a: seq<Resolved>, b: seq<Resolved>) {
    |a| <= |b| && b[..|a|] == a
  }

  ghost predicate Extends(s: State, later: State) {
    && (forall id :: id in s.byId ==> id in later.byId && later.byId[id] == s.byId[id])
    && (forall subject :: IsPrefix(VersionsOf(s, subject), VersionsOf(later, subject)))
  }

  lemma {:induction false} NextExtends(s: State, req: ResolveRequest)
    requires Consistent(s)
    ensures Extends(s, Next(s, req))
  {
  }

  lemma {:induction false} PrefixTransitive(a: seq<Resolved>, b: seq<Resolved>, c: seq<Resolved>)
    requires IsPrefix(a, b) && IsPrefix(b, c)
    ensures IsPrefix(a, c)
  {
    assert c[..|a|] == c[..|b|][..|a|];
  }

  lemma {:induction false} RunsExtend(reqs: seq<ResolveRequest>, later: seq<ResolveRequest>)
    ensures Extends(After(reqs), After(reqs + later))
  {
    if later == [] {
      assert reqs + later == reqs;
    } else {
      var front, last := later[..|later| - 1], later[|later| - 1];
      assert (reqs + later)[..|reqs + later| - 1] == reqs + front;
      RunsExtend(reqs, front);
      RunsStayConsistent(reqs + front);
      NextExtends(After(reqs + front), last);
      forall subject
        ensures IsPrefix(VersionsOf(After(reqs), subject), VersionsOf(After(reqs + later), subject))
      {
        PrefixTransitive(VersionsOf(After(reqs), subject), VersionsOf(After(reqs + front), subject),
                         VersionsOf(After(reqs + later), subject));
      }
    }
  }

  /** What a registering request was answered is what every later lookup finds, whatever ran in
      between: by id up to the requested subject name, by version exactly. Lower-precedence fields
      of the lookup do not matter. */
  lemma {:induction false} RegistrationIsPermanent(reqs: seq<ResolveRequest>, req: ResolveRequest, later: seq<ResolveRequest>, lookup: ResolveRequest)
    requires Registers(req)
    ensures
      var e := Answer(After(reqs), req).value;
      var s := After(reqs + [req] + later);
      && (lookup.schemaId == Some(e.schemaId) ==>
            Answer(s, lookup) == Ok(if lookup.subject == "" then e else e.(subject := lookup.subject)))
      && (lookup.schemaId.None? && lookup.subject == e.subject && lookup.version == Some(e.version) ==>
            Answer(s, lookup) == Ok(e))
  {
    var e := Answer(After(reqs), req).value;
    var run := reqs + [req];
    assert run[..|run| - 1] == reqs;
    var s, s' := After(run), After(run + later);
    RunsExtend(run, later);
    assert e.schemaId in s.byId && s.byId[e.schemaId] == e;
    var vs, vs' := VersionsOf(s, e.subject), VersionsOf(s', e.subject);
    assert vs[e.version - 1] == e;
    assert IsPrefix(vs, vs');
    assert vs'[e.version - 1] == vs'[..|vs|][e.version - 1];
  }

  /** Request i is the run's most recent registration of this subject. */
  predicate IsLatest(reqs: seq<ResolveRequest>, i: nat, subject: string) {
    && i < |reqs| && Registers(reqs[i]) && reqs[i].subject == subject
    && forall j :: i < j < |reqs| ==> !(Registers(reqs[j]) && reqs[j].subject == subject)
  }

  /** The lookup names a subject and nothing else. */
  predicate AsksLatest(lookup: ResolveRequest) {
    lookup.schemaId.None? && lookup.version.None? && lookup.schema == "" && lookup.subject != ""
  }

  lemma {:induction false} RegisteredIsLatest(s: State, e: Resolved, lookup: ResolveRequest)
    requires AsksLatest(lookup) && lookup.subject == e.subject
    ensures Answer(Register(s, e), lookup) == Ok(e)
  {
  }

  lemma {:induction false} OthersKeepLatest(s: State, req: ResolveRequest, lookup: ResolveRequest)
    requires AsksLatest(lookup) && !(Registers(req) && req.subject == lookup.subject)
    ensures Answer(Next(s, req), lookup) == Answer(s, lookup)
  {
    assert VersionsOf(Next(s, req), lookup.subject) == VersionsOf(s, lookup.subject);
  }

  /** Such a lookup finds exactly the answer its subject's most recent registration got. */
  lemma {:induction false} LatestIsLastRegistration(reqs: seq<ResolveRequest>, i: nat, lookup: ResolveRequest)
    requires AsksLatest(lookup) && IsLatest(reqs, i, lookup.subject)
    ensures Answer(After(reqs), lookup) == Answer(After(reqs[..i]), reqs[i])
  {
    var front, last := reqs[..|reqs| - 1], reqs[|reqs| - 1];
    if i == |front| {
      RegisteredIsLatest(After(front), NewEntry(After(front), last), lookup);
    } else {
      assert front[..i] == reqs[..i];
      LatestIsLastRegistration(front, i, lookup);
      OthersKeepLatest(After(front), last, lookup);
    }
  }

  /** And it fails exactly when there has been no registration. */
  lemma {:induction false} LatestFailsIffNone(reqs: seq<ResolveRequest>, lookup: ResolveRequest)
    requires AsksLatest(lookup)
    ensures Answer(After(reqs), lookup).Err? <==> RegistrationsOf(reqs, lookup.subject) == 0
  {
    NumbersCountRegistrations(reqs, lookup.subject);
  }

  // ---------------------------------------------------------------------------------------
  // What is kept is what was asked for

  /** The entry a registering request asks for: its own subject and schema text, its own type in
      canonical form, the next id and the subject's next version. */
  predicate IsEntryFor(e: Resolved, req: ResolveRequest, id: int, version: int) {
    && e.subject == req.subject && e.schema == req.schema && e.kind == NormalizeSchemaType(req.kind)
    && e.schemaId == id && e.version == version
  }

  /** The answer to a registering request, from the request and the history alone. */
  lemma {:induction false} RegistrationIsOwn(reqs: seq<ResolveRequest>, req: ResolveRequest)
    requires Registers(req)
    ensures Answer(After(reqs), req).Ok?
    ensures IsEntryFor(Answer(After(reqs), req).value, req, Registrations(reqs) + 1, RegistrationsOf(reqs, req.subject) + 1)
  {
    NumbersCountRegistrations(reqs, req.subject);
  }

  /** However many requests later, a lookup by that id (under whatever subject name it gives), or by that
      version of the subject, finds what the request asked for. */
  lemma {:induction false} RegisteredTextIsFound(reqs: seq<ResolveRequest>, req: ResolveRequest, later: seq<ResolveRequest>, lookup: ResolveRequest)
    requires Registers(req)
    ensures
      var id, version := Registrations(reqs) + 1, RegistrationsOf(reqs, req.subject) + 1;
      var found := Answer(After(reqs + [req] + later), lookup);
      && (lookup.schemaId == Some(id) ==>
            && found.Ok? && IsEntryFor(found.value.(subject := req.subject), req, id, version)
            && found.value.subject == if lookup.subject == "" then req.subject else lookup.subject)
      && (lookup.schemaId.None? && lookup.subject == req.subject && lookup.version == Some(version) ==>
            found.Ok? && IsEntryFor(found.value, req, id, version))
  {
    RegistrationIsOwn(reqs, req);
    RegistrationIsPermanent(reqs, req, later, lookup);
  }

  /** A lookup by subject alone finds what the subject's most recent registration asked for. */
  lemma {:induction false} LatestTextIsFound(reqs: seq<ResolveRequest>, i: nat, lookup: ResolveRequest)
    requires AsksLatest(lookup) && IsLatest(reqs, i, lookup.subject)
    ensures
      var found := Answer(After(reqs), lookup);
      && found.Ok?
      && IsEntryFor(found.value, reqs[i], Registrations(reqs[..i]) + 1, RegistrationsOf(reqs[..i], lookup.subject) + 1)
  {
    RegistrationIsOwn(reqs[..i], reqs[i]);
    LatestIsLastRegistration(reqs, i, lookup);
  }

  /** Exactly which lookups fail, and how: an id never given out, no subject, a version the subject has
      not reached, a subject never registered. */
  lemma {:induction false} FailuresAreExact(reqs: seq<ResolveRequest>, lookup: ResolveRequest)
    ensures
      var r := Answer(After(reqs), lookup);
      if lookup.schemaId.Some? then
        && (r.Err? <==> !(1 <= lookup.schemaId.value <= Registrations(reqs)))
        && (r.Err? ==> r.error == IdNotFound(lookup.schemaId.value))
      else if lookup.subject == "" then r == Err(SubjectRequired)
      else if lookup.version.Some? then
        && (r.Err? <==> !(1 <= lookup.version.value <= RegistrationsOf(reqs, lookup.subject)))
        && (r.Err? ==> r.error == VersionNotFound(lookup.subject, lookup.version.value))
      else if lookup.schema != "" then r.Ok?
      else (r.Err? <==> RegistrationsOf(reqs, lookup.subject) == 0) && (r.Err? ==> r.error == SubjectNotFound(lookup.subject))
  {
    RunsStayConsistent(reqs);
    NumbersCountRegistrations(reqs, lookup.subject);
  }
}
