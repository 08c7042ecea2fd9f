/** The admin job endpoint (`/api/admin/jobs`): POST creates, PUT replaces and
    DELETE removes a job. Each handler first checks the `admin_session`
    cookie against ADMIN_TOKEN, then reads the JSON body, validates it and
    makes at most one store call. The decisions are pure functions returning
    an `Action`; `Perform` carries an action out against the store. */
module AdminJobs {
  import opened Wrappers
  import opened Strings
  import opened Forms
  import opened Http
  import opened CareersDb

  /** The JSON body of POST and PUT (`JobPayload`); absent properties are `None`. */
  datatype JobPayload = JobPayload(
    id: Option<int>,
    title: Option<string>,
    department: Option<string>,
    location: Option<string>,
    jobType: Option<string>,
    description: Option<string>)

  /** The JSON body of DELETE: `{ id?: number }`. */
  datatype IdPayload = IdPayload(id: Option<int>)

  /** What a handler decides to do. */
  datatype Action =
    | Respond(response: Response)     // answer without touching the store
    | Create(input: JobInput)         // createJob(input)
    | Update(id: int, input: JobInput) // updateJob(id, input)
    | Delete(id: int)                 // deleteJob(id)

  /** `requireAdmin`: `None` lets the request through, otherwise the error
      response. An unset or empty ADMIN_TOKEN is a configuration error
      whatever the cookie says; otherwise the cookie must equal the token. */
  function RequireAdmin(token: Option<string>, session: Option<string>): (r: Option<Response>)
    ensures !Truthy(token) ==> r == Some(Failure(500, "Admin token is not configured."))
    ensures Truthy(token) && session != token ==> r == Some(Failure(401, "Unauthorized."))
    ensures r.None? <==> Truthy(token) && session == token
  {
    if !Truthy(token) then Some(Failure(500, "Admin token is not configured."))
    else if session != token then Some(Failure(401, "Unauthorized."))
    else None
  }

  /** `!payload.id`: the id is absent or zero. */
  predicate MissingId(id: Option<int>) {
    id.None? || id.value == 0
  }

  function PayloadFields(p: JobPayload): seq<Field> {
    [Field("title", p.title), Field("department", p.department), Field("location", p.location),
     Field("type", p.jobType), Field("description", p.description)]
  }

  /** `validatePayload`: the names of the blank fields among title,
      department, location, type and description, in that order; empty
      exactly when all five have a non-blank value. */
  function ValidatePayload(p: JobPayload): (missing: seq<string>)
    ensures IsSubsequence(missing, ["title", "department", "location", "type", "description"])
    ensures missing == [] <==>
              !Blank(p.title) && !Blank(p.department) && !Blank(p.location) && !Blank(p.jobType) && !Blank(p.description)
  {
    PayloadFieldNames(p);
    PayloadNoneMissing(p);
    MissingFields(PayloadFields(p))
  }

  lemma PayloadFieldNames(p: JobPayload)
    ensures Names(PayloadFields(p)) == ["title", "department", "location", "type", "description"]
  {
  }

  lemma PayloadNoneMissing(p: JobPayload)
    ensures MissingFields(PayloadFields(p)) == [] <==>
              !Blank(p.title) && !Blank(p.department) && !Blank(p.location) && !Blank(p.jobType) && !Blank(p.description)
  {
    var fields := PayloadFields(p);
    NoneMissing(fields);
    var values := [p.title, p.department, p.location, p.jobType, p.description];
    assert forall i :: 0 <= i < |fields| ==> fields[i].value == values[i];
    AllPresent(values);
  }

  /** Each field name is reported exactly when that field is blank. */
  lemma ValidatePayloadNames(p: JobPayload)
    ensures "title" in ValidatePayload(p) <==> Blank(p.title)
    ensures "department" in ValidatePayload(p) <==> Blank(p.department)
    ensures "location" in ValidatePayload(p) <==> Blank(p.location)
    ensures "type" in ValidatePayload(p) <==> Blank(p.jobType)
    ensures "description" in ValidatePayload(p) <==> Blank(p.description)
  {
    var fields := PayloadFields(p);
    assert forall i, j :: 0 <= i < j < |fields| ==> |fields[i].name| != |fields[j].name|;
    MissingExactly(fields, 0);
    MissingExactly(fields, 1);
    MissingExactly(fields, 2);
    MissingExactly(fields, 3);
    MissingExactly(fields, 4);
  }

  /** Every text column is non-empty and has no surrounding whitespace. */
  predicate IsClean(input: JobInput) {
    && input.title != "" && IsTrimmed(input.title)
    && input.department != "" && IsTrimmed(input.department)
    && input.location != "" && IsTrimmed(input.location)
    && input.jobType != "" && IsTrimmed(input.jobType)
    && input.description != "" && IsTrimmed(input.description)
  }

  /** The input handed to the store: every field trimmed. */
  function TrimmedInput(p: JobPayload): (input: JobInput)
    requires !Blank(p.title) && !Blank(p.department) && !Blank(p.location) && !Blank(p.jobType) && !Blank(p.description)
    ensures input.title == Trim(p.title.value) && input.department == Trim(p.department.value)
    ensures input.location == Trim(p.location.value) && input.jobType == Trim(p.jobType.value)
    ensures input.description == Trim(p.description.value)
    ensures IsClean(input)
  {
    JobInput(Trim(p.title.value), Trim(p.department.value), Trim(p.location.value),
             Trim(p.jobType.value), Trim(p.description.value))
  }

  /** The decision of `POST`. */
  function PostAction(token: Option<string>, session: Option<string>, payload: Option<JobPayload>): (a: Action)
    ensures RequireAdmin(token, session).Some? ==> a == Respond(RequireAdmin(token, session).value)
    ensures RequireAdmin(token, session).None? && payload.None? ==> a == Respond(Failure(400, "Invalid payload."))
    ensures RequireAdmin(token, session).None? && payload.Some? && ValidatePayload(payload.value) != [] ==>
              a == Respond(Failure(400, MissingMessage(ValidatePayload(payload.value))))
    ensures a.Create? <==> RequireAdmin(token, session).None? && payload.Some? && ValidatePayload(payload.value) == []
    ensures a.Respond? || a.Create?
    ensures a.Create? ==> IsClean(a.input)
    ensures a.Create? ==> a.input == JobInput(Trim(payload.value.title.value), Trim(payload.value.department.value), Trim(payload.value.location.value),
                                   Trim(payload.value.jobType.value), Trim(payload.value.description.value))
  {
    var denied := RequireAdmin(token, session);
    if denied.Some? then Respond(denied.value)
    else if payload.None? then Respond(Failure(400, "Invalid payload."))
    else
      var missing := ValidatePayload(payload.value);
      if missing != [] then Respond(Failure(400, MissingMessage(missing)))
      else Create(TrimmedInput(payload.value))
  }

  /** The decision of `PUT`: the id is checked before the fields. */
  function PutAction(token: Option<string>, session: Option<string>, payload: Option<JobPayload>): (a: Action)
    ensures RequireAdmin(token, session).Some? ==> a == Respond(RequireAdmin(token, session).value)
    ensures RequireAdmin(token, session).None? && payload.None? ==> a == Respond(Failure(400, "Invalid payload."))
    ensures RequireAdmin(token, session).None? && payload.Some? && MissingId(payload.value.id) ==>
              a == Respond(Failure(400, "Job ID is required."))
    ensures RequireAdmin(token, session).None? && payload.Some? && !MissingId(payload.value.id)
              && ValidatePayload(payload.value) != [] ==>
              a == Respond(Failure(400, MissingMessage(ValidatePayload(payload.value))))
    ensures a.Update? <==> RequireAdmin(token, session).None? && payload.Some? && !MissingId(payload.value.id)
                           && ValidatePayload(payload.value) == []
    ensures a.Respond? || a.Update?
    ensures a.Update? ==> a.id == payload.value.id.value && a.id != 0 && IsClean(a.input)
    ensures a.Update? ==> a.input == JobInput(Trim(payload.value.title.value), Trim(payload.value.department.value), Trim(payload.value.location.value),
                                   Trim(payload.value.jobType.value), Trim(payload.value.description.value))
  {
    var denied := RequireAdmin(token, session);
    if denied.Some? then Respond(denied.value)
    else if payload.None? then Respond(Failure(400, "Invalid payload."))
    else if MissingId(payload.value.id) then Respond(Failure(400, "Job ID is required."))
    else
      var missing := ValidatePayload(payload.value);
      if missing != [] then Respond(Failure(400, MissingMessage(missing)))
      else Update(payload.value.id.value, TrimmedInput(payload.value))
  }

  /** The decision of `DELETE`. */
  function DeleteAction(token: Option<string>, session: Option<string>, payload: Option<IdPayload>): (a: Action)
    ensures RequireAdmin(token, session).Some? ==> a == Respond(RequireAdmin(token, session).value)
    ensures RequireAdmin(token, session).None? && payload.None? ==> a == Respond(Failure(400, "Invalid payload."))
    ensures RequireAdmin(token, session).None? && payload.Some? && MissingId(payload.value.id) ==>
              a == Respond(Failure(400, "Job ID is required."))
    ensures a.Delete? <==> RequireAdmin(token, session).None? && payload.Some? && !MissingId(payload.value.id)
    ensures a.Respond? || a.Delete?
    ensures a.Delete? ==> a.id == payload.value.id.value
  {
    var denied := RequireAdmin(token, session);
    if denied.Some? then Respond(denied.value)
    else if payload.None? then Respond(Failure(400, "Invalid payload."))
    else if MissingId(payload.value.id) then Respond(Failure(400, "Job ID is required."))
    else Delete(payload.value.id.value)
  }

  /** A POST whose title is empty is answered 400 naming "title", and
      nothing is created. */
  lemma EmptyTitleRejected(token: Option<string>, session: Option<string>, p: JobPayload)
    requires RequireAdmin(token, session).None? && p.title == Some("")
    ensures "title" in ValidatePayload(p)
    ensures PostAction(token, session, Some(p)) == Respond(Failure(400, MissingMessage(ValidatePayload(p))))
  {
    ValidatePayloadNames(p);
  }

  /** Every stored job is clean. */
  ghost predicate AllClean(jobs: map<int, Job>) {
    forall id :: id in jobs ==> IsClean(jobs[id].input)
  }

  /** Carries out an action: at most one store call, then `{ job }` or
      `{ ok }` with status 200. */
  method Perform(db: CareersStore, action: Action, now: nat) returns (resp: Response)
    requires db.Valid()
    requires action.Create? || action.Update? ==> IsClean(action.input)
    modifies db
    ensures db.Valid()
    ensures db.applications ==
              if action.Delete? && db.enforceForeignKeys then SetNullReferences(old(db.applications), action.id)
              else old(db.applications)
    ensures db.nextJobId == old(db.nextJobId) + (if action.Create? then 1 else 0)
    ensures db.issuedJobIds == old(db.issuedJobIds) + (if action.Create? then {old(db.nextJobId)} else {})
    ensures db.nextApplicationId == old(db.nextApplicationId)
    ensures db.issuedApplicationIds == old(db.issuedApplicationIds)
    ensures action.Respond? ==> resp == action.response && db.jobs == old(db.jobs) && db.nextJobId == old(db.nextJobId)
    ensures action.Create? ==>
              var job := Job(old(db.nextJobId), action.input, now);
              resp == Success(JobResult(Some(job))) && db.jobs == old(db.jobs)[job.id := job]
    ensures action.Update? && action.id in old(db.jobs) ==>
              var job := Job(action.id, action.input, old(db.jobs)[action.id].createdAt);
              resp == Success(JobResult(Some(job))) && db.jobs == old(db.jobs)[action.id := job]
    ensures action.Update? && action.id !in old(db.jobs) ==>
              resp == Success(JobResult(None)) && db.jobs == old(db.jobs)
    ensures action.Delete? ==>
              resp == Success(Ok(action.id in old(db.jobs))) && db.jobs == old(db.jobs) - {action.id}
    ensures AllClean(old(db.jobs)) ==> AllClean(db.jobs)
  {
    match action
    case Respond(r) =>
      resp := r;
    case Create(input) =>
      var job := db.CreateJob(input, now);
      resp := Success(JobResult(job));
    case Update(id, input) =>
      var job := db.UpdateJob(id, input);
      resp := Success(JobResult(job));
    case Delete(id) =>
      var deleted := db.DeleteJob(id);
      resp := Success(Ok(deleted));
  }

  /** `POST /api/admin/jobs`. */
  method HandlePost(db: CareersStore, env: Env, session: Option<string>, payload: Option<JobPayload>, now: nat)
    returns (resp: Response)
    requires db.Valid()
    modifies db
    ensures db.Valid() && db.applications == old(db.applications)
    ensures var created := PostAction(env.adminToken, session, payload).Create?;
            && db.nextJobId == old(db.nextJobId) + (if created then 1 else 0)
            && db.issuedJobIds == old(db.issuedJobIds) + (if created then {old(db.nextJobId)} else {})
    ensures db.nextApplicationId == old(db.nextApplicationId)
    ensures db.issuedApplicationIds == old(db.issuedApplicationIds)
    ensures RequireAdmin(env.adminToken, session).Some? ==>
              resp == RequireAdmin(env.adminToken, session).value && db.jobs == old(db.jobs)
    ensures PostAction(env.adminToken, session, payload).Create? ==>
              var job := Job(old(db.nextJobId), PostAction(env.adminToken, session, payload).input, now);
              resp == Success(JobResult(Some(job))) && db.jobs == old(db.jobs)[job.id := job]
    ensures !PostAction(env.adminToken, session, payload).Create? ==>
              resp == PostAction(env.adminToken, session, payload).response && db.jobs == old(db.jobs)
    ensures AllClean(old(db.jobs)) ==> AllClean(db.jobs)
  {
    resp := Perform(db, PostAction(env.adminToken, session, payload), now);
  }

  /** `PUT /api/admin/jobs`: an id with no row gives `{ job: null }`, not an error. */
  method HandlePut(db: CareersStore, env: Env, session: Option<string>, payload: Option<JobPayload>)
    returns (resp: Response)
    requires db.Valid()
    modifies db
    ensures db.Valid() && db.applications == old(db.applications)
    ensures db.nextJobId == old(db.nextJobId) && db.issuedJobIds == old(db.issuedJobIds)
    ensures db.nextApplicationId == old(db.nextApplicationId)
    ensures db.issuedApplicationIds == old(db.issuedApplicationIds)
    ensures RequireAdmin(env.adminToken, session).Some? ==>
              resp == RequireAdmin(env.adminToken, session).value && db.jobs == old(db.jobs)
    ensures var a := PutAction(env.adminToken, session, payload);
            a.Update? && a.id in old(db.jobs) ==>
              var job := Job(a.id, a.input, old(db.jobs)[a.id].createdAt);
              resp == Success(JobResult(Some(job))) && db.jobs == old(db.jobs)[a.id := job]
    ensures var a := PutAction(env.adminToken, session, payload);
            a.Update? && a.id !in old(db.jobs) ==> resp == Success(JobResult(None)) && db.jobs == old(db.jobs)
    ensures var a := PutAction(env.adminToken, session, payload);
            !a.Update? ==> resp == a.response && db.jobs == old(db.jobs)
    ensures AllClean(old(db.jobs)) ==> AllClean(db.jobs)
  {
    resp := Perform(db, PutAction(env.adminToken, session, payload), 0);
  }

  /** `DELETE /api/admin/jobs`: `{ ok }` says whether a row was removed. */
  method HandleDelete(db: CareersStore, env: Env, session: Option<string>, payload: Option<IdPayload>)
    returns (resp: Response)
    requires db.Valid()
    modifies db
    ensures db.Valid()
    ensures db.nextJobId == old(db.nextJobId) && db.issuedJobIds == old(db.issuedJobIds)
    ensures db.nextApplicationId == old(db.nextApplicationId)
    ensures db.issuedApplicationIds == old(db.issuedApplicationIds)
    ensures RequireAdmin(env.adminToken, session).Some? ==>
              resp == RequireAdmin(env.adminToken, session).value && db.jobs == old(db.jobs)
              && db.applications == old(db.applications)
    ensures var a := DeleteAction(env.adminToken, session, payload);
            a.Delete? ==> resp == Success(Ok(a.id in old(db.jobs))) && db.jobs == old(db.jobs) - {a.id}
                          && db.applications == if db.enforceForeignKeys then SetNullReferences(old(db.applications), a.id)
                                                else old(db.applications)
    ensures var a := DeleteAction(env.adminToken, session, payload);
            !a.Delete? ==> resp == a.response && db.jobs == old(db.jobs) && db.applications == old(db.applications)
  {
    resp := Perform(db, DeleteAction(env.adminToken, session, payload), 0);
  }

  /** A job created through `POST` reads back, by the id in the response,
      as the payload's five fields trimmed, stamped with the creation time. */
  method PostThenGet(db: CareersStore, env: Env, session: Option<string>, p: JobPayload, now: nat)
    returns (resp: Response, fetched: Option<Job>)
    requires db.Valid()
    requires RequireAdmin(env.adminToken, session).None?
    requires !Blank(p.title) && !Blank(p.department) && !Blank(p.location) && !Blank(p.jobType) && !Blank(p.description)
    modifies db
    ensures resp.status == 200 && resp.body.JobResult? && resp.body.job.Some?
    ensures fetched == resp.body.job
    ensures fetched.value.input == JobInput(Trim(p.title.value), Trim(p.department.value), Trim(p.location.value),
                                   Trim(p.jobType.value), Trim(p.description.value))
    ensures fetched.value.createdAt == now
  {
    resp := HandlePost(db, env, session, Some(p), now);
    var id := resp.body.job.value.id;
    fetched := db.GetJobById(id);
  }

  /** Through the handlers too, ids are not reused: a job created by `POST`
      after a `DELETE` gets an id above the deleted one. */
  method DeleteThenPost(db: CareersStore, env: Env, session: Option<string>, id: int, p: JobPayload, now: nat)
    returns (deleted: Response, created: Response)
    requires db.Valid() && id in db.jobs
    requires RequireAdmin(env.adminToken, session).None?
    requires !Blank(p.title) && !Blank(p.department) && !Blank(p.location) && !Blank(p.jobType) && !Blank(p.description)
    modifies db
    ensures deleted == Success(Ok(true))
    ensures created.body.JobResult? && created.body.job.Some? && created.body.job.value.id > id
  {
    deleted := HandleDelete(db, env, session, Some(IdPayload(Some(id))));
    created := HandlePost(db, env, session, Some(p), now);
  }
}
