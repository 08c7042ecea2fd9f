/** The careers store: two tables, `jobs` and `applications`, each keyed by an
    AUTOINCREMENT integer id. The tables are maps from id to row, updated in
    place by the store's methods; the connection, the SQL text and the
    database file are not modelled. `created_at` is the time the caller
    supplies (`now`) instead of `datetime('now')`. */
module CareersDb {
  import opened Wrappers

  /** The five text columns of a job (`JobInput`). */
  datatype JobInput = JobInput(title: string, department: string, location: string, jobType: string, description: string)

  /** A row of `jobs` (`JobRecord`). */
  datatype Job = Job(id: int, input: JobInput, createdAt: nat)

  /** What `createApplication` is called with (`ApplicationInput`). */
  datatype ApplicationInput = ApplicationInput(
    jobId: Option<int>,
    fullName: string,
    email: string,
    phone: Option<string>,
    portfolio: Option<string>,
    resumeUrl: Option<string>,
    coverLetter: string)

  /** A row of `applications`; `None` is SQL NULL. */
  datatype Application = Application(
    id: int,
    jobId: Option<int>,
    fullName: string,
    email: string,
    phone: Option<string>,
    portfolio: Option<string>,
    resumeUrl: Option<string>,
    coverLetter: string,
    createdAt: nat)

  /** `value || null` for an optional text column: absent and empty are
      both stored as NULL. */
  function NullIfEmpty(x: Option<string>): (r: Option<string>)
    ensures r.None? <==> x.None? || x.value == ""
    ensures r.Some? ==> r == x
  {
    if x.Some? && x.value != "" then x else None
  }

  /** The row `createApplication` inserts under `id`. */
  function ApplicationRow(id: int, input: ApplicationInput, now: nat): (row: Application)
    ensures row.id == id && row.jobId == input.jobId && row.createdAt == now
    ensures row.fullName == input.fullName && row.email == input.email && row.coverLetter == input.coverLetter
    ensures row.phone.Some? ==> row.phone == input.phone && row.phone.value != ""
    ensures row.portfolio.Some? ==> row.portfolio == input.portfolio && row.portfolio.value != ""
    ensures row.resumeUrl.Some? ==> row.resumeUrl == input.resumeUrl && row.resumeUrl.value != ""
    ensures row.phone.None? ==> input.phone.None? || input.phone.value == ""
    ensures row.portfolio.None? ==> input.portfolio.None? || input.portfolio.value == ""
    ensures row.resumeUrl.None? ==> input.resumeUrl.None? || input.resumeUrl.value == ""
  {
    Application(id, input.jobId, input.fullName, input.email, NullIfEmpty(input.phone),
                NullIfEmpty(input.portfolio), NullIfEmpty(input.resumeUrl), input.coverLetter, now)
  }

  /** `ON DELETE SET NULL` for the job `jobId`: every application that
      referred to it refers to no job afterwards; nothing else changes. */
  function SetNullReferences(apps: map<int, Application>, jobId: int): (r: map<int, Application>)
    ensures r.Keys == apps.Keys
    ensures forall k :: k in r ==> r[k].jobId != Some(jobId)
    ensures forall k :: k in r && apps[k].jobId != Some(jobId) ==> r[k] == apps[k]
    ensures forall k :: k in r ==> r[k] == apps[k].(jobId := r[k].jobId)
  {
    map k | k in apps :: if apps[k].jobId == Some(jobId) then apps[k].(jobId := None) else apps[k]
  }

  /** `ORDER BY datetime(created_at) DESC`: most recent first. */
  predicate NewestFirst(rows: seq<Job>) {
    forall i, j :: 0 <= i < j < |rows| ==> rows[i].createdAt >= rows[j].createdAt
  }

  /** Where a row created at `createdAt` goes in a newest-first list: after
      every row at least as recent, before every older one. */
  function InsertPosition(rows: seq<Job>, createdAt: nat): (k: nat)
    requires NewestFirst(rows)
    ensures k <= |rows|
    ensures forall i :: 0 <= i < k ==> rows[i].createdAt >= createdAt
    ensures forall i :: k <= i < |rows| ==> rows[i].createdAt < createdAt
  {
    if rows == [] || rows[0].createdAt < createdAt then 0
    else 1 + InsertPosition(rows[1..], createdAt)
  }

  /** `rows` with `job` placed by its creation time. */
  function InsertNewestFirst(rows: seq<Job>, job: Job): (r: seq<Job>)
    requires NewestFirst(rows)
    ensures NewestFirst(r)
    ensures |r| == |rows| + 1
    ensures exists k :: 0 <= k <= |rows| && r == rows[..k] + [job] + rows[k..]
  {
    var k := InsertPosition(rows, job.createdAt);
    var r := rows[..k] + [job] + rows[k..];
    assert forall i :: 0 <= i < |r| ==> r[i] == if i < k then rows[i] else if i == k then job else rows[i - 1];
    r
  }

  /** `rows` holds the rows of `jobs` with ids below `bound`, each once. */
  ghost predicate ListsRowsBelow(rows: seq<Job>, jobs: map<int, Job>, bound: int) {
    && (forall i :: 0 <= i < |rows| ==> rows[i].id in jobs && rows[i].id < bound && jobs[rows[i].id] == rows[i])
    && (forall i, j :: 0 <= i < j < |rows| ==> rows[i].id != rows[j].id)
    && (forall id :: id in jobs && id < bound ==> exists i :: 0 <= i < |rows| && rows[i].id == id)
  }

  /** One step of the scan: the row with id `scan`, if any, joins the list. */
  lemma ScanStep(rows: seq<Job>, jobs: map<int, Job>, scan: int)
    requires NewestFirst(rows) && ListsRowsBelow(rows, jobs, scan)
    requires scan in jobs ==> jobs[scan].id == scan
    ensures scan in jobs ==> ListsRowsBelow(InsertNewestFirst(rows, jobs[scan]), jobs, scan + 1)
    ensures scan !in jobs ==> ListsRowsBelow(rows, jobs, scan + 1)
  {
    if scan in jobs {
      var job := jobs[scan];
      var r := InsertNewestFirst(rows, job);
      var k :| 0 <= k <= |rows| && r == rows[..k] + [job] + rows[k..];
      InsertedMembers(rows, k, job, jobs, scan);
      InsertedDistinct(rows, k, job, jobs, scan);
      InsertedCovers(rows, k, job, jobs, scan);
    } else {
      assert forall id :: id in jobs && id < scan + 1 ==> id < scan;
    }
  }

  lemma InsertedMembers(rows: seq<Job>, k: nat, job: Job, jobs: map<int, Job>, scan: int)
    requires k <= |rows| && scan in jobs && job == jobs[scan] && job.id == scan
    requires forall i :: 0 <= i < |rows| ==> rows[i].id in jobs && rows[i].id < scan && jobs[rows[i].id] == rows[i]
    ensures var r := rows[..k] + [job] + rows[k..];
            forall i :: 0 <= i < |r| ==> r[i].id in jobs && r[i].id < scan + 1 && jobs[r[i].id] == r[i]
  {
    var r := rows[..k] + [job] + rows[k..];
    forall i | 0 <= i < |r| ensures r[i].id in jobs && r[i].id < scan + 1 && jobs[r[i].id] == r[i] {
      if i < k { assert r[i] == rows[i]; }
      else if i > k { assert r[i] == rows[i - 1]; }
    }
  }

  lemma InsertedDistinct(rows: seq<Job>, k: nat, job: Job, jobs: map<int, Job>, scan: int)
    requires k <= |rows| && job.id == scan
    requires forall i :: 0 <= i < |rows| ==> rows[i].id < scan
    requires forall i, j :: 0 <= i < j < |rows| ==> rows[i].id != rows[j].id
    ensures var r := rows[..k] + [job] + rows[k..];
            forall i, j :: 0 <= i < j < |r| ==> r[i].id != r[j].id
  {
    var r := rows[..k] + [job] + rows[k..];
    forall i, j | 0 <= i < j < |r| ensures r[i].id != r[j].id {
      var bi := if i < k then i else i - 1;
      var bj := if j < k then j else j - 1;
      if i != k { assert r[i] == rows[bi]; }
      if j != k { assert r[j] == rows[bj]; }
    }
  }

  lemma InsertedCovers(rows: seq<Job>, k: nat, job: Job, jobs: map<int, Job>, scan: int)
    requires k <= |rows| && job.id == scan
    requires forall id :: id in jobs && id < scan ==> exists i :: 0 <= i < |rows| && rows[i].id == id
    ensures var r := rows[..k] + [job] + rows[k..];
            forall id :: id in jobs && id < scan + 1 ==> exists i :: 0 <= i < |r| && r[i].id == id
  {
    var r := rows[..k] + [job] + rows[k..];
    forall id | id in jobs && id < scan + 1
      ensures exists i :: 0 <= i < |r| && r[i].id == id
    {
      if id == scan {
        assert r[k].id == id;
      } else {
        var i :| 0 <= i < |rows| && rows[i].id == id;
        if i < k {
          assert r[i] == rows[i];
        } else {
          assert r[i + 1] == rows[i];
        }
      }
    }
  }

  /** The two tables and their AUTOINCREMENT counters. Whether the engine
      enforces the `FOREIGN KEY(job_id)` clause is a setting of the
      connection that the schema does not fix, so it is a constant of the
      store: with it, deleting a job sets the references to it to NULL and
      an application naming no existing job is refused; without it, neither
      happens. */
  class CareersStore {
    const enforceForeignKeys: bool
    var jobs: map<int, Job>
    var nextJobId: int
    var applications: map<int, Application>
    var nextApplicationId: int
    /** Every id ever assigned, including those of deleted rows. */
    ghost var issuedJobIds: set<int>
    ghost var issuedApplicationIds: set<int>

    /** Each row sits under its own id, and every id ever handed out is
        below the counter, so the counter never gives an id twice. */
    ghost predicate Valid()
      reads this
    {
      && 1 <= nextJobId
      && 1 <= nextApplicationId
      && (forall id :: id in issuedJobIds ==> 1 <= id < nextJobId)
      && jobs.Keys <= issuedJobIds
      && (forall id :: id in jobs ==> jobs[id].id == id)
      && (forall id :: id in issuedApplicationIds ==> 1 <= id < nextApplicationId)
      && applications.Keys <= issuedApplicationIds
      && (forall id :: id in applications ==> applications[id].id == id)
      && (enforceForeignKeys ==> ReferencesResolve())
    }

    /** Every job reference held by an application names a stored job. */
    ghost predicate ReferencesResolve()
      reads this
    {
      forall id :: id in applications && applications[id].jobId.Some? ==> applications[id].jobId.value in jobs
    }

    /** A freshly created database: both tables empty. */
    constructor (enforceForeignKeys: bool)
      ensures Valid()
      ensures this.enforceForeignKeys == enforceForeignKeys
      ensures jobs == map[] && applications == map[]
      ensures nextJobId == 1 && nextApplicationId == 1
      ensures issuedJobIds == {} && issuedApplicationIds == {}
    {
      this.enforceForeignKeys := enforceForeignKeys;
      jobs, applications := map[], map[];
      nextJobId, nextApplicationId := 1, 1;
      issuedJobIds, issuedApplicationIds := {}, {};
    }

    /** `listJobs`: every stored job exactly once, most recent first. */
    method ListJobs() returns (rows: seq<Job>)
      requires Valid()
      ensures NewestFirst(rows)
      ensures forall i :: 0 <= i < |rows| ==> rows[i].id in jobs && jobs[rows[i].id] == rows[i]
      ensures forall i, j :: 0 <= i < j < |rows| ==> rows[i].id != rows[j].id
      ensures forall id :: id in jobs ==> exists i :: 0 <= i < |rows| && rows[i].id == id
    {
      rows := [];
      var scan := 1;
      // The rows are visited in id order, as a table scan does, and each is
      // placed among the rows seen so far by its creation time.
      while scan < nextJobId
        invariant 1 <= scan <= nextJobId
        invariant NewestFirst(rows)
        invariant ListsRowsBelow(rows, jobs, scan)
      {
        ScanStep(rows, jobs, scan);
        if scan in jobs {
          rows := InsertNewestFirst(rows, jobs[scan]);
        }
        scan := scan + 1;
      }
    }

    /** `getJobById`: the row with that id, or `null`. */
    method GetJobById(id: int) returns (r: Option<Job>)
      requires Valid()
      ensures r.None? <==> id !in jobs
      ensures r.Some? ==> id in jobs && r.value == jobs[id] && r.value.id == id
    {
      r := if id in jobs then Some(jobs[id]) else None;
    }

    /** `createJob`: inserts a row under a new id, above every id assigned
        before (deleted rows included), and returns that row. */
    method CreateJob(input: JobInput, now: nat) returns (r: Option<Job>)
      requires Valid()
      modifies this
      ensures Valid()
      ensures r.Some? && r.value == Job(old(nextJobId), input, now)
      ensures forall id :: id in old(issuedJobIds) ==> id < r.value.id
      ensures r.value.id !in old(jobs)
      ensures jobs == old(jobs)[r.value.id := r.value]
      ensures nextJobId == old(nextJobId) + 1
      ensures issuedJobIds == old(issuedJobIds) + {r.value.id}
      ensures applications == old(applications) && nextApplicationId == old(nextApplicationId)
      ensures issuedApplicationIds == old(issuedApplicationIds)
    {
      var id := nextJobId;
      jobs := jobs[id := Job(id, input, now)];
      nextJobId := nextJobId + 1;
      issuedJobIds := issuedJobIds + {id};
      r := GetJobById(id);
    }

    /** `updateJob`: replaces the five text columns of the row with that id
        and returns the row as it now is; with no such row nothing changes
        and the result is `null`. */
    method UpdateJob(id: int, input: JobInput) returns (r: Option<Job>)
      requires Valid()
      modifies this`jobs
      ensures Valid()
      ensures id in old(jobs) ==>
                jobs == old(jobs)[id := Job(id, input, old(jobs)[id].createdAt)] && r == Some(jobs[id])
      ensures id !in old(jobs) ==> jobs == old(jobs) && r == None
    {
      if id in jobs {
        jobs := jobs[id := Job(id, input, jobs[id].createdAt)];
      }
      r := GetJobById(id);
    }

    /** `deleteJob`: removes the row with that id; true iff there was one.
        Applications that referred to it are kept, with their reference set
        to NULL when foreign keys are enforced. */
    method DeleteJob(id: int) returns (deleted: bool)
      requires Valid()
      modifies this`jobs, this`applications
      ensures Valid()
      ensures deleted <==> id in old(jobs)
      ensures jobs == old(jobs) - {id}
      ensures applications == if enforceForeignKeys then SetNullReferences(old(applications), id) else old(applications)
    {
      deleted := id in jobs;
      jobs := jobs - {id};
      if enforceForeignKeys {
        applications := SetNullReferences(applications, id);
      }
    }

    /** `createApplication`: appends a row under a new id and returns the id;
        the jobs table is not touched. `None` is the insert the engine
        refuses (it throws) because foreign keys are enforced and `jobId`
        names no stored job; the statement then leaves everything as it was. */
    method CreateApplication(input: ApplicationInput, now: nat) returns (r: Option<int>)
      requires Valid()
      modifies this`applications, this`nextApplicationId, this`issuedApplicationIds
      ensures Valid()
      ensures r.None? <==> enforceForeignKeys && input.jobId.Some? && input.jobId.value !in jobs
      ensures r.None? ==>
                && applications == old(applications) && nextApplicationId == old(nextApplicationId)
                && issuedApplicationIds == old(issuedApplicationIds)
      ensures r.Some? ==>
                var id := r.value;
                && id == old(nextApplicationId) && id >= 1
                && (forall k :: k in old(issuedApplicationIds) ==> k < id)
                && id !in old(applications)
                && applications == old(applications)[id := ApplicationRow(id, input, now)]
                && nextApplicationId == old(nextApplicationId) + 1
                && issuedApplicationIds == old(issuedApplicationIds) + {id}
      ensures jobs == old(jobs)
    {
      if enforceForeignKeys && input.jobId.Some? && input.jobId.value !in jobs {
        return None;
      }
      var id := nextApplicationId;
      applications := applications[id := ApplicationRow(id, input, now)];
      nextApplicationId := nextApplicationId + 1;
      issuedApplicationIds := issuedApplicationIds + {id};
      r := Some(id);
    }
  }

  /** A second delete of the same id finds nothing to remove. */
  method DeleteTwice(db: CareersStore, id: int) returns (first: bool, second: bool)
    requires db.Valid()
    modifies db`jobs, db`applications
    ensures db.Valid()
    ensures first <==> id in old(db.jobs)
    ensures !second
    ensures db.jobs == old(db.jobs) - {id}
  {
    first := db.DeleteJob(id);
    second := db.DeleteJob(id);
  }

  /** Ids are never reused: on any store, a job created after a stored job
      was deleted gets a larger id than the deleted one. */
  method NoReuseAfterDelete(db: CareersStore, id: int, input: JobInput, now: nat) returns (deleted: bool, created: Job)
    requires db.Valid() && id in db.jobs
    modifies db
    ensures db.Valid()
    ensures deleted && id !in db.jobs
    ensures created.input == input && created.id in db.jobs && db.jobs[created.id] == created
    ensures id < created.id
  {
    deleted := db.DeleteJob(id);
    var r := db.CreateJob(input, now);
    created := r.value;
  }

  /** Three jobs created at increasing times are listed last-created first. */
  method ThreeJobsListed(a: JobInput, b: JobInput, c: JobInput) returns (rows: seq<Job>)
    ensures |rows| == 3
    ensures rows[0].input == c && rows[1].input == b && rows[2].input == a
  {
    var db := new CareersStore(true);
    var j1 := db.CreateJob(a, 1);
    var j2 := db.CreateJob(b, 2);
    var j3 := db.CreateJob(c, 3);
    assert db.jobs == map[1 := Job(1, a, 1), 2 := Job(2, b, 2), 3 := Job(3, c, 3)];
    rows := db.ListJobs();
    ThreeRowsListed(rows, db.jobs, a, b, c);
  }

  /** A listing of exactly the three jobs of `ThreeJobsListed`. */
  lemma ThreeRowsListed(rows: seq<Job>, jobs: map<int, Job>, a: JobInput, b: JobInput, c: JobInput)
    requires jobs == map[1 := Job(1, a, 1), 2 := Job(2, b, 2), 3 := Job(3, c, 3)]
    requires NewestFirst(rows)
    requires forall i :: 0 <= i < |rows| ==> rows[i].id in jobs && jobs[rows[i].id] == rows[i]
    requires forall i, j :: 0 <= i < j < |rows| ==> rows[i].id != rows[j].id
    requires forall id :: id in jobs ==> exists i :: 0 <= i < |rows| && rows[i].id == id
    ensures |rows| == 3
    ensures rows[0].input == c && rows[1].input == b && rows[2].input == a
  {
    IdsOfThree(rows, jobs, a, b, c);
    assert 1 in jobs && 2 in jobs && 3 in jobs;
    var i3 :| 0 <= i3 < |rows| && rows[i3].id == 3;
    var i2 :| 0 <= i2 < |rows| && rows[i2].id == 2;
    var i1 :| 0 <= i1 < |rows| && rows[i1].id == 1;
    assert i3 == 0 && i2 == 1 && i1 == 2;
    assert jobs[3].input == c && jobs[2].input == b && jobs[1].input == a;
  }

  /** In that listing the ids descend from 3, one row per position. */
  lemma IdsOfThree(rows: seq<Job>, jobs: map<int, Job>, a: JobInput, b: JobInput, c: JobInput)
    requires jobs == map[1 := Job(1, a, 1), 2 := Job(2, b, 2), 3 := Job(3, c, 3)]
    requires NewestFirst(rows)
    requires forall i :: 0 <= i < |rows| ==> rows[i].id in jobs && jobs[rows[i].id] == rows[i]
    requires forall i, j :: 0 <= i < j < |rows| ==> rows[i].id != rows[j].id
    ensures |rows| <= 3
    ensures forall i :: 0 <= i < |rows| ==> 1 <= rows[i].id <= 3 - i
  {
    assert forall i :: 0 <= i < |rows| ==> rows[i].createdAt == rows[i].id && 1 <= rows[i].id <= 3;
    forall i | 0 <= i < |rows| ensures rows[i].id <= 3 - i {
      ListedIdsDescend(rows, 3, i);
    }
    if |rows| > 0 {
      assert 1 <= rows[|rows| - 1].id <= 3 - (|rows| - 1);
    }
  }

  /** In a newest-first list with distinct ids, where each creation time
      equals the id and no id exceeds `top`, the ids strictly descend from
      at most `top`. */
  lemma {:induction false} ListedIdsDescend(rows: seq<Job>, top: int, i: nat)
    requires NewestFirst(rows)
    requires forall k :: 0 <= k < |rows| ==> rows[k].createdAt == rows[k].id && rows[k].id <= top
    requires forall k, l :: 0 <= k < l < |rows| ==> rows[k].id != rows[l].id
    requires i < |rows|
    ensures rows[i].id <= top - i
  {
    if i > 0 {
      ListedIdsDescend(rows, top, i - 1);
      assert rows[i - 1].createdAt >= rows[i].createdAt;
    }
  }
}
