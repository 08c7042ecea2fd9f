/** The public application endpoint (`POST /api/applications`): checks the
    mail configuration, reads and validates the body, looks up the job title,
    stores the application, then mails it to the careers inbox. The row is
    written before the mail is sent, and a failed send does not remove it. */
module Applications {
  import opened Wrappers
  import opened Strings
  import opened Forms
  import opened Http
  import opened CareersDb

  /** The JSON body (`ApplicationPayload`); absent properties are `None`. */
  datatype ApplicationPayload = ApplicationPayload(
    jobId: Option<int>,
    fullName: Option<string>,
    email: Option<string>,
    phone: Option<string>,
    portfolio: Option<string>,
    resumeUrl: Option<string>,
    coverLetter: Option<string>)

  /** Where the mail goes: CAREERS_TO, else CONTACT_TO, else SMTP_USER. */
  function Recipient(env: Env): (to: Option<string>)
    ensures Truthy(env.careersTo) ==> to == env.careersTo
    ensures !Truthy(env.careersTo) && Truthy(env.contactTo) ==> to == env.contactTo
    ensures !Truthy(env.careersTo) && !Truthy(env.contactTo) ==> to == env.smtpUser
  {
    Or(env.careersTo, Or(env.contactTo, env.smtpUser))
  }

  /** SMTP_USER, SMTP_PASS and a recipient are all set. */
  predicate MailConfigured(env: Env) {
    Truthy(env.smtpUser) && Truthy(env.smtpPass) && Truthy(Recipient(env))
  }

  /** The recipient check adds nothing once SMTP_USER is set: the fallback
      chain ends in it. */
  lemma ConfiguredIffCredentials(env: Env)
    ensures MailConfigured(env) <==> Truthy(env.smtpUser) && Truthy(env.smtpPass)
  {
  }

  function PayloadFields(p: ApplicationPayload): seq<Field> {
    [Field("fullName", p.fullName), Field("email", p.email), Field("coverLetter", p.coverLetter)]
  }

  /** `getMissingFields`: the blank ones among fullName, email and
      coverLetter, in that order. */
  function MissingApplicationFields(p: ApplicationPayload): (missing: seq<string>)
    ensures IsSubsequence(missing, ["fullName", "email", "coverLetter"])
    ensures missing == [] <==> !Blank(p.fullName) && !Blank(p.email) && !Blank(p.coverLetter)
  {
    var fields := PayloadFields(p);
    assert Names(fields) == ["fullName", "email", "coverLetter"];
    NoneMissing(fields);
    assert fields[0].value == p.fullName && fields[1].value == p.email && fields[2].value == p.coverLetter;
    assert (forall i :: 0 <= i < |fields| ==> !Blank(fields[i].value)) <==>
           !Blank(p.fullName) && !Blank(p.email) && !Blank(p.coverLetter);
    MissingFields(fields)
  }

  /** Each required field is reported exactly when it is blank. */
  lemma MissingApplicationFieldNames(p: ApplicationPayload)
    ensures "fullName" in MissingApplicationFields(p) <==> Blank(p.fullName)
    ensures "email" in MissingApplicationFields(p) <==> Blank(p.email)
    ensures "coverLetter" in MissingApplicationFields(p) <==> Blank(p.coverLetter)
  {
    var fields := PayloadFields(p);
    assert forall i, j :: 0 <= i < j < |fields| ==> |fields[i].name| != |fields[j].name|;
    MissingExactly(fields, 0);
    MissingExactly(fields, 1);
    MissingExactly(fields, 2);
  }

  /** The responses given before anything is stored: no mail configuration
      (500, before the body is read), an unreadable body (400), missing
      fields (400). `None` means the application goes ahead. */
  function Rejection(env: Env, payload: Option<ApplicationPayload>): (r: Option<Response>)
    ensures !MailConfigured(env) ==> r == Some(Failure(500, "Email service is not configured."))
    ensures MailConfigured(env) && payload.None? ==> r == Some(Failure(400, "Invalid request body."))
    ensures MailConfigured(env) && payload.Some? && MissingApplicationFields(payload.value) != [] ==>
              r == Some(Failure(400, MissingMessage(MissingApplicationFields(payload.value))))
    ensures r.None? <==> MailConfigured(env) && payload.Some? && MissingApplicationFields(payload.value) == []
  {
    if !MailConfigured(env) then Some(Failure(500, "Email service is not configured."))
    else if payload.None? then Some(Failure(400, "Invalid request body."))
    else
      var missing := MissingApplicationFields(payload.value);
      if missing != [] then Some(Failure(400, MissingMessage(missing))) else None
  }

  /** `x?.trim()` on an optional field. */
  function TrimOptional(x: Option<string>): (r: Option<string>)
    ensures r.Some? <==> x.Some?
    ensures r.Some? ==> r.value == Trim(x.value) && IsTrimmed(r.value)
  {
    if x.Some? then Some(Trim(x.value)) else None
  }

  /** The input given to `createApplication`: `jobId ?? null`, every text
      field trimmed. */
  function StoredInput(p: ApplicationPayload): (input: ApplicationInput)
    requires MissingApplicationFields(p) == []
    ensures input.jobId == p.jobId
    ensures input.fullName == Trim(p.fullName.value) && input.email == Trim(p.email.value)
    ensures input.coverLetter == Trim(p.coverLetter.value)
    ensures input.phone == TrimOptional(p.phone) && input.portfolio == TrimOptional(p.portfolio)
    ensures input.resumeUrl == TrimOptional(p.resumeUrl)
    ensures input.fullName != "" && input.email != "" && input.coverLetter != ""
    ensures IsTrimmed(input.fullName) && IsTrimmed(input.email) && IsTrimmed(input.coverLetter)
    ensures input.phone.Some? ==> IsTrimmed(input.phone.value)
    ensures input.portfolio.Some? ==> IsTrimmed(input.portfolio.value)
    ensures input.resumeUrl.Some? ==> IsTrimmed(input.resumeUrl.value)
  {
    ApplicationInput(p.jobId, Trim(p.fullName.value), Trim(p.email.value), TrimOptional(p.phone),
                     TrimOptional(p.portfolio), TrimOptional(p.resumeUrl), Trim(p.coverLetter.value))
  }

  /** `payload.jobId ? getJobById(...) : null`: the job is looked up only
      for a truthy id, so 0 is never looked up. */
  predicate LooksUpJob(p: ApplicationPayload) {
    p.jobId.Some? && p.jobId.value != 0
  }

  /** `job?.title`. */
  function TitleOf(job: Option<Job>): (title: Option<string>)
    ensures title.Some? <==> job.Some?
    ensures job.Some? ==> title.value == job.value.input.title
  {
    if job.Some? then Some(job.value.input.title) else None
  }

  /** `messageLines`: the mail body, one entry per line, built from the
      payload as received (not trimmed). */
  function MessageLines(applicationId: nat, p: ApplicationPayload, job: Option<Job>): (lines: seq<string>)
    requires MissingApplicationFields(p) == []
    ensures |lines| == 10
    ensures lines[0] == "Application ID: " + NatToString(applicationId)
    ensures lines[1] == "Name: " + p.fullName.value && lines[2] == "Email: " + p.email.value
    ensures lines[3] == "Phone: " + (if Truthy(p.phone) then p.phone.value else "Not provided")
    ensures lines[4] == "Portfolio: " + (if Truthy(p.portfolio) then p.portfolio.value else "Not provided")
    ensures lines[5] == "Resume URL: " + (if Truthy(p.resumeUrl) then p.resumeUrl.value else "Not provided")
    ensures lines[6] == "Job: " + (if job.Some? && job.value.input.title != "" then job.value.input.title else "General Application")
    ensures lines[7] == "" && lines[8] == "Cover Letter:" && lines[9] == p.coverLetter.value
  {
    [ "Application ID: " + NatToString(applicationId),
      "Name: " + p.fullName.value,
      "Email: " + p.email.value,
      "Phone: " + OrElse(p.phone, "Not provided"),
      "Portfolio: " + OrElse(p.portfolio, "Not provided"),
      "Resume URL: " + OrElse(p.resumeUrl, "Not provided"),
      "Job: " + OrElse(TitleOf(job), "General Application"),
      "",
      "Cover Letter:",
      p.coverLetter.value ]
  }

  /** The subject line: the job title, or "General", then the applicant. */
  function Subject(p: ApplicationPayload, job: Option<Job>): (subject: string)
    requires MissingApplicationFields(p) == []
    ensures subject == "New Application: " + (if job.Some? && job.value.input.title != "" then job.value.input.title else "General") + " - " + p.fullName.value
  {
    "New Application: " + OrElse(TitleOf(job), "General") + " - " + p.fullName.value
  }

  /** The mail handed to `sendMail`. */
  function ApplicationMail(env: Env, applicationId: nat, p: ApplicationPayload, job: Option<Job>): (m: Mail)
    requires MailConfigured(env) && MissingApplicationFields(p) == []
    ensures m.to == Recipient(env).value && m.replyTo == p.email.value
    ensures m.subject == Subject(p, job)
  {
    Mail("VelanDev Careers <" + env.smtpUser.value + ">",
         Recipient(env).value,
         p.email.value,
         Subject(p, job),
         Join(MessageLines(applicationId, p, job), "\n"))
  }

  /** The first line of the body carries the stored id, and it reads back. */
  lemma IdReadsBack(applicationId: nat, p: ApplicationPayload, job: Option<Job>)
    requires MissingApplicationFields(p) == []
    ensures var line := MessageLines(applicationId, p, job)[0];
            |line| > 16 && line[..16] == "Application ID: "
            && (forall i :: 16 <= i < |line| ==> '0' <= line[i] <= '9')
            && ParseDecimal(line[16..]) == applicationId
  {
    var line := MessageLines(applicationId, p, job)[0];
    assert line[16..] == NatToString(applicationId);
    ParseNatToString(applicationId);
  }

  /** When none of the one-line values contains a line break, splitting the
      sent text at line breaks gives back the nine lines before the cover
      letter, in order, followed by the lines of the cover letter itself. */
  lemma BodySplitsIntoLines(env: Env, applicationId: nat, p: ApplicationPayload, job: Option<Job>)
    requires MailConfigured(env) && MissingApplicationFields(p) == []
    requires SingleLine(p.fullName.value) && SingleLine(p.email.value)
    requires SingleLine(OrElse(p.phone, "Not provided")) && SingleLine(OrElse(p.portfolio, "Not provided"))
    requires SingleLine(OrElse(p.resumeUrl, "Not provided"))
    requires SingleLine(OrElse(TitleOf(job), "General Application"))
    ensures var lines := MessageLines(applicationId, p, job);
            Split(ApplicationMail(env, applicationId, p, job).text, '\n') == lines[..9] + Split(p.coverLetter.value, '\n')
  {
    var lines := MessageLines(applicationId, p, job);
    assert forall i :: 0 <= i < 9 ==> SingleLine(lines[i]) by {
      forall i | 0 <= i < 9 ensures SingleLine(lines[i]) {
        if i == 0 {
          LabelledLine("Application ID: ", NatToString(applicationId));
        } else if i == 1 {
          LabelledLine("Name: ", p.fullName.value);
        } else if i == 2 {
          LabelledLine("Email: ", p.email.value);
        } else if i == 3 {
          LabelledLine("Phone: ", OrElse(p.phone, "Not provided"));
        } else if i == 4 {
          LabelledLine("Portfolio: ", OrElse(p.portfolio, "Not provided"));
        } else if i == 5 {
          LabelledLine("Resume URL: ", OrElse(p.resumeUrl, "Not provided"));
        } else if i == 6 {
          LabelledLine("Job: ", OrElse(TitleOf(job), "General Application"));
        }
      }
    }
    SplitJoinLast(lines, '\n');
  }

  /** Without a matching job, the body says "General Application" and the
      subject says "General". */
  lemma GeneralApplication(env: Env, applicationId: nat, p: ApplicationPayload)
    requires MailConfigured(env) && MissingApplicationFields(p) == []
    ensures MessageLines(applicationId, p, None)[6] == "Job: " + "General Application"
    ensures ApplicationMail(env, applicationId, p, None).subject == "New Application: " + "General" + " - " + p.fullName.value
  {
  }

  /** The job named in the mail: the row with the payload's id, looked up
      only for a truthy id. */
  function JobFor(jobs: map<int, Job>, p: ApplicationPayload): (job: Option<Job>)
    ensures job.Some? ==> LooksUpJob(p) && p.jobId.value in jobs && job.value == jobs[p.jobId.value]
    ensures job.None? ==> !LooksUpJob(p) || p.jobId.value !in jobs
  {
    if LooksUpJob(p) && p.jobId.value in jobs then Some(jobs[p.jobId.value]) else None
  }

  /** The store refuses the row: foreign keys are enforced and the payload's
      `jobId` names no stored job (0 and negative ids included). */
  predicate InsertRefused(enforceForeignKeys: bool, jobs: map<int, Job>, p: ApplicationPayload) {
    enforceForeignKeys && p.jobId.Some? && p.jobId.value !in jobs
  }

  /** `POST /api/applications`. `delivered` is whether `sendMail` resolves;
      `sent` is the mail handed to it, if the handler got that far. A
      refused insert throws out of the handler before any mail is built. */
  method Submit(db: CareersStore, env: Env, payload: Option<ApplicationPayload>, now: nat, delivered: bool)
    returns (resp: Response, sent: Option<Mail>)
    requires db.Valid()
    modifies db`applications, db`nextApplicationId, db`issuedApplicationIds
    ensures db.Valid()
    ensures db.jobs == old(db.jobs)
    ensures Rejection(env, payload).Some? ==>
              resp == Rejection(env, payload).value && sent.None? && db.applications == old(db.applications)
              && db.nextApplicationId == old(db.nextApplicationId)
              && db.issuedApplicationIds == old(db.issuedApplicationIds)
    ensures Rejection(env, payload).None? && InsertRefused(db.enforceForeignKeys, old(db.jobs), payload.value) ==>
              resp == UncaughtError() && sent.None? && db.applications == old(db.applications)
              && db.nextApplicationId == old(db.nextApplicationId)
              && db.issuedApplicationIds == old(db.issuedApplicationIds)
    ensures Rejection(env, payload).None? && !InsertRefused(db.enforceForeignKeys, old(db.jobs), payload.value) ==>
              var id := old(db.nextApplicationId);
              var p := payload.value;
              && id >= 1
              && id !in old(db.applications)
              && db.applications == old(db.applications)[id := ApplicationRow(id, StoredInput(p), now)]
              && db.nextApplicationId == id + 1
              && db.issuedApplicationIds == old(db.issuedApplicationIds) + {id}
              && sent == Some(ApplicationMail(env, id, p, JobFor(old(db.jobs), p)))
              && resp == (if delivered then Success(Submitted(id))
                          else Failure(500, "Failed to send application email."))
  {
    var rejection := Rejection(env, payload);
    if rejection.Some? {
      resp, sent := rejection.value, None;
      return;
    }
    var p := payload.value;
    var job: Option<Job> := None;
    if LooksUpJob(p) {
      job := db.GetJobById(p.jobId.value);
    }
    var stored := db.CreateApplication(StoredInput(p), now);
    if stored.None? {
      resp, sent := UncaughtError(), None;
      return;
    }
    var applicationId := stored.value;
    var mail := ApplicationMail(env, applicationId, p, job);
    sent := Some(mail);
    if delivered {
      resp := Success(Submitted(applicationId));
    } else {
      resp := Failure(500, "Failed to send application email.");
    }
  }

  /** A complete application without `jobId`: one row is added, with a NULL
      job reference, and the subject names the "General" category. */
  method GeneralApplicationStored(db: CareersStore, env: Env, p: ApplicationPayload, now: nat)
    returns (resp: Response, sent: Option<Mail>)
    requires db.Valid() && MailConfigured(env) && MissingApplicationFields(p) == [] && p.jobId.None?
    modifies db`applications, db`nextApplicationId, db`issuedApplicationIds
    ensures var id := old(db.nextApplicationId);
            && db.applications.Keys == old(db.applications).Keys + {id}
            && id !in old(db.applications)
            && db.applications[id].jobId.None?
    ensures sent.Some? && sent.value.subject == "New Application: " + "General" + " - " + p.fullName.value
  {
    assert Rejection(env, Some(p)).None?;
    assert !InsertRefused(db.enforceForeignKeys, db.jobs, p);
    resp, sent := Submit(db, env, Some(p), now, true);
  }
}
