/** What the handlers read from the process and what they hand back:
    environment variables, JSON responses with a status, and the e-mail
    message handed to the mail transport. */
module Http {
  import opened Wrappers
  import CareersDb

  /** The environment variables the handlers consult (`process.env.X`). */
  datatype Env = Env(
    adminToken: Option<string>,     // ADMIN_TOKEN
    adminPassword: Option<string>,  // ADMIN_PASSWORD
    smtpUser: Option<string>,       // SMTP_USER
    smtpPass: Option<string>,       // SMTP_PASS
    contactTo: Option<string>,      // CONTACT_TO
    careersTo: Option<string>,      // CAREERS_TO
    nodeEnv: Option<string>)        // NODE_ENV

  /** The JSON bodies the handlers send. */
  datatype Body =
    | Error(message: string)                    // { error }
    | JobResult(job: Option<CareersDb.Job>)     // { job }
    | Ok(ok: bool)                              // { ok }
    | Submitted(applicationId: int)             // { ok: true, applicationId }
    | Uncaught                                  // an exception escaped the handler

  /** What the framework answers when the handler throws: status 500 with
      no JSON body of the handler's making. */
  function UncaughtError(): Response {
    Response(500, Uncaught)
  }

  datatype Response = Response(status: int, body: Body)

  function Failure(status: int, message: string): Response {
    Response(status, Error(message))
  }

  /** `NextResponse.json(body)` without an explicit status. */
  function Success(body: Body): Response {
    Response(200, body)
  }

  /** The options object passed to `transporter.sendMail`. */
  datatype Mail = Mail(from: string, to: string, replyTo: string, subject: string, text: string)
}
