/** The contact endpoint (`POST /api/contact`): checks the mail
    configuration, reads and validates the body and mails the inquiry. It
    keeps no state; the outcome of `sendMail` is the parameter `delivered`. */
module Contact {
  import opened Wrappers
  import opened Strings
  import opened Forms
  import opened Http

  /** The JSON body (`ContactPayload`); absent properties are `None`. */
  datatype ContactPayload = ContactPayload(
    fullName: Option<string>,
    email: Option<string>,
    phone: Option<string>,
    company: Option<string>,
    message: Option<string>)

  /** The response, and the mail handed to `sendMail` if one was. */
  datatype ContactResult = ContactResult(response: Response, sent: Option<Mail>)

  /** Where the mail goes: CONTACT_TO, else SMTP_USER. */
  function ContactRecipient(env: Env): (to: Option<string>)
    ensures Truthy(env.contactTo) ==> to == env.contactTo
    ensures !Truthy(env.contactTo) ==> to == env.smtpUser
  {
    Or(env.contactTo, env.smtpUser)
  }

  predicate ContactConfigured(env: Env) {
    Truthy(env.smtpUser) && Truthy(env.smtpPass) && Truthy(ContactRecipient(env))
  }

  function PayloadFields(p: ContactPayload): seq<Field> {
    [Field("fullName", p.fullName), Field("email", p.email), Field("message", p.message)]
  }

  /** `getMissingFields`: the blank ones among fullName, email and message,
      in that order. */
  function MissingContactFields(p: ContactPayload): (missing: seq<string>)
    ensures IsSubsequence(missing, ["fullName", "email", "message"])
    ensures missing == [] <==> !Blank(p.fullName) && !Blank(p.email) && !Blank(p.message)
  {
    var fields := PayloadFields(p);
    assert Names(fields) == ["fullName", "email", "message"];
    NoneMissing(fields);
    assert fields[0].value == p.fullName && fields[1].value == p.email && fields[2].value == p.message;
    assert (forall i :: 0 <= i < |fields| ==> !Blank(fields[i].value)) <==>
           !Blank(p.fullName) && !Blank(p.email) && !Blank(p.message);
    MissingFields(fields)
  }

  /** Each required field is reported exactly when it is blank. */
  lemma MissingContactFieldNames(p: ContactPayload)
    ensures "fullName" in MissingContactFields(p) <==> Blank(p.fullName)
    ensures "email" in MissingContactFields(p) <==> Blank(p.email)
    ensures "message" in MissingContactFields(p) <==> Blank(p.message)
  {
    var fields := PayloadFields(p);
    assert forall i, j :: 0 <= i < j < |fields| ==> |fields[i].name| != |fields[j].name|;
    MissingExactly(fields, 0);
    MissingExactly(fields, 1);
    MissingExactly(fields, 2);
  }

  /** `messageLines`: the mail body, one entry per line. */
  function ContactLines(p: ContactPayload): (lines: seq<string>)
    requires MissingContactFields(p) == []
    ensures |lines| == 7
    ensures lines[0] == "Name: " + p.fullName.value && lines[1] == "Email: " + p.email.value
    ensures lines[2] == "Phone: " + (if Truthy(p.phone) then p.phone.value else "Not provided")
    ensures lines[3] == "Company: " + (if Truthy(p.company) then p.company.value else "Not provided")
    ensures lines[4] == "" && lines[5] == "Message:" && lines[6] == p.message.value
  {
    [ "Name: " + p.fullName.value,
      "Email: " + p.email.value,
      "Phone: " + OrElse(p.phone, "Not provided"),
      "Company: " + OrElse(p.company, "Not provided"),
      "",
      "Message:",
      p.message.value ]
  }

  /** The mail handed to `sendMail`. */
  function ContactMail(env: Env, p: ContactPayload): (m: Mail)
    requires ContactConfigured(env) && MissingContactFields(p) == []
    ensures m.to == ContactRecipient(env).value && m.replyTo == p.email.value
    ensures m.subject == "New Contact Request from " + p.fullName.value
  {
    Mail("VelanDev Website <" + env.smtpUser.value + ">",
         ContactRecipient(env).value,
         p.email.value,
         "New Contact Request from " + p.fullName.value,
         Join(ContactLines(p), "\n"))
  }

  /** `POST /api/contact`. */
  function Post(env: Env, payload: Option<ContactPayload>, delivered: bool): (r: ContactResult)
    ensures !ContactConfigured(env) ==> r == ContactResult(Failure(500, "Email service is not configured."), None)
    ensures ContactConfigured(env) && payload.None? ==> r == ContactResult(Failure(400, "Invalid request body."), None)
    ensures ContactConfigured(env) && payload.Some? && MissingContactFields(payload.value) != [] ==>
              r == ContactResult(Failure(400, MissingMessage(MissingContactFields(payload.value))), None)
    ensures r.sent.Some? <==> ContactConfigured(env) && payload.Some? && MissingContactFields(payload.value) == []
    ensures r.sent.Some? ==>
              && r.sent.value.to == ContactRecipient(env).value
              && r.sent.value.replyTo == payload.value.email.value
              && r.sent.value.subject == "New Contact Request from " + payload.value.fullName.value
    ensures r.sent.Some? ==> r.sent.value == ContactMail(env, payload.value)
    ensures r.response == Success(Ok(true)) <==> r.sent.Some? && delivered
    ensures r.sent.Some? && !delivered ==> r.response == Failure(500, "Failed to send email. Please try again.")
  {
    if !ContactConfigured(env) then ContactResult(Failure(500, "Email service is not configured."), None)
    else if payload.None? then ContactResult(Failure(400, "Invalid request body."), None)
    else
      var missing := MissingContactFields(payload.value);
      if missing != [] then ContactResult(Failure(400, MissingMessage(missing)), None)
      else
        var mail := ContactMail(env, payload.value);
        if delivered then ContactResult(Success(Ok(true)), Some(mail))
        else ContactResult(Failure(500, "Failed to send email. Please try again."), Some(mail))
  }

  /** When none of the one-line values contains a line break, the sent text
      splits back into the six lines before the message, in order, followed
      by the lines of the message itself. */
  lemma ContactBodySplitsIntoLines(env: Env, p: ContactPayload)
    requires ContactConfigured(env) && MissingContactFields(p) == []
    requires SingleLine(p.fullName.value) && SingleLine(p.email.value)
    requires SingleLine(OrElse(p.phone, "Not provided")) && SingleLine(OrElse(p.company, "Not provided"))
    ensures Split(ContactMail(env, p).text, '\n') == ContactLines(p)[..6] + Split(p.message.value, '\n')
  {
    var lines := ContactLines(p);
    assert forall i :: 0 <= i < 6 ==> SingleLine(lines[i]) by {
      forall i | 0 <= i < 6 ensures SingleLine(lines[i]) {
        if i == 0 {
          LabelledLine("Name: ", p.fullName.value);
        } else if i == 1 {
          LabelledLine("Email: ", p.email.value);
        } else if i == 2 {
          LabelledLine("Phone: ", OrElse(p.phone, "Not provided"));
        } else if i == 3 {
          LabelledLine("Company: ", OrElse(p.company, "Not provided"));
        }
      }
    }
    SplitJoinLast(lines, '\n');
  }
}
