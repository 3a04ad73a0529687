/** The submit branch of the complaint form (app.py:248-279), as a
    decision: which check rejects the form, or what is classified,
    whether the administrator is alerted, and what is stored.

    The inputs the source gets from outside are parameters: the form
    fields, the classification service's reply and `float`, the
    department picked in the optional override box (`""` for none), and
    whether the alert e-mail was delivered. */
module Submission {
  import opened Options
  import opened Validation
  import opened Classifier
  import opened ComplaintStore

  /** Below this confidence the administrator is alerted (app.py:268). */
  const CONFIDENCE_THRESHOLD: real := 0.70

  /** The five form fields. `age` comes from a number input bounded to
      1..150 (app.py:240) and is not checked again. */
  datatype Form = Form(name: string, age: int, mobileNumber: string, emailId: string, complaint: string)

  /** The error messages of app.py:250, 252 and 254. */
  datatype Rejection = MissingField | InvalidEmail | InvalidMobile

  /** Whether `send_email_to_admin` was called, and what it returned. */
  datatype Alert = NoAlert | Alerted(delivered: bool)

  datatype Decision =
    | Rejected(reason: Rejection)
    | Accepted(record: Complaint, confidence: real, alert: Alert)

  /** `all([name, mobile_number, email_id, complaint])`: no text field is
      the empty string. */
  predicate AllFilled(form: Form)
  {
    form.name != "" && form.mobileNumber != "" && form.emailId != "" && form.complaint != ""
  }

  /** The checks of app.py:249-254, in the source's order: the first that
      fails decides the error. */
  function Gate(form: Form): (r: Option<Rejection>)
    ensures r == Some(MissingField) <==> !AllFilled(form)
    ensures r == Some(InvalidEmail) <==> AllFilled(form) && !IsValidEmail(form.emailId)
    ensures r == Some(InvalidMobile) <==>
      AllFilled(form) && IsValidEmail(form.emailId) && !IsValidMobile(form.mobileNumber)
    ensures r == None <==>
      AllFilled(form) && IsValidEmail(form.emailId) && IsValidMobile(form.mobileNumber)
  {
    if !AllFilled(form) then Some(MissingField)
    else if !IsValidEmail(form.emailId) then Some(InvalidEmail)
    else if !IsValidMobile(form.mobileNumber) then Some(InvalidMobile)
    else None
  }

  /** The submit branch: gate, classify, apply the override, decide on
      the alert. A form that passes the gate is always stored, whatever
      the alert returned. */
  function Submit(form: Form, reply: ServiceReply, parse: string -> Option<real>,
                  override: string, alertDelivered: bool): (d: Decision)
    requires override == "" || override in DEPARTMENTS
    ensures d.Rejected? <==> Gate(form).Some?
    ensures d.Rejected? ==> d.reason == Gate(form).value
    ensures d.Accepted? ==> d.record.department in DEPARTMENTS
    ensures d.Accepted? ==>
      d.record.department == (if override != "" then override else Classify(reply, parse).department)
    ensures d.Accepted? ==> d.confidence == Classify(reply, parse).confidence
    ensures d.Accepted? ==> (d.alert.Alerted? <==> d.confidence < CONFIDENCE_THRESHOLD)
    ensures d.Accepted? && d.alert.Alerted? ==> d.alert.delivered == alertDelivered
    ensures d.Accepted? ==>
      && d.record.name == form.name && d.record.age == form.age
      && d.record.mobileNumber == form.mobileNumber && d.record.emailId == form.emailId
      && d.record.complaint == form.complaint
  {
    match Gate(form)
    case Some(reason) => Rejected(reason)
    case None =>
      var c := Classify(reply, parse);
      var department := if override != "" then override else c.department;
      var record := Complaint(form.name, form.age, form.mobileNumber, form.emailId,
                              form.complaint, department);
      var alert := if c.confidence < CONFIDENCE_THRESHOLD then Alerted(alertDelivered) else NoAlert;
      Accepted(record, c.confidence, alert)
  }

  /** A rejected form is decided before classification: the reply, the
      override and the alert play no part, and nothing is stored. */
  lemma RejectionIgnoresService(form: Form,
                                reply1: ServiceReply, parse1: string -> Option<real>, override1: string, alert1: bool,
                                reply2: ServiceReply, parse2: string -> Option<real>, override2: string, alert2: bool)
    requires override1 == "" || override1 in DEPARTMENTS
    requires override2 == "" || override2 in DEPARTMENTS
    requires Gate(form).Some?
    ensures Submit(form, reply1, parse1, override1, alert1) == Submit(form, reply2, parse2, override2, alert2)
    ensures Submit(form, reply1, parse1, override1, alert1).Rejected?
  {
  }

  /** What is stored does not depend on whether the alert was delivered. */
  lemma StoredRecordIgnoresAlert(form: Form, reply: ServiceReply, parse: string -> Option<real>, override: string)
    requires override == "" || override in DEPARTMENTS
    requires Gate(form).None?
    ensures var sent, failed := Submit(form, reply, parse, override, true), Submit(form, reply, parse, override, false);
      sent.Accepted? && failed.Accepted? &&
      sent.record == failed.record && sent.confidence == failed.confidence
  {
  }

  /** A classification failure always alerts the administrator: the
      fallback confidence 0.0 is below the threshold. */
  lemma ServiceFailureAlerts(form: Form, parse: string -> Option<real>, override: string, alertDelivered: bool)
    requires override == "" || override in DEPARTMENTS
    requires Gate(form).None?
    ensures var d := Submit(form, ServiceFailure, parse, override, alertDelivered);
      d.Accepted? && d.alert.Alerted? &&
      d.record.department == (if override != "" then override else DEFAULT_DEPARTMENT)
  {
  }

  /** The submit branch as the source runs it, against the table: the
      checks in order, classification, the override, the alert decision,
      then the insert of app.py:275. */
  method SubmitComplaint(table: ComplaintTable, form: Form, reply: ServiceReply,
                         parse: string -> Option<real>, override: string,
                         alertDelivered: bool, now: string)
    returns (d: Decision, stored: bool)
    requires table.Valid()
    requires override == "" || override in DEPARTMENTS
    modifies table
    ensures table.Valid()
    ensures d == Submit(form, reply, parse, override, alertDelivered)
    ensures table.columns == old(table.columns)
    ensures stored <==> d.Accepted? && HasInsertColumns(table.columns)
    ensures stored ==> table.rows == old(table.rows) + [table.NewRow(old(table.rows), d.record, now)]
    ensures !stored ==> table.rows == old(table.rows)
  {
    stored := false;
    if !AllFilled(form) {
      return Rejected(MissingField), false;
    } else if !IsValidEmail(form.emailId) {
      return Rejected(InvalidEmail), false;
    } else if !IsValidMobile(form.mobileNumber) {
      return Rejected(InvalidMobile), false;
    }
    var c := ClassifyComplaint(reply, parse);
    var record := Complaint(form.name, form.age, form.mobileNumber, form.emailId,
                            form.complaint, c.department);
    if override != "" {
      record := record.(department := override);
    }
    var alert := NoAlert;
    if c.confidence < CONFIDENCE_THRESHOLD {
      alert := Alerted(alertDelivered);
    }
    d := Accepted(record, c.confidence, alert);
    stored := table.Insert(record, now);
  }

  // -----------------------------------------------------------------------
  // Whole submissions: a well-formed form with a confident and an
  // unconfident Shipping reply, and the same form with a short mobile number

  /** A complete, well-formed form. */
  const JANE: Form := Form("Jane Doe", 30, "9876543210", "jane@example.com", "Package arrived damaged")

  lemma JaneEmailValid()
    ensures IsValidEmail(JANE.emailId)
  {
    var local, host, tld := "jane", "example", "com";
    assert AllIn(WordDotDash, local);
    assert AllIn(WordDotDash, host);
    assert AllIn(Word, tld);
    EmailPartsMatch(local, host, tld);
    assert local + ['@'] + host + ['.'] + tld == JANE.emailId;
  }

  lemma JaneMobileValid()
    ensures IsValidMobile(JANE.mobileNumber)
  {
    MobileIsTenDigits(JANE.mobileNumber);
  }

  lemma JaneFormPasses()
    ensures Gate(JANE).None?
  {
    JaneEmailValid();
    JaneMobileValid();
  }

  /** The reply `Department: Shipping` / `Confidence: 0.92` stores
      Shipping and sends no alert, for any form that passes the checks
      (`JaneFormPasses` shows that `JANE` does). The two values are
      parameters fixed by the precondition rather than literals in the
      reply, because the verifier unfolds `strip` and `split` on a literal
      reply text character by character and runs out of resources. */
  lemma HighConfidenceShippingReply(form: Form, department: string, confidence: string,
                               parse: string -> Option<real>, alertDelivered: bool)
    requires Gate(form).None?
    requires department == "Shipping" && confidence == "0.92"
    requires parse(confidence) == Some(0.92)
    ensures var reply := Completion("Department: " + department + "\nConfidence: " + confidence);
      var d := Submit(form, reply, parse, "", alertDelivered);
      d.Accepted? && d.record.department == "Shipping" && d.confidence == 0.92 && d.alert == NoAlert
  {
    ClassifyWellFormedReply(department, confidence, parse);
  }

  /** A Shipping reply with confidence 0.40 alerts the administrator and stores
      Shipping whether or not the alert was delivered. The values are
      parameters for the same reason as above. */
  lemma LowConfidenceShippingReply(form: Form, department: string, confidence: string,
                              parse: string -> Option<real>, alertDelivered: bool)
    requires Gate(form).None?
    requires department == "Shipping" && confidence == "0.40"
    requires parse(confidence) == Some(0.40)
    ensures var reply := Completion("Department: " + department + "\nConfidence: " + confidence);
      var d := Submit(form, reply, parse, "", alertDelivered);
      d.Accepted? && d.record.department == "Shipping" && d.alert == Alerted(alertDelivered)
  {
    ClassifyWellFormedReply(department, confidence, parse);
  }

  /** A five-digit mobile number is rejected before any
      classification, whatever the service would have replied. */
  lemma ShortMobileRejected(reply: ServiceReply, parse: string -> Option<real>, alertDelivered: bool)
    ensures Submit(JANE.(mobileNumber := "12345"), reply, parse, "", alertDelivered) == Rejected(InvalidMobile)
  {
    JaneFormPasses();
    MobileIsTenDigits("12345");
  }
}
