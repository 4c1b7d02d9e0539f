/**
 * The simulated contact form: the submit handler, `showMessage` and the two
 * timer callbacks they schedule. Timers are not modelled as time: a scheduled
 * callback is a pending count, and the environment fires it by calling
 * `CompleteSubmission` or `ClearMessageClass`.
 */
module ContactForm {
  import opened Email

  const MissingFieldsText := "Por favor, preencha todos os campos."
  const InvalidEmailText := "Por favor, insira um e-mail v\U{00E1}lido."
  const SuccessText := "Mensagem enviada com sucesso! Entrarei em contato em breve."

  /** The class the message box has when no category is shown. */
  const BaseClass := "form-message"

  /** The two categories `showMessage` is called with. */
  datatype Kind = Error | Success

  function KindName(k: Kind): string {
    match k
    case Error => "error"
    case Success => "success"
  }

  /** `form-message <type>`, the class `showMessage` sets. */
  function ClassFor(k: Kind): (c: string)
    ensures |c| > |BaseClass| && c[..|BaseClass|] == BaseClass
  {
    BaseClass + " " + KindName(k)
  }

  /** The submit control's label: the idle label with its icon, or "Enviando...". */
  datatype Label = Idle | Sending

  /** Outcome of the submit handler's two checks. */
  datatype Verdict = MissingField | BadEmail | Accepted

  /** The checks in the handler's order: emptiness of the four fields first
      (an empty string is falsy), then the format of the e-mail. */
  function Validate(name: string, email: string, subject: string, message: string): (v: Verdict)
    ensures v == MissingField <==> (name == "" || email == "" || subject == "" || message == "")
    ensures v == BadEmail ==> !MatchesPattern(email)
    ensures v == Accepted <==>
      (name != "" && subject != "" && message != "" && MatchesPattern(email))
  {
    if name == "" || email == "" || subject == "" || message == "" then MissingField
    else if !IsValidEmail(email) then BadEmail
    else Accepted
  }

  /** The format of the e-mail decides nothing while some field is empty. */
  lemma EmptyFieldDecidesFirst(name: string, email: string, email': string, subject: string, message: string)
    requires name == "" || subject == "" || message == ""
    ensures Validate(name, email, subject, message) == Validate(name, email', subject, message) == MissingField
  {
  }

  class Form {
    var name: string
    var email: string
    var subject: string
    var message: string
    var submitDisabled: bool
    var submitLabel: Label
    var messageText: string
    var messageClass: string
    /** Completion callbacks scheduled by the submit handler and not yet run. */
    var pendingSends: nat
    /** Class-clearing callbacks scheduled by `showMessage` and not yet run. */
    var pendingClears: nat

    /** The control is disabled exactly while it shows "Enviando...", and only
        while a completion is pending; a category is shown only while a clear
        is pending, so it is always removed eventually. */
    ghost predicate Valid()
      reads this
    {
      && (submitDisabled <==> submitLabel == Sending)
      && (submitDisabled ==> pendingSends > 0)
      && (messageClass != BaseClass ==> pendingClears > 0)
    }

    constructor ()
      ensures Valid()
      ensures name == email == subject == message == ""
      ensures !submitDisabled && submitLabel == Idle
      ensures messageText == "" && messageClass == BaseClass
      ensures pendingSends == 0 && pendingClears == 0
    {
      name, email, subject, message := "", "", "", "";
      submitDisabled, submitLabel := false, Idle;
      messageText, messageClass := "", BaseClass;
      pendingSends, pendingClears := 0, 0;
    }

    /** The visitor types into the four fields. */
    method Fill(name': string, email': string, subject': string, message': string)
      requires Valid()
      modifies this
      ensures Valid()
      ensures name == name' && email == email' && subject == subject' && message == message'
      ensures submitDisabled == old(submitDisabled) && submitLabel == old(submitLabel)
      ensures messageText == old(messageText) && messageClass == old(messageClass)
      ensures pendingSends == old(pendingSends) && pendingClears == old(pendingClears)
    {
      name, email, subject, message := name', email', subject', message';
    }

    /** `showMessage`: text and category class at once, and a clear scheduled. */
    method ShowMessage(text: string, kind: Kind)
      requires Valid()
      modifies this
      ensures Valid()
      ensures messageText == text && messageClass == ClassFor(kind)
      ensures pendingClears == old(pendingClears) + 1
      ensures name == old(name) && email == old(email) && subject == old(subject) && message == old(message)
      ensures submitDisabled == old(submitDisabled) && submitLabel == old(submitLabel)
      ensures pendingSends == old(pendingSends)
    {
      messageText := text;
      messageClass := ClassFor(kind);
      pendingClears := pendingClears + 1;
    }

    /** The delayed clear of `showMessage`: only the class goes back to the
        base class; the text stays. */
    method ClearMessageClass()
      requires Valid() && pendingClears > 0
      modifies this
      ensures Valid()
      ensures messageClass == BaseClass && messageText == old(messageText)
      ensures pendingClears == old(pendingClears) - 1
      ensures name == old(name) && email == old(email) && subject == old(subject) && message == old(message)
      ensures submitDisabled == old(submitDisabled) && submitLabel == old(submitLabel)
      ensures pendingSends == old(pendingSends)
    {
      messageClass := BaseClass;
      pendingClears := pendingClears - 1;
    }

    /** The submit handler. It never changes the fields; it either shows an
        error (and leaves the control as it was) or enters the sending state
        (and leaves the message box as it was). */
    method Submit()
      requires Valid()
      modifies this
      ensures Valid()
      ensures name == old(name) && email == old(email) && subject == old(subject) && message == old(message)
      ensures old(Validate(name, email, subject, message)) == MissingField ==>
        && messageText == MissingFieldsText && messageClass == ClassFor(Error)
        && submitDisabled == old(submitDisabled) && submitLabel == old(submitLabel)
        && pendingSends == old(pendingSends) && pendingClears == old(pendingClears) + 1
      ensures old(Validate(name, email, subject, message)) == BadEmail ==>
        && messageText == InvalidEmailText && messageClass == ClassFor(Error)
        && submitDisabled == old(submitDisabled) && submitLabel == old(submitLabel)
        && pendingSends == old(pendingSends) && pendingClears == old(pendingClears) + 1
      ensures old(Validate(name, email, subject, message)) == Accepted ==>
        && submitDisabled && submitLabel == Sending
        && messageText == old(messageText) && messageClass == old(messageClass)
        && pendingSends == old(pendingSends) + 1 && pendingClears == old(pendingClears)
    {
      if name == "" || email == "" || subject == "" || message == "" {
        ShowMessage(MissingFieldsText, Error);
        return;
      }
      if !IsValidEmail(email) {
        ShowMessage(InvalidEmailText, Error);
        return;
      }
      submitDisabled := true;
      submitLabel := Sending;
      pendingSends := pendingSends + 1;
    }

    /** The completion timer of a submission: success message, every field
        back to its default (empty) value, control enabled with its label. */
    method CompleteSubmission()
      requires Valid() && pendingSends > 0
      modifies this
      ensures Valid()
      ensures messageText == SuccessText && messageClass == ClassFor(Success)
      ensures name == email == subject == message == ""
      ensures !submitDisabled && submitLabel == Idle
      ensures pendingSends == old(pendingSends) - 1 && pendingClears == old(pendingClears) + 1
    {
      ShowMessage(SuccessText, Success);
      name, email, subject, message := "", "", "", "";
      submitDisabled := false;
      submitLabel := Idle;
      pendingSends := pendingSends - 1;
    }
  }

  /** The address of the accepted scenario matches the pattern. */
  lemma SampleAddressValid()
    ensures MatchesPattern("ana@mail.com")
  {
    var a, b, c := "ana", "mail", "com";
    assert IsPart(a) && IsPart(b) && IsPart(c);
    assert Compose(a, b, c) == "ana@mail.com";
  }

  /** A valid submission, then its completion, then the clear of the class. */
  method AcceptedScenario()
  {
    var f := new Form();
    f.Fill("Ana", "ana@mail.com", "Hi", "Hello");
    SampleAddressValid();
    f.Submit();
    assert f.submitDisabled && f.submitLabel == Sending;
    f.CompleteSubmission();
    assert f.messageText == SuccessText && f.messageClass == "form-message success";
    assert f.name == f.email == f.subject == f.message == "";
    assert !f.submitDisabled && f.submitLabel == Idle;
    f.ClearMessageClass();
    assert f.messageClass == BaseClass && f.messageText == SuccessText;
  }

  /** A submission with an empty name: error shown, fields and control as they were. */
  method MissingNameScenario()
  {
    var f := new Form();
    f.Fill("", "x", "y", "z");
    f.Submit();
    assert f.messageText == MissingFieldsText && f.messageClass == "form-message error";
    assert f.name == "" && f.email == "x" && f.subject == "y" && f.message == "z";
    assert !f.submitDisabled && f.submitLabel == Idle;
  }
}
