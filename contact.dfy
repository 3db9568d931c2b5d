/**
 * The contact form of `Contact.tsx`: per-field rules collected into an
 * errors dictionary, per-field edits that clear that field's error, and a
 * submit that (after a delay) resets the form.
 */
module ContactPage {
  import opened Common

  /** The four inputs, by their `name` attribute. */
  datatype Field = Name | Email | Subject | Message

  datatype FormData = FormData(name: string, email: string, subject: string, message: string) {
    function Get(f: Field): string {
      match f
      case Name => name
      case Email => email
      case Subject => subject
      case Message => message
    }

    /** `{ ...prev, [f]: v }`. */
    function Set(f: Field, v: string): (r: FormData)
      ensures r.Get(f) == v
      ensures forall g: Field | g != f :: r.Get(g) == Get(g)
    {
      match f
      case Name => this.(name := v)
      case Email => this.(email := v)
      case Subject => this.(subject := v)
      case Message => this.(message := v)
    }
  }

  const EmptyForm := FormData("", "", "", "")

  const NameRequired := "Name is required"
  const EmailRequired := "Email is required"
  const EmailInvalid := "Email is invalid"
  const SubjectRequired := "Subject is required"
  const MessageRequired := "Message is required"
  const MessageTooShort := "Message must be at least 10 characters"

  /** `/^\S+@\S+\.\S+$/.test(s)`: no whitespace anywhere, an `@` after at
      least one character, and a later `.` with at least one character
      between them and at least one after it. The shortest match, `a@b.c`,
      has five characters. */
  predicate EmailPattern(s: string)
    ensures EmailPattern(s) ==> |s| >= 5 && !IsWs(s[0]) && !IsWs(s[|s| - 1])
  {
    && (forall k | 0 <= k < |s| :: !IsWs(s[k]))
    && exists i, j | 1 <= i && i + 2 <= j <= |s| - 2 :: s[i] == '@' && s[j] == '.'
  }

  /** A matching address is never blank. */
  lemma EmailPatternNotBlank(s: string)
    ensures EmailPattern(s) ==> !Blank(s)
  {
    if EmailPattern(s) {
      var i, j :| 1 <= i && i + 2 <= j <= |s| - 2 && s[i] == '@' && s[j] == '.';
      assert !IsWs(s[0]);
    }
  }

  lemma EmailPatternExamples()
    ensures EmailPattern("john.doe@example.com")
    ensures EmailPattern("a@@b..c")
    ensures !EmailPattern("a@b") && !EmailPattern("@b.c") && !EmailPattern("a@.c") && !EmailPattern("a@b.")
    ensures !EmailPattern("a b@c.d")
  {
    assert "john.doe@example.com"[8] == '@' && "john.doe@example.com"[16] == '.';
    assert "a@@b..c"[1] == '@' && "a@@b..c"[4] == '.';
    assert IsWs("a b@c.d"[1]);
  }

  function NameError(name: string): (e: Option<string>)
    ensures e.Some? <==> Blank(name)
    ensures e.Some? ==> e.value == NameRequired
  {
    if Blank(name) then Some(NameRequired) else None
  }

  /** At most one error: `required` when blank, else `invalid` when the
      untrimmed text fails the pattern. */
  function EmailError(email: string): (e: Option<string>)
    ensures e == Some(EmailRequired) <==> Blank(email)
    ensures e == Some(EmailInvalid) <==> !Blank(email) && !EmailPattern(email)
    ensures e == None <==> EmailPattern(email)
  {
    EmailPatternNotBlank(email);
    if Blank(email) then Some(EmailRequired)
    else if !EmailPattern(email) then Some(EmailInvalid)
    else None
  }

  function SubjectError(subject: string): (e: Option<string>)
    ensures e.Some? <==> Blank(subject)
    ensures e.Some? ==> e.value == SubjectRequired
  {
    if Blank(subject) then Some(SubjectRequired) else None
  }

  /** At most one error: `required` when blank, else `too short` when the
      untrimmed length is below 10. */
  function MessageError(message: string): (e: Option<string>)
    ensures e == Some(MessageRequired) <==> Blank(message)
    ensures e == Some(MessageTooShort) <==> !Blank(message) && |message| < 10
    ensures e == None <==> !Blank(message) && |message| >= 10
  {
    if Blank(message) then Some(MessageRequired)
    else if |message| < 10 then Some(MessageTooShort)
    else None
  }

  function FieldError(form: FormData, f: Field): Option<string> {
    match f
    case Name => NameError(form.name)
    case Email => EmailError(form.email)
    case Subject => SubjectError(form.subject)
    case Message => MessageError(form.message)
  }

  /** `m` with the entry `f: e` added when there is an error `e`. */
  function Put(m: map<Field, string>, f: Field, e: Option<string>): map<Field, string> {
    if e.Some? then m[f := e.value] else m
  }

  /** The dictionary `validateForm` stores: one entry per field that has an
      error, holding that error. */
  function FormErrors(form: FormData): (m: map<Field, string>)
    ensures forall f: Field :: f in m <==> FieldError(form, f).Some?
    ensures forall f: Field | f in m :: m[f] == FieldError(form, f).value
  {
    var m1 := Put(map[], Name, NameError(form.name));
    var m2 := Put(m1, Email, EmailError(form.email));
    var m3 := Put(m2, Subject, SubjectError(form.subject));
    Put(m3, Message, MessageError(form.message))
  }

  /** What a valid form is, stated without the error messages. */
  predicate ValidForm(form: FormData) {
    && !Blank(form.name)
    && EmailPattern(form.email)
    && !Blank(form.subject)
    && !Blank(form.message) && |form.message| >= 10
  }

  /** The form has no errors exactly when it is valid. */
  lemma NoErrorsIffValid(form: FormData)
    ensures FormErrors(form) == map[] <==> ValidForm(form)
  {
    var m := FormErrors(form);
    if m == map[] {
      assert Name !in m && Email !in m && Subject !in m && Message !in m;
    } else {
      var f :| f in m;
      assert FieldError(form, f).Some?;
    }
  }

  /** Whitespace padding counts towards the message length. */
  lemma PaddedMessageIsLongEnough()
    ensures MessageError("   hi     ") == None
    ensures MessageError("          ") == Some(MessageRequired)
  {
    assert !IsWs("   hi     "[3]);
  }

  /** Editing one field's error: the keys stay, the edited field's entry
      (if any) becomes empty, the others are unchanged. */
  function ClearError(errors: map<Field, string>, f: Field): (r: map<Field, string>)
    ensures r.Keys == errors.Keys
    ensures f in r ==> r[f] == ""
    ensures forall g | g in r && g != f :: r[g] == errors[g]
  {
    if f in errors && errors[f] != "" then errors[f := ""] else errors
  }

  /** The page's state. */
  class ContactForm {
    var formData: FormData
    var errors: map<Field, string>
    var isSubmitting: bool
    var submitted: bool

    constructor ()
      ensures formData == EmptyForm && errors == map[] && !isSubmitting && !submitted
    {
      formData := EmptyForm;
      errors := map[];
      isSubmitting := false;
      submitted := false;
    }

    /** `validateForm`: builds the new dictionary field by field, replaces
        the stored one with it, and reports whether it is empty. */
    method ValidateForm() returns (ok: bool)
      modifies this`errors
      ensures errors == FormErrors(formData)
      ensures ok <==> ValidForm(formData)
    {
      var newErrors: map<Field, string> := map[];
      ghost var form := formData;
      if Blank(formData.name) {
        newErrors := newErrors[Name := NameRequired];
      }
      assert newErrors == Put(map[], Name, NameError(form.name));
      ghost var m1 := newErrors;
      if Blank(formData.email) {
        newErrors := newErrors[Email := EmailRequired];
      } else if !EmailPattern(formData.email) {
        newErrors := newErrors[Email := EmailInvalid];
      }
      assert newErrors == Put(m1, Email, EmailError(form.email));
      ghost var m2 := newErrors;
      if Blank(formData.subject) {
        newErrors := newErrors[Subject := SubjectRequired];
      }
      assert newErrors == Put(m2, Subject, SubjectError(form.subject));
      ghost var m3 := newErrors;
      if Blank(formData.message) {
        newErrors := newErrors[Message := MessageRequired];
      } else if |formData.message| < 10 {
        newErrors := newErrors[Message := MessageTooShort];
      }
      assert newErrors == Put(m3, Message, MessageError(form.message));
      errors := newErrors;
      ok := |newErrors| == 0;
      NoErrorsIffValid(formData);
    }

    /** `handleChange` for input `f` with value `v`. */
    method HandleChange(f: Field, v: string)
      modifies this`formData, this`errors
      ensures formData == old(formData).Set(f, v)
      ensures errors == ClearError(old(errors), f)
    {
      formData := formData.Set(f, v);
      if f in errors && errors[f] != "" {
        errors := errors[f := ""];
      }
    }

    /** `handleSubmit` up to the delayed block: validates, and only a valid
        form starts submitting. Returns whether the send was scheduled. */
    method HandleSubmit() returns (started: bool)
      modifies this
      ensures errors == FormErrors(old(formData))
      ensures started <==> ValidForm(old(formData))
      ensures isSubmitting == (started || old(isSubmitting))
      ensures formData == old(formData) && submitted == old(submitted)
    {
      started := ValidateForm();
      if started {
        isSubmitting := true;
      }
    }

    /** The delayed block: submitting ends, the form is marked sent and
        every field is emptied. */
    method CompleteSend()
      modifies this
      ensures !isSubmitting && submitted && formData == EmptyForm
      ensures errors == old(errors)
    {
      isSubmitting := false;
      submitted := true;
      formData := EmptyForm;
    }

    /** A whole submit, the delayed block run right after the handler. */
    method Submit()
      modifies this
      ensures errors == FormErrors(old(formData))
      ensures ValidForm(old(formData)) ==> formData == EmptyForm && submitted && !isSubmitting
      ensures !ValidForm(old(formData)) ==>
        formData == old(formData) && submitted == old(submitted) && isSubmitting == old(isSubmitting)
    {
      var started := HandleSubmit();
      if started {
        CompleteSend();
      }
    }
  }
}
