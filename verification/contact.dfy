/** The contact form: a five-field record edited one field at a time, and a
    flag raised when the form is submitted. Nothing is sent anywhere. */
module Contact {

  /** The form controls, each named after the record field it edits. */
  datatype Field = Name | Email | Subject | Message | ProjectType

  datatype FormData = FormData(
    name: string,
    email: string,
    subject: string,
    message: string,
    projectType: string)

  const InitialForm: FormData := FormData("", "", "", "", "video")

  /** The values offered by the project-type select. */
  const ProjectTypes: seq<string> := ["video", "photo", "both", "consultation"]

  /** The id of the section element that holds the form. */
  const SectionId: string := "contact"

  /** The `name` attribute of each control, which is the key of the record
      field a change event overwrites. */
  function FieldName(f: Field): string
  {
    match f
    case Name => "name"
    case Email => "email"
    case Subject => "subject"
    case Message => "message"
    case ProjectType => "projectType"
  }

  /** The controls have pairwise distinct names, so a change event names
      exactly one field. */
  lemma FieldNamesDistinct(f: Field, g: Field)
    ensures FieldName(f) == FieldName(g) <==> f == g
  {
  }

  function Get(form: FormData, f: Field): string
  {
    match f
    case Name => form.name
    case Email => form.email
    case Subject => form.subject
    case Message => form.message
    case ProjectType => form.projectType
  }

  /** `{...formData, [name]: value}`: the field `f` now holds `value`, every
      other field is as it was. */
  function WithField(form: FormData, f: Field, value: string): (r: FormData)
    ensures Get(r, f) == value
    ensures forall g :: g != f ==> Get(r, g) == Get(form, g)
  {
    match f
    case Name => form.(name := value)
    case Email => form.(email := value)
    case Subject => form.(subject := value)
    case Message => form.(message := value)
    case ProjectType => form.(projectType := value)
  }

  /** Two forms that agree on every field are the same form. */
  lemma FormsEqualByFields(a: FormData, b: FormData)
    requires forall f :: Get(a, f) == Get(b, f)
    ensures a == b
  {
    assert Get(a, Name) == Get(b, Name);
    assert Get(a, Email) == Get(b, Email);
    assert Get(a, Subject) == Get(b, Subject);
    assert Get(a, Message) == Get(b, Message);
    assert Get(a, ProjectType) == Get(b, ProjectType);
  }

  /** The two ensures of `WithField` pin its result down: any form that holds
      `value` in `f` and agrees with `form` elsewhere is `WithField(form, f, value)`. */
  lemma WithFieldDetermined(form: FormData, f: Field, value: string, r: FormData)
    requires Get(r, f) == value
    requires forall g :: g != f ==> Get(r, g) == Get(form, g)
    ensures r == WithField(form, f, value)
  {
    FormsEqualByFields(r, WithField(form, f, value));
  }

  /** A later change of the same field wins. */
  lemma LastChangeWins(form: FormData, f: Field, v: string, w: string)
    ensures WithField(WithField(form, f, v), f, w) == WithField(form, f, w)
  {
  }

  /** Changes of different fields do not interfere. */
  lemma ChangesCommute(form: FormData, f: Field, v: string, g: Field, w: string)
    requires f != g
    ensures WithField(WithField(form, f, v), g, w) == WithField(WithField(form, g, w), f, v)
  {
  }

  /** Writing back the value a field already holds changes nothing. */
  lemma UnchangedValueIsNoChange(form: FormData, f: Field)
    ensures WithField(form, f, Get(form, f)) == form
  {
  }

  /** The browser lets the form submit only when the controls marked
      `required` (all but the project type) are non-empty. */
  function RequiredFieldsFilled(form: FormData): (r: bool)
    ensures r <==> forall f :: f != ProjectType ==> Get(form, f) != ""
  {
    assert Get(form, Name) == form.name && Get(form, Email) == form.email;
    assert Get(form, Subject) == form.subject && Get(form, Message) == form.message;
    form.name != "" && form.email != "" && form.subject != "" && form.message != ""
  }

  lemma InitialFormCannotBeSubmitted()
    ensures !RequiredFieldsFilled(InitialForm)
    ensures Get(InitialForm, ProjectType) in ProjectTypes
    ensures forall f :: f != ProjectType ==> Get(InitialForm, f) == ""
  {
  }

  /** The submit button as drawn. */
  datatype SubmitButton = SubmitButton(disabled: bool, caption: string)

  const SendCaption: string := "Send Message"
  const SentCaption: string := "Message Sent!"

  function ButtonFor(isSubmitted: bool): (b: SubmitButton)
    ensures b.disabled == isSubmitted
    ensures b.caption == SentCaption <==> isSubmitted
    ensures b.caption == SendCaption <==> !isSubmitted
  {
    if isSubmitted then SubmitButton(true, SentCaption) else SubmitButton(false, SendCaption)
  }

  /** The state of the contact form. */
  class ContactForm {
    var formData: FormData
    var isSubmitted: bool

    /** The select offers only the project types, so the field never holds
        anything else. */
    ghost predicate Valid()
      reads this
    {
      formData.projectType in ProjectTypes
    }

    constructor ()
      ensures Valid()
      ensures formData == InitialForm && !isSubmitted
    {
      formData := InitialForm;
      isSubmitted := false;
    }

    /** A change event from the control of field `f`; the select only ever
        reports one of its options. */
    method HandleChange(f: Field, value: string)
      requires Valid()
      requires f == ProjectType ==> value in ProjectTypes
      modifies this
      ensures Valid()
      ensures formData == WithField(old(formData), f, value)
      ensures isSubmitted == old(isSubmitted)
    {
      formData := WithField(formData, f, value);
    }

    /** The submit handler. */
    method HandleSubmit()
      requires Valid()
      modifies this
      ensures Valid()
      ensures isSubmitted && formData == old(formData)
    {
      isSubmitted := true;
    }

    /** A press of the submit button: the browser refuses it while the button
        is disabled or a required control is empty, and otherwise runs the
        submit handler. */
    method PressSubmit() returns (submitted: bool)
      requires Valid()
      modifies this
      ensures Valid()
      ensures submitted == (!old(isSubmitted) && RequiredFieldsFilled(old(formData)))
      ensures isSubmitted == (old(isSubmitted) || submitted)
      ensures formData == old(formData)
    {
      submitted := !ButtonFor(isSubmitted).disabled && RequiredFieldsFilled(formData);
      if submitted {
        HandleSubmit();
      }
    }

    /** The three-second timer set by the submit handler fires. */
    method ResetTimerFires()
      requires Valid()
      modifies this
      ensures Valid()
      ensures !isSubmitted && formData == old(formData)
    {
      isSubmitted := false;
    }

    function Button(): (b: SubmitButton)
      reads this
      ensures b.disabled == isSubmitted
    {
      ButtonFor(isSubmitted)
    }
  }
}
