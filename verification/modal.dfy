/** The contact-form dialog: its local state and the handlers that change it.
    The awaited one-second delay in the submit handler is split into two
    events, the start of the submission and its completion. */
module Modal {

  datatype Step = Form | Download

  /** The three form controls, addressed by their `name` attribute. */
  datatype Field = Name | Email | Profession

  datatype FormData = FormData(name: string, email: string, profession: string)

  datatype State = State(step: Step, form: FormData, copiedCommand: bool, isSubmitting: bool)

  /** The options of the profession select, in order. */
  const Professions: seq<string> := [
    "Frontend Developer",
    "Backend Developer",
    "Full-stack Developer",
    "Mobile Developer",
    "DevOps Engineer",
    "UI/UX Designer",
    "Student",
    "Technical Lead",
    "CTO",
    "Other"
  ]

  const EmptyForm := FormData("", "", "")

  /** The state the component is created with. */
  const Initial := State(Form, EmptyForm, false, false)

  function Get(d: FormData, k: Field): string {
    match k
    case Name => d.name
    case Email => d.email
    case Profession => d.profession
  }

  /** `handleInputChange`: the named control takes the new value and the other
      two keep theirs. */
  function Update(s: State, k: Field, v: string): (r: State)
    ensures Get(r.form, k) == v
    ensures forall k' :: k' != k ==> Get(r.form, k') == Get(s.form, k')
    ensures r.step == s.step && r.copiedCommand == s.copiedCommand && r.isSubmitting == s.isSubmitting
  {
    var d := s.form;
    var d' := match k
      case Name => d.(name := v)
      case Email => d.(email := v)
      case Profession => d.(profession := v);
    s.(form := d')
  }

  /** The browser's checks on the `required` controls. The placeholder option
      has the value "", so only a listed profession passes. `emailAccepted`
      stands for the browser's verdict on the email control's format. */
  predicate RequiredFieldsFilled(d: FormData, emailAccepted: bool) {
    d.name != "" && d.email != "" && emailAccepted && d.profession in Professions
  }

  /** The form is on screen, its submit button is enabled, and the browser lets
      the submission through. */
  predicate CanSubmit(s: State, emailAccepted: bool) {
    s.step == Form && !s.isSubmitting && RequiredFieldsFilled(s.form, emailAccepted)
  }

  /** The first half of `handleSubmit`: marks the submission as pending. A
      blocked submission changes nothing. */
  function SubmitStart(s: State, emailAccepted: bool): (r: State)
    ensures r != s <==> CanSubmit(s, emailAccepted)
    ensures r.isSubmitting <==> s.isSubmitting || CanSubmit(s, emailAccepted)
    ensures r.step == s.step && r.form == s.form && r.copiedCommand == s.copiedCommand
  {
    if CanSubmit(s, emailAccepted) then s.(isSubmitting := true) else s
  }

  /** The second half of `handleSubmit`, run when the delay has elapsed: the
      submission is over and the download step is shown. It reads nothing but
      its own pending flag, so it runs even if the dialog was closed meanwhile. */
  function SubmitComplete(s: State): (r: State)
    requires s.isSubmitting
    ensures !r.isSubmitting && r.step == Download
    ensures r.form == s.form && r.copiedCommand == s.copiedCommand
  {
    s.(isSubmitting := false, step := Download)
  }

  /** `copyToClipboard` when the clipboard write succeeds. */
  function CopySucceeded(s: State): (r: State)
    ensures r.copiedCommand
    ensures r.step == s.step && r.form == s.form && r.isSubmitting == s.isSubmitting
  {
    s.(copiedCommand := true)
  }

  /** The timer started by a successful copy fires. */
  function CopyExpired(s: State): (r: State)
    ensures !r.copiedCommand
    ensures r.step == s.step && r.form == s.form && r.isSubmitting == s.isSubmitting
  {
    s.(copiedCommand := false)
  }

  /** `resetModal`: back to the form step with an empty form and no
      acknowledgement; a pending submission is left pending. */
  function Reset(s: State): (r: State)
    ensures r.step == Form && r.form == EmptyForm && !r.copiedCommand
    ensures r.isSubmitting == s.isSubmitting
  {
    State(Form, EmptyForm, false, s.isSubmitting)
  }

  /** What every reachable dialog state keeps: the download step is only
      reached once the submission is over. The acknowledgement is not tied to
      a step, since a clipboard write may finish after the dialog was reset. */
  ghost predicate Consistent(s: State) {
    s.step == Download ==> !s.isSubmitting
  }

  /** The form step with an empty form and no submission pending: what a
      reopened dialog shows, whatever its acknowledgement flag says. */
  predicate Blank(s: State) {
    s.step == Form && s.form == EmptyForm && !s.isSubmitting
  }

  /** With nothing pending, resetting is the same as starting afresh. */
  lemma ResetIsInitial(s: State)
    requires !s.isSubmitting
    ensures Reset(s) == Initial
  {
  }

  /** The initial state is an empty form in the form step, with nothing copied
      and nothing pending, and it is what a reset yields. */
  lemma InitialState()
    ensures Initial.step == Form && Initial.form == EmptyForm
    ensures !Initial.copiedCommand && !Initial.isSubmitting
    ensures Reset(Initial) == Initial && Consistent(Initial)
    ensures forall s :: Blank(s) && !s.copiedCommand <==> s == Initial
  {
  }

  /** The placeholder is not an option, so there are ten real choices and an
      untouched select blocks submission. */
  lemma ProfessionsListed()
    ensures |Professions| == 10
    ensures "" !in Professions
    ensures forall i, j :: 0 <= i < j < |Professions| ==> Professions[i] != Professions[j]
    ensures forall ea :: !RequiredFieldsFilled(EmptyForm, ea)
  {
  }

  /** A submission is accepted only with all three required fields set, and
      with any of them empty the state stays exactly as it was. */
  lemma SubmitNeedsAllFields(s: State, emailAccepted: bool)
    ensures SubmitStart(s, emailAccepted).isSubmitting && !s.isSubmitting ==>
      s.form.name != "" && s.form.email != "" && s.form.profession != ""
    ensures s.form.name == "" || s.form.email == "" || s.form.profession == "" ==>
      SubmitStart(s, emailAccepted) == s
  {
    ProfessionsListed();
  }

  /** A full submission leaves the typed contact data as it was and ends in the
      download step. */
  lemma SubmitThenComplete(s: State, emailAccepted: bool)
    requires CanSubmit(s, emailAccepted)
    ensures SubmitComplete(SubmitStart(s, emailAccepted)) == s.(step := Download)
  {
  }

  /** Editing a field and setting it back restores the state; editing two
      different fields commutes. */
  lemma UpdateFieldsIndependent(s: State, k1: Field, v1: string, k2: Field, v2: string)
    ensures Update(Update(s, k1, v1), k1, Get(s.form, k1)) == s
    ensures k1 != k2 ==> Update(Update(s, k1, v1), k2, v2) == Update(Update(s, k2, v2), k1, v1)
  {
  }

  /** A successful copy and its timer leave the dialog as it was before the copy. */
  lemma CopyThenExpire(s: State)
    requires !s.copiedCommand
    ensures CopyExpired(CopySucceeded(s)) == s
  {
  }
}
