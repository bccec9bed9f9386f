/** The page and its dialog together, driven by the events a visitor or a
    timer can cause. The dialog component stays mounted for the page's whole
    life, so its state survives being closed and reopened. */
module App {
  import opened Wrappers
  import opened Catalog
  import opened Artifacts
  import opened Modal
  import opened Page

  /** The page and its dialog, plus the asynchronous work in flight: clipboard
      writes started by a copy click and not yet settled, and copy timers
      started by a successful write and not yet fired. */
  datatype AppState = AppState(page: PageState, modal: State, writesPending: nat, timersPending: nat)

  const InitialApp := AppState(InitialPage, Initial, 0, 0)

  datatype Event =
    | TypeSearch(term: string)
    | ChooseFramework(framework: Framework)
    | EditField(field: Field, value: string)
    | SubmitForm(emailAccepted: bool)
    | SubmitDelayElapsed
    | CopyClicked
    | CopySettled(succeeded: bool)
    | CopyTimerFired
    | CloseDialog

  /** The dialog's render guard: it draws nothing unless it is open and has a framework. */
  predicate DialogShown(a: AppState) {
    a.page.modalOpen && a.page.selected.Some?
  }

  predicate FormShown(a: AppState) {
    DialogShown(a) && a.modal.step == Form
  }

  predicate DownloadShown(a: AppState) {
    DialogShown(a) && a.modal.step == Download
  }

  /** What the dialog puts on screen. */
  datatype View =
    | Hidden
    | FormView(framework: Framework, submitDisabled: bool)
    | DownloadView(framework: Framework, archiveUrl: string, cloneCommand: string, copied: bool)

  function Render(a: AppState): (v: View)
    ensures v.Hidden? <==> !a.page.modalOpen || a.page.selected.None?
    ensures !v.Hidden? ==> Some(v.framework) == a.page.selected
    ensures v.FormView? <==> FormShown(a)
    ensures v.FormView? ==> (v.submitDisabled <==> a.modal.isSubmitting)
    ensures v.DownloadView? ==>
      && RepositoryOfDownloadUrl(v.archiveUrl) == Some(v.framework.repository)
      && RepositoryOfCloneCommand(v.cloneCommand) == Some(v.framework.repository)
  {
    if !a.page.modalOpen || a.page.selected.None? then Hidden
    else
      var f := a.page.selected.value;
      if a.modal.step == Form then FormView(f, a.modal.isSubmitting)
      else
        DownloadUrlRoundTrip(f.repository);
        CloneCommandRoundTrip(f.repository);
        DownloadView(f, DownloadUrl(f.repository), CloneCommand(f.repository), a.modal.copiedCommand)
  }

  /** One event. Controls that are not on screen cannot be used, so an event
      aimed at them changes nothing. The continuations of `handleSubmit` and
      `copyToClipboard`, and the copy timer, run whatever is on screen, but
      only when there is one of them in flight. */
  function Next(c: seq<Framework>, a: AppState, e: Event): (r: AppState)
    ensures r.page.searchTerm != a.page.searchTerm ==> e.TypeSearch?
    ensures r.page.selected != a.page.selected ==> e.ChooseFramework? || e.CloseDialog?
    ensures !DialogShown(a) && DialogShown(r) ==> e.ChooseFramework? && r.modal == a.modal
    ensures r.modal.form != a.modal.form ==> e.EditField? || e.CloseDialog?
    ensures r.modal.step != a.modal.step ==> e.SubmitDelayElapsed? || e.CloseDialog?
    ensures !a.modal.copiedCommand && r.modal.copiedCommand ==> e.CopySettled? && a.writesPending > 0
    ensures r.writesPending > a.writesPending ==> e.CopyClicked? && DownloadShown(a)
    ensures r.timersPending > a.timersPending ==> e.CopySettled? && e.succeeded
  {
    match e
    case TypeSearch(t) => a.(page := SetSearchTerm(a.page, t))
    case ChooseFramework(f) =>
      if f in Visible(c, a.page) then a.(page := GetBoilerplate(a.page, f)) else a
    case EditField(k, v) =>
      if FormShown(a) then a.(modal := Update(a.modal, k, v)) else a
    case SubmitForm(ea) =>
      if FormShown(a) then a.(modal := SubmitStart(a.modal, ea)) else a
    case SubmitDelayElapsed =>
      if a.modal.isSubmitting then a.(modal := SubmitComplete(a.modal)) else a
    case CopyClicked =>
      if DownloadShown(a) then a.(writesPending := a.writesPending + 1) else a
    case CopySettled(ok) =>
      if a.writesPending == 0 then a
      else if ok then
        a.(modal := CopySucceeded(a.modal), writesPending := a.writesPending - 1,
           timersPending := a.timersPending + 1)
      else a.(writesPending := a.writesPending - 1)
    case CopyTimerFired =>
      if a.timersPending == 0 then a
      else a.(modal := CopyExpired(a.modal), timersPending := a.timersPending - 1)
    case CloseDialog =>
      if DialogShown(a) then a.(page := CloseModal(a.page), modal := Reset(a.modal)) else a
  }

  function Run(c: seq<Framework>, a: AppState, es: seq<Event>): AppState
    decreases |es|
  {
    if es == [] then a else Run(c, Next(c, a, es[0]), es[1..])
  }

  /** What holds in every reachable state: the open flag and the chosen
      framework go together, the framework comes from the catalog, the dialog's
      own state is consistent, and an acknowledgement on screen always has a
      timer pending that will clear it. */
  ghost predicate Inv(c: seq<Framework>, a: AppState) {
    && (a.page.modalOpen <==> a.page.selected.Some?)
    && (a.page.selected.Some? ==> a.page.selected.value in c)
    && Consistent(a.modal)
    && (a.modal.copiedCommand ==> a.timersPending > 0)
  }

  lemma InitialInv(c: seq<Framework>)
    ensures Inv(c, InitialApp)
    ensures Render(InitialApp) == Hidden
  {
  }

  lemma NextPreservesInv(c: seq<Framework>, a: AppState, e: Event)
    requires Inv(c, a)
    ensures Inv(c, Next(c, a, e))
  {
  }

  lemma {:induction false} RunPreservesInv(c: seq<Framework>, a: AppState, es: seq<Event>)
    requires Inv(c, a)
    ensures Inv(c, Run(c, a, es))
    decreases |es|
  {
    if es != [] {
      NextPreservesInv(c, a, es[0]);
      RunPreservesInv(c, Next(c, a, es[0]), es[1..]);
    }
  }

  /** Every state reachable from page load satisfies the invariant. */
  lemma Reachable(es: seq<Event>)
    ensures Inv(Frameworks, Run(Frameworks, InitialApp, es))
  {
    InitialInv(Frameworks);
    RunPreservesInv(Frameworks, InitialApp, es);
  }

  /** While the dialog is closed on a blank form, no event other than choosing
      a framework brings it back or changes its step, form or pending flag. If
      no clipboard write is in flight, none can start, so the acknowledgement
      can only be cleared, never set. */
  lemma {:induction false} ClosedStaysBlank(c: seq<Framework>, a: AppState, es: seq<Event>)
    requires !DialogShown(a) && Blank(a.modal)
    requires forall i :: 0 <= i < |es| ==> !es[i].ChooseFramework?
    ensures var z := Run(c, a, es); !DialogShown(z) && Blank(z.modal)
    ensures var z := Run(c, a, es);
      a.writesPending == 0 ==> z.writesPending == 0 && (z.modal.copiedCommand ==> a.modal.copiedCommand)
    decreases |es|
  {
    if es != [] {
      ClosedStaysBlank(c, Next(c, a, es[0]), es[1..]);
    }
  }

  /** Closing with no submission pending hides the dialog and leaves it in its
      initial state; clipboard writes in flight stay in flight. */
  lemma CloseWithNothingPending(c: seq<Framework>, a: AppState)
    requires DialogShown(a) && !a.modal.isSubmitting
    ensures var b := Next(c, a, CloseDialog);
      !DialogShown(b) && b.modal == Initial && b.writesPending == a.writesPending
  {
    ResetIsInitial(a.modal);
  }

  /** Choosing a visible framework while the dialog is closed on a blank form
      shows that form, for that framework, with the dialog state untouched. */
  lemma ChooseFromBlank(c: seq<Framework>, b: AppState, f: Framework)
    requires !DialogShown(b) && Blank(b.modal)
    ensures f in Visible(c, b.page) ==>
      var b' := Next(c, b, ChooseFramework(f));
      FormShown(b') && b'.modal == b.modal && b'.page.selected == Some(f)
  {
  }

  /** Closing the dialog with no submission pending and later choosing a
      framework shows an empty form for that framework, whatever happened in
      between short of choosing one. The dialog is then exactly in its initial
      state unless a clipboard write was still in flight at the close. */
  lemma ReopenStartsAtForm(c: seq<Framework>, a: AppState, es: seq<Event>, f: Framework)
    requires DialogShown(a) && !a.modal.isSubmitting
    requires forall i :: 0 <= i < |es| ==> !es[i].ChooseFramework?
    ensures var idle := Run(c, Next(c, a, CloseDialog), es);
      f in Visible(c, idle.page) ==>
        var b := Next(c, idle, ChooseFramework(f));
        && FormShown(b) && Blank(b.modal) && b.page.selected == Some(f)
        && (a.writesPending == 0 ==> b.modal == Initial)
  {
    CloseWithNothingPending(c, a);
    var closed := Next(c, a, CloseDialog);
    ClosedStaysBlank(c, closed, es);
    var idle := Run(c, closed, es);
    ChooseFromBlank(c, idle, f);
    InitialState();
  }

  /** Without a guard on the delayed completion, a submission still pending
      when the dialog is closed puts the next dialog straight into the download
      step, past an empty form. */
  lemma LateCompletionSkipsForm(c: seq<Framework>, a: AppState, emailAccepted: bool, f: Framework)
    requires FormShown(a) && CanSubmit(a.modal, emailAccepted)
    requires f in Visible(c, a.page)
    ensures var b := Run(c, a, [SubmitForm(emailAccepted), CloseDialog, SubmitDelayElapsed, ChooseFramework(f)]);
      DownloadShown(b) && b.modal.form == EmptyForm && b.page.selected == Some(f)
  {
    var s1 := Next(c, a, SubmitForm(emailAccepted));
    var s2 := Next(c, s1, CloseDialog);
    var s3 := Next(c, s2, SubmitDelayElapsed);
    assert s3.page.searchTerm == a.page.searchTerm;
    var s4 := Next(c, s3, ChooseFramework(f));
    var es := [SubmitForm(emailAccepted), CloseDialog, SubmitDelayElapsed, ChooseFramework(f)];
    assert Run(c, s3, es[3..]) == s4;
    assert Run(c, s2, es[2..]) == s4;
    assert Run(c, s1, es[1..]) == s4;
  }

  /** Likewise, a clipboard write still in flight when the dialog is closed
      sets the acknowledgement on the reset dialog, so the next dialog opens
      on its form with the acknowledgement already set. */
  lemma LateCopyAcknowledgesReopenedForm(c: seq<Framework>, a: AppState, f: Framework)
    requires DownloadShown(a)
    requires f in Visible(c, a.page)
    ensures var b := Run(c, a, [CopyClicked, CloseDialog, CopySettled(true), ChooseFramework(f)]);
      && FormShown(b) && b.modal.form == EmptyForm && b.page.selected == Some(f)
      && b.modal.copiedCommand && b.timersPending == a.timersPending + 1
  {
    var s1 := Next(c, a, CopyClicked);
    var s2 := Next(c, s1, CloseDialog);
    var s3 := Next(c, s2, CopySettled(true));
    assert s3.page.searchTerm == a.page.searchTerm;
    var s4 := Next(c, s3, ChooseFramework(f));
    var es := [CopyClicked, CloseDialog, CopySettled(true), ChooseFramework(f)];
    assert Run(c, s3, es[3..]) == s4;
    assert Run(c, s2, es[2..]) == s4;
    assert Run(c, s1, es[1..]) == s4;
  }

  /** A copy timer only ever clears the acknowledgement: the page, the step,
      the form and the pending flags stay as they were. In a reachable state the
      acknowledgement is off afterwards whether or not a timer was pending. */
  lemma CopyTimerOnlyClears(c: seq<Framework>, a: AppState)
    requires Inv(c, a)
    ensures var b := Next(c, a, CopyTimerFired);
      && b.page == a.page && b.modal == a.modal.(copiedCommand := false)
      && b.writesPending == a.writesPending
  {
  }

  /** The timers of two quick successful copies both clear the same flag, so the
      first to fire takes the acknowledgement down while the second is still
      pending. */
  lemma FirstTimerClearsSecondCopy(c: seq<Framework>, a: AppState)
    requires DownloadShown(a)
    ensures var b := Run(c, a, [CopyClicked, CopyClicked, CopySettled(true), CopySettled(true), CopyTimerFired]);
      DownloadShown(b) && !b.modal.copiedCommand && b.timersPending == a.timersPending + 1
  {
    var es := [CopyClicked, CopyClicked, CopySettled(true), CopySettled(true), CopyTimerFired];
    var s1 := Next(c, a, es[0]);
    var s2 := Next(c, s1, es[1]);
    var s3 := Next(c, s2, es[2]);
    var s4 := Next(c, s3, es[3]);
    var s5 := Next(c, s4, es[4]);
    assert Run(c, s4, es[4..]) == s5;
    assert Run(c, s3, es[3..]) == s5;
    assert Run(c, s2, es[2..]) == s5;
    assert Run(c, s1, es[1..]) == s5;
  }

  /** A failed clipboard write only retires itself; the error is just logged. */
  lemma CopyFailureIsInert(c: seq<Framework>, a: AppState)
    requires a.writesPending > 0
    ensures Next(c, a, CopySettled(false)) == a.(writesPending := a.writesPending - 1)
  {
  }

  /** Closing from either step shows nothing, forgets the framework, empties
      the form and drops the acknowledgement, but leaves a pending submission
      pending and clipboard writes and timers in flight. */
  lemma CloseClears(c: seq<Framework>, a: AppState)
    requires DialogShown(a)
    ensures var b := Next(c, a, CloseDialog);
      && Render(b) == Hidden && b.page.selected == None
      && b.modal.step == Form && b.modal.form == EmptyForm && !b.modal.copiedCommand
      && b.modal.isSubmitting == a.modal.isSubmitting
      && b.page.searchTerm == a.page.searchTerm
      && b.writesPending == a.writesPending && b.timersPending == a.timersPending
  {
  }
}
