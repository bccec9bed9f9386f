# Boilerplate launchpad: catalog search and download dialog

This project models the functional core of a single-page catalog of framework
boilerplates. The page holds a fixed list of seven frameworks. A search box
narrows that list: an entry is kept when its name, description or category
contains the search term, ignoring letter case. Choosing a card opens a dialog.
The dialog first asks for the visitor's name, email and profession. After a
simulated submission delay it shows two artifacts derived from the
repository URL: a ZIP archive link that always names the `master` branch, and
a `git clone` command that can be copied to the clipboard.

Modules, one per concern:

- `Text`: an ASCII stand-in for `toLowerCase`, and the substring test behind `includes`.
- `Catalog`: the `Framework` record and the seven catalog entries, in display order.
- `Search`: the filter, with soundness, completeness, order and case-insensitivity lemmas.
- `Artifacts`: the archive-URL and clone-command templates, with their inverses.
- `Modal`: the dialog's local state (`step`, form data, `copiedCommand`, `isSubmitting`) and one pure function per handler.
- `Page`: the page's own state (search term, selected framework, open flag) and its handlers.
- `App`: the page and its dialog together. Events from the visitor and from the two timers drive it. It states the invariant of every reachable state and the reopen behaviour.

Both asynchronous handlers are split at their `await`. Submitting is one
event and the end of the one-second delay is another. Copying is a click,
which starts a clipboard write, and a later event in which that write settles,
with success or failure. A successful write starts a two-second timer, and its
firing is one more event. The model counts the clipboard writes and timers in
flight. A continuation or timer event can only occur while one of its kind is
pending. It then runs whatever is on screen, as the code after an `await` or
inside a timer does. Clicks, key presses and typing are different: controls
that are not on screen cannot be used, so an event aimed at one of them leaves
the state unchanged. The dialog component stays mounted for the page's whole
life, so its state survives closing and reopening.

Behaviour worth knowing, proved as lemmas:

- Closing the dialog resets the step, the form and the acknowledgement. It does
  not clear `isSubmitting`. A submission still pending at close therefore
  completes later and sets the step to `download`. The next framework chosen
  then opens directly in the download step, with an empty form
  (`App.LateCompletionSkipsForm`). One might expect a reopened dialog always
  to start at the form, but the code has no guard against a continuation from
  an earlier session. A reopened dialog starts on an empty form whenever no
  submission was pending at close (`App.ReopenStartsAtForm`).
- In the same way, a clipboard write still in flight at close settles
  afterwards. On success it sets the acknowledgement on the reset dialog, so
  the next dialog opens on its form with the flag already set
  (`App.LateCopyAcknowledgesReopenedForm`). The timer started by that write
  clears it again.
- Every copy timer clears the same flag. After two quick copies, the first
  timer takes "Copied!" down while the second is still pending
  (`App.FirstTimerClearsSecondCopy`).
- The archive link hardcodes `refs/heads/master`. It is reproduced verbatim,
  and every link ends in that path (`Artifacts.DownloadUrl`).

Read off the catalog, not proved: the query "framework" is not a no-match
query. Four catalog descriptions contain that word: Spring Boot, Angular,
Next.js and Vue.js (src/pages/Index.tsx:12, 21, 30 and 39). The verifier does
not evaluate the long description constants character by character, so the
model states no filter result for this query.

## Model

| member | source | states |
|---|---|---|
| `Text.Lower` | src/pages/Index.tsx:82-84 | lower-casing keeps the length and lowers each position on its own; only ASCII A-Z change |
| `Text.LowerIdempotent` | src/pages/Index.tsx:82-84 | lowering an already lowered string changes nothing |
| `Text.LowerPrefix` | src/pages/Index.tsx:82-84 | lowering keeps a prefix a prefix |
| `Text.ContainsIffOccurs` | src/pages/Index.tsx:82-84 | the `includes` test holds exactly when the query occurs at some position, in both directions |
| `Text.ContainsWitness` | src/pages/Index.tsx:82-84 | a successful `includes` test names a position where the query occurs |
| `Text.OccursContains` | src/pages/Index.tsx:82-84 | an occurrence at any position makes the `includes` test succeed |
| `Text.ContainsEmpty` | src/pages/Index.tsx:82-84 | every string contains the empty string |
| `Text.ContainsPrefixOfQuery` | src/pages/Index.tsx:82-84 | if a query occurs in a string, so does every prefix of it |
| `Catalog.CatalogIdsDistinct` | src/pages/Index.tsx:8-72 | the catalog has seven entries with pairwise distinct ids |
| `Catalog.CatalogRepositoriesWellFormed` | src/pages/Index.tsx:8-72 | every repository starts with `https://github.com/` and does not end in `/` |
| `Search.Matches` | src/pages/Index.tsx:82-84 | an entry matches exactly when the lower-cased term occurs at some position of its lower-cased name, description or category |
| `Search.Filter` | src/pages/Index.tsx:81-85 | every kept entry is in the catalog and matches; every matching catalog entry is kept; the result is no longer than the catalog |
| `Search.FilterEmbedding` | src/pages/Index.tsx:81-85 | gives the strictly increasing catalog positions that the result is read from |
| `Search.FilterIsSubsequence` | src/pages/Index.tsx:81-85 | the result is the catalog with entries dropped and the rest in their original order |
| `Search.FilterCounts` | src/pages/Index.tsx:81-85 | a matching entry occurs as often as in the catalog, a non-matching one not at all |
| `Search.FilterEmptyTerm` | src/pages/Index.tsx:81-85 | an empty search term returns the catalog unchanged |
| `Search.FilterSameLower` | src/pages/Index.tsx:82-84 | two terms that lower-case alike give the same list |
| `Search.FilterCaseInsensitive` | src/pages/Index.tsx:82-84 | filtering by a term equals filtering by its lower-cased form |
| `Search.FilterEmptyIff` | src/pages/Index.tsx:81-85 | the list is empty exactly when no catalog entry matches |
| `Search.MatchesPrefix` | src/pages/Index.tsx:82-84 | an entry matching a term matches every prefix of that term |
| `Search.FilterNarrows` | src/pages/Index.tsx:81-85 | extending the term only removes entries: the longer term's list is a subsequence of the shorter one's |
| `Search.FilterIdempotent` | src/pages/Index.tsx:81-85 | filtering the result again with the same term changes nothing |
| `Search.FilterAppend` | src/pages/Index.tsx:81-85 | filtering distributes over concatenation of catalogs |
| `Search.FilterKeepsIdsDistinct` | src/pages/Index.tsx:149-152 | the rendered cards keep pairwise distinct keys |
| `Page.Visible` | src/pages/Index.tsx:81-85 | the cards on screen are exactly the catalog entries matching the current term, and all of them when the term is empty |
| `Page.SetSearchTerm` | src/pages/Index.tsx:137-138 | typing replaces the term and leaves the selection and the open flag alone |
| `Page.GetBoilerplate` | src/pages/Index.tsx:87-97 | the chosen framework is selected and the dialog is open; the term is kept |
| `Page.CloseModal` | src/pages/Index.tsx:99-108 | no framework is selected and the dialog is closed; the term is kept |
| `Page.ShowsEmptyState` | src/pages/Index.tsx:159-165 | the "No frameworks found" block shows exactly when no catalog entry matches the term |
| `Page.ClearedSearchShowsCatalog` | src/pages/Index.tsx:75-85 | with an empty term all seven cards show in catalog order and the empty state does not |
| `Page.FluFindsFlutter` | src/pages/Index.tsx:63-85 | a term lowering to "flu" keeps the Flutter card on screen |
| `Page.OpenThenCloseRestores` | src/pages/Index.tsx:87-108 | opening and then closing from a closed page restores the page state |
| `Artifacts.DownloadUrl` | src/components/UserModal.tsx:78-80 | the archive link starts with the repository, ends with `/archive/refs/heads/master.zip` and is 30 characters longer |
| `Artifacts.CloneCommand` | src/components/UserModal.tsx:82-84 | the command starts with `git clone `, ends with `.git`, has the repository in between and is 14 characters longer |
| `Artifacts.RepositoryOfDownloadUrl` | src/components/UserModal.tsx:78-80 | a repository is recovered exactly from strings ending in the archive path |
| `Artifacts.RepositoryOfCloneCommand` | src/components/UserModal.tsx:82-84 | a repository is recovered exactly from strings with the clone prefix and `.git` suffix |
| `Artifacts.DownloadUrlRoundTrip` | src/components/UserModal.tsx:78-80 | parsing the archive link of a repository gives that repository back |
| `Artifacts.DownloadUrlParseRoundTrip` | src/components/UserModal.tsx:78-80 | every parsable archive link is the link of the repository it parses to |
| `Artifacts.DownloadUrlInjective` | src/components/UserModal.tsx:78-80 | distinct repositories never share an archive link |
| `Artifacts.CloneCommandRoundTrip` | src/components/UserModal.tsx:82-84 | parsing the clone command of a repository gives that repository back |
| `Artifacts.CloneCommandParseRoundTrip` | src/components/UserModal.tsx:82-84 | every parsable clone command is the command of the repository it parses to |
| `Artifacts.CloneCommandInjective` | src/components/UserModal.tsx:82-84 | distinct repositories never share a clone command |
| `Modal.Update` | src/components/UserModal.tsx:44-49 | the named field takes the new value; the other two fields and the rest of the state are unchanged |
| `Modal.UpdateFieldsIndependent` | src/components/UserModal.tsx:44-49 | writing a field back restores the state; edits to different fields commute |
| `Modal.SubmitStart` | src/components/UserModal.tsx:51-53 | the state changes exactly when submission is allowed, and then only `isSubmitting` becomes true |
| `Modal.SubmitNeedsAllFields` | src/components/UserModal.tsx:134-182 | a submission starts only with name, email and profession all set; with any empty the state is unchanged |
| `Modal.SubmitComplete` | src/components/UserModal.tsx:56-66 | completion clears `isSubmitting` and moves to the download step, keeping the form and the acknowledgement |
| `Modal.SubmitThenComplete` | src/components/UserModal.tsx:51-66 | a full submission ends in the download step with the typed data intact |
| `Modal.CopySucceeded` | src/components/UserModal.tsx:68-72 | a successful copy sets the acknowledgement and changes nothing else |
| `Modal.CopyExpired` | src/components/UserModal.tsx:72 | the copy timer clears the acknowledgement and changes nothing else |
| `Modal.CopyThenExpire` | src/components/UserModal.tsx:68-76 | a copy followed by its timer returns to the state before the copy |
| `Modal.Reset` | src/components/UserModal.tsx:86-90 | reset returns to the form step with an empty form and no acknowledgement, and keeps `isSubmitting` |
| `Modal.ResetIsInitial` | src/components/UserModal.tsx:86-90 | with no submission pending, reset yields exactly the initial state |
| `Modal.InitialState` | src/components/UserModal.tsx:22-29 | the initial state is the form step, an empty form, no acknowledgement, nothing pending, and a reset fixpoint |
| `Modal.ProfessionsListed` | src/components/UserModal.tsx:31-42 | ten distinct professions; the placeholder value is not one, so an untouched form cannot be submitted |
| `App.Render` | src/components/UserModal.tsx:97-266 | nothing is drawn unless the dialog is open with a framework; the form shows its button disabled exactly while submitting; the download view's link and command both parse back to the selected repository |
| `App.Next` | src/components/UserModal.tsx:44-95 | only typing changes the term; only choosing or closing changes the selection; a closed dialog reappears only by choosing a framework, with its own state untouched; only editing or closing changes the form, and only completion or closing the step; the acknowledgement is set only by a clipboard write that was in flight; a write starts only from a click in the download view; a timer starts only from a successful write |
| `App.InitialInv` | src/pages/Index.tsx:75-77 | the page load state satisfies the invariant and draws no dialog |
| `App.NextPreservesInv` | src/components/UserModal.tsx:44-95 | every event keeps the invariant: open flag and selection agree, the selection is a catalog entry, the download step is never shown with a submission pending, and a set acknowledgement always has a timer pending to clear it |
| `App.RunPreservesInv` | src/components/UserModal.tsx:44-95 | every sequence of events keeps the invariant |
| `App.Reachable` | src/pages/Index.tsx:75-108 | every state reachable from page load satisfies the invariant |
| `App.ClosedStaysBlank` | src/components/UserModal.tsx:86-97 | while closed on a blank form, no event other than choosing a framework shows the dialog or changes its step, form or pending flag; with no clipboard write in flight the acknowledgement can only be cleared |
| `App.CloseWithNothingPending` | src/components/UserModal.tsx:86-95 | closing with no submission pending hides the dialog and leaves it in its initial state; clipboard writes in flight stay in flight |
| `App.ChooseFromBlank` | src/pages/Index.tsx:87-97 | choosing a visible framework while the dialog is closed on a blank form shows that form for it, with the dialog state untouched |
| `App.ReopenStartsAtForm` | src/components/UserModal.tsx:86-95 | after a close with no submission pending, the next chosen framework opens on an empty form; the dialog is exactly in its initial state unless a clipboard write was in flight at the close |
| `App.LateCompletionSkipsForm` | src/components/UserModal.tsx:51-66 | a submission pending at close completes anyway, and the next dialog opens in the download step |
| `App.LateCopyAcknowledgesReopenedForm` | src/components/UserModal.tsx:68-76 | a clipboard write in flight at close succeeds afterwards, and the next dialog opens on its form with the acknowledgement set and its timer pending |
| `App.CopyTimerOnlyClears` | src/components/UserModal.tsx:72 | a firing copy timer clears the acknowledgement and changes nothing else, whatever is on screen |
| `App.FirstTimerClearsSecondCopy` | src/components/UserModal.tsx:68-76 | after two quick successful copies, the first timer clears "Copied!" while the second timer is still pending |
| `App.CopyFailureIsInert` | src/components/UserModal.tsx:73-75 | a failed clipboard write only retires itself; nothing else changes |
| `App.CloseClears` | src/components/UserModal.tsx:92-95 | closing from either step hides the dialog, forgets the framework, empties the form, drops the acknowledgement, keeps the term, and leaves a pending submission, clipboard writes and timers in flight |

## Left out

- Layout, styling, icons, animations and the per-card appearance delay: presentation only.
- The card component's click handler. It only forwards its own framework, which the `ChooseFramework` event captures directly.
- The footer: static markup.
- The newsletter email field and button: they have no handler.
- Diagnostic `console.log` / `console.error` calls: a side channel with no effect on state.
- The clipboard API, `setTimeout` and the one- and two-second delays. They are discrete events (a write settling with success or failure, submission completion, timer expiry), not time. So the model allows every order of these events, including orders the fixed delays rule out, such as a later timer firing before an earlier one.
- The browser's email-format check. It is a boolean verdict carried by the submit event (`emailAccepted`), not an email grammar.
- Unicode `toLowerCase`. Only ASCII A-Z are lowered; other characters are left as they are.
- The repository link on each card: a plain outbound link with no state.
- The catalog's `logo` glyphs: they are shown as the emoji they denote. They play no part in any property.
- App.Next: the page overlay blocks pointer access to the search box and the cards while the dialog is open, but not keyboard focus. The model therefore lets typing and choosing happen with the dialog open, which keyboard users can do.
- Page.FluFindsFlutter: it shows that "flu" keeps the Flutter card, not that Flutter is the only card kept. The same holds for the other exact-result examples over the catalog's long descriptions: the verifier does not evaluate those string constants character by character.
