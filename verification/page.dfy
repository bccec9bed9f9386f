/** The catalog page's own state: the search term, the chosen framework and
    whether the dialog is open. */
module Page {
  import opened Wrappers
  import opened Text
  import opened Catalog
  import opened Search

  datatype PageState = PageState(searchTerm: string, selected: Option<Framework>, modalOpen: bool)

  const InitialPage := PageState("", None, false)

  /** The cards on screen: the catalog `c` filtered by the current term. The
      page always passes `Frameworks`; the lemmas below hold for any catalog. */
  function Visible(c: seq<Framework>, p: PageState): (r: seq<Framework>)
    ensures forall f :: f in r <==> f in c && Matches(f, p.searchTerm)
    ensures p.searchTerm == "" ==> r == c
  {
    FilterEmptyTerm(c);
    Filter(c, p.searchTerm)
  }

  /** The "No frameworks found" block is rendered, which happens exactly when
      no catalog entry matches the term. */
  predicate ShowsEmptyState(c: seq<Framework>, p: PageState)
    ensures ShowsEmptyState(c, p) <==> forall f :: f in c ==> !Matches(f, p.searchTerm)
  {
    FilterEmptyIff(c, p.searchTerm);
    |Visible(c, p)| == 0
  }

  /** Typing in the search box. */
  function SetSearchTerm(p: PageState, term: string): (r: PageState)
    ensures r.searchTerm == term
    ensures r.selected == p.selected && r.modalOpen == p.modalOpen
  {
    p.(searchTerm := term)
  }

  /** `handleGetBoilerplate`: remembers the framework and opens the dialog. */
  function GetBoilerplate(p: PageState, f: Framework): (r: PageState)
    ensures r.selected == Some(f) && r.modalOpen
    ensures r.searchTerm == p.searchTerm
  {
    p.(selected := Some(f), modalOpen := true)
  }

  /** `handleCloseModal`: closes the dialog and forgets the framework. */
  function CloseModal(p: PageState): (r: PageState)
    ensures r.selected == None && !r.modalOpen
    ensures r.searchTerm == p.searchTerm
  {
    p.(selected := None, modalOpen := false)
  }

  /** On first load, and whenever the box is cleared, every card is shown in
      catalog order and the empty-state message is not. */
  lemma ClearedSearchShowsCatalog(p: PageState)
    requires p.searchTerm == ""
    ensures Visible(Frameworks, p) == Frameworks
    ensures !ShowsEmptyState(Frameworks, p)
  {
    FilterEmptyTerm(Frameworks);
  }

  /** Typing "flu" (in any letter case) keeps the Flutter card on screen. */
  lemma FluFindsFlutter(p: PageState)
    requires Lower(p.searchTerm) == "flu"
    ensures Flutter in Visible(Frameworks, p)
    ensures !ShowsEmptyState(Frameworks, p)
  {
    assert IsPrefix("flu", Lower(Flutter.name));
    assert Matches(Flutter, p.searchTerm);
  }

  /** Opening and then closing the dialog leaves the page as it was before,
      provided no dialog was open then. */
  lemma OpenThenCloseRestores(p: PageState, f: Framework)
    requires p.selected == None && !p.modalOpen
    ensures CloseModal(GetBoilerplate(p, f)) == p
  {
  }
}
