/**
 The page as a whole: its state, and one pure transition per event
 (typing into the search box, search submitted, lookup answered, save
 button, saved-list button, a word or a delete button in the saved list,
 home button). The lookup itself is
 not modelled: submitting a search reports which word it requests, and the
 answer arrives later as a separate event, so answers to overlapping
 searches may arrive in any order, as they can on the page.
 */
module Controller {
  import opened Wrappers
  import opened Search
  import opened SavedWords
  import opened Entries
  import opened Visibility
  import opened SavedListView

  /** What the message box says. */
  datatype Message = Prompt | Searching | NotFound(word: string)

  /** Everything the handlers read or write: the panels, the message box
      and whether it is styled as an error, the search box, the content
      panel, the saved-word list and the rows of the saved-list view. */
  datatype Page = Page(
    panels: Panels,
    message: Message,
    errorStyle: bool,
    input: string,
    view: View,
    saved: seq<string>,
    rows: seq<Row>)

  /** The answer to a lookup: the first entry of a successful response, or
      a failure (a status that is not ok, a network error, a body that is
      not JSON). */
  datatype Lookup = Found(entry: Entry) | Failed

  /** A page after a handler ran, and the word it asked the dictionary
      service for, if any. */
  datatype Outcome = Outcome(page: Page, request: Option<string>)

  /** `searchWord` up to the request: a blank search changes nothing and
      requests nothing; otherwise the message box alone shows "Searching..."
      in the normal colour and the trimmed word is requested. */
  function Submit(p: Page, query: Query): (o: Outcome)
    ensures Text.AllSpace(Source(query, p.input)) ==> o == Outcome(p, None)
    ensures !Text.AllSpace(Source(query, p.input)) ==>
      && o.request == SearchTerm(query, p.input)
      && o.page.panels == Panels(true, false, false)
      && o.page.message == Searching
      && !o.page.errorStyle
      && o.page.(panels := p.panels, message := p.message, errorStyle := p.errorStyle) == p
  {
    match SearchTerm(query, p.input)
    case None => Outcome(p, None)
    case Some(w) =>
      Outcome(p.(panels := StartSearch(p.panels), message := Searching, errorStyle := false), Some(w))
  }

  /** The rest of `searchWord`, once the lookup for `word` is answered: an
      entry is rendered into the content panel, which replaces the message
      box; a failure turns the message box into an error naming the word. */
  function Resolve(p: Page, word: string, answer: Lookup): (r: Page)
    requires answer.Found? ==> Renderable(answer.entry)
    ensures answer.Found? ==>
      && !r.panels.message && r.panels.content && r.panels.savedView == p.panels.savedView
      && r.view.word == answer.entry.word
      && (r.view.saved <==> answer.entry.word in p.saved)
      && r.view == Render(p.view, answer.entry, p.saved)
      && r.(panels := p.panels, view := p.view) == p
    ensures answer.Failed? ==>
      && r.message == NotFound(word)
      && r.errorStyle
      && r.(message := p.message, errorStyle := p.errorStyle) == p
  {
    match answer
    case Found(e) => p.(panels := ShowContent(p.panels), view := Render(p.view, e, p.saved))
    case Failed => p.(message := NotFound(word), errorStyle := true)
  }

  /** The save button: toggles the displayed word in the saved list; the
      marker then says whether the word is saved, and no panel changes. */
  function ToggleSaveButton(p: Page): (r: Page)
    ensures r.view.saved <==> p.view.word in r.saved
    ensures r.view.saved <==> p.view.word !in p.saved
    ensures Remove(r.saved, p.view.word) == Remove(p.saved, p.view.word)
    ensures p.view.word !in p.saved ==> r.saved == p.saved + [p.view.word]
    ensures p.view.word in p.saved ==> r.saved == Remove(p.saved, p.view.word)
    ensures r.saved == Toggle(p.saved, p.view.word).words
    ensures r.(saved := p.saved, view := p.view) == p
    ensures r.view == p.view.(saved := r.view.saved)
  {
    var t := Toggle(p.saved, p.view.word);
    p.(saved := t.words, view := p.view.(saved := t.saved))
  }

  /** `showSavedList`: the saved-list view alone, in the normal colour,
      listing the saved words. */
  function OpenSavedList(p: Page): (r: Page)
    ensures r.panels == Panels(false, false, true)
    ensures !r.errorStyle
    ensures r.rows == Rows(p.saved)
    ensures RowWords(r.rows) == p.saved
    ensures |p.saved| == 0 <==> r.rows == [Placeholder]
    ensures |p.saved| == 0 <==> Placeholder in r.rows
    ensures r.saved == p.saved && r.view == p.view && r.input == p.input && r.message == p.message
  {
    RowsRoundTrip(p.saved);
    PlaceholderIffEmpty(p.saved);
    p.(panels := ShowSaved(p.panels), errorStyle := false, rows := Rows(p.saved))
  }

  /** A word clicked in the saved list: it is put into the search box and
      searched for. */
  function PickSaved(p: Page, word: string): (o: Outcome)
    ensures o.page.input == word
    ensures o.request.Some? <==> !Text.AllSpace(word)
    ensures o.request.Some? ==> o.request.value == Text.Trim(word)
    ensures o.request.Some? && Text.Trimmed(word) ==> o.request.value == word
    ensures o.request.Some? ==> o.page.panels == Panels(true, false, false)
    ensures o.request.Some? ==> o.page.message == Searching && !o.page.errorStyle
    ensures o.request.Some? ==>
      o.page.(panels := p.panels, message := p.message, errorStyle := p.errorStyle, input := p.input) == p
    ensures o.request.None? ==> o.page == p.(input := word)
  {
    Text.TrimKeepsTrimmed(word);
    Submit(p.(input := word), Word(word))
  }

  /** A delete button in the saved list: the word leaves the list and the
      view is drawn again without it; nothing is searched. */
  function DeleteSaved(p: Page, word: string): (r: Page)
    ensures word !in r.saved
    ensures Remove(r.saved, word) == Remove(p.saved, word)
    ensures r.saved == Remove(p.saved, word)
    ensures RowWords(r.rows) == r.saved
    ensures r.rows == Rows(r.saved)
    ensures |r.saved| == 0 <==> r.rows == [Placeholder]
    ensures r.panels == Panels(false, false, true)
    ensures !r.errorStyle
    ensures r.view == p.view && r.input == p.input && r.message == p.message
  {
    RemoveIdempotent(p.saved, word);
    OpenSavedList(p.(saved := Remove(p.saved, word)))
  }

  /** The home button: all panels hidden, the hidden message box reset to
      the opening prompt. */
  function GoHome(p: Page): (r: Page)
    ensures AllHidden(r.panels)
    ensures r.message == Prompt && !r.errorStyle
    ensures r.(panels := p.panels, message := p.message, errorStyle := p.errorStyle) == p
  {
    p.(panels := Visibility.Home(p.panels), message := Prompt, errorStyle := false)
  }

  /** What a user can do to the page. `TypeInput` replaces the text of the
      search box, as typing or pasting into it does. */
  datatype Event =
    | TypeInput(text: string)
    | SubmitSearch(query: Query)
    | Answer(word: string, answer: Lookup)
    | PressSave
    | PressSavedList
    | ClickSavedWord(word: string)
    | ClickDelete(word: string)
    | PressHome

  /** The lookup answers this model can render (see `Renderable`). */
  predicate Answerable(e: Event) {
    e.Answer? && e.answer.Found? ==> Renderable(e.answer.entry)
  }

  /** Events a user can cause in page `p`: the save button lives in the
      content panel, and saved words and their delete buttons in the rows
      of the saved-list view. */
  predicate Enabled(p: Page, e: Event) {
    match e
    case PressSave => p.panels.content
    case ClickSavedWord(w) => p.panels.savedView && WordRow(w) in p.rows
    case ClickDelete(w) => p.panels.savedView && WordRow(w) in p.rows
    case _ => true
  }

  /** One event: typing into the search box, or one event handler. */
  function Step(p: Page, e: Event): (o: Outcome)
    requires Answerable(e)
    ensures !e.SubmitSearch? && !e.ClickSavedWord? ==> o.request.None?
    ensures e.TypeInput? ==> o.page.input == e.text && o.page.(input := p.input) == p
  {
    match e
    case TypeInput(t) => Outcome(p.(input := t), None)
    case SubmitSearch(q) => Submit(p, q)
    case Answer(w, a) => Outcome(Resolve(p, w, a), None)
    case PressSave => Outcome(ToggleSaveButton(p), None)
    case PressSavedList => Outcome(OpenSavedList(p), None)
    case ClickSavedWord(w) => PickSaved(p, w)
    case ClickDelete(w) => Outcome(DeleteSaved(p, w), None)
    case PressHome => Outcome(GoHome(p), None)
  }

  /** What the page keeps true between events: the saved list has no
      duplicates; a saved-list view shown on its own lists the saved words;
      a content panel shown on its own marks its word saved exactly when it
      is in the list. */
  predicate Consistent(p: Page) {
    && NoDuplicates(p.saved)
    && (p.panels.savedView && !p.panels.content ==> p.rows == Rows(p.saved))
    && (p.panels.content && !p.panels.savedView ==> (p.view.saved <==> p.view.word in p.saved))
  }

  /** Every event a user can cause keeps the page consistent. */
  lemma StepKeepsConsistent(p: Page, e: Event)
    requires Consistent(p) && Enabled(p, e) && Answerable(e)
    ensures Consistent(Step(p, e).page)
  {
    match e
    case PressSave =>
      ToggleKeepsNoDuplicates(p.saved, p.view.word);
    case ClickDelete(w) =>
      RemoveKeepsNoDuplicates(p.saved, w);
    case _ =>
  }

  /** Deleting a word shown in a saved-list view on its own removes exactly
      that row and keeps the others in order. */
  lemma DeleteRemovesRow(p: Page, w: string)
    requires Consistent(p) && Enabled(p, ClickDelete(w)) && !p.panels.content
    ensures w in p.saved
    ensures WordRow(w) !in DeleteSaved(p, w).rows
    ensures |DeleteSaved(p, w).saved| == |p.saved| - 1
  {
    var i :| 0 <= i < |p.rows| && p.rows[i] == WordRow(w);
    assert p.rows[i] == WordRow(p.saved[i]);
    RemoveShrinks(p.saved, w);
    var r := DeleteSaved(p, w);
    RemoveOnlyOne(p.saved, w);
    if |r.saved| > 0 {
      assert forall k :: 0 <= k < |r.rows| ==> r.rows[k] == WordRow(r.saved[k]);
    }
  }

  /** A search for blank input leaves the page alone and requests nothing. */
  lemma BlankSearchIsIgnored(p: Page, query: Query)
    requires Text.AllSpace(Source(query, p.input))
    ensures Step(p, SubmitSearch(query)) == Outcome(p, None)
  {
  }

  /** Searching, typing a new word and searching again from the box (the
      Enter key or the search button) requests the newly typed word, trimmed,
      whatever the first search did. */
  lemma SearchTypeSearchAgain(p: Page, first: Query, typed: string)
    requires !Text.AllSpace(typed)
    ensures var o1 := Step(p, SubmitSearch(first));
      var o2 := Step(o1.page, TypeInput(typed));
      var o3 := Step(o2.page, SubmitSearch(NotAString));
      && o3.request == Some(Text.Trim(typed))
      && o3.page.input == typed
      && o3.page.panels == Panels(true, false, false)
      && o3.page.message == Searching
  {
  }

  /** A search the service cannot answer ends with the message box alone,
      as an error naming the searched word. */
  lemma SearchNotFound(p: Page, query: Query)
    requires !Text.AllSpace(Source(query, p.input))
    ensures var o := Submit(p, query);
      var r := Resolve(o.page, o.request.value, Failed);
      && r.panels == Panels(true, false, false)
      && r.message == NotFound(SearchTerm(query, p.input).value)
      && r.errorStyle
  {
  }

  /** A word saved, found again through the saved list, and looked up shows
      the content panel alone, with the word marked as saved. */
  lemma SaveThenPickFromList(p: Page, e: Entry)
    requires p.panels.content
    requires Renderable(e) && e.word == p.view.word && !Text.AllSpace(e.word)
    requires p.view.word !in p.saved
    ensures var saved := ToggleSaveButton(p);
      var listed := OpenSavedList(saved);
      var picked := PickSaved(listed, e.word);
      var shown := Resolve(picked.page, picked.request.value, Found(e));
      && WordRow(e.word) in listed.rows
      && picked.request == Some(Text.Trim(e.word))
      && (Text.Trimmed(e.word) ==> picked.request == Some(e.word))
      && shown.panels == Panels(false, true, false)
      && shown.view.saved
  {
    var saved := ToggleSaveButton(p);
    var listed := OpenSavedList(saved);
    var n := |p.saved|;
    assert saved.saved == p.saved + [e.word];
    assert listed.rows[n] == WordRow(e.word);
  }
}
