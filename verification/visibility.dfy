/**
 Which of the page's three panels are visible: the message box, the content
 panel and the saved-list view. Each handler hides or shows panels one by
 one; nothing forces exactly one of them to be visible.
 */
module Visibility {

  datatype Panels = Panels(message: bool, content: bool, savedView: bool)

  predicate AllHidden(p: Panels) {
    !p.message && !p.content && !p.savedView
  }

  predicate AtMostOneVisible(p: Panels) {
    && !(p.message && p.content)
    && !(p.message && p.savedView)
    && !(p.content && p.savedView)
  }

  predicate ExactlyOneVisible(p: Panels) {
    AtMostOneVisible(p) && (p.message || p.content || p.savedView)
  }

  /** `resetUI`: hide all three panels. */
  function Reset(p: Panels): (r: Panels)
    ensures AllHidden(r)
  {
    p.(message := false, content := false, savedView := false)
  }

  /** A search that got past input normalisation: reset, then show the message box. */
  function StartSearch(p: Panels): (r: Panels)
    ensures r.message && !r.content && !r.savedView
  {
    Reset(p).(message := true)
  }

  /** `updateUI`: hide the message box and show the content panel; the
      saved-list view is left as it is. */
  function ShowContent(p: Panels): (r: Panels)
    ensures !r.message && r.content
    ensures r.savedView == p.savedView
  {
    p.(message := false, content := true)
  }

  /** `showSavedList`: reset, then show the saved-list view. */
  function ShowSaved(p: Panels): (r: Panels)
    ensures !r.message && !r.content && r.savedView
  {
    Reset(p).(savedView := true)
  }

  /** The home button: reset, and change the hidden message's text only. */
  function Home(p: Panels): (r: Panels)
    ensures AllHidden(r)
  {
    Reset(p)
  }

  /** A search that completes without interference shows the content panel alone. */
  lemma SearchThenContent(p: Panels)
    ensures ShowContent(StartSearch(p)) == Panels(false, true, false)
  {
  }

  /** Every transition keeps at most one panel visible, except that showing
      the content panel while the saved-list view is open (a search answered
      after the user opened the list) leaves two visible. */
  lemma TransitionsAtMostOne(p: Panels)
    ensures AtMostOneVisible(Reset(p)) && AtMostOneVisible(StartSearch(p))
    ensures AtMostOneVisible(ShowSaved(p)) && AtMostOneVisible(Home(p))
    ensures AtMostOneVisible(ShowContent(p)) <==> !p.savedView
  {
  }

  /** After the home button no panel is visible, so "exactly one panel" is
      not an invariant of the page. */
  lemma HomeShowsNothing(p: Panels)
    ensures !ExactlyOneVisible(Home(p))
  {
  }
}
