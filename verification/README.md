# Dictionary lookup page: a Dafny model

The page (`script.js`) looks a word up in an online dictionary, shows the
first meaning of the first entry it gets back (part of speech, definition,
phonetic spelling, example, up to five synonyms, a pronunciation button),
and keeps a personal list of saved words in browser storage that the user
can open, search from and delete from.

Without the browser, what the page does is a handful of total functions
over strings, sequences and optional values. This project models them:

- `Text`: `String.prototype.trim`, with the exact whitespace set of
  ECMA-262, and `Array.prototype.join`.
- `Search`: picking and normalising the word a search looks up. A search
  whose text trims to nothing stops before anything happens.
- `SavedWords`: the saved-word list as `seq<string>`, with the delete
  filter (`Remove`) and the save button's toggle (`Toggle`).
- `Entries`: the dictionary entry as a datatype with optional fields, and
  `updateUI` as `Render`, a projection from the previous panel contents,
  an entry and the saved list onto the values the content panel shows.
- `Visibility`: the three panels (message box, content panel, saved-list
  view) as three booleans, and the transitions each handler performs.
- `SavedListView`: the rows of the saved-list view.
- `Controller`: the page state and one transition per event handler. It
  also proves an invariant that every event a user can cause keeps.

The lookup is an input to the model. `Submit` says which word it would
request. The answer arrives later as its own event, `Answer`, handled by
`Resolve`, so answers to overlapping searches can arrive in any order.

The model follows the code, including where a reader might expect
otherwise:

- Not every state has exactly one visible panel. The home button hides all
  three (`Visibility.HomeShowsNothing`). A search answered after the user
  opened the saved list leaves the content panel and the saved-list view
  both visible (`Visibility.TransitionsAtMostOne`).
- The saved list is read from storage once, at start-up. The read is not
  guarded: malformed stored text throws, and a stored value that is truthy
  but not an array is used as it is (a missing key or a falsy value becomes
  the empty list through `|| []`). The model has no "malformed storage means an
  empty list" rule. It proves that the page's own operations never create a
  duplicate (`Controller.StepKeepsConsistent`).
- No operation adds a word unconditionally. The save button appends the
  word only when it is absent, and otherwise removes every copy of it.
- When there are no synonyms, the page hides the synonyms line but keeps
  its old text. When there is no audio, it hides the play button but keeps
  the old audio source. `Render` keeps those values from `prev`.

## Model

| member | source | states |
|---|---|---|
| Text.Trim | script.js:80 | the result has no whitespace at either end; it is a slice of the input with only whitespace before and after it; it is empty exactly when the input is all whitespace |
| Text.TrimUnique | script.js:80 | splitting a string into whitespace, a middle with no whitespace at its ends, and whitespace has only one answer, and `Trim` gives that middle |
| Text.TrimKeepsTrimmed | script.js:80 | a string with no whitespace at either end is its own trim |
| Text.TrimIdempotent | script.js:80 | trimming an already trimmed string changes nothing |
| Text.Join | script.js:123 | joining nothing gives the empty string; otherwise the result starts with the first string and its length is the total length of the strings plus one separator between each pair |
| Text.JoinSnoc | script.js:123 | joining one more string appends the separator and then that string |
| Search.Source | script.js:80 | a search given a string uses that string; any other argument (the click event, or nothing from the Enter key) uses the search box |
| Search.SearchTerm | script.js:78-82 | no word exactly when the chosen text is all whitespace; otherwise a non-empty word with no whitespace at its ends, cut from the chosen text with only whitespace around it |
| Search.SearchTermIgnoresPadding | script.js:80-82 | a word surrounded by whitespace, whether passed directly or typed into the box, is searched as the bare word |
| Search.SearchTermStable | script.js:80 | searching again for a word that was already normalised searches the same word |
| SavedWords.Remove | script.js:189-190 | no copy of the word is left; every other word appears as often as before; the result is a subsequence of the list, so the order is kept |
| SavedWords.SubsequenceCounts | script.js:190 | a subsequence contains no word more often than the list it comes from |
| SavedWords.RemoveUnique | script.js:190 | the three properties of `Remove` fix its result: any list that has them is `Remove`'s result |
| SavedWords.SubsequenceHead | script.js:190 | a subsequence that keeps every copy of the list's first word starts with that word |
| SavedWords.RemoveAbsent | script.js:190 | deleting a word that is not saved leaves the list unchanged |
| SavedWords.RemoveIdempotent | script.js:189-190 | deleting a word twice is the same as deleting it once |
| SavedWords.RemoveAppended | script.js:61-67 | removing a word also removes a copy of it appended at the end |
| SavedWords.RemoveKeepsNoDuplicates | script.js:189-190 | deleting a word from a list without duplicates leaves a list without duplicates |
| SavedWords.RemoveShrinks | script.js:61-63 | removing a word that is present makes the list shorter |
| SavedWords.RemoveNoLonger | script.js:190 | removing a word never makes the list longer |
| SavedWords.RemoveOnlyOne | script.js:189-190 | in a list without duplicates, deleting a present word removes exactly one entry |
| SavedWords.RemoveConcat | script.js:190 | removing a word from two joined lists is the same as removing it from each list and joining the results |
| SavedWords.Toggle | script.js:57-69 | an absent word is appended at the end and the marker turns on; a present word loses every copy and the marker turns off; afterwards the marker is on exactly when the word is in the list; with that word removed, the old and new lists are the same |
| SavedWords.ToggleKeepsOthers | script.js:61-67 | every other word appears as often as before |
| SavedWords.ToggleKeepsNoDuplicates | script.js:61-67 | a list without duplicates stays without duplicates |
| SavedWords.ToggleTwiceAbsent | script.js:61-67 | saving an unsaved word and then unsaving it gives back the original list |
| SavedWords.ToggleTwicePresent | script.js:61-67 | unsaving a saved word and then saving it again leaves one copy of it, at the end |
| Entries.PhoneticText | script.js:111 | the entry's own phonetic when it is non-empty; otherwise the first variant's non-empty text; otherwise empty. An empty result means neither source had text |
| Entries.ExampleText | script.js:114-115 | the example of the first definition when it has one, otherwise empty |
| Entries.SynonymsLine | script.js:123 | the first `MaxSynonyms` (5) synonyms, or all of them if there are fewer, in order, joined by ", "; the line starts with the first synonym |
| Entries.SynonymsLineStopsAtMax | script.js:123 | synonyms after the fifth never reach the line |
| Entries.FindAudio | script.js:133 | the index of the first variant with a non-empty audio URL: every earlier variant has none; no index when no variant has one |
| Entries.AudioSource | script.js:131-135 | there is a source exactly when `phonetics` is present and some variant has a non-empty audio URL; that source is the URL of the first such variant |
| Entries.Render | script.js:103-149 | word, part of speech and definition come from the first meaning and its first definition; the phonetic and example follow their fallbacks; the synonyms line is shown exactly when there are synonyms; the play button is shown exactly when there is an audio source; a hidden element keeps its old value; the saved marker is on exactly when the word is in the saved list |
| Entries.RenderIdempotent | script.js:103-149 | rendering the same entry a second time changes nothing |
| Entries.RenderSavedOnlyMarker | script.js:143-148 | the saved list affects the saved marker and nothing else |
| Entries.RenderForgetsShown | script.js:119-141 | the previous contents matter only through the synonyms text and audio source that may be kept |
| Entries.HappyExample | script.js:103-149 | for an entry with six synonyms and audio on the second variant, the line shows the first five synonyms, the button plays that audio, and the phonetic, missing at entry level, is the first variant's text |
| Entries.HappySynonyms | script.js:123 | the first five of six synonyms, joined by ", " |
| Visibility.Reset | script.js:195-199 | all three panels are hidden |
| Visibility.StartSearch | script.js:84-86 | only the message box is visible |
| Visibility.ShowContent | script.js:104-105 | the message box is hidden, the content panel is shown, and the saved-list view is not touched |
| Visibility.ShowSaved | script.js:153-155 | only the saved-list view is visible |
| Visibility.Home | script.js:47-50 | all three panels are hidden; nothing shows the message box again |
| Visibility.SearchThenContent | script.js:84-105 | a search answered with no other event in between ends with only the content panel visible |
| Visibility.TransitionsAtMostOne | script.js:104-105 | every transition leaves at most one panel visible, except showing the content panel, which does so exactly when the saved-list view was hidden |
| Visibility.HomeShowsNothing | script.js:47-50 | after the home button no panel is visible, so "exactly one panel" does not always hold |
| SavedListView.Rows | script.js:159-186 | one placeholder row for an empty list, otherwise one word row per saved word, at the same position |
| SavedListView.RowWords | script.js:165-171 | a word is offered by some row exactly when the rows contain a row for that word |
| SavedListView.RowsRoundTrip | script.js:165-186 | the words in the rows are exactly the saved list, in order |
| SavedListView.WordRowsRoundTrip | script.js:165-186 | rows that pair up with words position by position give back those words |
| SavedListView.PlaceholderIffEmpty | script.js:159-162 | the placeholder row appears exactly when nothing is saved |
| Controller.Submit | script.js:78-87 | a blank search leaves the page unchanged and requests nothing; any other search requests the trimmed word and shows "Searching..." in the message box, alone and in the normal colour, changing nothing else |
| Controller.Resolve | script.js:89-100 | a found entry replaces the message box with the content panel, which shows the entry as `Render` draws it over the previous contents, with the saved marker set from the list; a failure changes the message to an error naming the word and leaves every panel as it was |
| Controller.ToggleSaveButton | script.js:57-73 | an unsaved displayed word is appended once, at the end; a saved one loses every copy; the marker is then on exactly when the word is saved; nothing outside the list and the marker changes |
| Controller.OpenSavedList | script.js:153-187 | only the saved-list view is visible and the message colour is reset; the rows are one row per saved word in order, or the placeholder alone when the list is empty |
| Controller.PickSaved | script.js:173-177 | the clicked word goes into the search box; unless it is blank, the request is for the word trimmed, which is the word itself when it has no whitespace at its ends, and the page otherwise shows "Searching..." alone in the normal colour and changes nothing else; a blank word changes only the search box |
| Controller.DeleteSaved | script.js:179-193 | the list is filtered of the word and no other word is affected; the redrawn rows are one row per remaining word, or the placeholder alone when none remain; the message colour is reset; no search is made |
| Controller.GoHome | script.js:47-50 | every panel is hidden and the hidden message box goes back to the opening prompt in the normal colour |
| Controller.Step | script.js:34-53 | only a submitted search or a click on a saved word makes a request; typing into the search box changes only its text |
| Controller.StepKeepsConsistent | script.js:57-199 | every event a user can cause (typing, searching, a lookup answer, and every button) keeps three things true: the list has no duplicates; a saved-list view shown alone lists the saved words; a content panel shown alone has a saved marker that matches the list |
| Controller.DeleteRemovesRow | script.js:180-193 | deleting a row of a saved-list view shown alone removes exactly that word, so the list is one shorter and the word has no row |
| Controller.BlankSearchIsIgnored | script.js:80-82 | a blank search changes nothing and requests nothing |
| Controller.SearchTypeSearchAgain | script.js:34-37 | after any search, typing a new non-blank word and searching from the box requests that word, trimmed, and shows "Searching..." alone |
| Controller.SearchNotFound | script.js:84-99 | a failed lookup ends with only the message box visible, showing an error that names the searched word |
| Controller.SaveThenPickFromList | script.js:57-177 | save a word, open the list, click that word, and the lookup answers: the word had a row, the request was for that word trimmed (the word itself when it has no whitespace at its ends), only the content panel is visible, and the word is marked as saved |

## Left out

- The network request (`fetch`, `response.ok`, `response.json()`, script.js:89-95) is not modelled. Its answer is an input to the model: `Lookup`, either a found entry or a failure.
- Overlapping searches can be expressed: `Submit` and `Resolve` are separate events. But the model proves nothing about which answer wins beyond the panel lemmas. This is concurrency behaviour, not something the page intends.
- Browser storage and JSON (script.js:30, 72, 191) are treated as the identity on `seq<string>`. The start-up read and its failure on malformed text are not modelled, and neither is the page's initial state: the initial markup is not part of this model.
- Entries.Render: modelled only for entries that `updateUI` can display without throwing (`Renderable`). The first meaning and its first definition must exist. The entry must have a non-empty phonetic or a `phonetics` list: line 111 reads `phonetics[0]` without a guard. The page's behaviour when it throws partway is not modelled. By then it has already swapped the message box for the content panel, and its error message goes into the now-hidden message box.
- Controller.Resolve: has the same `Renderable` requirement as `Render`. So does `Controller.Step` for found answers.
- Controller.ToggleSaveButton: the save handler reads the word back from the page (`wordText.innerText`, script.js:58). The model uses the word that `Render` stored (`view.word`, written at script.js:108) instead. This assumes reading the text back returns exactly the written `entry.word`. Rendered text can differ: whitespace is collapsed and CSS text-transform applies. The marker clause of `Controller.StepKeepsConsistent` rests on the same assumption.
- DOM lookup, `innerHTML`/`innerText` writes, HTML built from unescaped words (script.js:98, 168-171) and CSS classes and colours are not modelled. Only the error colour of the message box is kept, as one boolean.
- The theme toggle (script.js:43-45) and `sound.play()` (script.js:39-41) are cosmetic or media playback, so they are not modelled.
- The `typeof query === 'string'` test is modelled only as "a string or not a string". The actual values a caller passes are not modelled.
