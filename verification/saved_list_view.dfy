/**
 The rows `showSavedList` puts into the saved-list view.
 */
module SavedListView {

  /** A row of the view: the "no saved words yet" placeholder, or a saved
      word with its search link and delete button. */
  datatype Row = Placeholder | WordRow(word: string)

  /** One placeholder row for an empty list, otherwise one row per saved
      word, in list order. */
  function Rows(words: seq<string>): (rows: seq<Row>)
    ensures |words| == 0 ==> rows == [Placeholder]
    ensures |words| > 0 ==> |rows| == |words|
    ensures |words| > 0 ==> forall i :: 0 <= i < |words| ==> rows[i] == WordRow(words[i])
  {
    if |words| == 0 then [Placeholder]
    else seq(|words|, i requires 0 <= i < |words| => WordRow(words[i]))
  }

  /** The words the rows offer, in order; the placeholder offers none. */
  function RowWords(rows: seq<Row>): (words: seq<string>)
    ensures forall w :: w in words <==> WordRow(w) in rows
  {
    if |rows| == 0 then []
    else match rows[0]
      case Placeholder => RowWords(rows[1..])
      case WordRow(w) => [w] + RowWords(rows[1..])
  }

  /** The view lists exactly the saved words, in their order. */
  lemma RowsRoundTrip(words: seq<string>)
    ensures RowWords(Rows(words)) == words
  {
    if |words| > 0 {
      WordRowsRoundTrip(Rows(words), words);
    }
  }

  lemma {:induction false} WordRowsRoundTrip(rows: seq<Row>, words: seq<string>)
    requires |rows| == |words|
    requires forall i :: 0 <= i < |words| ==> rows[i] == WordRow(words[i])
    ensures RowWords(rows) == words
    decreases |rows|
  {
    if |rows| > 0 {
      WordRowsRoundTrip(rows[1..], words[1..]);
    }
  }

  /** The placeholder appears exactly when there is nothing saved. */
  lemma PlaceholderIffEmpty(words: seq<string>)
    ensures Placeholder in Rows(words) <==> |words| == 0
  {
    if |words| > 0 {
      assert forall i :: 0 <= i < |Rows(words)| ==> Rows(words)[i].WordRow?;
    }
  }
}
