/**
 Choosing and normalising the word a search looks up, before any request is made.
 */
module Search {
  import opened Wrappers
  import opened Text

  /** What `searchWord` is called with: a word (a click in the saved list
      passes one) or anything that is not a string (the search button passes
      its click event, the Enter key handler passes nothing). */
  datatype Query = Word(text: string) | NotAString

  /** The text a search starts from: the word it was given, else the
      contents of the search box. */
  function Source(query: Query, input: string): (src: string)
    ensures query.Word? ==> src == query.text
    ensures query.NotAString? ==> src == input
  {
    match query
    case Word(w) => w
    case NotAString => input
  }

  /** The word to look up, or `None` when the trimmed text is empty and the
      search stops before touching the page or the network. */
  function SearchTerm(query: Query, input: string): (r: Option<string>)
    ensures r.None? <==> AllSpace(Source(query, input))
    ensures r.Some? ==> |r.value| > 0 && Trimmed(r.value)
    ensures r.Some? ==> var src := Source(query, input);
      exists i :: 0 <= i <= |src| - |r.value| && AllSpace(src[..i]) && src[i..i + |r.value|] == r.value && AllSpace(src[i + |r.value|..])
  {
    var w := Trim(Source(query, input));
    if w == "" then None else Some(w)
  }

  /** Surrounding a word with whitespace does not change what is searched. */
  lemma SearchTermIgnoresPadding(a: string, w: string, b: string, input: string)
    requires AllSpace(a) && AllSpace(b) && Trimmed(w) && |w| > 0
    ensures SearchTerm(Word(a + w + b), input) == Some(w)
    ensures SearchTerm(NotAString, a + w + b) == Some(w)
  {
    TrimUnique(a, w, b);
  }

  /** Searching for a word that has already been normalised searches that word. */
  lemma SearchTermStable(query: Query, input: string)
    requires SearchTerm(query, input).Some?
    ensures SearchTerm(Word(SearchTerm(query, input).value), input) == SearchTerm(query, input)
  {
    TrimIdempotent(Source(query, input));
  }
}
