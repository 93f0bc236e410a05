/**
 A dictionary entry as the lookup service returns it, and `updateUI`: the
 projection of one entry, together with the saved-word list, onto the
 values the content panel displays.
 */
module Entries {
  import opened Wrappers
  import opened Text

  datatype Definition = Definition(definition: string, example: Option<string>)

  datatype Meaning = Meaning(partOfSpeech: string, definitions: seq<Definition>, synonyms: Option<seq<string>>)

  /** One pronunciation variant; either field may be missing from the response. */
  datatype Phonetic = Phonetic(text: Option<string>, audio: Option<string>)

  /** One entry of the lookup response. `phonetic` and `phonetics` may be
      missing; the page only ever reads the first meaning and its first
      definition. */
  datatype Entry = Entry(word: string, phonetic: Option<string>, meanings: seq<Meaning>, phonetics: Option<seq<Phonetic>>)

  /** JavaScript truthiness of a possibly missing string: present and non-empty. */
  predicate Truthy(s: Option<string>) {
    s.Some? && s.value != ""
  }

  /** The entries `updateUI` can display without throwing: it reads
      `meanings[0].definitions[0]` unguarded, and it reads `phonetics[0]`
      unguarded whenever the entry-level phonetic is missing or empty. */
  predicate Renderable(e: Entry) {
    && |e.meanings| > 0
    && |e.meanings[0].definitions| > 0
    && (Truthy(e.phonetic) || e.phonetics.Some?)
  }

  /** How many synonyms the page shows at most, and what it puts between them. */
  const MaxSynonyms: nat := 5
  const SynonymSeparator: string := ", "

  /** What the content panel shows. `synonymsText` and `audioSrc` are the
      contents of elements the page may hide instead of overwriting. */
  datatype View = View(
    word: string,
    partOfSpeech: string,
    definition: string,
    phonetic: string,
    example: string,
    synonymsText: string,
    synonymsShown: bool,
    audioSrc: string,
    audioShown: bool,
    saved: bool)

  /** The phonetic spelling shown: the entry's own if non-empty, else the
      text of the first variant if it is there and non-empty, else nothing. */
  function PhoneticText(e: Entry): (p: string)
    requires Truthy(e.phonetic) || e.phonetics.Some?
    ensures p == "" || (Truthy(e.phonetic) && p == e.phonetic.value)
                    || (e.phonetics.Some? && |e.phonetics.value| > 0 && e.phonetics.value[0].text == Some(p))
    ensures Truthy(e.phonetic) ==> p == e.phonetic.value
    ensures p == "" ==> !Truthy(e.phonetic) && (|e.phonetics.value| == 0 || !Truthy(e.phonetics.value[0].text))
  {
    if Truthy(e.phonetic) then e.phonetic.value
    else if |e.phonetics.value| > 0 && Truthy(e.phonetics.value[0].text) then e.phonetics.value[0].text.value
    else ""
  }

  /** The example sentence of a definition, empty when it has none. */
  function ExampleText(d: Definition): (x: string)
    ensures d.example.Some? ==> x == d.example.value
    ensures d.example.None? ==> x == ""
  {
    if Truthy(d.example) then d.example.value else ""
  }

  /** The synonyms line: the first `MaxSynonyms` synonyms in their order,
      separated by `SynonymSeparator`. */
  function SynonymsLine(synonyms: seq<string>): (line: string)
    requires |synonyms| > 0
    ensures |line| >= |synonyms[0]| && line[..|synonyms[0]|] == synonyms[0]
    ensures |synonyms| <= MaxSynonyms ==> line == Join(synonyms, SynonymSeparator)
    ensures |synonyms| > MaxSynonyms ==> line == Join(synonyms[..MaxSynonyms], SynonymSeparator)
  {
    var shown := if |synonyms| <= MaxSynonyms then synonyms else synonyms[..MaxSynonyms];
    assert shown[0] == synonyms[0];
    Join(shown, SynonymSeparator)
  }

  /** `phonetics.find(p => p.audio && p.audio !== "")`, searching from `i`:
      the index of the first variant at or after `i` with an audio URL. */
  function FindAudio(ps: seq<Phonetic>, i: nat): (k: Option<nat>)
    requires i <= |ps|
    ensures k.Some? ==> i <= k.value < |ps| && Truthy(ps[k.value].audio)
    ensures k.Some? ==> forall j :: i <= j < k.value ==> !Truthy(ps[j].audio)
    ensures k.None? ==> forall j :: i <= j < |ps| ==> !Truthy(ps[j].audio)
    decreases |ps| - i
  {
    if i == |ps| then None
    else if Truthy(ps[i].audio) then Some(i)
    else FindAudio(ps, i + 1)
  }

  /** The audio URL the play button is bound to, if any. */
  function AudioSource(e: Entry): (src: Option<string>)
    ensures src.Some? <==> e.phonetics.Some? && exists j :: 0 <= j < |e.phonetics.value| && Truthy(e.phonetics.value[j].audio)
    ensures src.Some? ==> exists k :: (0 <= k < |e.phonetics.value|
      && e.phonetics.value[k].audio == src
      && src.value != ""
      && forall j :: 0 <= j < k ==> !Truthy(e.phonetics.value[j].audio))
  {
    match e.phonetics
    case None => None
    case Some(ps) =>
      match FindAudio(ps, 0)
      case None => None
      case Some(k) => ps[k].audio
  }

  /** `updateUI` on the content panel: the entry's word, first part of
      speech, first definition, phonetic and example; the synonyms line
      shown only when there are synonyms; the play button shown only when
      some variant has audio; the saved marker on exactly when the word is
      in the saved list. What the page hides it leaves as it was in `prev`. */
  function Render(prev: View, e: Entry, saved: seq<string>): (v: View)
    requires Renderable(e)
    ensures v.word == e.word
    ensures v.partOfSpeech == e.meanings[0].partOfSpeech
    ensures v.definition == e.meanings[0].definitions[0].definition
    ensures v.phonetic == PhoneticText(e)
    ensures v.example == ExampleText(e.meanings[0].definitions[0])
    ensures v.synonymsShown <==> e.meanings[0].synonyms.Some? && |e.meanings[0].synonyms.value| > 0
    ensures v.synonymsShown ==> v.synonymsText == SynonymsLine(e.meanings[0].synonyms.value)
    ensures !v.synonymsShown ==> v.synonymsText == prev.synonymsText
    ensures v.audioShown <==> AudioSource(e).Some?
    ensures v.audioShown ==> v.audioSrc == AudioSource(e).value
    ensures !v.audioShown ==> v.audioSrc == prev.audioSrc
    ensures v.saved <==> e.word in saved
  {
    var m := e.meanings[0];
    var d := m.definitions[0];
    var showSynonyms := m.synonyms.Some? && |m.synonyms.value| > 0;
    var audio := AudioSource(e);
    View(
      word := e.word,
      partOfSpeech := m.partOfSpeech,
      definition := d.definition,
      phonetic := PhoneticText(e),
      example := ExampleText(d),
      synonymsText := if showSynonyms then SynonymsLine(m.synonyms.value) else prev.synonymsText,
      synonymsShown := showSynonyms,
      audioSrc := if audio.Some? then audio.value else prev.audioSrc,
      audioShown := audio.Some?,
      saved := e.word in saved)
  }

  /** Rendering the same entry again changes nothing. */
  lemma RenderIdempotent(prev: View, e: Entry, saved: seq<string>)
    requires Renderable(e)
    ensures Render(Render(prev, e, saved), e, saved) == Render(prev, e, saved)
  {
  }

  /** The saved list decides the saved marker and nothing else. */
  lemma RenderSavedOnlyMarker(prev: View, e: Entry, saved1: seq<string>, saved2: seq<string>)
    requires Renderable(e)
    ensures Render(prev, e, saved1).(saved := false) == Render(prev, e, saved2).(saved := false)
  {
  }

  /** Whatever was shown before matters only for what the page hides. */
  lemma RenderForgetsShown(prev1: View, prev2: View, e: Entry, saved: seq<string>)
    requires Renderable(e)
    requires prev1.synonymsText == prev2.synonymsText && prev1.audioSrc == prev2.audioSrc
    ensures Render(prev1, e, saved) == Render(prev2, e, saved)
  {
  }

  /** Synonyms after the first `MaxSynonyms` never change the line. */
  lemma SynonymsLineStopsAtMax(synonyms: seq<string>, more: seq<string>)
    requires |synonyms| == MaxSynonyms
    ensures SynonymsLine(synonyms + more) == SynonymsLine(synonyms)
  {
    if |more| == 0 {
      assert synonyms + more == synonyms;
    } else {
      assert (synonyms + more)[..MaxSynonyms] == synonyms;
    }
  }

  /** An entry with six synonyms, no entry-level phonetic, and audio only on
      its second variant: the line shows the first five synonyms, the
      phonetic falls back to the first variant's text, and the play button
      plays the second variant's audio. */
  lemma HappyExample(prev: View)
    ensures Render(prev, HappyEntry(), []) == View(
      "happy", "adjective", "feeling joy", "/ˈhæpi/", "she felt happy",
      "glad, joyful, cheerful, content, merry", true,
      "https://x/happy.mp3", true, false)
  {
    var e := HappyEntry();
    HappySynonyms();
    assert FindAudio(e.phonetics.value, 1) == Some(1);
    assert FindAudio(e.phonetics.value, 0) == Some(1);
    assert AudioSource(e) == Some("https://x/happy.mp3");
    assert PhoneticText(e) == "/ˈhæpi/";
  }

  function HappyEntry(): Entry {
    Entry(
      "happy", None,
      [Meaning("adjective",
               [Definition("feeling joy", Some("she felt happy"))],
               Some(["glad", "joyful", "cheerful", "content", "merry", "elated"]))],
      Some([Phonetic(Some("/ˈhæpi/"), Some("")), Phonetic(Some(""), Some("https://x/happy.mp3"))]))
  }

  lemma HappySynonyms()
    ensures SynonymsLine(["glad", "joyful", "cheerful", "content", "merry", "elated"])
            == "glad, joyful, cheerful, content, merry"
  {
    var syn := ["glad", "joyful", "cheerful", "content", "merry", "elated"];
    var five := ["glad", "joyful", "cheerful", "content", "merry"];
    assert syn[..MaxSynonyms] == five;
    assert five[1..] == ["joyful", "cheerful", "content", "merry"];
    assert five[1..][1..] == ["cheerful", "content", "merry"];
    assert five[1..][1..][1..] == ["content", "merry"];
    assert five[1..][1..][1..][1..] == ["merry"];
    assert Join(["merry"], ", ") == "merry";
    var j4 := Join(["content", "merry"], ", ");
    assert j4 == "content" + ", " + "merry";
    var j3 := Join(["cheerful", "content", "merry"], ", ");
    assert j3 == "cheerful" + ", " + j4;
    var j2 := Join(five[1..], ", ");
    assert j2 == "joyful" + ", " + j3;
    var j1 := Join(five, ", ");
    assert j1 == "glad" + ", " + j2;
    assert j1 == "glad" + ", " + "joyful" + ", " + "cheerful" + ", " + "content" + ", " + "merry";
  }
}
