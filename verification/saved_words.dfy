/**
 The saved-word list: an ordered list of words kept in browser storage, changed
 by the save toggle and by the delete button of the saved-list view. Storage
 itself is the identity on the list, so only the list operations are modelled.
 */
module SavedWords {

  predicate NoDuplicates(words: seq<string>) {
    forall i, j :: 0 <= i < j < |words| ==> words[i] != words[j]
  }

  /** `a` is `b` with some elements left out, the rest in their original order. */
  predicate IsSubsequence(a: seq<string>, b: seq<string>)
    decreases |b|
  {
    if |a| == 0 then true
    else if |b| == 0 then false
    else if a[0] == b[0] then IsSubsequence(a[1..], b[1..])
    else IsSubsequence(a, b[1..])
  }

  /** `words.filter(x => x !== w)`: every occurrence of `w` goes, every other
      word stays, in order and as often as before. */
  function Remove(words: seq<string>, w: string): (r: seq<string>)
    ensures w !in r
    ensures forall x :: x != w ==> multiset(r)[x] == multiset(words)[x]
    ensures IsSubsequence(r, words)
    decreases |words|
  {
    if |words| == 0 then []
    else
      var rest := Remove(words[1..], w);
      assert words == [words[0]] + words[1..];
      if words[0] == w then
        assert |rest| == 0 || rest[0] != words[0];
        rest
      else
        [words[0]] + rest
  }

  /** A subsequence takes no word more often than its source has it. */
  lemma {:induction false} SubsequenceCounts(a: seq<string>, b: seq<string>)
    requires IsSubsequence(a, b)
    ensures multiset(a) <= multiset(b)
    decreases |b|
  {
    if |a| == 0 {
    } else {
      assert b == [b[0]] + b[1..];
      if a[0] == b[0] {
        assert a == [a[0]] + a[1..];
        SubsequenceCounts(a[1..], b[1..]);
      } else {
        SubsequenceCounts(a, b[1..]);
      }
    }
  }

  /** The three properties `Remove` promises determine its result: any list
      that leaves out every `w`, keeps every other word as often, and keeps
      their order, is `Remove(words, w)`. */
  lemma {:induction false} RemoveUnique(words: seq<string>, w: string, r: seq<string>)
    requires w !in r
    requires forall x :: x != w ==> multiset(r)[x] == multiset(words)[x]
    requires IsSubsequence(r, words)
    ensures r == Remove(words, w)
    decreases |words|
  {
    if |words| == 0 {
    } else {
      var h := words[0];
      assert words == [h] + words[1..];
      if h == w {
        assert |r| == 0 || r[0] != h;
        RemoveUnique(words[1..], w, r);
      } else {
        SubsequenceHead(r, words);
        assert r == [h] + r[1..];
        forall x | x != w ensures multiset(r[1..])[x] == multiset(words[1..])[x] {
          assert multiset(r)[x] == multiset([h])[x] + multiset(r[1..])[x];
          assert multiset(words)[x] == multiset([h])[x] + multiset(words[1..])[x];
        }
        RemoveUnique(words[1..], w, r[1..]);
      }
    }
  }

  /** A subsequence that keeps every copy of the first word must start with it. */
  lemma SubsequenceHead(r: seq<string>, words: seq<string>)
    requires |words| > 0 && IsSubsequence(r, words)
    requires multiset(r)[words[0]] == multiset(words)[words[0]]
    ensures |r| > 0 && r[0] == words[0]
  {
    assert words == [words[0]] + words[1..];
    if |r| == 0 || r[0] != words[0] {
      SubsequenceCounts(r, words[1..]);
    }
  }

  /** Removing a word that is not there leaves the list as it is. */
  lemma {:induction false} RemoveAbsent(words: seq<string>, w: string)
    requires w !in words
    ensures Remove(words, w) == words
    decreases |words|
  {
    if |words| > 0 {
      assert w !in words[1..];
      RemoveAbsent(words[1..], w);
      assert words == [words[0]] + words[1..];
    }
  }

  /** Removing a word twice is removing it once. */
  lemma RemoveIdempotent(words: seq<string>, w: string)
    ensures Remove(Remove(words, w), w) == Remove(words, w)
  {
    RemoveAbsent(Remove(words, w), w);
  }

  /** A word appended to the list is removed along with the others. */
  lemma {:induction false} RemoveAppended(words: seq<string>, w: string)
    ensures Remove(words + [w], w) == Remove(words, w)
    decreases |words|
  {
    if |words| == 0 {
      assert [] + [w] == [w];
      assert [w][1..] == [];
    } else {
      assert (words + [w])[1..] == words[1..] + [w];
      RemoveAppended(words[1..], w);
    }
  }

  /** Removing a word from a list without duplicates keeps it without duplicates. */
  lemma {:induction false} RemoveKeepsNoDuplicates(words: seq<string>, w: string)
    requires NoDuplicates(words)
    ensures NoDuplicates(Remove(words, w))
    decreases |words|
  {
    if |words| > 0 {
      var h := words[0];
      assert NoDuplicates(words[1..]) by {
        forall i, j | 0 <= i < j < |words[1..]| ensures words[1..][i] != words[1..][j] {
          assert words[1..][i] == words[i + 1] && words[1..][j] == words[j + 1];
        }
      }
      RemoveKeepsNoDuplicates(words[1..], w);
      var rest := Remove(words[1..], w);
      if h != w {
        assert h !in words[1..] by {
          forall k | 0 <= k < |words[1..]| ensures words[1..][k] != h {
            assert words[1..][k] == words[k + 1];
          }
        }
        assert multiset(rest)[h] == 0;
        assert h !in rest;
        var r := [h] + rest;
        forall i, j | 0 <= i < j < |r| ensures r[i] != r[j] {
          if i == 0 { assert r[j] == rest[j - 1]; assert rest[j - 1] in rest; }
          else { assert r[i] == rest[i - 1] && r[j] == rest[j - 1]; }
        }
      }
    }
  }

  /** Removing a word that is present shortens the list. */
  lemma {:induction false} RemoveShrinks(words: seq<string>, w: string)
    requires w in words
    ensures |Remove(words, w)| < |words|
    decreases |words|
  {
    if words[0] != w {
      RemoveShrinks(words[1..], w);
    } else {
      RemoveNoLonger(words[1..], w);
    }
  }

  /** Removing never lengthens the list. */
  lemma {:induction false} RemoveNoLonger(words: seq<string>, w: string)
    ensures |Remove(words, w)| <= |words|
    decreases |words|
  {
    if |words| > 0 {
      RemoveNoLonger(words[1..], w);
    }
  }

  /** In a list without duplicates, removing a present word removes one entry. */
  lemma RemoveOnlyOne(words: seq<string>, w: string)
    requires NoDuplicates(words) && w in words
    ensures |Remove(words, w)| == |words| - 1
  {
    var i :| 0 <= i < |words| && words[i] == w;
    assert words == words[..i] + [w] + words[i + 1..];
    assert w !in words[..i] && w !in words[i + 1..] by {
      forall k | 0 <= k < |words| && k != i ensures words[k] != w { }
    }
    RemoveAbsent(words[..i], w);
    RemoveAbsent(words[i + 1..], w);
    RemoveConcat(words[..i] + [w], words[i + 1..], w);
    RemoveConcat(words[..i], [w], w);
  }

  /** Removing from a concatenation removes from each part. */
  lemma {:induction false} RemoveConcat(a: seq<string>, b: seq<string>, w: string)
    ensures Remove(a + b, w) == Remove(a, w) + Remove(b, w)
    decreases |a|
  {
    if |a| == 0 {
      assert a + b == b;
    } else {
      assert (a + b)[1..] == a[1..] + b;
      RemoveConcat(a[1..], b, w);
    }
  }

  /** The result of pressing the save button: the new list and whether the
      button now shows the word as saved. */
  datatype Toggled = Toggled(words: seq<string>, saved: bool)

  /** The save button: a saved word is removed (every occurrence), an unsaved
      word is appended at the end; the marker then says whether the word is
      in the list. */
  function Toggle(words: seq<string>, w: string): (t: Toggled)
    ensures t.saved <==> w in t.words
    ensures t.saved <==> w !in words
    ensures t.saved ==> t.words == words + [w]
    ensures !t.saved ==> w !in t.words && |t.words| < |words|
    ensures Remove(t.words, w) == Remove(words, w)
  {
    if w in words then
      RemoveIdempotent(words, w);
      RemoveShrinks(words, w);
      Toggled(Remove(words, w), false)
    else
      RemoveAppended(words, w);
      Toggled(words + [w], true)
  }

  /** Toggling leaves every other word as often as it was. */
  lemma ToggleKeepsOthers(words: seq<string>, w: string, x: string)
    requires x != w
    ensures multiset(Toggle(words, w).words)[x] == multiset(words)[x]
  {
    var t := Toggle(words, w);
    assert multiset(Remove(t.words, w))[x] == multiset(t.words)[x];
  }

  /** Toggling keeps a list without duplicates free of duplicates. */
  lemma ToggleKeepsNoDuplicates(words: seq<string>, w: string)
    requires NoDuplicates(words)
    ensures NoDuplicates(Toggle(words, w).words)
  {
    if w in words {
      RemoveKeepsNoDuplicates(words, w);
    }
  }

  /** Saving a word and unsaving it again restores the list. */
  lemma ToggleTwiceAbsent(words: seq<string>, w: string)
    requires w !in words
    ensures Toggle(Toggle(words, w).words, w).words == words
  {
    RemoveAppended(words, w);
    RemoveAbsent(words, w);
  }

  /** Unsaving a word and saving it again moves it, once, to the end. */
  lemma ToggleTwicePresent(words: seq<string>, w: string)
    requires w in words
    ensures Toggle(Toggle(words, w).words, w).words == Remove(words, w) + [w]
  {
  }
}
