/** The language buttons of the header: clicking a language adds it to the
    selection or removes it, but never removes the last one. */
module LanguageFilter {
  import opened Wrappers
  import opened Topics
  import opened JsArray

  /** `toggle(lang)`: the selection handed to `onChange`, or `None` when
      `onChange` is not called because `lang` is the only language left.
      A selected language is removed everywhere it occurs; a new one is
      added at the end. */
  function Toggle(selected: seq<Language>, lang: Language): (r: Option<seq<Language>>)
    ensures r.None? <==> lang in selected && |selected| <= 1
    ensures r.Some? ==> (lang in r.value <==> lang !in selected)
    ensures r.Some? ==> forall l :: l != lang ==> (l in r.value <==> l in selected)
    ensures lang !in selected ==> r == Some(selected + [lang])
    ensures lang in selected && |selected| > 1 ==> r == Some(Others(selected, lang))
  {
    if lang in selected then
      if |selected| > 1 then Some(Filter(selected, l => l != lang)) else None
    else
      Some(selected + [lang])
  }

  /** The selection after a click: the one handed to `onChange`, or the old
      one when `onChange` was not called. */
  function Clicked(selected: seq<Language>, lang: Language): seq<Language> {
    match Toggle(selected, lang)
    case Some(next) => next
    case None => selected
  }

  /** The languages other than `lang`, in their order. */
  function Others(selected: seq<Language>, lang: Language): seq<Language> {
    Filter(selected, l => l != lang)
  }

  /** Every click keeps the other languages where they were: removing
      `lang` from the selection before or after the click gives the same
      sequence. */
  lemma ToggleKeepsOthersInOrder(selected: seq<Language>, lang: Language)
    ensures Others(Clicked(selected, lang), lang) == Others(selected, lang)
  {
    var p := (l: Language) => l != lang;
    if lang in selected {
      if |selected| > 1 {
        FilterIdempotent(selected, p);
      }
    } else {
      FilterAppend(selected, [lang], p);
      assert Filter([lang], p) == [];
    }
  }

  lemma {:induction false} FilterIdempotent(s: seq<Language>, p: Language -> bool)
    ensures Filter(Filter(s, p), p) == Filter(s, p)
    decreases |s|
  {
    if s != [] {
      FilterIdempotent(s[1..], p);
      if p(s[0]) {
        assert Filter(s, p) == [s[0]] + Filter(s[1..], p);
        assert Filter(s, p)[1..] == Filter(s[1..], p);
      } else {
        assert Filter(s, p) == [] + Filter(s[1..], p) == Filter(s[1..], p);
      }
    }
  }

  /** A selection without repetitions is never emptied by a click. */
  lemma ToggleNeverEmpties(selected: seq<Language>, lang: Language)
    requires selected != [] && NoDuplicates(selected)
    ensures Clicked(selected, lang) != []
  {
    if lang in selected && |selected| > 1 {
      var other := if selected[0] != lang then selected[0] else selected[1];
      assert other in selected && other != lang;
    }
  }

  /** With repetitions the guard `selected.length > 1` does not protect the
      last language: two copies of the same language both go. */
  lemma ToggleCanEmptyRepeatedSelection()
    ensures Toggle([Java, Java], Java) == Some([])
  {
    assert Filter([Java, Java], l => l != Java) == [];
  }

  /** A selection without repetitions keeps none after a click. */
  lemma ToggleKeepsNoDuplicates(selected: seq<Language>, lang: Language)
    requires NoDuplicates(selected)
    ensures NoDuplicates(Clicked(selected, lang))
  {
    if lang in selected {
      if |selected| > 1 {
        FilterKeepsNoDuplicates(selected, l => l != lang);
      }
    }
  }

  lemma {:induction false} FilterKeepsNoDuplicates(s: seq<Language>, p: Language -> bool)
    requires NoDuplicates(s)
    ensures NoDuplicates(Filter(s, p))
    decreases |s|
  {
    if s != [] {
      assert NoDuplicates(s[1..]) by {
        forall i, j | 0 <= i < j < |s| - 1 ensures s[1..][i] != s[1..][j] {
          assert s[1..][i] == s[i + 1] && s[1..][j] == s[j + 1];
        }
      }
      FilterKeepsNoDuplicates(s[1..], p);
      if p(s[0]) {
        var r := Filter(s, p);
        assert r == [s[0]] + Filter(s[1..], p);
        assert s[0] !in s[1..] by {
          forall k | 0 <= k < |s| - 1 ensures s[1..][k] != s[0] {
            assert s[1..][k] == s[k + 1];
          }
        }
        assert s[0] !in Filter(s[1..], p);
        forall i, j | 0 <= i < j < |r| ensures r[i] != r[j] {
          if i == 0 {
            assert r[j] == Filter(s[1..], p)[j - 1];
          } else {
            assert r[i] == Filter(s[1..], p)[i - 1] && r[j] == Filter(s[1..], p)[j - 1];
          }
        }
      }
    }
  }

  /** Clicking a new language twice gives the selection back. */
  lemma ToggleRoundTrip(selected: seq<Language>, lang: Language)
    requires selected != [] && lang !in selected
    ensures Clicked(Clicked(selected, lang), lang) == selected
  {
    var p := (l: Language) => l != lang;
    assert Clicked(selected, lang) == selected + [lang];
    FilterAppend(selected, [lang], p);
    assert Filter([lang], p) == [];
    FilterKeepsAll(selected, p);
    assert selected + [] == selected;
  }

  /** Clicking a selected language twice, when it is not the last one,
      moves it to the end. */
  lemma ToggleTwiceMovesToEnd(selected: seq<Language>, lang: Language)
    requires lang in selected && |selected| > 1
    ensures Clicked(Clicked(selected, lang), lang) == Others(selected, lang) + [lang]
  {
  }
}
