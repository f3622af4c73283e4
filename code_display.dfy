/** The example panel of a subtopic: it shows the subtopic's code examples
    written in one of the selected languages. */
module CodeDisplay {
  import opened Topics
  import opened JsArray

  /** `filtered`: the examples whose language is selected. */
  function Filtered(examples: seq<CodeExample>, selectedLanguages: seq<Language>): (r: seq<CodeExample>)
    ensures |r| <= |examples|
    ensures forall e :: e in r <==> e in examples && e.language in selectedLanguages
  {
    Filter(examples, (e: CodeExample) => e.language in selectedLanguages)
  }

  /** The shown examples keep the order they have in the subtopic. */
  lemma FilteredKeepsOrder(examples: seq<CodeExample>, selectedLanguages: seq<Language>)
    ensures IsSubsequence(Filtered(examples, selectedLanguages), examples)
  {
    FilterIsSubsequence(examples, (e: CodeExample) => e.language in selectedLanguages);
  }

  /** An example in a selected language is shown as often as the subtopic
      lists it; one in another language not at all. */
  lemma FilteredCounts(examples: seq<CodeExample>, selectedLanguages: seq<Language>, e: CodeExample)
    ensures multiset(Filtered(examples, selectedLanguages))[e] ==
              if e.language in selectedLanguages then multiset(examples)[e] else 0
  {
    FilterCounts(examples, (e: CodeExample) => e.language in selectedLanguages, e);
  }

  /** With every language selected, as at start-up, every example is shown. */
  lemma FilteredAllLanguages(examples: seq<CodeExample>, selectedLanguages: seq<Language>)
    requires forall l :: l in AllLanguages ==> l in selectedLanguages
    ensures Filtered(examples, selectedLanguages) == examples
  {
    var p := (e: CodeExample) => e.language in selectedLanguages;
    forall k | 0 <= k < |examples| ensures p(examples[k]) {
      AllLanguagesComplete(examples[k].language);
    }
    FilterKeepsAll(examples, p);
  }
}
