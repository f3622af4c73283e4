/** The shapes of the static content the pages show: the four languages,
    one code example per language, subtopics and topics. The content itself
    (example text, titles, icons) is data, not behaviour, and is not part
    of this model. */
module Topics {

  /** The four languages an example can be written in. */
  datatype Language = Java | Python | C | Cpp

  /** Every language, in the order the page selects them at start-up. */
  const AllLanguages: seq<Language> := [Java, Python, C, Cpp]

  /** One code example; `caption` is the source's `label` field (a keyword here). */
  datatype CodeExample = CodeExample(language: Language, caption: string, code: string)

  datatype Subtopic = Subtopic(id: string, title: string, description: string, examples: seq<CodeExample>)

  /** A topic; its icon is a rendering detail and is left out. */
  datatype Topic = Topic(id: string, title: string, subtopics: seq<Subtopic>)

  /** No element occurs twice. */
  predicate NoDuplicates<T(==)>(s: seq<T>) {
    forall i, j :: 0 <= i < j < |s| ==> s[i] != s[j]
  }

  /** The start-up selection names every language once. */
  lemma AllLanguagesComplete(l: Language)
    ensures l in AllLanguages && NoDuplicates(AllLanguages)
  {
  }
}
