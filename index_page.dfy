/** The index page's navigation: which topic and which subtopic are open,
    and which languages the examples are shown in. */
module IndexPage {
  import opened Wrappers
  import opened Topics
  import opened JsArray
  import opened LanguageFilter

  /** JavaScript truthiness of a `string | null` id: `null` and the empty
      string are both false. */
  predicate IsSet(id: Option<string>) {
    id.Some? && id.value != ""
  }

  /** `selectedTopic`: the first topic whose id is `id`; none when `id` is
      `null` or no topic has it. */
  function TopicOf(topics: seq<Topic>, id: Option<string>): (r: Option<Topic>)
    ensures r.None? <==> forall k :: 0 <= k < |topics| ==> Some(topics[k].id) != id
    ensures r.Some? ==> exists k :: 0 <= k < |topics| && topics[k] == r.value && Some(r.value.id) == id
                                    && forall j :: 0 <= j < k ==> Some(topics[j].id) != id
    ensures id.None? ==> r.None?
  {
    Find(topics, (t: Topic) => Some(t.id) == id)
  }

  /** `selectedSubtopic`: none without a topic; otherwise the first subtopic
      of the topic whose id is `id`, or none. */
  function SubtopicOf(topic: Option<Topic>, id: Option<string>): (r: Option<Subtopic>)
    ensures topic.None? || id.None? ==> r.None?
    ensures topic.Some? ==>
              (r.None? <==> forall k :: 0 <= k < |topic.value.subtopics| ==> Some(topic.value.subtopics[k].id) != id)
    ensures r.Some? ==> exists k :: 0 <= k < |topic.value.subtopics| && topic.value.subtopics[k] == r.value
                                    && Some(r.value.id) == id
                                    && forall j :: 0 <= j < k ==> Some(topic.value.subtopics[j].id) != id
  {
    match topic
    case None => None
    case Some(t) => Find(t.subtopics, (s: Subtopic) => Some(s.id) == id)
  }

  /** The open topic and subtopic ids. */
  datatype Place = Place(topicId: Option<string>, subtopicId: Option<string>)

  /** `handleBack`: closes the subtopic when one is set, otherwise the topic. */
  function AfterBack(p: Place): (r: Place)
    ensures IsSet(p.subtopicId) ==> r == Place(p.topicId, None)
    ensures !IsSet(p.subtopicId) ==> r == Place(None, p.subtopicId)
  {
    if IsSet(p.subtopicId) then p.(subtopicId := None) else p.(topicId := None)
  }

  /** Two backs always close the topic. They close the subtopic too, unless
      its id is the empty string, which `handleBack` takes for no subtopic. */
  lemma TwoBacks(p: Place)
    ensures AfterBack(AfterBack(p)).topicId == None
    ensures AfterBack(AfterBack(p)).subtopicId == (if p.subtopicId == Some("") then Some("") else None)
  {
    if IsSet(p.subtopicId) {
      assert AfterBack(p) == Place(p.topicId, None);
    } else {
      assert AfterBack(p) == Place(None, p.subtopicId);
    }
  }

  /** Going back from the start page changes nothing. */
  lemma BackAtStart()
    ensures AfterBack(Place(None, None)) == Place(None, None)
  {
  }

  /** The page state: the three `useState` fields of `Index`, and the
      topics it shows. */
  class Navigation {
    const topics: seq<Topic>
    var selectedTopicId: Option<string>
    var selectedSubtopicId: Option<string>
    var selectedLanguages: seq<Language>

    /** The selection always names some language, none twice. */
    ghost predicate Valid()
      reads this
    {
      selectedLanguages != [] && NoDuplicates(selectedLanguages)
    }

    function At(): Place
      reads this
    {
      Place(selectedTopicId, selectedSubtopicId)
    }

    function SelectedTopic(): Option<Topic>
      reads this
    {
      TopicOf(topics, selectedTopicId)
    }

    function SelectedSubtopic(): Option<Subtopic>
      reads this
    {
      SubtopicOf(SelectedTopic(), selectedSubtopicId)
    }

    /** The start page: nothing open, every language selected. */
    constructor (topics: seq<Topic>)
      ensures this.topics == topics
      ensures selectedTopicId == None && selectedSubtopicId == None
      ensures selectedLanguages == AllLanguages
      ensures Valid()
      ensures SelectedTopic() == None && SelectedSubtopic() == None
    {
      this.topics := topics;
      selectedTopicId := None;
      selectedSubtopicId := None;
      selectedLanguages := AllLanguages;
      AllLanguagesComplete(Java);
    }

    /** `handleSelectTopic(id)`: opens the topic, with no subtopic. */
    method SelectTopic(id: string)
      modifies this
      ensures selectedTopicId == Some(id) && selectedSubtopicId == None
      ensures selectedLanguages == old(selectedLanguages)
      ensures SelectedSubtopic() == None
    {
      selectedTopicId := Some(id);
      selectedSubtopicId := None;
    }

    /** `handleBack`. */
    method Back()
      modifies this
      ensures At() == AfterBack(old(At()))
      ensures selectedLanguages == old(selectedLanguages)
    {
      if IsSet(selectedSubtopicId) {
        selectedSubtopicId := None;
      } else {
        selectedTopicId := None;
      }
    }

    /** `handleNavigateFromAI(topicId, subtopicId)`: opens both without
        checking that they exist; an unknown topic id shows nothing. */
    method NavigateFromAI(topicId: string, subtopicId: string)
      modifies this
      ensures At() == Place(Some(topicId), Some(subtopicId))
      ensures selectedLanguages == old(selectedLanguages)
      ensures (forall t :: t in topics ==> t.id != topicId) ==>
                SelectedTopic() == None && SelectedSubtopic() == None
    {
      selectedTopicId := Some(topicId);
      selectedSubtopicId := Some(subtopicId);
    }

    /** A click on a subtopic of the open topic: opens it and leaves the
        topic as it is. */
    method SelectSubtopic(id: string)
      modifies this
      ensures At() == Place(old(selectedTopicId), Some(id))
      ensures selectedLanguages == old(selectedLanguages)
      ensures SelectedTopic() == old(SelectedTopic())
      ensures old(SelectedTopic()).Some? && (exists s :: s in old(SelectedTopic()).value.subtopics && s.id == id) ==>
                SelectedSubtopic().Some? && SelectedSubtopic().value.id == id
    {
      selectedSubtopicId := Some(id);
      if SelectedTopic().Some? {
        var subs := SelectedTopic().value.subtopics;
        if s :| s in subs && s.id == id {
          var k :| 0 <= k < |subs| && subs[k] == s;
          assert Some(subs[k].id) == selectedSubtopicId;
        }
      }
    }

    /** A click on a language button, with `setSelectedLanguages` as the
        filter's `onChange`. */
    method ClickLanguage(lang: Language)
      requires Valid()
      modifies this
      ensures selectedLanguages == Clicked(old(selectedLanguages), lang)
      ensures At() == old(At())
      ensures Valid()
    {
      ToggleNeverEmpties(selectedLanguages, lang);
      ToggleKeepsNoDuplicates(selectedLanguages, lang);
      match Toggle(selectedLanguages, lang)
      case Some(next) => selectedLanguages := next;
      case None =>
    }
  }
}
