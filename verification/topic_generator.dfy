/** The TopicGenerator component: the static catalogue of speaking prompts,
    five per theme, and the picker's state (the highlighted theme and the last
    generated batch). */
module TopicGenerator {
  import opened Types
  import Decimal

  /** The theme buttons, in display order. */
  const Themes: seq<Theme> := [Technology, Society, Environment, Education, Philosophy]

  /** The theme's name as the source spells it; it is also the id prefix. */
  function ThemeName(t: Theme): string {
    match t
    case Technology => "technology"
    case Society => "society"
    case Environment => "environment"
    case Education => "education"
    case Philosophy => "philosophy"
  }

  /** The theme a name denotes, if any. */
  function ThemeOfName(name: string): Option<Theme> {
    if name == "technology" then Some(Technology)
    else if name == "society" then Some(Society)
    else if name == "environment" then Some(Environment)
    else if name == "education" then Some(Education)
    else if name == "philosophy" then Some(Philosophy)
    else None
  }

  /** The `index`-th prompt of a theme's fixed list. */
  function TopicText(t: Theme, index: nat): string
    requires index < 5
  {
    match t
    case Technology => (
      if index == 0 then "How has artificial intelligence changed human creativity?"
      else if index == 1 then "Should social media platforms be regulated like utilities?"
      else if index == 2 then "Is digital privacy a human right?"
      else if index == 3 then "The impact of remote work on society"
      else "The future of transportation in smart cities")
    case Society => (
      if index == 0 then "The role of tradition in modern society"
      else if index == 1 then "The impact of globalization on local cultures"
      else if index == 2 then "Universal basic income: necessity or mistake?"
      else if index == 3 then "The future of democracy in the digital age"
      else "The changing nature of work and careers")
    case Environment => (
      if index == 0 then "Individual vs corporate responsibility in climate change"
      else if index == 1 then "The future of renewable energy"
      else if index == 2 then "Urban farming and food sustainability"
      else if index == 3 then "Ocean conservation strategies"
      else "The impact of fast fashion on the environment")
    case Education => (
      if index == 0 then "The role of AI in education"
      else if index == 1 then "Should coding be mandatory in schools?"
      else if index == 2 then "The future of higher education"
      else if index == 3 then "Learning styles: myth or reality?"
      else "The impact of gamification on learning")
    case Philosophy => (
      if index == 0 then "The ethics of artificial intelligence"
      else if index == 1 then "Free will in the age of algorithms"
      else if index == 2 then "The nature of consciousness"
      else if index == 3 then "The role of truth in the post-truth era"
      else "The meaning of progress in modern society")
  }

  /** The theme's prompts in order (`topicsByTheme[theme]`). */
  function TopicTexts(t: Theme): (texts: seq<string>)
    ensures |texts| == 5
    ensures forall i :: 0 <= i < 5 ==> texts[i] == TopicText(t, i)
  {
    seq(5, i requires 0 <= i < 5 => TopicText(t, i))
  }

  /** The id `${theme}-${index}`. With a single-digit index (a batch has
      five) the id reads back as its theme and index. */
  function TopicId(t: Theme, index: nat): (id: string)
    ensures index < 10 ==> ParseTopicId(id) == Some((t, index))
  {
    var id := ThemeName(t) + "-" + Decimal.NatToString(index);
    if index < 10 then
      assert id[..|id| - 2] == ThemeName(t);
      ThemeNameRoundTrip(t);
      id
    else id
  }

  /** Reads an id of a catalogue topic back as its theme and index. */
  function ParseTopicId(id: string): Option<(Theme, nat)> {
    if |id| >= 2 && id[|id| - 2] == '-' && Decimal.IsDigit(id[|id| - 1]) then
      match ThemeOfName(id[..|id| - 2])
      case Some(t) => Some((t, Decimal.DigitValue(id[|id| - 1])))
      case None => None
    else None
  }

  /** `generateTopics`: the theme's prompts, in order, each tagged with its
      theme and its positional id. */
  function GenerateTopics(t: Theme): (batch: seq<Topic>)
    ensures |batch| == 5
    ensures forall i :: 0 <= i < |batch| ==>
      batch[i].theme == t && batch[i].text == TopicTexts(t)[i] && ParseTopicId(batch[i].id) == Some((t, i))
  {
    var texts := TopicTexts(t);
    seq(|texts|, i requires 0 <= i < |texts| => Topic(TopicId(t, i), texts[i], t))
  }

  lemma ThemeNameRoundTrip(t: Theme)
    ensures ThemeOfName(ThemeName(t)) == Some(t)
  {}

  /** Every catalogue id is distinct, within one batch and across themes. */
  lemma TopicIdsDistinct(t1: Theme, i: nat, t2: Theme, j: nat)
    requires i < 5 && j < 5
    requires GenerateTopics(t1)[i].id == GenerateTopics(t2)[j].id
    ensures t1 == t2 && i == j
  {}

  /** The theme list names every theme exactly once, in this order. */
  lemma ThemesListEachOnce(t: Theme)
    ensures multiset(Themes)[t] == 1
  {}

  /** A topic the catalogue can produce. */
  ghost predicate Catalogued(topic: Topic) {
    exists t: Theme, k: nat :: k < 5 && GenerateTopics(t)[k] == topic
  }

  /** The picker's state: the highlighted theme and the shown batch. */
  datatype Picker = Picker(selectedTheme: Theme, topics: seq<Topic>)

  /** A freshly opened picker: technology, no topics yet. */
  const InitialPicker := Picker(Technology, [])

  /** The picker opens on the first theme button, with no topics shown. */
  lemma InitialPickerShowsFirstTheme()
    ensures InitialPicker.selectedTheme == Themes[0]
    ensures InitialPicker.topics == []
    ensures ApplyPicker(InitialPicker, GenerateClicked).topics == GenerateTopics(Themes[0])
  {}

  /** A theme button: changes the highlight and nothing else. */
  function SelectTheme(p: Picker, t: Theme): (r: Picker)
    ensures r.selectedTheme == t && r.topics == p.topics
  {
    p.(selectedTheme := t)
  }

  /** The generate button: the batch is replaced by the selected theme's
      five prompts, in catalogue order, with their ids. */
  function Generate(p: Picker): (r: Picker)
    ensures r.selectedTheme == p.selectedTheme
    ensures |r.topics| == 5
    ensures forall i :: 0 <= i < |r.topics| ==>
      && r.topics[i].theme == p.selectedTheme
      && r.topics[i].text == TopicTexts(p.selectedTheme)[i]
      && ParseTopicId(r.topics[i].id) == Some((p.selectedTheme, i))
  {
    p.(topics := GenerateTopics(p.selectedTheme))
  }

  /** A topic button: hands the clicked topic to the caller. Only the topics of
      the shown batch have buttons. */
  function PickTopic(p: Picker, k: nat): (topic: Topic)
    requires k < |p.topics|
    ensures topic in p.topics
  {
    p.topics[k]
  }

  lemma GenerateIdempotent(p: Picker)
    ensures Generate(Generate(p)) == Generate(p)
  {}

  /** Generating never accumulates: the result does not depend on the batch
      shown before. */
  lemma GenerateReplacesBatch(p: Picker, q: Picker)
    requires p.selectedTheme == q.selectedTheme
    ensures Generate(p) == Generate(q)
  {}

  datatype PickerEvent = ThemeClicked(theme: Theme) | GenerateClicked

  function ApplyPicker(p: Picker, e: PickerEvent): Picker {
    match e
    case ThemeClicked(t) => SelectTheme(p, t)
    case GenerateClicked => Generate(p)
  }

  function RunPicker(p: Picker, events: seq<PickerEvent>): Picker {
    if |events| == 0 then p
    else ApplyPicker(RunPicker(p, events[..|events| - 1]), events[|events| - 1])
  }

  /** The batch shown is the one made by the latest generate click, for the
      theme selected at that moment. */
  ghost predicate ShowsLatestGenerate(events: seq<PickerEvent>, topics: seq<Topic>) {
    exists j :: LatestGenerateAt(events, j)
      && topics == GenerateTopics(RunPicker(InitialPicker, events[..j]).selectedTheme)
  }

  /** Click `j` is a generate click and no generate click follows it. */
  ghost predicate LatestGenerateAt(events: seq<PickerEvent>, j: int) {
    && 0 <= j < |events| && events[j].GenerateClicked?
    && forall k :: j < k < |events| ==> !events[k].GenerateClicked?
  }

  /** A theme click leaves the latest generate click where it was. */
  lemma LatestGenerateSurvivesThemeClick(events: seq<PickerEvent>, j: int)
    requires |events| > 0 && !events[|events| - 1].GenerateClicked?
    requires LatestGenerateAt(events[..|events| - 1], j)
    ensures LatestGenerateAt(events, j)
    ensures events[..|events| - 1][..j] == events[..j]
  {
    var init := events[..|events| - 1];
    forall k | j < k < |events|
      ensures !events[k].GenerateClicked?
    {
      if k < |events| - 1 {
        assert events[k] == init[k];
      }
    }
  }

  /** The batch is empty exactly until the first generate click. */
  lemma {:induction false} PickerEmptyUntilGenerate(events: seq<PickerEvent>)
    ensures RunPicker(InitialPicker, events).topics == []
        <==> forall i :: 0 <= i < |events| ==> !events[i].GenerateClicked?
  {
    var n := |events|;
    if n > 0 {
      var init := events[..n - 1];
      assert forall i :: 0 <= i < |init| ==> init[i] == events[i];
      PickerEmptyUntilGenerate(init);
      if events[n - 1].GenerateClicked? {
        assert |RunPicker(InitialPicker, events).topics| == 5;
      }
    }
  }

  /** After a generate click the batch is the whole catalogue batch of the
      theme selected at the latest generate. */
  lemma {:induction false} PickerBatchIsCatalogue(events: seq<PickerEvent>)
    requires RunPicker(InitialPicker, events).topics != []
    ensures ShowsLatestGenerate(events, RunPicker(InitialPicker, events).topics)
  {
    var n := |events|;
    var init := events[..n - 1];
    var prev := RunPicker(InitialPicker, init);
    var p := RunPicker(InitialPicker, events);
    if events[n - 1].GenerateClicked? {
      assert p.topics == GenerateTopics(prev.selectedTheme);
      assert RunPicker(InitialPicker, events[..n - 1]) == prev;
    } else {
      assert p.topics == prev.topics;
      PickerBatchIsCatalogue(init);
      var j :| LatestGenerateAt(init, j)
        && prev.topics == GenerateTopics(RunPicker(InitialPicker, init[..j]).selectedTheme);
      LatestGenerateSurvivesThemeClick(events, j);
    }
  }

  /** So every topic the picker can hand out is a catalogue topic: its id
      reads back as a theme and an index, and it carries that theme's prompt. */
  lemma {:induction false} PickedTopicIsCatalogued(events: seq<PickerEvent>, k: nat)
    requires k < |RunPicker(InitialPicker, events).topics|
    ensures var topic := PickTopic(RunPicker(InitialPicker, events), k);
      && k < 5 && ParseTopicId(topic.id) == Some((topic.theme, k))
      && topic.text == TopicTexts(topic.theme)[k]
      && Catalogued(topic)
  {
    PickerBatchIsCatalogue(events);
    var p := RunPicker(InitialPicker, events);
    var j :| 0 <= j < |events| && p.topics == GenerateTopics(RunPicker(InitialPicker, events[..j]).selectedTheme);
    var t := RunPicker(InitialPicker, events[..j]).selectedTheme;
    assert GenerateTopics(t)[k] == PickTopic(p, k);
  }
}
