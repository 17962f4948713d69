/** The SpeechSelector component: one button per speech type, the selected
    one highlighted; a click reports that button's type. */
module SpeechSelector {
  import opened Types

  /** A button of the selector. `seconds` is the table's duration (2.5, 7 and
      2.5 minutes) in whole seconds; the component itself never reads it. */
  datatype Entry = Entry(id: SpeechType, caption: string, seconds: nat)

  const SpeechTypes: seq<Entry> := [
    Entry(Impromptu, "Impromptu", 150),
    Entry(Prepared, "Prepared", 420),
    Entry(Evaluative, "Evaluative", 150)
  ]

  /** The position of a type's button. */
  function IndexOf(ty: SpeechType): (k: nat)
    ensures k < |SpeechTypes| && SpeechTypes[k].id == ty
  {
    match ty
    case Impromptu => 0
    case Prepared => 1
    case Evaluative => 2
  }

  /** Clicking the `k`-th button reports its type to `onSelect`. */
  function Click(k: nat): (ty: SpeechType)
    requires k < |SpeechTypes|
    ensures IndexOf(ty) == k
  {
    SpeechTypes[k].id
  }

  /** A button is highlighted when it is the selected type. */
  function Highlighted(selected: Option<SpeechType>, k: nat): (lit: bool)
    requires k < |SpeechTypes|
    ensures lit <==> selected.Some? && k == IndexOf(selected.value)
  {
    selected == Some(SpeechTypes[k].id)
  }

  /** The table lists each type exactly once, in this order. */
  lemma EachTypeOnce(ty: SpeechType)
    ensures |SpeechTypes| == 3
    ensures SpeechTypes[0].id == Impromptu && SpeechTypes[1].id == Prepared && SpeechTypes[2].id == Evaluative
    ensures forall k :: 0 <= k < |SpeechTypes| && SpeechTypes[k].id == ty ==> k == IndexOf(ty)
  {}

  /** At most one button is highlighted, and none when nothing is selected. */
  lemma HighlightIsUnique(selected: Option<SpeechType>, i: nat, j: nat)
    requires i < |SpeechTypes| && j < |SpeechTypes|
    ensures Highlighted(selected, i) && Highlighted(selected, j) ==> i == j
    ensures selected == None ==> !Highlighted(selected, i)
  {}

  /** Clicking a type's button reports that type. */
  lemma ClickReportsType(ty: SpeechType)
    ensures Click(IndexOf(ty)) == ty
  {}
}
