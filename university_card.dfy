/** What a catalogue card (`UniversityCard`) shows beyond the university's
    own fields: the grant-chance badge, present only once the user has given
    an ENT score, and the add-to-comparison button, disabled when the
    university is already being compared. */
module UniversityCard {

  import opened Wrappers
  import opened Types
  import opened UniversityList

  datatype Variant = Default | Secondary | Destructive | Outline

  datatype Badge = Badge(caption: string, variant: Variant)

  datatype CompareButton = CompareButton(caption: string, variant: Variant, disabled: bool)

  datatype CardView = CardView(badge: Option<Badge>, button: CompareButton)

  const GrantChance: string := "Шанс на грант"
  const PaidOnly: string := "Только платно"
  const AlreadyCompared: string := "Уже в сравнении"
  const AddToCompare: string := "Добавить к сравнению"

  /** `hasChance`: a score is given and reaches the university's minimum;
      only ever where the indicator is shown. */
  function HasChance(userEntScore: Option<int>, university: University): (r: bool)
    ensures r <==> userEntScore.Some? && userEntScore.value >= university.minEntScore
    ensures r ==> ShowIndicator(userEntScore)
  {
    userEntScore.Some? && userEntScore.value >= university.minEntScore
  }

  /** `showIndicator`: the user has given a score. */
  function ShowIndicator(userEntScore: Option<int>): (r: bool)
    ensures r <==> userEntScore != None
  {
    userEntScore.Some?
  }

  /** `isInCompare`: some compared university has the card's id. */
  function IsInCompare(compareList: seq<University>, university: University): (r: bool)
    ensures r <==> exists i :: 0 <= i < |compareList| && compareList[i].id == university.id
  {
    HasId(compareList, university.id)
  }

  /** The badge and the button of the card. */
  function Card(university: University, userEntScore: Option<int>, compareList: seq<University>): (v: CardView)
    ensures v.badge.Some? <==> userEntScore.Some?
    ensures v.badge.Some? ==>
      (v.badge.value.caption == GrantChance <==> userEntScore.value >= university.minEntScore)
    ensures v.badge.Some? ==> v.badge.value.caption in {GrantChance, PaidOnly}
    ensures v.button.disabled <==> exists i :: 0 <= i < |compareList| && compareList[i].id == university.id
    ensures v.button.caption == AlreadyCompared <==> v.button.disabled
  {
    var badge :=
      if ShowIndicator(userEntScore) then
        Some(if HasChance(userEntScore, university) then Badge(GrantChance, Secondary)
             else Badge(PaidOnly, Destructive))
      else None;
    var inCompare := IsInCompare(compareList, university);
    var button :=
      if inCompare then CompareButton(AlreadyCompared, Outline, true)
      else CompareButton(AddToCompare, Default, false);
    CardView(badge, button)
  }

  /** A chance is only ever claimed where the indicator is shown. */
  lemma ChanceShowsIndicator(userEntScore: Option<int>, university: University)
    ensures HasChance(userEntScore, university) ==> ShowIndicator(userEntScore)
    ensures HasChance(userEntScore, university) <==>
      Card(university, userEntScore, []).badge == Some(Badge(GrantChance, Secondary))
  {
  }

  /** A higher score never loses a chance, and a score equal to the minimum
      already has one. */
  lemma ChanceMonotone(low: int, high: int, university: University)
    requires low <= high
    ensures HasChance(Some(low), university) ==> HasChance(Some(high), university)
    ensures HasChance(Some(university.minEntScore), university)
  {
  }

  /** Once the card's university is added to the comparison, its button is
      disabled; removing it enables the button again. */
  lemma ButtonFollowsCompareList(university: University, userEntScore: Option<int>, compareList: seq<University>)
    ensures Card(university, userEntScore, compareList + [university]).button.disabled
    ensures !Card(university, userEntScore, WithoutId(compareList, university.id)).button.disabled
  {
    var added := compareList + [university];
    assert added[|compareList|].id == university.id;
  }
}
