/** The default rest time of an exercise category. The category is the raw text
    of the `category` column, so values outside the three known categories are
    possible and take the strength default. */
module RestDefaults {
  import opened Config

  const Strength: string := "strength"
  const Cardio: string := "cardio"
  const Flexibility: string := "flexibility"

  function DefaultRestSeconds(category: string): (r: int)
    ensures category == Strength ==> r == 90
    ensures category == Cardio ==> r == 60
    ensures category == Flexibility ==> r == 60
    ensures category != Cardio && category != Flexibility ==> r == StrengthRestSeconds
  {
    if category == Strength then StrengthRestSeconds
    else if category == Cardio then CardioRestSeconds
    else if category == Flexibility then FlexibilityRestSeconds
    else StrengthRestSeconds
  }

  /** Only cardio and flexibility shorten the rest: every category gets 60 or
      90 seconds, and 60 exactly for those two. */
  lemma DefaultRestRange(category: string)
    ensures DefaultRestSeconds(category) in {60, 90}
    ensures DefaultRestSeconds(category) == 60 <==> category in {Cardio, Flexibility}
  {
  }
}
