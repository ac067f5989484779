/** The colour class a logged reps value gets against the exercise's target range. */
module RepsColor {
  import opened Wrappers

  const Neutral: string := "text-foreground"
  const Below: string := "text-amber-500"
  const Above: string := "text-blue-400"
  const InRange: string := "text-emerald-400"

  function RepsColor(reps: Option<real>, min: Option<real>, max: Option<real>): (r: string)
    ensures reps.None? || min.None? || max.None? <==> r == Neutral
    ensures r == Below <==> reps.Some? && min.Some? && max.Some? && reps.value < min.value
    ensures r == Above <==>
              reps.Some? && min.Some? && max.Some? && min.value <= reps.value && reps.value > max.value
    ensures r == InRange <==>
              reps.Some? && min.Some? && max.Some? && min.value <= reps.value <= max.value
  {
    if reps.None? || min.None? || max.None? then Neutral
    else if reps.value < min.value then Below
    else if reps.value > max.value then Above
    else InRange
  }

  /** With an inverted range (min > max) a value below min is reported as below,
      never as above, and no value is in range. */
  lemma InvertedRange(reps: real, min: real, max: real)
    requires min > max
    ensures reps < min ==> RepsColor(Some(reps), Some(min), Some(max)) == Below
    ensures RepsColor(Some(reps), Some(min), Some(max)) != InRange
  {
  }
}
