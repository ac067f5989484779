/** The input validators: each returns None when the value is acceptable and
    otherwise the message of the first rule it breaks. JavaScript numbers are
    modelled as exact reals (NaN and the infinities are not part of the model). */
module Validation {
  import opened Wrappers
  import opened Config
  import opened Text

  /** `Number.isInteger` on a finite number. */
  predicate IsInteger(x: real) {
    x == x.Floor as real
  }

  function ValidateWeight(value: real): (r: Option<string>)
    ensures r.None? <==> WeightMin <= value <= WeightMax
    ensures value < WeightMin ==> r == Some("Weight cannot be negative")
  {
    if value < WeightMin then Some("Weight cannot be negative")
    else if value > WeightMax then Some("Weight cannot exceed 9999")
    else None
  }

  function ValidateReps(value: real): (r: Option<string>)
    ensures r.None? <==> IsInteger(value) && RepsMin <= value <= RepsMax
    ensures !IsInteger(value) ==> r == Some("Reps must be a whole number")
  {
    if !IsInteger(value) then Some("Reps must be a whole number")
    else if value < RepsMin then Some("Reps must be at least 1")
    else if value > RepsMax then Some("Reps cannot exceed 9999")
    else None
  }

  function ValidateDuration(seconds: real): (r: Option<string>)
    ensures r.None? <==> IsInteger(seconds) && DurationMin <= seconds <= DurationMax
    ensures !IsInteger(seconds) ==> r == Some("Duration must be a whole number of seconds")
  {
    if !IsInteger(seconds) then Some("Duration must be a whole number of seconds")
    else if seconds < DurationMin then Some("Duration must be at least 1 second")
    else if seconds > DurationMax then Some("Duration cannot exceed 99:59:59")
    else None
  }

  function ValidateDistance(meters: real): (r: Option<string>)
    ensures r.None? <==> DistanceMin <= meters <= DistanceMax
  {
    if meters < DistanceMin then Some("Distance must be at least 0.01")
    else if meters > DistanceMax then Some("Distance cannot exceed 9999.99")
    else None
  }

  /** The name is judged by its trimmed `.length`, counted in UTF-16 code units. */
  function ValidateExerciseName(name: string): (r: Option<string>)
    ensures r.None? <==> ExerciseNameMin <= Utf16Length(Trim(name)) <= ExerciseNameMax
    ensures (forall i :: 0 <= i < |name| ==> IsJsSpace(name[i])) ==>
              r == Some("Exercise name is required")
  {
    var trimmed := Trim(name);
    TrimAllSpace(name);
    if Utf16Length(trimmed) < ExerciseNameMin then Some("Exercise name is required")
    else if Utf16Length(trimmed) > ExerciseNameMax then Some("Exercise name cannot exceed 100 characters")
    else None
  }

  /** Unlike the exercise name, the workout name is measured untrimmed. */
  function ValidateWorkoutName(name: string): (r: Option<string>)
    ensures r.None? <==> Utf16Length(name) <= WorkoutNameMax
  {
    if Utf16Length(name) > WorkoutNameMax then Some("Workout name cannot exceed 200 characters") else None
  }

  function ValidateNotes(notes: string): (r: Option<string>)
    ensures r.None? <==> Utf16Length(notes) <= NotesMax
  {
    if Utf16Length(notes) > NotesMax then Some("Notes cannot exceed 1000 characters") else None
  }

  /** A text of characters outside the Basic Multilingual Plane is twice as long
      to the validators as it has characters: 51 such characters already exceed
      the 100-unit limit on exercise names. */
  lemma AstralNameTooLong(name: string)
    requires |name| == 51
    requires forall i :: 0 <= i < |name| ==> name[i] as int >= 0x1_0000
    ensures ValidateExerciseName(name) == Some("Exercise name cannot exceed 100 characters")
  {
    forall i | 0 <= i < |name| ensures !IsJsSpace(name[i]) {
      AstralNotSpace(name[i]);
    }
    TrimOfUnpadded(name);
    Utf16LengthAstral(name);
  }

  lemma AstralNotSpace(c: char)
    requires c as int >= 0x1_0000
    ensures !IsJsSpace(c)
  {
  }

  /** A name padded with whitespace is accepted exactly when its trimmed form is:
      surrounding whitespace never decides validity. */
  lemma ExerciseNamePadding(name: string, left: string, right: string)
    requires forall i :: 0 <= i < |left| ==> IsJsSpace(left[i])
    requires forall i :: 0 <= i < |right| ==> IsJsSpace(right[i])
    requires name != [] && !IsJsSpace(name[0]) && !IsJsSpace(name[|name| - 1])
    ensures ValidateExerciseName(left + name + right).None? <==> ValidateExerciseName(name).None?
  {
    var s := left + name + right;
    TrimOfPadded(left, right, name);
    TrimOfUnpadded(name);
    SameTrimSameVerdict(s, name);
  }

  lemma TrimOfUnpadded(name: string)
    requires name != [] && !IsJsSpace(name[0]) && !IsJsSpace(name[|name| - 1])
    ensures Trim(name) == name
  {
    TrimOfPadded([], [], name);
    assert [] + name + [] == name;
  }

  /** The verdict on a name depends on its trimmed form only. */
  lemma SameTrimSameVerdict(a: string, b: string)
    requires Trim(a) == Trim(b)
    ensures ValidateExerciseName(a) == ValidateExerciseName(b)
  {
  }

  lemma TrimOfPadded(left: string, right: string, name: string)
    requires forall i :: 0 <= i < |left| ==> IsJsSpace(left[i])
    requires forall i :: 0 <= i < |right| ==> IsJsSpace(right[i])
    requires name != [] && !IsJsSpace(name[0]) && !IsJsSpace(name[|name| - 1])
    ensures Trim(left + name + right) == name
  {
    var s := left + name + right;
    TrimStartOfPadded(left, name + right);
    assert s == left + (name + right);
    var t := name + right;
    TrimEndOfPadded(name, right);
  }

  lemma {:induction false} TrimStartOfPadded(pad: string, rest: string)
    requires forall i :: 0 <= i < |pad| ==> IsJsSpace(pad[i])
    requires rest != [] && !IsJsSpace(rest[0])
    ensures TrimStart(pad + rest) == rest
    decreases |pad|
  {
    if pad == [] {
      assert pad + rest == rest;
    } else {
      assert (pad + rest)[1..] == pad[1..] + rest;
      TrimStartOfPadded(pad[1..], rest);
    }
  }

  lemma {:induction false} TrimEndOfPadded(core: string, pad: string)
    requires forall i :: 0 <= i < |pad| ==> IsJsSpace(pad[i])
    requires core != [] && !IsJsSpace(core[|core| - 1])
    ensures TrimEnd(core + pad) == core
    decreases |pad|
  {
    if pad == [] {
      assert core + pad == core;
    } else {
      var s := core + pad;
      assert s[..|s| - 1] == core + pad[..|pad| - 1];
      TrimEndOfPadded(core, pad[..|pad| - 1]);
    }
  }
}
