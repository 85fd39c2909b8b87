/** The WorkoutExercise value object of back-end/model/workoutexercise.ts: the
    link between a workout and an exercise with its prescription (sets, reps,
    RPE and rest time). The class has seven readonly fields, a constructor that
    copies them from a plain record and an `equals` that compares all seven. */
module WorkoutExerciseModel {

  /** The plain record the constructor and `equals` take. */
  datatype WorkoutExerciseInput = WorkoutExerciseInput(
    workoutExerciseId: int,
    workoutId: int,
    exerciseId: int,
    sets: int,
    reps: int,
    rpe: string,
    restTime: string)

  /** A constructed WorkoutExercise: its fields are readonly, so it is a value. */
  datatype WorkoutExercise = WorkoutExercise(
    workoutExerciseId: int,
    workoutId: int,
    exerciseId: int,
    sets: int,
    reps: int,
    rpe: string,
    restTime: string)

  /** The constructor: it copies the seven fields and checks nothing, so every
      record (negative sets, zero reps, any strings) constructs. */
  function New(input: WorkoutExerciseInput): (w: WorkoutExercise)
    ensures AsInput(w) == input
  {
    WorkoutExercise(input.workoutExerciseId, input.workoutId, input.exerciseId,
                    input.sets, input.reps, input.rpe, input.restTime)
  }

  /** The seven fields of a WorkoutExercise read back as a plain record, which is
      what destructuring `{ workout_exercise_id, ..., rest_time }` produces. */
  function AsInput(w: WorkoutExercise): (r: WorkoutExerciseInput)
  {
    WorkoutExerciseInput(w.workoutExerciseId, w.workoutId, w.exerciseId,
                         w.sets, w.reps, w.rpe, w.restTime)
  }

  /** `equals`: true exactly when the object built from `r` is `w`, that is when
      all seven fields agree. */
  function Equals(w: WorkoutExercise, r: WorkoutExerciseInput): (b: bool)
    ensures b <==> New(r) == w
    ensures b <==> AsInput(w) == r
  {
    w.workoutExerciseId == r.workoutExerciseId &&
    w.workoutId == r.workoutId &&
    w.exerciseId == r.exerciseId &&
    w.sets == r.sets &&
    w.reps == r.reps &&
    w.rpe == r.rpe &&
    w.restTime == r.restTime
  }

  /** Reading the fields back and constructing again gives the same object. */
  lemma NewAsInput(w: WorkoutExercise)
    ensures New(AsInput(w)) == w
  {
  }

  /** An object equals the record it was constructed from. */
  lemma EqualsConstructedFrom(r: WorkoutExerciseInput)
    ensures Equals(New(r), r)
  {
  }

  /** Two records that differ in any field (a single one is enough) give
      objects that are not equal to each other's record. */
  lemma EqualsDetectsAnyDifference(r: WorkoutExerciseInput, s: WorkoutExerciseInput)
    requires r != s
    ensures !Equals(New(r), s)
  {
  }

  /** The single-field changes, one by one. */
  lemma EqualsDetectsEachField(r: WorkoutExerciseInput, n: int, t: string)
    ensures n != r.workoutExerciseId ==> !Equals(New(r), r.(workoutExerciseId := n))
    ensures n != r.workoutId ==> !Equals(New(r), r.(workoutId := n))
    ensures n != r.exerciseId ==> !Equals(New(r), r.(exerciseId := n))
    ensures n != r.sets ==> !Equals(New(r), r.(sets := n))
    ensures n != r.reps ==> !Equals(New(r), r.(reps := n))
    ensures t != r.rpe ==> !Equals(New(r), r.(rpe := t))
    ensures t != r.restTime ==> !Equals(New(r), r.(restTime := t))
  {
  }
}
