/** The WorkoutExercise service of back-end/service/workoutexercise.service.ts.
    The three getters hand the repository's answer back unchanged; the create
    operation builds a WorkoutExercise from the input record and hands it to the
    repository. The repository is passed in explicitly rather than imported as
    module-level state. */
module WorkoutExerciseService {
  import opened Wrappers
  import opened WorkoutExerciseModel
  import opened WorkoutExerciseRepository

  /** `getAllWorkoutExercises`: the repository's full list, unfiltered. */
  method GetAllWorkoutExercises(db: Store) returns (all: seq<WorkoutExercise>)
    ensures all == db.rows
  {
    all := db.GetAllWorkoutExercises();
  }

  /** `getWorkoutExerciseById`: the repository lookup for the same id, including
      its missing result (the declared return type hides that it may be
      `undefined`). The second clause follows from the first and is spelled
      out for callers. */
  method GetWorkoutExerciseById(db: Store, id: int) returns (found: Option<WorkoutExercise>)
    ensures found == FindById(db.rows, id)
    ensures found.None? <==> forall j :: 0 <= j < |db.rows| ==> db.rows[j].workoutExerciseId != id
  {
    found := db.GetWorkoutExerciseById(id);
  }

  /** `getWorkoutExercisesByWorkoutId`: the repository filter for the same id. */
  method GetWorkoutExercisesByWorkoutId(db: Store, id: int) returns (matches: seq<WorkoutExercise>)
    ensures matches == WithWorkoutId(db.rows, id)
    ensures forall x :: x in matches <==> x in db.rows && x.workoutId == id
  {
    matches := db.GetWorkoutExercisesByWorkoutId(id);
  }

  /** `createWorkoutExercise`: total, with no check on ids, pairs, sets or reps.
      The returned row has the input's seven fields, the store grows by exactly
      that row at the end, and the earlier rows are unchanged. */
  method CreateWorkoutExercise(db: Store, input: WorkoutExerciseInput) returns (created: WorkoutExercise)
    modifies db
    ensures AsInput(created) == input
    ensures Equals(created, input)
    ensures db.rows == old(db.rows) + [created]
  {
    var w := New(input);
    created := db.CreateWorkoutExercise(w);
  }

  /** What a create does to the later reads: a lookup of the new row's id finds
      it unless an older row already has that id, and the new row joins its
      workout's list at the end. */
  lemma CreateThenRead(rows: seq<WorkoutExercise>, input: WorkoutExerciseInput)
    ensures FindById(rows + [New(input)], input.workoutExerciseId) ==
      if FindById(rows, input.workoutExerciseId).Some?
      then FindById(rows, input.workoutExerciseId)
      else Some(New(input))
    ensures WithWorkoutId(rows + [New(input)], input.workoutId) ==
      WithWorkoutId(rows, input.workoutId) + [New(input)]
  {
    FindByIdAfterAppend(rows, New(input), input.workoutExerciseId);
    WithWorkoutIdAppend(rows, New(input), input.workoutId);
  }

  /** The service end to end on a fresh store: creating a new row with a fresh
      id makes it findable by id and listed after the seed row of workout 1. */
  method CreateOnSeedStore(input: WorkoutExerciseInput) returns (size: nat, found: Option<WorkoutExercise>, ofWorkout: seq<WorkoutExercise>)
    requires input.workoutExerciseId != 1 && input.workoutId == 1
    ensures size == 2
    ensures found.Some? && Equals(found.value, input)
    ensures ofWorkout == [SeedRow, New(input)]
  {
    var db := new Store();
    var created := CreateWorkoutExercise(db, input);
    CreateThenRead([SeedRow], input);
    size := |db.rows|;
    found := GetWorkoutExerciseById(db, input.workoutExerciseId);
    ofWorkout := GetWorkoutExercisesByWorkoutId(db, 1);
  }
}
