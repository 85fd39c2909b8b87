/** The in-memory WorkoutExercise repository of
    back-end/repository/workoutexercise.db.ts: a module-level array seeded with
    one row, read with `find` (first match by id) and `filter` (all rows of one
    workout), and grown with `push`. Nothing checks that ids or
    (workout, exercise) pairs are unique. */
module WorkoutExerciseRepository {
  import opened Wrappers
  import opened WorkoutExerciseModel

  /** The row the store starts with. */
  const SeedRow := WorkoutExercise(1, 1, 1, 3, 10, "7-8", "1:00")

  /** The position of the first row whose id is `id`, or `|rows|` when there is none. */
  function FirstIndexWithId(rows: seq<WorkoutExercise>, id: int): (k: nat)
    ensures k <= |rows|
    ensures forall j :: 0 <= j < k ==> rows[j].workoutExerciseId != id
    ensures k < |rows| ==> rows[k].workoutExerciseId == id
  {
    if rows == [] then 0
    else if rows[0].workoutExerciseId == id then 0
    else 1 + FirstIndexWithId(rows[1..], id)
  }

  /** What `rows.find(w => w.workout_exercise_id === id)` returns. */
  function FindById(rows: seq<WorkoutExercise>, id: int): (r: Option<WorkoutExercise>)
    ensures r.None? <==> forall j :: 0 <= j < |rows| ==> rows[j].workoutExerciseId != id
    ensures r.Some? ==>
      r.value.workoutExerciseId == id &&
      (exists k :: 0 <= k < |rows| && rows[k] == r.value &&
                   (forall j :: 0 <= j < k ==> rows[j].workoutExerciseId != id))
  {
    var k := FirstIndexWithId(rows, id);
    if k < |rows| then Some(rows[k]) else None
  }

  /** What `rows.filter(w => w.workout_id === id)` returns: the matching rows in
      store order. */
  function WithWorkoutId(rows: seq<WorkoutExercise>, id: int): (r: seq<WorkoutExercise>)
    ensures |r| <= |rows|
  {
    if rows == [] then []
    else (if rows[0].workoutId == id then [rows[0]] else []) + WithWorkoutId(rows[1..], id)
  }

  /** The store. `rows` is the module-level `workoutexercises` array. */
  class Store {
    var rows: seq<WorkoutExercise>

    /** The store as the module initialises it: exactly the seed row. */
    constructor ()
      ensures rows == [SeedRow]
    {
      rows := [SeedRow];
    }

    /** `getAllWorkoutExercises`: the whole store, in insertion order, unfiltered. */
    method GetAllWorkoutExercises() returns (all: seq<WorkoutExercise>)
      ensures all == rows
    {
      all := rows;
    }

    /** `getWorkoutExerciseById`: the first row with that id, or none exactly when
        no row has it. The clauses after the first follow from it and are
        spelled out so that callers need not unfold `FindById`. */
    method GetWorkoutExerciseById(id: int) returns (found: Option<WorkoutExercise>)
      ensures found == FindById(rows, id)
      ensures found.None? <==> forall j :: 0 <= j < |rows| ==> rows[j].workoutExerciseId != id
      ensures found.Some? ==>
        found.value.workoutExerciseId == id &&
        (exists k :: 0 <= k < |rows| && rows[k] == found.value &&
                     (forall j :: 0 <= j < k ==> rows[j].workoutExerciseId != id))
    {
      var i := 0;
      while i < |rows| && rows[i].workoutExerciseId != id
        invariant 0 <= i <= |rows|
        invariant forall j :: 0 <= j < i ==> rows[j].workoutExerciseId != id
      {
        i := i + 1;
      }
      found := if i < |rows| then Some(rows[i]) else None;
    }

    /** `getWorkoutExercisesByWorkoutId`: the rows of that workout, in store
        order; an empty sequence, never a missing value, when none match. */
    method GetWorkoutExercisesByWorkoutId(id: int) returns (matches: seq<WorkoutExercise>)
      ensures matches == WithWorkoutId(rows, id)
      ensures forall x :: x in matches <==> x in rows && x.workoutId == id
    {
      var i := 0;
      matches := [];
      while i < |rows|
        invariant 0 <= i <= |rows|
        invariant matches == WithWorkoutId(rows[..i], id)
      {
        WithWorkoutIdAppend(rows[..i], rows[i], id);
        assert rows[..i + 1] == rows[..i] + [rows[i]];
        if rows[i].workoutId == id {
          matches := matches + [rows[i]];
        }
        i := i + 1;
      }
      assert rows[..i] == rows;
      WithWorkoutIdMembers(rows, id);
    }

    /** `createWorkoutExercise`: copies the fields into a new WorkoutExercise,
        appends it and returns it. No id or pair is checked: the old rows stay
        a prefix and the store grows by exactly one. */
    method CreateWorkoutExercise(w: WorkoutExercise) returns (created: WorkoutExercise)
      modifies this
      ensures created == w
      ensures rows == old(rows) + [created]
    {
      created := New(AsInput(w));
      rows := rows + [created];
    }
  }

  /** The filter keeps exactly the rows of the workout. */
  lemma {:induction false} WithWorkoutIdMembers(rows: seq<WorkoutExercise>, id: int)
    ensures forall x :: x in WithWorkoutId(rows, id) <==> x in rows && x.workoutId == id
  {
    if rows != [] {
      WithWorkoutIdMembers(rows[1..], id);
      assert rows == [rows[0]] + rows[1..];
    }
  }

  /** Filtering a store that grew by one row: the old result, then the new row
      when it belongs to the workout. */
  lemma {:induction false} WithWorkoutIdAppend(rows: seq<WorkoutExercise>, w: WorkoutExercise, id: int)
    ensures WithWorkoutId(rows + [w], id) ==
      WithWorkoutId(rows, id) + (if w.workoutId == id then [w] else [])
  {
    if rows != [] {
      assert (rows + [w])[1..] == rows[1..] + [w];
      WithWorkoutIdAppend(rows[1..], w, id);
    }
  }

  /** Filtering distributes over concatenation, so the filter keeps store order. */
  lemma {:induction false} WithWorkoutIdConcat(a: seq<WorkoutExercise>, b: seq<WorkoutExercise>, id: int)
    ensures WithWorkoutId(a + b, id) == WithWorkoutId(a, id) + WithWorkoutId(b, id)
  {
    if a == [] {
      assert a + b == b;
    } else {
      var head := if a[0].workoutId == id then [a[0]] else [];
      assert (a + b)[1..] == a[1..] + b;
      WithWorkoutIdConcat(a[1..], b, id);
      calc {
        WithWorkoutId(a + b, id);
        head + WithWorkoutId(a[1..] + b, id);
        head + (WithWorkoutId(a[1..], id) + WithWorkoutId(b, id));
        (head + WithWorkoutId(a[1..], id)) + WithWorkoutId(b, id);
        WithWorkoutId(a, id) + WithWorkoutId(b, id);
      }
    }
  }

  /** The filter is empty exactly when no row belongs to the workout. */
  lemma WithWorkoutIdEmpty(rows: seq<WorkoutExercise>, id: int)
    ensures WithWorkoutId(rows, id) == [] <==> forall j :: 0 <= j < |rows| ==> rows[j].workoutId != id
  {
  }

  /** Looking up an id after one more row was appended: an id already present
      still finds the older row (first match wins, so a duplicate is shadowed);
      otherwise the new row is found exactly when it carries the id. */
  lemma {:induction false} FindByIdAfterAppend(rows: seq<WorkoutExercise>, w: WorkoutExercise, id: int)
    ensures FindById(rows + [w], id) ==
      if FindById(rows, id).Some? then FindById(rows, id)
      else if w.workoutExerciseId == id then Some(w)
      else None
  {
    if rows != [] {
      assert (rows + [w])[1..] == rows[1..] + [w];
      FindByIdAfterAppend(rows[1..], w, id);
    }
  }

  /** Creating rows never changes what an id already present finds. */
  lemma {:induction false} FindByIdStableUnderAppends(rows: seq<WorkoutExercise>, more: seq<WorkoutExercise>, id: int)
    requires FindById(rows, id).Some?
    ensures FindById(rows + more, id) == FindById(rows, id)
  {
    if more == [] {
      assert rows + more == rows;
    } else {
      var init := more[..|more| - 1];
      FindByIdStableUnderAppends(rows, init, id);
      assert rows + more == (rows + init) + [more[|more| - 1]];
      FindByIdAfterAppend(rows + init, more[|more| - 1], id);
    }
  }

  /** A scenario of the repository as written: with the seed store, creating a
      different row that reuses id 1 succeeds, the store grows to two rows, and
      looking up id 1 still returns the seed row. */
  method DuplicateIdIsShadowed() returns (size: nat, found: Option<WorkoutExercise>)
    ensures size == 2
    ensures found == Some(SeedRow)
  {
    var store := new Store();
    var duplicate := WorkoutExercise(1, 2, 5, 4, 8, "9-10", "2:00");
    var created := store.CreateWorkoutExercise(duplicate);
    size := |store.rows|;
    found := store.GetWorkoutExerciseById(1);
  }
}
