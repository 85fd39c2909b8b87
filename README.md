# WorkoutExercise link table and entity value objects

A Dafny model of the core of a workout-planning back end: the in-memory
WorkoutExercise repository (a table of links between workouts and exercises,
each with sets, reps, RPE and rest time), the service that fronts it, and the
two value objects with field rules, WorkoutExercise and User.

- `wrappers.dfy` — `Option`, the model of JavaScript's `undefined`.
- `workout_exercise.dfy` (module `WorkoutExerciseModel`) — the seven-field
  WorkoutExercise record, its constructor (`New`, a plain field copy with no
  validation) and `equals`.
- `user.dfy` (module `UserModel`) — the six-field User record, its constructor,
  `String.prototype.trim`, the ordered `validate` chain with its exact error
  messages (as an `Outcome`: `Pass`, or `Fail` carrying the message an Error
  would have been thrown with) and `equals`.
- `workout_exercise_db.dfy` (module `WorkoutExerciseRepository`) — the store as
  a class `Store` whose `rows` field is the module-level array, the three reads
  as scanning methods specified by the functions `FindById` (first match wins)
  and `WithWorkoutId` (filter in store order), the append-only create, and
  lemmas about how reads see appended rows.
- `workout_exercise_service.dfy` (module `WorkoutExerciseService`) — the
  service operations as methods taking the store, and the end-to-end effect of
  a create on later reads.

The model follows what the code does. The code checks no uniqueness of ids or
of (workout, exercise) pairs, no positivity of sets or reps, no email shape and
raises no not-found errors; the tests expect such checks
(back-end/test/model/user.test.ts:78 and 114-123,
back-end/test/model/workoutexercise.test.ts:78-98,
back-end/test/service/workoutexercise.service.test.ts:41-167) and the route
documentation promises 404 responses
(back-end/controller/workoutExercise.routes.ts:100 and 137), but the code does
not implement them, so the model does not have them. A
consequence that the model proves instead: a second row with an id already in
the store is stored, and lookups by that id keep returning the older row.

## Model

`AsInput` in both value-object modules is a helper: it reads an object's fields
back as a plain record (what destructuring produces) and is described by the
`New`, `NewAsInput` and `Equals` rows.

| member | source | states |
|---|---|---|
| `WorkoutExerciseModel.New` | back-end/model/workoutexercise.ts:10-18 | the constructor copies all seven fields: reading them back gives the input record, for every input (no validation) |
| `WorkoutExerciseModel.NewAsInput` | back-end/model/workoutexercise.ts:10-18 | constructing from an object's own fields gives the same object, so construction and field read-back are inverse |
| `WorkoutExerciseModel.Equals` | back-end/model/workoutexercise.ts:20-30 | `equals(r)` holds iff the object built from `r` is this one, i.e. iff all seven fields agree |
| `WorkoutExerciseModel.EqualsConstructedFrom` | back-end/model/workoutexercise.ts:10-30 | an object equals the record it was constructed from |
| `WorkoutExerciseModel.EqualsDetectsAnyDifference` | back-end/model/workoutexercise.ts:21-29 | any difference between two records makes `equals` false |
| `WorkoutExerciseModel.EqualsDetectsEachField` | back-end/model/workoutexercise.ts:22-28 | changing any single one of the seven fields makes `equals` false |
| `UserModel.New` | back-end/model/user.ts:12-26 | the constructor copies all six fields and validates nothing: reading them back gives the input record |
| `UserModel.NewAsInput` | back-end/model/user.ts:12-26 | constructing from a user's own fields gives the same user |
| `UserModel.TrimStart` | back-end/model/user.ts:38 | leading-whitespace removal returns a suffix of the string, drops only whitespace, and starts with a visible character when non-empty |
| `UserModel.TrimEnd` | back-end/model/user.ts:38 | trailing-whitespace removal returns a prefix of the string, drops only whitespace, and ends with a visible character when non-empty |
| `UserModel.Trim` | back-end/model/user.ts:36-38 | `trim()` removes exactly an all-whitespace prefix and an all-whitespace suffix; what is left has no whitespace at either end, and is empty iff the string has no visible character |
| `UserModel.Blank` | back-end/model/user.ts:36-38 | the per-field guard (missing, or empty after `trim()`) holds iff every character of the string is whitespace, the empty string included |
| `UserModel.Validate` | back-end/model/user.ts:27-62 | `validate` passes iff first name, last name, email and password each hold a non-whitespace character and a role is present |
| `UserModel.ValidateFirstFailureWins` | back-end/model/user.ts:35-61 | the guards run first name, last name, email, password, role; the first failing field decides the error and its exact message |
| `UserModel.ValidateRejectsBlankFirstName` | back-end/model/user.ts:35-41 | an empty or whitespace-only first name fails with "First name is required and cannot be empty." |
| `UserModel.Equals` | back-end/model/user.ts:64-87 | `equals(r)` holds iff the user built from `r` is this one, i.e. iff all six fields, the id included, agree |
| `UserModel.EqualsBuiltFrom` | back-end/model/user.ts:79-86 | a user equals the record it was built from |
| `UserModel.EqualsDetectsEachField` | back-end/model/user.ts:79-86 | changing any single one of the six fields, the id included, makes `equals` false |
| `WorkoutExerciseRepository.FirstIndexWithId` | back-end/repository/workoutexercise.db.ts:14 | the position `find` stops at: no earlier row has the id, and the row there has it (or it is the end) |
| `WorkoutExerciseRepository.FindById` | back-end/repository/workoutexercise.db.ts:14 | `find` by id: absent iff no row has the id; otherwise a row carrying the id, stored at a position before which no row has it (first match wins) |
| `WorkoutExerciseRepository.WithWorkoutId` | back-end/repository/workoutexercise.db.ts:20-22 | `filter` by workout id never returns more rows than the store has |
| `WorkoutExerciseRepository.WithWorkoutIdMembers` | back-end/repository/workoutexercise.db.ts:20-22 | `filter` keeps exactly the rows whose workout id matches |
| `WorkoutExerciseRepository.Store.constructor` | back-end/repository/workoutexercise.db.ts:5-7 | the store starts with exactly one row: id 1, workout 1, exercise 1, 3 sets, 10 reps, "7-8", "1:00" |
| `WorkoutExerciseRepository.Store.GetAllWorkoutExercises` | back-end/repository/workoutexercise.db.ts:9-11 | returns the whole store unchanged, in insertion order |
| `WorkoutExerciseRepository.Store.GetWorkoutExerciseById` | back-end/repository/workoutexercise.db.ts:13-17 | returns the first row with that id; absent iff no row has it |
| `WorkoutExerciseRepository.Store.GetWorkoutExercisesByWorkoutId` | back-end/repository/workoutexercise.db.ts:19-25 | returns exactly the rows of that workout in store order, an empty sequence when none match |
| `WorkoutExerciseRepository.Store.CreateWorkoutExercise` | back-end/repository/workoutexercise.db.ts:27-31 | appends one row equal to the argument at the end and returns it; the old store is a prefix of the new one |
| `WorkoutExerciseRepository.WithWorkoutIdAppend` | back-end/repository/workoutexercise.db.ts:20-29 | after an append, the filter is the old filter plus the new row when it belongs to the workout |
| `WorkoutExerciseRepository.WithWorkoutIdConcat` | back-end/repository/workoutexercise.db.ts:20-22 | the filter distributes over concatenation, so it keeps store order |
| `WorkoutExerciseRepository.WithWorkoutIdEmpty` | back-end/repository/workoutexercise.db.ts:19-25 | the filter is empty iff no row belongs to the workout |
| `WorkoutExerciseRepository.FindByIdAfterAppend` | back-end/repository/workoutexercise.db.ts:13-31 | after an append, a lookup finds the older row if one has the id, else the new row iff it has the id, else nothing |
| `WorkoutExerciseRepository.FindByIdStableUnderAppends` | back-end/repository/workoutexercise.db.ts:14-29 | once an id is present, no sequence of creates changes what a lookup of it returns |
| `WorkoutExerciseRepository.DuplicateIdIsShadowed` | back-end/repository/workoutexercise.db.ts:5-31 | on the seed store, creating another row with id 1 succeeds, the store holds two rows, and lookup of id 1 still returns the seed row |
| `WorkoutExerciseService.GetAllWorkoutExercises` | back-end/service/workoutexercise.service.ts:5-8 | returns exactly the repository's full list |
| `WorkoutExerciseService.GetWorkoutExerciseById` | back-end/service/workoutexercise.service.ts:10-13 | returns the repository lookup for the same id unchanged, absent iff no row has the id |
| `WorkoutExerciseService.GetWorkoutExercisesByWorkoutId` | back-end/service/workoutexercise.service.ts:15-18 | returns the repository filter for the same id unchanged |
| `WorkoutExerciseService.CreateWorkoutExercise` | back-end/service/workoutexercise.service.ts:20-24 | total: the returned row has the input's seven fields and equals it, the store grows by that row at the end, earlier rows unchanged |
| `WorkoutExerciseService.CreateThenRead` | back-end/service/workoutexercise.service.ts:20-24 | after a create, lookup of its id returns the new row unless an older row has that id, and the new row is last in its workout's list |
| `WorkoutExerciseService.CreateOnSeedStore` | back-end/service/workoutexercise.service.ts:20-24 | on the seed store, creating a row with a fresh id in workout 1 makes two rows, the new one findable by id and listed after the seed row |

## Left out

- The Express routers (`back-end/controller/workout.routes.ts`, `back-end/controller/workoutExercise.routes.ts`): HTTP plumbing that turns every caught error into a 400 response; the workout add/remove/delete logic they call lives in a workout service that is not part of this model.
- `back-end/service/exercise.service.ts`: a pass-through to an exercise repository and model that are not part of this model.
- `back-end/util/seed.ts`: asynchronous database writes and password hashing (I/O and a foreign library); only its two role values are used, as `Role.Admin` and `Role.Regular`.
- `front-end/components/workouts/WorkoutOverviewTable.tsx`: UI state around network calls.
- `User.from` (back-end/model/user.ts:89-98): it maps a database record and is the same field copy as `UserModel.New`.
- The service imports its repository from `../model/data-access/workoutexercise.db`, which is not part of this model; the repository module `back-end/repository/workoutexercise.db.ts`, which exports the same four functions, stands in for it, passed explicitly instead of as module-level state.
- JavaScript numbers (floating point, NaN under `===`): ids, sets and reps are unbounded integers.
- The `typeof ... !== 'string'` guards and the `!value` tests for `undefined`/`null` in `validate`: the types make them vacuous, except for the empty string, which the blank test covers.
- `WorkoutExerciseRepository.Store.GetAllWorkoutExercises`: returns a value, not the live array; in the source the caller receives the store's own array, so a later push is visible through it and a caller could mutate the store. Object identity is likewise not modelled: the created row equals the argument but is not a distinct object.
- Checks that the tests or the route documentation expect but the code does not implement: positive sets and reps (back-end/test/model/workoutexercise.test.ts:78-98), an email shape (back-end/test/model/user.test.ts:114-123), the message "First name cannot be empty." (back-end/test/model/user.test.ts:78), not-found and duplicate-id or duplicate-pair errors in the service (back-end/test/service/workoutexercise.service.test.ts:41-167), 404 responses (back-end/controller/workoutExercise.routes.ts:100, 137), and the field names `user_id` and `restTime` used by the tests.
