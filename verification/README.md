# Health tracker client store, modelled in Dafny

This project models the client-side application store of a personal health
tracker. The store keeps one state record: the signed-in user, today's
stats (steps, calories, water, sleep), the goals for those stats, and a
workout log kept newest first. Beside it sits the browser's key-value
storage, which holds the access and refresh tokens across reloads. The
store offers these operations:

- `setUser` replaces the user.
- `updateStats` and `updateGoals` merge-patch the two four-field records.
- `addWorkout` prepends to the log, `updateWorkout` merge-patches the
  records with an id, and `deleteWorkout` filters them out.
- `login` and `register` post credentials. On success they store both
  tokens and take the user from the answer.
- `updateProfile` posts a profile patch with the access token. On success
  it merges the patch into the user.
- `logout` erases the tokens and resets the user, the stats and the log.

Each operation is a pure function from state to state. The answer of the
server is a parameter (`AuthResponse`, `ProfileResponse`), so nothing in
the model does I/O.

Modules:

- `Wrappers`: `Option`, used for absent fields and a `null` user.
- `Metrics`: `Stats`, `StatsPatch`, merge-patch, the initial stats
  `{0, 0, 0, 0}` and the initial goals `{10000, 2000, 2000, 8}`.
- `Workouts`: `Workout`, `WorkoutPatch`, and add, update and delete on
  the log, with lemmas about order, counts and unique ids.
- `Session`: `User`, `UserPatch`, the storage keys `access_token` and
  `refresh_token`, and the shapes of the server answers.
- `AppStore`: the `Store` record, the `Client` (store plus storage),
  every operation, an `Action`/`Step`/`Run` view of all of them, and the
  properties that span several operations.

Points where the store's behaviour may surprise a reader:

- Logout keeps the goals. It resets only the user, the stats and the
  workouts (`client/src/state/store.ts:246`). `LogoutRestoresInitialIffGoalsInitial`
  states the consequence.
- A failed login, registration or profile update is caught and only
  logged. The state stays as it was, and no error reaches the caller.
- Updating or deleting a workout affects every record with that id, not
  only one. Ids are supplied by the caller, so the store does not
  guarantee that they are unique. `KeepsIdsUnique` states what the caller
  must do for `UniqueIds` to stay true.
- The workout intensity is any text; the store does not check it.
- The profile request is skipped when the access token is missing or
  empty, because an empty string is falsy in the store's `!token` check.
- A login or registration answer without `access` or `refresh` stores the
  text "undefined", because browser storage coerces an undefined value to
  text. An answer without `user` clears the user.

## Model

| member | source | states |
|---|---|---|
| Metrics.Merge | client/src/state/store.ts:179-182 | every metric the patch supplies takes the supplied value; every other metric keeps its old value, so only supplied metrics can change |
| Metrics.MergeIdempotent | client/src/state/store.ts:179-180 | merging the same patch twice gives the same record as merging it once |
| Metrics.MergeThen | client/src/state/store.ts:179-182 | two merges in a row equal one merge of the combined patch, where the later patch wins |
| Metrics.MergeEmpty | client/src/state/store.ts:179-182 | a patch that supplies nothing changes nothing |
| Workouts.Merge | client/src/state/store.ts:208-210 | every workout field the patch supplies takes the supplied value, the id included; every other field stays |
| Workouts.Add | client/src/state/store.ts:202-205 | the new workout is first, the old log follows it unchanged, and the length grows by one |
| Workouts.Update | client/src/state/store.ts:206-211 | the length is kept; each record with the id is merge-patched in place; each other record is unchanged; an absent id leaves the log as it was |
| Workouts.Delete | client/src/state/store.ts:212-215 | no surviving record carries the id; the log cannot grow; an absent id leaves the log as it was |
| Workouts.DeleteCount | client/src/state/store.ts:212-215 | the log shrinks by exactly the number of records that carry the id |
| Workouts.DeleteMembers | client/src/state/store.ts:212-215 | a record survives exactly when it was in the log with a different id |
| Workouts.DeleteConcat | client/src/state/store.ts:212-215 | deleting from a concatenation concatenates the deletions of the parts, so order is kept |
| Workouts.DeletePosition | client/src/state/store.ts:212-215 | each surviving record lands at the index equal to the number of survivors before it |
| Workouts.DeletePositionsIncrease | client/src/state/store.ts:212-215 | survivors keep their relative order |
| Workouts.UniqueCountOne | client/src/state/store.ts:212-215 | with unique ids, an id that is present is carried by exactly one record |
| Workouts.DeleteUniqueShrinksByOne | client/src/state/store.ts:212-215 | with unique ids, deleting an id that is present shrinks the log by exactly one |
| Workouts.DeleteUniqueRemovesIndex | client/src/state/store.ts:212-215 | with unique ids, deleting the id of record i is the same as removing index i |
| Workouts.DeleteIdempotent | client/src/state/store.ts:212-215 | deleting the same id twice is the same as deleting it once |
| Workouts.DeleteUndoesAdd | client/src/state/store.ts:202-215 | deleting the fresh id of a workout just added gives back the log from before the add |
| Workouts.AddKeepsUnique | client/src/features/Workouts/WorkoutTracker.tsx:144-148 | after an add, ids are unique exactly when they were unique before and the new id was not yet in the log |
| Workouts.DeleteKeepsIdsFrom | client/src/state/store.ts:212-215 | every id in the log after a delete was in the log before and differs from the deleted id |
| Workouts.DeleteKeepsUnique | client/src/state/store.ts:212-215 | deleting keeps unique ids unique |
| Workouts.UpdateUniqueReplacesIndex | client/src/state/store.ts:206-211 | with unique ids, updating the id of record i replaces only index i with its merge |
| Workouts.UpdateKeepsIds | client/src/state/store.ts:206-211 | a patch that does not change the id keeps every record's id, so unique ids stay unique |
| Workouts.DeleteAfterUpdate | client/src/state/store.ts:206-215 | deleting an id right after updating it, with a patch that keeps ids, is the same as deleting it directly |
| Session.Merge | client/src/state/store.ts:196 | every profile field the patch supplies takes the supplied value; every other field keeps its value |
| Session.MergeIdempotent | client/src/state/store.ts:196 | merging the same profile patch twice is the same as merging it once |
| Session.Stored | client/src/state/store.ts:219-221 | a token present in the answer is stored as given; a missing one is stored as the text "undefined" |
| AppStore.Start | client/src/state/store.ts:168-177 | a new store is anonymous, has zero stats, the goals {10000, 2000, 2000, 8} and an empty log, and leaves storage as it was, so stored tokens do not restore a session |
| AppStore.LogoutOfStart | client/src/state/store.ts:168-177 | logging out of a fresh client changes only the storage, by dropping the two tokens; the initial store, goals included, stays |
| AppStore.SetUser | client/src/state/store.ts:178 | the user becomes the given value and nothing else changes |
| AppStore.UpdateStats | client/src/state/store.ts:179-180 | supplied stats take the new values, the other stats stay, and user, goals and workouts are untouched |
| AppStore.UpdateGoals | client/src/state/store.ts:181-182 | supplied goals take the new values, the other goals stay, and user, stats and workouts are untouched |
| AppStore.UpdateProfile | client/src/state/store.ts:183-201 | without a usable token, after a failed request, or with no user, nothing changes; with a token and a successful answer, the user becomes the merge of user and patch; storage is never touched |
| AppStore.Authenticate | client/src/state/store.ts:216-241 | a failed answer changes nothing; a successful answer writes both tokens, takes the user from the answer, and leaves all other state and storage keys alone |
| AppStore.Login | client/src/state/store.ts:216-228 | only the user and the two token keys can change; a successful answer sets the user from the answer and writes both token keys, a missing token as the text "undefined", so a usable access token is stored unless the answer's token was empty; a failed answer changes nothing |
| AppStore.Register | client/src/state/store.ts:229-241 | the registration answer is handled exactly like the login answer: same tokens written, same user taken, nothing changed on failure |
| AppStore.Logout | client/src/state/store.ts:242-247 | the user is cleared, both tokens are removed, other storage keys stay, stats return to zero, the log is emptied, and the goals are kept |
| AppStore.AddWorkout | client/src/state/store.ts:202-205 | the workout is first, the old log is the tail, the length grows by one, and nothing else changes |
| AppStore.UpdateWorkout | client/src/state/store.ts:206-211 | records with the id are merged in place, the others and the length are kept, an absent id changes nothing, and only the log changes |
| AppStore.DeleteWorkout | client/src/state/store.ts:212-215 | no record with the id survives, an absent id changes nothing, and only the log changes |
| AppStore.LocalRunKeepsSession | client/src/state/store.ts:179-215 | any sequence of stats, goals and workout operations leaves the user and the storage as they were |
| AppStore.LogoutIdempotent | client/src/state/store.ts:242-247 | logging out twice is the same as logging out once |
| AppStore.LogoutAfterStep | client/src/state/store.ts:242-247 | for any operation except a goals update, logging out after it gives the same state as logging out before it |
| AppStore.LogoutForgetsHistory | client/src/state/store.ts:242-247 | after any sequence of operations without a goals update, logout reaches the same state it would have reached at the start |
| AppStore.LogoutRestoresInitialIffGoalsInitial | client/src/state/store.ts:242-247 | the store after logout equals the initial store exactly when the goals are still the initial goals |
| AppStore.ProfileAfterLogoutNoop | client/src/state/store.ts:186-187 | after logout, a profile update changes nothing, whatever the server answers |
| AppStore.ProfileAfterLogin | client/src/state/store.ts:186-197 | after a successful sign-in with a user and a non-empty token, a successful profile update merges the patch into that user |
| AppStore.StepKeepsUniqueIds | client/src/state/store.ts:202-215 | every operation that meets the caller's id obligations keeps workout ids unique |
| AppStore.DeleteWorkoutRemovesOne | client/src/state/store.ts:212-215 | with unique ids, deleting an id that is present removes exactly one workout |
| AppStore.UpdateStatsIdempotent | client/src/state/store.ts:179-180 | applying the same stats patch twice is the same as applying it once |
| AppStore.UpdateGoalsIdempotent | client/src/state/store.ts:181-182 | applying the same goals patch twice is the same as applying it once |
| AppStore.GoalsScenario | client/src/state/store.ts:171-182 | from a fresh store, setting the step goal to 12000 gives {12000, 2000, 2000, 8} |
| AppStore.TwoAddsScenario | client/src/state/store.ts:202-205 | adding Running and then Yoga gives the log [Yoga, Running] |

## Left out

- HTTP requests: the URLs, the request bodies (email, password, name, the
  profile patch) and the `Authorization: Bearer` header are not modelled.
  Each request is replaced by the answer it produces, given as a parameter.
  The model keeps only the rule that no profile request is sent without a
  usable token.
- Browser storage is a `map<string, string>` that is part of the state.
  Quota errors are not modelled.
- The subscription and notification machinery of the store library is
  not modelled. Each operation is one atomic transition.
- Asynchrony: the profile merge reads the state current when the answer
  arrives. Other operations that run while a request is in flight are
  not interleaved; each network operation is one step.
- Error logging to the console is not modelled.
- Answer bodies are reduced to the three fields the store reads. A `null`
  or missing body makes the destructuring throw; the error is caught and
  nothing changes, so it is the `AuthFailed` case. A text, number or
  boolean body destructures to missing fields, so it is
  `AuthOk(AuthPayload(None, None, None))`. Extra or mistyped fields in a
  body or a patch are not modelled.
- A patch field explicitly set to `undefined` is not modelled. In the
  TypeScript store it overwrites the old value; in the model a field is either
  supplied or absent.
- Numbers are exact reals, so `NaN`, infinities and float rounding are not
  modelled. The store does no arithmetic on them.
- The progress percentage shown by the stats card is not modelled. It is
  floating point, and a zero goal divides by zero.
- Generating workout ids and dates from the clock happens in the caller,
  not the store. The model takes both as input, and id uniqueness is the
  precondition `KeepsIdsUnique`.
- The user interface components and the Django backend are not part of
  this model.
- The commented-out mock store at the top of `client/src/state/store.ts`
  is not modelled.
- AppStore.DeleteWorkout: its contract states only that the log cannot
  grow. The exact count is stated by `Workouts.DeleteCount` and the exact
  survivors by `Workouts.DeleteMembers`.
