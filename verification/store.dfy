/** The application store: one state record {user, stats, goals, workouts}
    beside a key-value token storage that outlives the store. Every
    operation is one atomic transition; the network-backed ones take the
    server's response as a parameter. */
module AppStore {
  import opened Wrappers
  import Metrics
  import Workouts
  import Session

  /** The in-memory state. `user` is `None` for an anonymous session. */
  datatype Store = Store(user: Option<Session.User>, stats: Metrics.Stats,
                         goals: Metrics.Stats, workouts: seq<Workouts.Workout>)

  /** The store together with the durable key-value storage. */
  datatype Client = Client(store: Store, storage: map<string, string>)

  /** The state a freshly created store holds. */
  const InitialStore: Store := Store(None, Metrics.InitialStats, Metrics.InitialGoals, [])

  predicate Authenticated(c: Client) {
    c.store.user.Some?
  }

  /** The storage holds a usable access token: present and not the empty
      text (an empty token counts as missing). */
  predicate HasToken(storage: map<string, string>) {
    Session.AccessTokenKey in storage && storage[Session.AccessTokenKey] != ""
  }

  /** The two storage keys the session owns. */
  const TokenKeys: set<string> := {Session.AccessTokenKey, Session.RefreshTokenKey}

  /** The two storages agree on every key other than the two token keys. */
  predicate SameOtherKeys(a: map<string, string>, b: map<string, string>) {
    a - TokenKeys == b - TokenKeys
  }

  /** A client as the page load creates it: a fresh store beside whatever
      the storage already holds. Stored tokens do not sign anybody in. */
  function Start(storage: map<string, string>): (c: Client)
    ensures !Authenticated(c)
    ensures c.storage == storage
    ensures c.store.workouts == [] && c.store.stats == Metrics.InitialStats
    ensures c.store.goals == Metrics.InitialGoals
  {
    Client(InitialStore, storage)
  }

  /** Replaces the user and nothing else. */
  function SetUser(s: Store, u: Option<Session.User>): (r: Store)
    ensures r.user == u
    ensures r.(user := s.user) == s
  {
    s.(user := u)
  }

  /** Merge-patches today's stats; nothing else changes. */
  function UpdateStats(s: Store, p: Metrics.StatsPatch): (r: Store)
    ensures forall m :: Metrics.PatchGet(p, m).Some? ==>
      Metrics.Get(r.stats, m) == Metrics.PatchGet(p, m).value
    ensures forall m :: Metrics.PatchGet(p, m).None? ==>
      Metrics.Get(r.stats, m) == Metrics.Get(s.stats, m)
    ensures r.(stats := s.stats) == s
  {
    s.(stats := Metrics.Merge(s.stats, p))
  }

  /** Merge-patches the goals; nothing else changes. */
  function UpdateGoals(s: Store, p: Metrics.StatsPatch): (r: Store)
    ensures forall m :: Metrics.PatchGet(p, m).Some? ==>
      Metrics.Get(r.goals, m) == Metrics.PatchGet(p, m).value
    ensures forall m :: Metrics.PatchGet(p, m).None? ==>
      Metrics.Get(r.goals, m) == Metrics.Get(s.goals, m)
    ensures r.(goals := s.goals) == s
  {
    s.(goals := Metrics.Merge(s.goals, p))
  }

  /** Puts a workout in front of the log; nothing else changes. */
  function AddWorkout(s: Store, w: Workouts.Workout): (r: Store)
    ensures |r.workouts| == |s.workouts| + 1
    ensures r.workouts[0] == w && r.workouts[1..] == s.workouts
    ensures r.(workouts := s.workouts) == s
  {
    s.(workouts := Workouts.Add(s.workouts, w))
  }

  /** Merge-patches every logged workout with the given id, in place. */
  function UpdateWorkout(s: Store, id: string, p: Workouts.WorkoutPatch): (r: Store)
    ensures |r.workouts| == |s.workouts|
    ensures forall i :: 0 <= i < |s.workouts| ==>
      r.workouts[i] == if s.workouts[i].id == id then Workouts.Merge(s.workouts[i], p) else s.workouts[i]
    ensures !Workouts.HasId(s.workouts, id) ==> r == s
    ensures r.(workouts := s.workouts) == s
  {
    s.(workouts := Workouts.Update(s.workouts, id, p))
  }

  /** Drops every logged workout with the given id. */
  function DeleteWorkout(s: Store, id: string): (r: Store)
    ensures forall i :: 0 <= i < |r.workouts| ==> r.workouts[i].id != id
    ensures |r.workouts| <= |s.workouts|
    ensures !Workouts.HasId(s.workouts, id) ==> r == s
    ensures r.(workouts := s.workouts) == s
  {
    s.(workouts := Workouts.Delete(s.workouts, id))
  }

  /** Sends the profile patch with the stored access token. Without a
      usable token nothing is sent and nothing changes; a failed request
      changes nothing; a successful one merges the patch into the signed-in
      user without reading the answer. An anonymous store stays anonymous. */
  function UpdateProfile(c: Client, p: Session.UserPatch, resp: Session.ProfileResponse): (r: Client)
    ensures r.storage == c.storage
    ensures r.store.(user := c.store.user) == c.store
    ensures !HasToken(c.storage) || resp.ProfileFailed? || !Authenticated(c) ==> r == c
    ensures HasToken(c.storage) && resp.ProfileOk? && Authenticated(c) ==>
      r.store.user == Some(Session.Merge(c.store.user.value, p))
  {
    if !HasToken(c.storage) then c
    else
      match resp
      case ProfileFailed => c
      case ProfileOk =>
        c.(store := c.store.(user := if c.store.user.Some? then Some(Session.Merge(c.store.user.value, p)) else None))
  }

  /** What login and registration do with the server's answer: on success
      write both tokens and take the user from the body; on failure (only
      logged by the TypeScript store) change nothing. */
  function Authenticate(c: Client, resp: Session.AuthResponse): (r: Client)
    ensures resp.AuthFailed? ==> r == c
    ensures resp.AuthOk? ==> r.store == c.store.(user := resp.data.user)
    ensures resp.AuthOk? ==>
      && Session.AccessTokenKey in r.storage
      && r.storage[Session.AccessTokenKey] == Session.Stored(resp.data.access)
      && Session.RefreshTokenKey in r.storage
      && r.storage[Session.RefreshTokenKey] == Session.Stored(resp.data.refresh)
    ensures SameOtherKeys(c.storage, r.storage)
  {
    match resp
    case AuthFailed => c
    case AuthOk(data) =>
      var storage := c.storage[Session.AccessTokenKey := Session.Stored(data.access)]
                              [Session.RefreshTokenKey := Session.Stored(data.refresh)];
      Client(c.store.(user := data.user), storage)
  }

  /** Signing in: the answer to the login request, handled as above. Only
      the user and the two token keys can change. A successful answer
      always writes both keys, so afterwards a profile update sends its
      request unless the answer's access token was the empty text. */
  function Login(c: Client, resp: Session.AuthResponse): (r: Client)
    ensures r.store.(user := c.store.user) == c.store
    ensures SameOtherKeys(c.storage, r.storage)
    ensures resp.AuthOk? ==> r.store.user == resp.data.user
    ensures resp.AuthOk? ==>
      && Session.AccessTokenKey in r.storage
      && r.storage[Session.AccessTokenKey] == Session.Stored(resp.data.access)
      && Session.RefreshTokenKey in r.storage
      && r.storage[Session.RefreshTokenKey] == Session.Stored(resp.data.refresh)
    ensures resp.AuthOk? ==> (HasToken(r.storage) <==> resp.data.access != Some(""))
    ensures resp.AuthFailed? ==> r == c
  {
    Authenticate(c, resp)
  }

  /** Registering: the answer to the registration request, handled like
      the login answer. */
  function Register(c: Client, resp: Session.AuthResponse): (r: Client)
    ensures r == Login(c, resp)
  {
    Authenticate(c, resp)
  }

  /** Signing out: both tokens leave the storage, the user is cleared, the
      stats and the workout log are reset. The goals are kept. */
  function Logout(c: Client): (r: Client)
    ensures !Authenticated(r)
    ensures Session.AccessTokenKey !in r.storage && Session.RefreshTokenKey !in r.storage
    ensures SameOtherKeys(c.storage, r.storage)
    ensures r.store.stats == Metrics.InitialStats && r.store.workouts == []
    ensures r.store.goals == c.store.goals
  {
    Client(Store(None, Metrics.InitialStats, c.store.goals, []),
           c.storage - TokenKeys)
  }

  /** Every operation the store offers, with the server's answer where
      the operation makes a request. */
  datatype Action =
    | SetUserAction(user: Option<Session.User>)
    | UpdateStatsAction(statsPatch: Metrics.StatsPatch)
    | UpdateGoalsAction(goalsPatch: Metrics.StatsPatch)
    | UpdateProfileAction(profile: Session.UserPatch, profileResponse: Session.ProfileResponse)
    | AddWorkoutAction(workout: Workouts.Workout)
    | UpdateWorkoutAction(id: string, workoutPatch: Workouts.WorkoutPatch)
    | DeleteWorkoutAction(deleteId: string)
    | LoginAction(loginResponse: Session.AuthResponse)
    | RegisterAction(registerResponse: Session.AuthResponse)
    | LogoutAction

  function Step(c: Client, a: Action): Client {
    match a
    case SetUserAction(u) => c.(store := SetUser(c.store, u))
    case UpdateStatsAction(p) => c.(store := UpdateStats(c.store, p))
    case UpdateGoalsAction(p) => c.(store := UpdateGoals(c.store, p))
    case UpdateProfileAction(p, resp) => UpdateProfile(c, p, resp)
    case AddWorkoutAction(w) => c.(store := AddWorkout(c.store, w))
    case UpdateWorkoutAction(id, p) => c.(store := UpdateWorkout(c.store, id, p))
    case DeleteWorkoutAction(id) => c.(store := DeleteWorkout(c.store, id))
    case LoginAction(resp) => Login(c, resp)
    case RegisterAction(resp) => Register(c, resp)
    case LogoutAction => Logout(c)
  }

  /** The operations applied one after another. */
  function Run(c: Client, trace: seq<Action>): Client
    decreases |trace|
  {
    if trace == [] then c else Run(Step(c, trace[0]), trace[1..])
  }

  /** The operations that work on local data only. */
  predicate IsLocal(a: Action) {
    a.UpdateStatsAction? || a.UpdateGoalsAction? || a.AddWorkoutAction?
    || a.UpdateWorkoutAction? || a.DeleteWorkoutAction?
  }

  /** Local operations never touch the session: the user and the storage
      are what they were before, whatever the sequence. */
  lemma {:induction false} LocalRunKeepsSession(c: Client, trace: seq<Action>)
    requires forall i :: 0 <= i < |trace| ==> IsLocal(trace[i])
    ensures Run(c, trace).store.user == c.store.user
    ensures Run(c, trace).storage == c.storage
    decreases |trace|
  {
    if trace != [] {
      var next := Step(c, trace[0]);
      assert next.store.user == c.store.user && next.storage == c.storage;
      assert forall i :: 0 <= i < |trace[1..]| ==> IsLocal(trace[1..][i]) by {
        forall i | 0 <= i < |trace[1..]| ensures IsLocal(trace[1..][i]) {
          assert trace[1..][i] == trace[i + 1];
        }
      }
      LocalRunKeepsSession(next, trace[1..]);
    }
  }

  /** Logging out of a fresh client only drops the stored tokens: the
      store is still the initial one, goals included. */
  lemma LogoutOfStart(storage: map<string, string>)
    ensures Logout(Start(storage)) == Start(storage - TokenKeys)
  {
  }

  /** Starting fresh and raising the step goal to 12000 leaves the other
      three goals at their defaults. */
  lemma GoalsScenario(storage: map<string, string>)
    ensures UpdateGoals(Start(storage).store, Metrics.StatsPatch(Some(12000.0), None, None, None)).goals
            == Metrics.Stats(12000.0, 2000.0, 2000.0, 8.0)
  {
  }

  /** Logging out is idempotent. */
  lemma LogoutIdempotent(c: Client)
    ensures Logout(Logout(c)) == Logout(c)
  {
  }

  /** A step other than a goals update leaves nothing that logout keeps. */
  lemma LogoutAfterStep(c: Client, a: Action)
    requires !a.UpdateGoalsAction?
    ensures Logout(Step(c, a)) == Logout(c)
  {
  }

  /** Whatever happened since, logging out lands in the state a logout
      would have reached right away, as long as the goals were not
      updated: logout forgets the user, the tokens, the stats and the
      workouts, and keeps the goals and every other storage key. */
  lemma {:induction false} LogoutForgetsHistory(c: Client, trace: seq<Action>)
    requires forall i :: 0 <= i < |trace| ==> !trace[i].UpdateGoalsAction?
    ensures Logout(Run(c, trace)) == Logout(c)
    decreases |trace|
  {
    if trace != [] {
      assert forall i :: 0 <= i < |trace[1..]| ==> !trace[1..][i].UpdateGoalsAction? by {
        forall i | 0 <= i < |trace[1..]| ensures !trace[1..][i].UpdateGoalsAction? {
          assert trace[1..][i] == trace[i + 1];
        }
      }
      LogoutForgetsHistory(Step(c, trace[0]), trace[1..]);
      LogoutAfterStep(c, trace[0]);
    }
  }

  /** Logout restores the initial store exactly when the goals are still
      the initial goals: it does not reset them. */
  lemma LogoutRestoresInitialIffGoalsInitial(c: Client)
    ensures Logout(c).store == InitialStore <==> c.store.goals == Metrics.InitialGoals
  {
  }

  /** After logout no profile update can change anything: the token is gone. */
  lemma ProfileAfterLogoutNoop(c: Client, p: Session.UserPatch, resp: Session.ProfileResponse)
    ensures UpdateProfile(Logout(c), p, resp) == Logout(c)
  {
  }

  /** After a successful sign-in whose answer carries a non-empty access
      token (or none at all, which is stored as "undefined"), a successful
      profile update merges into the user from the answer. */
  lemma ProfileAfterLogin(c: Client, data: Session.AuthPayload, p: Session.UserPatch)
    requires data.access != Some("")
    requires data.user.Some?
    ensures UpdateProfile(Login(c, Session.AuthOk(data)), p, Session.ProfileOk).store.user
            == Some(Session.Merge(data.user.value, p))
  {
  }

  /** Whether an operation keeps the workout ids unique: an added workout
      must bring a fresh id, and a workout patch must not change the id. */
  predicate KeepsIdsUnique(s: Store, a: Action) {
    match a
    case AddWorkoutAction(w) => !Workouts.HasId(s.workouts, w.id)
    case UpdateWorkoutAction(id, p) => p.id.None? || p.id == Some(id)
    case _ => true
  }

  /** Unique workout ids are an invariant of every operation that respects
      the caller's obligations above. */
  lemma StepKeepsUniqueIds(c: Client, a: Action)
    requires Workouts.UniqueIds(c.store.workouts) && KeepsIdsUnique(c.store, a)
    ensures Workouts.UniqueIds(Step(c, a).store.workouts)
  {
    match a
    case AddWorkoutAction(w) =>
      Workouts.AddKeepsUnique(c.store.workouts, w);
    case UpdateWorkoutAction(id, p) =>
      Workouts.UpdateKeepsIds(c.store.workouts, id, p);
    case DeleteWorkoutAction(id) =>
      Workouts.DeleteKeepsUnique(c.store.workouts, id);
    case _ =>
  }

  /** With unique ids, deleting a logged id removes exactly one workout. */
  lemma DeleteWorkoutRemovesOne(s: Store, id: string)
    requires Workouts.UniqueIds(s.workouts) && Workouts.HasId(s.workouts, id)
    ensures |DeleteWorkout(s, id).workouts| == |s.workouts| - 1
  {
    Workouts.DeleteUniqueShrinksByOne(s.workouts, id);
  }

  /** Applying the same stats patch twice is applying it once. */
  lemma UpdateStatsIdempotent(s: Store, p: Metrics.StatsPatch)
    ensures UpdateStats(UpdateStats(s, p), p) == UpdateStats(s, p)
  {
  }

  /** Applying the same goals patch twice is applying it once. */
  lemma UpdateGoalsIdempotent(s: Store, p: Metrics.StatsPatch)
    ensures UpdateGoals(UpdateGoals(s, p), p) == UpdateGoals(s, p)
  {
  }

  /** Two additions: the later one comes first. */
  lemma TwoAddsScenario(running: Workouts.Workout, yoga: Workouts.Workout)
    ensures AddWorkout(AddWorkout(InitialStore, running), yoga).workouts == [yoga, running]
  {
  }
}
