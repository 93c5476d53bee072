/** The signed-in user, the profile patch, the durable token pair and the
    server responses the session operations consume. */
module Session {
  import opened Wrappers

  /** The user profile. `id`, `name` and `email` are always present; the
      four body fields are optional free text without units. */
  datatype User = User(id: string, name: string, email: string,
                       height: Option<string>, weight: Option<string>,
                       age: Option<string>, gender: Option<string>)

  /** A partial profile. Every field may be supplied, identity fields included. */
  datatype UserPatch = UserPatch(id: Option<string>, name: Option<string>, email: Option<string>,
                                 height: Option<string>, weight: Option<string>,
                                 age: Option<string>, gender: Option<string>)

  datatype Field = Id | Name | Email | Height | Weight | Age | Gender

  /** A profile field as an optional value; the identity fields are always present. */
  function Get(u: User, f: Field): Option<string> {
    match f
    case Id => Some(u.id)
    case Name => Some(u.name)
    case Email => Some(u.email)
    case Height => u.height
    case Weight => u.weight
    case Age => u.age
    case Gender => u.gender
  }

  function PatchGet(p: UserPatch, f: Field): Option<string> {
    match f
    case Id => p.id
    case Name => p.name
    case Email => p.email
    case Height => p.height
    case Weight => p.weight
    case Age => p.age
    case Gender => p.gender
  }

  /** Field-wise merge of a profile patch into a user: supplied fields
      replace, the rest stay. */
  function Merge(u: User, p: UserPatch): (r: User)
    ensures forall f :: PatchGet(p, f).Some? ==> Get(r, f) == PatchGet(p, f)
    ensures forall f :: PatchGet(p, f).None? ==> Get(r, f) == Get(u, f)
  {
    User(p.id.GetOr(u.id), p.name.GetOr(u.name), p.email.GetOr(u.email),
         p.height.OrElse(u.height), p.weight.OrElse(u.weight),
         p.age.OrElse(u.age), p.gender.OrElse(u.gender))
  }

  /** Merging the same profile patch twice is merging it once. */
  lemma MergeIdempotent(u: User, p: UserPatch)
    ensures Merge(Merge(u, p), p) == Merge(u, p)
  {
  }

  /** Storage key of the access token. */
  const AccessTokenKey: string := "access_token"

  /** Storage key of the refresh token. */
  const RefreshTokenKey: string := "refresh_token"

  /** The fields of a successful login or registration body that the store
      reads. A field the body lacks is `None`. */
  datatype AuthPayload = AuthPayload(access: Option<string>, refresh: Option<string>,
                                     user: Option<User>)

  /** The outcome of the login or registration request: a 2xx answer with
      its body, or any failure (transport error, non-2xx status). */
  datatype AuthResponse = AuthOk(data: AuthPayload) | AuthFailed

  /** The outcome of the profile request; its body is never read. */
  datatype ProfileResponse = ProfileOk | ProfileFailed

  /** The text the key-value storage keeps for a written value: browser
      storage turns a missing (undefined) value into the text "undefined". */
  function Stored(v: Option<string>): (s: string)
    ensures v.Some? ==> s == v.value
    ensures v.None? ==> s == "undefined"
  {
    v.GetOr("undefined")
  }
}
