/** Identity resolution for one request: the verified user, the built-in local administrator
    in development mode, or no user at all. */
module Context {
  import opened Base

  /** The user record a request runs as; `role` is the stored role text. */
  datatype Caller = Caller(id: string, name: Option<string>, email: Option<string>, role: string)

  /** What verifying the request's session yields: a user, or a failure (whatever its cause). */
  datatype AuthOutcome = Verified(user: Caller) | Rejected(reason: string)

  /** The per-request context handed to every procedure. */
  datatype Ctx<Req, Res> = Ctx(req: Req, res: Res, user: Option<Caller>)

  /** The user substituted for a failed verification in development mode. */
  const LocalAdmin := Caller("local-admin", Some("Local Admin"), Some("admin@local.dev"), "admin")

  const Development := "development"

  /** The guard every admin procedure applies: a user is present and its role is `"admin"`. */
  predicate IsAdmin(user: Option<Caller>) {
    user.Some? && user.value.role == "admin"
  }

  /** `createContext`: never fails; the request and response pass through; the user is the
      verified one, or on a failed verification the local administrator in development mode
      and nobody otherwise. */
  function CreateContext<Req, Res>(req: Req, res: Res, auth: AuthOutcome, nodeEnv: string): (ctx: Ctx<Req, Res>)
    ensures ctx.req == req && ctx.res == res
    ensures auth.Verified? ==> ctx.user == Some(auth.user)
    ensures auth.Rejected? && nodeEnv == Development ==> ctx.user == Some(LocalAdmin)
    ensures auth.Rejected? && nodeEnv != Development ==> ctx.user == None
  {
    var user :=
      match auth
      case Verified(u) => Some(u)
      case Rejected(_) => if nodeEnv == Development then Some(LocalAdmin) else None;
    Ctx(req, res, user)
  }

  /** Who passes the admin guard: exactly a verified administrator, or anyone whose
      verification failed while running in development mode. */
  lemma AdminIff<Req, Res>(req: Req, res: Res, auth: AuthOutcome, nodeEnv: string)
    ensures IsAdmin(CreateContext(req, res, auth, nodeEnv).user) <==>
      (auth.Verified? && auth.user.role == "admin") || (auth.Rejected? && nodeEnv == Development)
  {
    var ctx := CreateContext(req, res, auth, nodeEnv);
    if auth.Rejected? && nodeEnv == Development {
      assert ctx.user == Some(LocalAdmin);
    }
  }
}
