/** The mock session store (client-side/src/contexts/AuthContext.tsx): the
    current user, the `isLoading` flag, and the `chatbot_user` slot of local
    storage, modelled as an optional user record. The one-second simulated
    delay is not modelled; ids minted by `signup` and timestamps are parameters. */
module AuthContext {
  import opened Maybe
  import opened Text

  datatype Role = Admin | Member

  datatype User = User(id: string, email: string, name: string, role: Role, createdAt: string)

  /** `user`, `isLoading`, and the persisted slot. */
  datatype Auth = Auth(user: Option<User>, isLoading: bool, slot: Option<User>)

  /** Result of `login` and `signup`: the state once `finally` has run, and the
      boolean the promise resolves to. */
  datatype Answer = Answer(state: Auth, ok: bool)

  const AdminEmail := "admin@admin.com"
  const AdminPassword := "admin123"

  /** `email.split('@')[0]`: the text before the first `@`, or all of it. */
  function LocalPart(email: string): (name: string)
    ensures |name| <= |email| && name == email[..|name|]
    ensures '@' !in name
    ensures |name| < |email| ==> email[|name|] == '@'
  {
    var name := Split(email, '@')[0];
    var i := IndexOf(email, '@');
    assert name == email[..i];
    name
  }

  /** The provider as first rendered: no user, loading, whatever the slot holds. */
  function Mount(slot: Option<User>): (r: Auth)
    ensures r.user == None && r.isLoading && r.slot == slot
    ensures var after := Restore(r); InSync(after) && after.user == slot && !after.isLoading
  {
    Auth(None, true, slot)
  }

  /** The restore effect: a saved user becomes the current user; loading ends
      either way. */
  function Restore(a: Auth): (r: Auth)
    ensures !r.isLoading && r.slot == a.slot
    ensures a.slot.Some? ==> r.user == a.slot
    ensures a.slot.None? ==> r.user == a.user
  {
    if a.slot.Some? then Auth(a.slot, false, a.slot) else Auth(a.user, false, a.slot)
  }

  /** The fixed admin identity. */
  function AdminUser(now: string): User
  {
    User("1", AdminEmail, "Admin User", Admin, now)
  }

  /** `login`: the fixed admin pair, else any non-empty credentials as an
      ordinary user named after the email's local part, else rejection. */
  function Login(a: Auth, email: string, password: string, now: string): (r: Answer)
    ensures r.ok <==> email != [] && password != []
    ensures !r.state.isLoading
    ensures r.ok ==> r.state.user.Some? && r.state.slot == r.state.user
    ensures !r.ok ==> r.state.user == a.user && r.state.slot == a.slot
    ensures email == AdminEmail && password == AdminPassword ==>
              r.state.user == Some(User("1", AdminEmail, "Admin User", Admin, now))
    ensures r.ok && !(email == AdminEmail && password == AdminPassword) ==>
              r.state.user == Some(User("2", email, LocalPart(email), Member, now))
  {
    if email == AdminEmail && password == AdminPassword then
      var u := AdminUser(now);
      Answer(Auth(Some(u), false, Some(u)), true)
    else if email != [] && password != [] then
      var u := User("2", email, LocalPart(email), Member, now);
      Answer(Auth(Some(u), false, Some(u)), true)
    else
      Answer(Auth(a.user, false, a.slot), false)
  }

  /** `signup`: always succeeds with an ordinary user built from the inputs;
      nothing is validated and the password is not used. */
  function Signup(a: Auth, email: string, password: string, name: string, id: string,
                  now: string): (r: Answer)
    ensures r.ok && !r.state.isLoading
    ensures r.state.user == Some(User(id, email, name, Member, now))
    ensures r.state.slot == r.state.user
  {
    var u := User(id, email, name, Member, now);
    Answer(Auth(Some(u), false, Some(u)), true)
  }

  /** `logout`: forget the user and clear the slot. */
  function Logout(a: Auth): (r: Auth)
    ensures r.user.None? && r.slot.None?
    ensures r.isLoading == a.isLoading
  {
    Auth(None, a.isLoading, None)
  }

  /** The in-memory user and the persisted slot agree. */
  predicate InSync(a: Auth)
  {
    a.user == a.slot
  }

  /** Only the fixed pair yields the admin role. */
  lemma LoginAdminOnlyWithFixedPair(a: Auth, email: string, password: string, now: string)
    requires Login(a, email, password, now).ok
    ensures Login(a, email, password, now).state.user.value.role == Admin
            <==> email == AdminEmail && password == AdminPassword
  {
  }

  /** The name of an ordinary login is the first piece of `email.split('@')`,
      and glueing back the rest of the pieces restores the email. */
  lemma LoginNameIsLocalPart(a: Auth, email: string, password: string, now: string)
    requires Login(a, email, password, now).ok
    requires !(email == AdminEmail && password == AdminPassword)
    ensures var name := Login(a, email, password, now).state.user.value.name;
      && name == Split(email, '@')[0]
      && email == Join([name] + Split(email, '@')[1..], "@")
  {
    var parts := Split(email, '@');
    JoinSplit(email, '@');
    assert parts == [parts[0]] + parts[1..];
  }

  datatype Event =
    | LoggedIn(email: string, password: string, now: string)
    | SignedUp(email: string, password: string, name: string, id: string, now: string)
    | LoggedOut
    | Reloaded

  /** A login the provider turns down: an email or a password is empty. */
  predicate Rejected(e: Event)
  {
    e.LoggedIn? && (e.email == [] || e.password == [])
  }

  /** One call. A reload keeps only the slot and runs the restore effect.
      Every call except a rejected login leaves the user and the slot in
      agreement; a rejected login touches neither. */
  function Apply(a: Auth, e: Event): (r: Auth)
    ensures !Rejected(e) ==> InSync(r)
    ensures Rejected(e) ==> r.user == a.user && r.slot == a.slot
    ensures !e.LoggedOut? ==> !r.isLoading
  {
    match e
    case LoggedIn(email, password, now) => Login(a, email, password, now).state
    case SignedUp(email, password, name, id, now) => Signup(a, email, password, name, id, now).state
    case LoggedOut => Logout(a)
    case Reloaded => Restore(Mount(a.slot))
  }

  /** The calls made in order. Whatever came before, a sequence of calls
      that ends with anything but a rejected login leaves the user and the
      slot in agreement. */
  function Run(a: Auth, events: seq<Event>): (r: Auth)
    ensures |events| >= 1 && !Rejected(events[|events| - 1]) ==> InSync(r)
    decreases |events|
  {
    if |events| == 0 then a
    else
      assert |events| >= 2 ==> events[1..][|events[1..]| - 1] == events[|events| - 1];
      Run(Apply(a, events[0]), events[1..])
  }

  /** Each call keeps the user and the slot in agreement. */
  lemma ApplyKeepsInSync(a: Auth, e: Event)
    requires InSync(a)
    ensures InSync(Apply(a, e))
  {
  }

  /** From a first load, any sequence of calls keeps the user and the slot in agreement. */
  lemma {:induction false} RunKeepsInSync(a: Auth, events: seq<Event>)
    requires InSync(a)
    ensures InSync(Run(a, events))
    decreases |events|
  {
    if |events| > 0 {
      ApplyKeepsInSync(a, events[0]);
      RunKeepsInSync(Apply(a, events[0]), events[1..]);
    }
  }

  /** The restore effect puts a freshly loaded provider in agreement with its slot. */
  lemma RestoreSyncs(slot: Option<User>)
    ensures InSync(Restore(Mount(slot)))
    ensures Restore(Mount(slot)).user == slot
  {
  }

  /** Session round trip: an admin login survives a reload with the same id,
      email and role; after logout a reload finds nobody. */
  lemma SessionRoundTrip(a: Auth, now: string)
    ensures var after := Apply(Apply(a, LoggedIn(AdminEmail, AdminPassword, now)), Reloaded);
      && after.user.Some?
      && after.user.value.role == Admin
      && after.user.value.id == "1"
      && after.user.value.email == AdminEmail
    ensures Apply(Apply(a, LoggedOut), Reloaded).user.None?
  {
  }
}
