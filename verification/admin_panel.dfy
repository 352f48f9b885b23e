/** The user directory of the admin panel
    (client-side/src/components/Admin/AdminPanel.tsx): a seeded list of user
    records, a guarded add driven by a form, a filter-delete by id and three
    derived counts. Ids (`Date.now()`) and dates are parameters. */
module AdminPanel {

  datatype Role = Admin | Member
  datatype Status = Active | Inactive

  datatype UserData = UserData(id: string, email: string, name: string, role: Role,
                               createdAt: string, status: Status)

  /** The "Add New User" form. */
  datatype Form = Form(email: string, name: string, role: Role)

  datatype Panel = Panel(users: seq<UserData>, form: Form)

  /** The form after mounting and after every successful add. */
  const BlankForm := Form("", "", Member)

  /** Number of users satisfying `p`. */
  function CountIf(users: seq<UserData>, p: UserData -> bool): (n: nat)
    ensures n <= |users|
  {
    if |users| == 0 then 0
    else CountIf(users[..|users| - 1], p) + (if p(users[|users| - 1]) then 1 else 0)
  }

  /** The count is zero exactly when no user satisfies `p`, and the length
      exactly when every user does. */
  lemma {:induction false} CountIfExtremes(users: seq<UserData>, p: UserData -> bool)
    ensures CountIf(users, p) == 0 <==> forall i :: 0 <= i < |users| ==> !p(users[i])
    ensures CountIf(users, p) == |users| <==> forall i :: 0 <= i < |users| ==> p(users[i])
    decreases |users|
  {
    if |users| > 0 {
      var init := users[..|users| - 1];
      CountIfExtremes(init, p);
      assert forall i :: 0 <= i < |init| ==> init[i] == users[i];
    }
  }

  predicate IsActive(u: UserData) { u.status == Active }

  /** The filter of `handleDeleteUser`, negated. */
  function HasId(id: string): UserData -> bool
  {
    (u: UserData) => u.id == id
  }
  predicate IsAdmin(u: UserData) { u.role == Admin }

  /** The three cards above the tabs. The total bounds the other two. */
  function TotalUsers(users: seq<UserData>): (n: nat)
    ensures n >= ActiveUsers(users) && n >= AdminUsers(users)
  {
    |users|
  }

  /** Zero exactly when every user is inactive; the total exactly when none is. */
  function ActiveUsers(users: seq<UserData>): (n: nat)
    ensures n == 0 <==> forall i :: 0 <= i < |users| ==> users[i].status == Inactive
    ensures n == |users| <==> forall i :: 0 <= i < |users| ==> users[i].status == Active
  {
    CountIfExtremes(users, IsActive);
    CountIf(users, IsActive)
  }

  /** Zero exactly when nobody is an admin; the total exactly when everybody is. */
  function AdminUsers(users: seq<UserData>): (n: nat)
    ensures n == 0 <==> forall i :: 0 <= i < |users| ==> users[i].role == Member
    ensures n == |users| <==> forall i :: 0 <= i < |users| ==> users[i].role == Admin
  {
    CountIfExtremes(users, IsAdmin);
    CountIf(users, IsAdmin)
  }

  predicate IdsDistinct(users: seq<UserData>)
  {
    forall i, j :: 0 <= i < j < |users| ==> users[i].id != users[j].id
  }

  /** The list the panel mounts with. */
  function Seed(): (users: seq<UserData>)
    ensures |users| == 3
    ensures IdsDistinct(users)
    ensures AdminUsers(users) == 1 && ActiveUsers(users) == 2
  {
    var users := [
      UserData("1", "admin@admin.com", "Admin User", Admin, "2024-01-01", Active),
      UserData("2", "john@example.com", "John Doe", Member, "2024-01-15", Active),
      UserData("3", "jane@example.com", "Jane Smith", Member, "2024-02-01", Inactive)];
    assert users[..2][..1] == users[..1] && users[..1][..0] == [];
    assert AdminUsers(users[..1]) == 1 && AdminUsers(users[..2]) == 1;
    assert ActiveUsers(users[..1]) == 1 && ActiveUsers(users[..2]) == 2;
    assert IsAdmin(users[0]);
    users
  }

  const Mounted := Panel(Seed(), BlankForm)

  /** `handleAddUser`: with both email and name filled in, a new active user
      built from the form goes last and the form is blanked; otherwise nothing
      changes. */
  function AddUser(p: Panel, id: string, today: string): (q: Panel)
    ensures p.form.email == [] || p.form.name == [] ==> q == p
    ensures p.form.email != [] && p.form.name != [] ==>
              && q.users == p.users + [UserData(id, p.form.email, p.form.name, p.form.role, today, Active)]
              && q.form == BlankForm
  {
    if p.form.email != [] && p.form.name != [] then
      Panel(p.users + [UserData(id, p.form.email, p.form.name, p.form.role, today, Active)], BlankForm)
    else p
  }

  /** The users whose id differs from `id`, in their order. */
  function Survivors(users: seq<UserData>, id: string): seq<UserData>
  {
    if |users| == 0 then []
    else
      var init := Survivors(users[..|users| - 1], id);
      if users[|users| - 1].id == id then init else init + [users[|users| - 1]]
  }

  lemma {:induction false} SurvivorsMembers(users: seq<UserData>, id: string)
    ensures forall u :: u in Survivors(users, id) <==> u in users && u.id != id
    decreases |users|
  {
    if |users| > 0 {
      var init := users[..|users| - 1];
      SurvivorsMembers(init, id);
      assert users == init + [users[|users| - 1]];
    }
  }

  lemma {:induction false} SurvivorsLength(users: seq<UserData>, id: string)
    ensures |Survivors(users, id)| == |users| - CountIf(users, HasId(id))
    decreases |users|
  {
    if |users| > 0 {
      SurvivorsLength(users[..|users| - 1], id);
    }
  }

  /** `handleDeleteUser`: keeps the users whose id differs, in their order. */
  function DeleteUser(users: seq<UserData>, id: string): (r: seq<UserData>)
    ensures forall u :: u in r <==> u in users && u.id != id
    ensures |r| == |users| - CountIf(users, HasId(id))
  {
    SurvivorsMembers(users, id);
    SurvivorsLength(users, id);
    Survivors(users, id)
  }

  /** The trash button is disabled on exactly the rows the Admins card counts. */
  predicate DeleteDisabled(u: UserData)
    ensures DeleteDisabled(u) <==> AdminUsers([u]) == 1
  {
    u.role == Admin
  }

  lemma {:induction false} CountIfAppend(a: seq<UserData>, b: seq<UserData>, p: UserData -> bool)
    ensures CountIf(a + b, p) == CountIf(a, p) + CountIf(b, p)
    decreases |b|
  {
    if |b| > 0 {
      var b' := b[..|b| - 1];
      CountIfAppend(a, b', p);
      assert (a + b)[..|a + b| - 1] == a + b';
      assert (a + b)[|a + b| - 1] == b[|b| - 1];
    } else {
      assert a + b == a;
    }
  }

  /** A successful add raises the total and the active count by one, and the
      admin count by one exactly when the new user is an admin. */
  lemma AddUserCounts(p: Panel, id: string, today: string)
    requires p.form.email != [] && p.form.name != []
    ensures TotalUsers(AddUser(p, id, today).users) == TotalUsers(p.users) + 1
    ensures ActiveUsers(AddUser(p, id, today).users) == ActiveUsers(p.users) + 1
    ensures AdminUsers(AddUser(p, id, today).users)
            == AdminUsers(p.users) + (if p.form.role == Admin then 1 else 0)
    ensures AddUser(p, id, today).users[|p.users|].id == id
  {
  }

  /** Adding with a fresh id keeps the ids distinct. */
  lemma AddFreshKeepsIdsDistinct(p: Panel, id: string, today: string)
    requires IdsDistinct(p.users)
    requires forall u :: u in p.users ==> u.id != id
    ensures IdsDistinct(AddUser(p, id, today).users)
  {
  }

  /** Deleting never makes two ids equal: distinct ids stay distinct. */
  lemma {:induction false} DeleteKeepsIdsDistinct(users: seq<UserData>, id: string)
    requires IdsDistinct(users)
    ensures IdsDistinct(DeleteUser(users, id))
    decreases |users|
  {
    if |users| > 0 {
      var init := users[..|users| - 1];
      var last := users[|users| - 1];
      assert forall i :: 0 <= i < |init| ==> init[i] == users[i];
      DeleteKeepsIdsDistinct(init, id);
      DeleteLast(users, id);
      var d := DeleteUser(init, id);
      if last.id != id {
        forall i | 0 <= i < |d|
          ensures d[i].id != last.id
        {
          assert d[i] in init;
          var j :| 0 <= j < |init| && init[j] == d[i];
          assert users[j] == d[i];
        }
      }
    }
  }

  /** Deleting from a non-empty list: the last user survives unless it has the id. */
  lemma DeleteLast(users: seq<UserData>, id: string)
    requires |users| > 0
    ensures var init := DeleteUser(users[..|users| - 1], id);
      DeleteUser(users, id) == if users[|users| - 1].id == id then init else init + [users[|users| - 1]]
  {
  }

  /** Deleting splits over concatenation: the survivors keep their relative order. */
  lemma {:induction false} DeleteKeepsOrder(a: seq<UserData>, b: seq<UserData>, id: string)
    ensures DeleteUser(a + b, id) == DeleteUser(a, id) + DeleteUser(b, id)
    decreases |b|
  {
    if |b| > 0 {
      var b' := b[..|b| - 1];
      var last := b[|b| - 1];
      DeleteKeepsOrder(a, b', id);
      assert (a + b)[..|a + b| - 1] == a + b';
      assert (a + b)[|a + b| - 1] == last;
      DeleteLast(b, id);
      DeleteLast(a + b, id);
      if last.id != id {
        assert (DeleteUser(a, id) + DeleteUser(b', id)) + [last] == DeleteUser(a, id) + (DeleteUser(b', id) + [last]);
      }
    } else {
      assert a + b == a;
    }
  }

  /** Deleting an id nobody has leaves the list exactly as it was. */
  lemma {:induction false} DeleteAbsentIsIdentity(users: seq<UserData>, id: string)
    requires forall u :: u in users ==> u.id != id
    ensures DeleteUser(users, id) == users
    decreases |users|
  {
    if |users| > 0 {
      var init := users[..|users| - 1];
      var last := users[|users| - 1];
      assert forall u :: u in init ==> u in users;
      DeleteAbsentIsIdentity(init, id);
      assert last in users;
      assert DeleteUser(users, id) == DeleteUser(init, id) + [last];
      assert users == init + [last];
    }
  }

  /** Deleting twice is deleting once. */
  lemma DeleteIdempotent(users: seq<UserData>, id: string)
    ensures DeleteUser(DeleteUser(users, id), id) == DeleteUser(users, id)
  {
    var once := DeleteUser(users, id);
    assert forall u :: u in once ==> u.id != id;
    DeleteAbsentIsIdentity(once, id);
  }

  lemma {:induction false} DeleteNonAdminsKeepsAdminCount(users: seq<UserData>, id: string)
    requires forall u :: u in users && u.id == id ==> !IsAdmin(u)
    ensures AdminUsers(DeleteUser(users, id)) == AdminUsers(users)
    decreases |users|
  {
    if |users| > 0 {
      var init := users[..|users| - 1];
      var last := users[|users| - 1];
      assert forall u :: u in init ==> u in users;
      DeleteNonAdminsKeepsAdminCount(init, id);
      if last.id != id {
        CountIfAppend(DeleteUser(init, id), [last], IsAdmin);
        assert [last][..0] == [];
      }
    }
  }

  /** A delete issued from the list (the trash button of a row whose button is
      enabled) never lowers the admin count, as long as ids are distinct. */
  lemma UiDeleteKeepsAdmins(users: seq<UserData>, row: int)
    requires 0 <= row < |users| && !DeleteDisabled(users[row])
    requires IdsDistinct(users)
    ensures AdminUsers(DeleteUser(users, users[row].id)) == AdminUsers(users)
    ensures TotalUsers(DeleteUser(users, users[row].id)) == TotalUsers(users) - 1
  {
    var id := users[row].id;
    forall u | u in users && u.id == id
      ensures !IsAdmin(u)
    {
      var i :| 0 <= i < |users| && users[i] == u;
      assert i == row;
    }
    DeleteNonAdminsKeepsAdminCount(users, id);
    DeleteSingleId(users, row);
  }

  lemma {:induction false} CountIdZeroWhenAbsent(users: seq<UserData>, id: string)
    requires forall u :: u in users ==> u.id != id
    ensures CountIf(users, HasId(id)) == 0
    decreases |users|
  {
    if |users| > 0 {
      var init := users[..|users| - 1];
      assert forall u :: u in init ==> u in users;
      CountIdZeroWhenAbsent(init, id);
      assert users[|users| - 1] in users;
    }
  }

  lemma DeleteSingleId(users: seq<UserData>, row: int)
    requires 0 <= row < |users| && IdsDistinct(users)
    ensures |DeleteUser(users, users[row].id)| == |users| - 1
  {
    var id := users[row].id;
    var a := users[..row];
    var b := users[row + 1..];
    assert users == a + [users[row]] + b;
    forall u | u in a ensures u.id != id {
      var i :| 0 <= i < |a| && a[i] == u;
      assert users[i] == u;
    }
    forall u | u in b ensures u.id != id {
      var i :| 0 <= i < |b| && b[i] == u;
      assert users[row + 1 + i] == u;
    }
    CountIdZeroWhenAbsent(a, id);
    CountIdZeroWhenAbsent(b, id);
    CountIfAppend(a, [users[row]], HasId(id));
    CountIfAppend(a + [users[row]], b, HasId(id));
    assert [users[row]][..0] == [];
  }

  /** Without distinct ids the button's guard is not enough: a user row sharing
      its id with an admin row takes the admin with it. */
  lemma SharedIdDeletesAdmin()
    ensures var users := [UserData("7", "a@x", "A", Admin, "d", Active),
                          UserData("7", "b@x", "B", Member, "d", Active)];
      && !DeleteDisabled(users[1])
      && AdminUsers(users) == 1
      && AdminUsers(DeleteUser(users, users[1].id)) == 0
  {
  }
}
