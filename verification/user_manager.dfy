/** components/admin/user-manager.tsx: the administrator's list of
    accounts. Every action writes the whole list with `saveUsers` and reads
    it back, so the panel's list and the stored table are one sequence
    here. The answer to the confirmation dialog is `confirmed`. */
module UserManager {
  import opened Types
  import Collection

  function UserId(u: User): int { u.id }

  function Flip(r: Role): (f: Role)
    ensures f != r
  {
    if r == Admin then Member else Admin
  }

  /** `toggleRole(id)`: every account with that id swaps admin and user;
      every other account, and the length and order, stay. */
  function ToggleRole(users: seq<User>, id: int): (r: seq<User>)
    ensures |r| == |users|
    ensures forall i :: 0 <= i < |users| && users[i].id == id ==>
              r[i] == users[i].(role := Flip(users[i].role))
    ensures forall i :: 0 <= i < |users| && users[i].id != id ==> r[i] == users[i]
  {
    seq(|users|, i requires 0 <= i < |users| =>
      if users[i].id == id then users[i].(role := Flip(users[i].role)) else users[i])
  }

  /** Toggling the same account twice gives the list back. */
  lemma ToggleTwiceRestores(users: seq<User>, id: int)
    ensures ToggleRole(ToggleRole(users, id), id) == users
  {
    var once := ToggleRole(users, id);
    var twice := ToggleRole(once, id);
    forall i | 0 <= i < |users| ensures twice[i] == users[i] {
      if users[i].id == id {
        assert once[i].id == id;
      }
    }
  }

  /** `handleDelete(id)`: once confirmed, exactly the accounts with that id
      go and the rest keep their order. */
  function HandleDelete(users: seq<User>, id: int, confirmed: bool): (r: seq<User>)
    ensures !confirmed ==> r == users
    ensures confirmed ==> Collection.RemovedAll(users, r, UserId, id)
  {
    if !confirmed then users else Collection.DeleteAll(users, UserId, id).0
  }

  /** The number of administrators, `users.filter(u => u.role === "admin").length`. */
  function AdminCount(users: seq<User>): nat
    decreases |users|
  {
    if |users| == 0 then 0
    else (if users[0].role == Admin then 1 else 0) + AdminCount(users[1..])
  }

  predicate IsAdminUser(u: User) { u.role == Admin }

  /** `AdminCount` is the length of the source's filter. */
  lemma {:induction false} AdminCountIsFilterLength(users: seq<User>)
    ensures AdminCount(users) == |Collection.Filter(users, IsAdminUser)|
    decreases |users|
  {
    if |users| > 0 {
      AdminCountIsFilterLength(users[1..]);
    }
  }

  /** The delete button is disabled for the only administrator. */
  predicate DeleteDisabled(users: seq<User>, u: User) {
    u.role == Admin && AdminCount(users) == 1
  }

  predicate IdsUnique(users: seq<User>) {
    forall i, j :: 0 <= i < j < |users| ==> users[i].id != users[j].id
  }

  lemma {:induction false} SomeAdmin(users: seq<User>) returns (j: nat)
    requires AdminCount(users) >= 1
    ensures j < |users| && users[j].role == Admin
    decreases |users|
  {
    if users[0].role == Admin {
      j := 0;
    } else {
      var k := SomeAdmin(users[1..]);
      j := k + 1;
    }
  }

  lemma {:induction false} AnotherAdmin(users: seq<User>, i: nat) returns (j: nat)
    requires i < |users| && users[i].role == Admin && AdminCount(users) >= 2
    ensures j < |users| && j != i && users[j].role == Admin
    decreases |users|
  {
    if i == 0 {
      var k := SomeAdmin(users[1..]);
      j := k + 1;
    } else if users[0].role == Admin {
      j := 0;
    } else {
      var k := AnotherAdmin(users[1..], i - 1);
      j := k + 1;
    }
  }

  /** With distinct ids, a delete the panel allows never removes the last
      administrator. */
  lemma AllowedDeleteKeepsAnAdmin(users: seq<User>, i: nat)
    requires IdsUnique(users) && i < |users| && AdminCount(users) >= 1
    requires !DeleteDisabled(users, users[i])
    ensures exists u :: u in HandleDelete(users, users[i].id, true) && u.role == Admin
  {
    var j: nat;
    if users[i].role == Admin {
      j := AnotherAdmin(users, i);
    } else {
      j := SomeAdmin(users);
    }
    assert j != i;
    assert users[j].id != users[i].id;
    assert users[j] in users;
  }

  /** The role toggle has no such guard: the only administrator can demote
      themselves, leaving no administrator in the list. */
  lemma ToggleCanDemoteLastAdmin(u: User)
    requires u.role == Admin
    ensures AdminCount([u]) == 1 && AdminCount(ToggleRole([u], u.id)) == 0
  {
    assert ToggleRole([u], u.id)[1..] == [];
  }
}
