/** User management guards of app/Http/Controllers/AdminController.php:
    updateUser, destroyUser, toggleUser and bulkAction over the users table,
    keyed by id. The invariant they aim at is "at least one (active)
    administrator"; the model proves where it holds and exhibits where it
    does not. Which users are a chantier's client or commercial is an input
    (linked). */
module Admin {
  import opened Common

  /** A row of users, with the columns the guards read and write. */
  datatype Account = Account(name: string, email: string, role: string, active: bool)

  /** User::isAdmin (app/Models/User.php). */
  predicate IsAdmin(a: Account) {
    a.role == "admin"
  }

  /** The ids of User::where('role','admin'). */
  function Admins(users: map<int, Account>): set<int> {
    set id | id in users && IsAdmin(users[id])
  }

  /** The ids of User::where('role','admin')->where('active',true). */
  function ActiveAdmins(users: map<int, Account>): set<int> {
    set id | id in users && IsAdmin(users[id]) && users[id].active
  }

  /** The response of a single-user action. */
  datatype Outcome = Done | Refused(message: string) | NotFound

  const LastActiveAdmin: string := "Impossible de désactiver le dernier administrateur actif."
  const LastAdmin: string := "Impossible de supprimer le dernier administrateur."
  const LinkedToChantiers: string := "Utilisateur lié à des chantiers."

  /** The validated fields of an update request; active is absent when the
      form does not send it. */
  datatype UpdateRequest = UpdateRequest(name: string, email: string, role: string, active: Option<bool>)

  // ---------------------------------------------------------------------------
  // Guards and effects
  // ---------------------------------------------------------------------------

  /** toggleUser refuses to deactivate the last active admin. */
  predicate ToggleRefused(users: map<int, Account>, id: int)
    requires id in users
  {
    IsAdmin(users[id]) && users[id].active && |ActiveAdmins(users)| <= 1
  }

  /** destroyUser's two refusals, in order. */
  function DestroyRefusal(users: map<int, Account>, id: int, linked: set<int>): (r: Option<string>)
    requires id in users
    ensures r.None? <==> !(IsAdmin(users[id]) && |Admins(users)| <= 1) && id !in linked
  {
    if IsAdmin(users[id]) && |Admins(users)| <= 1 then Some(LastAdmin)
    else if id in linked then Some(LinkedToChantiers)
    else None
  }

  /** updateUser's guard reads the active flag with $request->boolean('active'),
      which is false when the field is absent. */
  predicate UpdateRefused(users: map<int, Account>, id: int, req: UpdateRequest)
    requires id in users
  {
    IsAdmin(users[id]) && !req.active.GetOr(false) && |ActiveAdmins(users)| <= 1
  }

  /** The row updateUser writes: active is $request->boolean('active', true),
      which is true when the field is absent. */
  function Updated(a: Account, req: UpdateRequest): (r: Account)
    ensures r.role == req.role && r.active == req.active.GetOr(true)
    ensures r.name == req.name && r.email == req.email
  {
    Account(req.name, req.email, req.role, req.active.GetOr(true))
  }

  // ---------------------------------------------------------------------------
  // Counting lemmas
  // ---------------------------------------------------------------------------

  /** Replacing one row changes the active admins at that id only. */
  lemma ActiveAdminsUpdate(users: map<int, Account>, id: int, a: Account)
    requires id in users
    ensures ActiveAdmins(users[id := a]) == (ActiveAdmins(users) - {id}) + (if IsAdmin(a) && a.active then {id} else {})
  {
  }

  lemma AdminsUpdate(users: map<int, Account>, id: int, a: Account)
    requires id in users
    ensures Admins(users[id := a]) == (Admins(users) - {id}) + (if IsAdmin(a) then {id} else {})
  {
  }

  lemma AdminsRemove(users: map<int, Account>, id: int)
    ensures Admins(users - {id}) == Admins(users) - {id}
    ensures ActiveAdmins(users - {id}) == ActiveAdmins(users) - {id}
  {
  }

  /** Removing one element from a set of at least two leaves at least one. */
  lemma RemoveOneOfTwo(s: set<int>, x: int)
    requires |s| >= 2
    ensures |s - {x}| >= 1
  {
    if x in s {
      assert |s - {x}| == |s| - 1;
    } else {
      assert s - {x} == s;
    }
  }

  /** Removing an element a set does not hold keeps its size. */
  lemma RemoveAbsent(s: set<int>, x: int)
    requires x !in s
    ensures |s - {x}| == |s|
  {
    assert s - {x} == s;
  }

  /** Toggling a user the guard lets through never leaves no active admin. */
  lemma ToggleKeepsActiveAdmin(users: map<int, Account>, id: int)
    requires id in users && |ActiveAdmins(users)| >= 1 && !ToggleRefused(users, id)
    ensures |ActiveAdmins(users[id := users[id].(active := !users[id].active)])| >= 1
  {
    var a := users[id].(active := !users[id].active);
    ActiveAdminsUpdate(users, id, a);
    if id in ActiveAdmins(users) {
      RemoveOneOfTwo(ActiveAdmins(users), id);
    } else {
      RemoveAbsent(ActiveAdmins(users), id);
    }
  }

  /** Deleting a user the guards let through never leaves no admin. */
  lemma DestroyKeepsAdmin(users: map<int, Account>, id: int, linked: set<int>)
    requires id in users && |Admins(users)| >= 1 && DestroyRefusal(users, id, linked).None?
    ensures |Admins(users - {id})| >= 1
  {
    AdminsRemove(users, id);
    if id in Admins(users) {
      RemoveOneOfTwo(Admins(users), id);
    } else {
      RemoveAbsent(Admins(users), id);
    }
  }

  /** The guard of destroyUser counts every admin, active or not: deleting
      the only active admin while an inactive admin exists is let through
      and leaves no active admin. */
  lemma DestroyCanRemoveLastActiveAdmin()
    ensures var users := map[1 := Account("a", "a@x", "admin", true), 2 := Account("b", "b@x", "admin", false)];
            && |ActiveAdmins(users)| == 1
            && DestroyRefusal(users, 1, {}).None?
            && |ActiveAdmins(users - {1})| == 0
  {
    var users := map[1 := Account("a", "a@x", "admin", true), 2 := Account("b", "b@x", "admin", false)];
    assert ActiveAdmins(users) == {1};
    assert Admins(users) == {1, 2};
    assert ActiveAdmins(users - {1}) == {};
  }

  /** The guard of updateUser looks only at the active flag: an update that
      keeps the role admin keeps an active admin, ... */
  lemma UpdateKeepsActiveAdminWhenRoleKept(users: map<int, Account>, id: int, req: UpdateRequest)
    requires id in users && |ActiveAdmins(users)| >= 1 && !UpdateRefused(users, id, req)
    requires IsAdmin(users[id]) ==> req.role == "admin"
    ensures |ActiveAdmins(users[id := Updated(users[id], req)])| >= 1
  {
    var a := Updated(users[id], req);
    ActiveAdminsUpdate(users, id, a);
    if id in ActiveAdmins(users) {
      if !(IsAdmin(a) && a.active) {
        RemoveOneOfTwo(ActiveAdmins(users), id);
      }
    } else {
      RemoveAbsent(ActiveAdmins(users), id);
    }
  }

  /** ... but moving the last active admin to another role is let through
      and leaves no active admin. */
  lemma UpdateCanDemoteLastActiveAdmin()
    ensures var users := map[1 := Account("a", "a@x", "admin", true)];
            var req := UpdateRequest("a", "a@x", "commercial", Some(true));
            && |ActiveAdmins(users)| == 1
            && !UpdateRefused(users, 1, req)
            && |ActiveAdmins(users[1 := Updated(users[1], req)])| == 0
  {
    var users := map[1 := Account("a", "a@x", "admin", true)];
    var req := UpdateRequest("a", "a@x", "commercial", Some(true));
    assert ActiveAdmins(users) == {1};
    assert ActiveAdmins(users[1 := Updated(users[1], req)]) == {};
  }

  // ---------------------------------------------------------------------------
  // Bulk actions
  // ---------------------------------------------------------------------------

  datatype BulkKind = Activate | Deactivate | Delete

  /** The guard of each case of bulkAction's switch: activate an inactive
      user; deactivate an active user unless they are the last active admin;
      delete a user unless they are the last admin or linked to a chantier
      (destroyUser's two guards). */
  predicate BulkPasses(users: map<int, Account>, id: int, kind: BulkKind, linked: set<int>)
    requires id in users
  {
    match kind
    case Activate => !users[id].active
    case Deactivate => users[id].active && !ToggleRefused(users, id)
    case Delete => DestroyRefusal(users, id, linked).None?
  }

  /** One iteration of bulkAction's loop on the live table: the new table and
      whether the user was counted. The admin counts are re-read each time. */
  function BulkStep(users: map<int, Account>, id: int, kind: BulkKind, linked: set<int>): (r: (map<int, Account>, bool))
    ensures r.1 <==> r.0 != users
    ensures r.1 <==> id in users && BulkPasses(users, id, kind, linked)
    ensures r.1 ==> id in users
    ensures r.1 && kind == Delete ==> r.0 == users - {id}
    ensures r.1 && kind != Delete ==>
              && users[id].active != (kind == Activate)
              && r.0 == users[id := users[id].(active := kind == Activate)]
  {
    if id !in users then (users, false)
    else
      var u := users[id];
      match kind
      case Activate =>
        if !u.active then (users[id := u.(active := true)], true) else (users, false)
      case Deactivate =>
        if u.active && !(IsAdmin(u) && |ActiveAdmins(users)| <= 1) then (users[id := u.(active := false)], true)
        else (users, false)
      case Delete =>
        if !(IsAdmin(u) && |Admins(users)| <= 1) && id !in linked then (users - {id}, true) else (users, false)
  }

  /** bulkAction over the selected ids, in order: the final table and the
      count. */
  function BulkRun(users: map<int, Account>, ids: seq<int>, kind: BulkKind, linked: set<int>): (r: (map<int, Account>, nat))
    ensures r.1 <= |ids|
  {
    if ids == [] then (users, 0)
    else
      var prev := BulkRun(users, ids[..|ids| - 1], kind, linked);
      var step := BulkStep(prev.0, ids[|ids| - 1], kind, linked);
      (step.0, prev.1 + (if step.1 then 1 else 0))
  }

  /** A bulk deactivation never leaves no active admin. */
  lemma {:induction false} BulkDeactivateKeepsActiveAdmin(users: map<int, Account>, ids: seq<int>, linked: set<int>)
    requires |ActiveAdmins(users)| >= 1
    ensures |ActiveAdmins(BulkRun(users, ids, Deactivate, linked).0)| >= 1
    decreases |ids|
  {
    if ids != [] {
      BulkDeactivateKeepsActiveAdmin(users, ids[..|ids| - 1], linked);
      var prev := BulkRun(users, ids[..|ids| - 1], Deactivate, linked).0;
      var id := ids[|ids| - 1];
      if id in prev && prev[id].active && !(IsAdmin(prev[id]) && |ActiveAdmins(prev)| <= 1) {
        ToggleKeepsActiveAdmin(prev, id);
      }
    }
  }

  /** A bulk deletion never leaves no admin. */
  lemma {:induction false} BulkDeleteKeepsAdmin(users: map<int, Account>, ids: seq<int>, linked: set<int>)
    requires |Admins(users)| >= 1
    ensures |Admins(BulkRun(users, ids, Delete, linked).0)| >= 1
    decreases |ids|
  {
    if ids != [] {
      BulkDeleteKeepsAdmin(users, ids[..|ids| - 1], linked);
      var prev := BulkRun(users, ids[..|ids| - 1], Delete, linked).0;
      var id := ids[|ids| - 1];
      if id in prev && !(IsAdmin(prev[id]) && |Admins(prev)| <= 1) && id !in linked {
        DestroyKeepsAdmin(prev, id, linked);
      }
    }
  }

  /** A bulk deletion never deletes a user linked to a chantier, and never
      adds anyone. */
  lemma {:induction false} BulkDeleteKeepsLinked(users: map<int, Account>, ids: seq<int>, linked: set<int>)
    ensures var r := BulkRun(users, ids, Delete, linked).0;
            && r.Keys <= users.Keys
            && (forall id :: id in users && id in linked ==> id in r && r[id] == users[id])
    decreases |ids|
  {
    if ids != [] {
      BulkDeleteKeepsLinked(users, ids[..|ids| - 1], linked);
      var prev := BulkRun(users, ids[..|ids| - 1], Delete, linked).0;
      var step := BulkStep(prev, ids[|ids| - 1], Delete, linked);
      assert step.0.Keys <= prev.Keys;
      assert forall id :: id in prev && id in linked ==> id in step.0 && step.0[id] == prev[id];
    }
  }

  /** A bulk deactivation deactivates only, and deletes nobody. */
  lemma {:induction false} BulkDeactivateOnlyDeactivates(users: map<int, Account>, ids: seq<int>, linked: set<int>)
    ensures var r := BulkRun(users, ids, Deactivate, linked).0;
            && r.Keys == users.Keys
            && (forall id :: id in users ==> r[id] == users[id] || r[id] == users[id].(active := false))
    decreases |ids|
  {
    if ids != [] {
      BulkDeactivateOnlyDeactivates(users, ids[..|ids| - 1], linked);
    }
  }

  /** A bulk activation never lowers the number of active admins and
      deactivates nobody. */
  lemma {:induction false} BulkActivateOnlyActivates(users: map<int, Account>, ids: seq<int>, linked: set<int>)
    ensures var r := BulkRun(users, ids, Activate, linked).0;
            && r.Keys == users.Keys
            && ActiveAdmins(users) <= ActiveAdmins(r)
            && (forall id :: id in users && users[id].active ==> r[id].active)
    decreases |ids|
  {
    if ids != [] {
      BulkActivateOnlyActivates(users, ids[..|ids| - 1], linked);
    }
  }

  class UserDirectory {
    var users: map<int, Account>

    constructor (users: map<int, Account>)
      ensures this.users == users
    {
      this.users := users;
    }

    /** toggleUser: flips active unless that deactivates the last active
        admin. */
    method ToggleUser(id: int) returns (o: Outcome)
      modifies this
      ensures id !in old(users) ==> o == NotFound && users == old(users)
      ensures id in old(users) && ToggleRefused(old(users), id) ==> o == Refused(LastActiveAdmin) && users == old(users)
      ensures id in old(users) && !ToggleRefused(old(users), id) ==>
                o == Done && users == old(users)[id := old(users)[id].(active := !old(users)[id].active)]
      ensures |ActiveAdmins(old(users))| >= 1 ==> |ActiveAdmins(users)| >= 1
    {
      if id !in users {
        return NotFound;
      }
      var u := users[id];
      if IsAdmin(u) && u.active && |ActiveAdmins(users)| <= 1 {
        return Refused(LastActiveAdmin);
      }
      if |ActiveAdmins(users)| >= 1 {
        ToggleKeepsActiveAdmin(users, id);
      }
      users := users[id := u.(active := !u.active)];
      o := Done;
    }

    /** destroyUser: deletes the user unless they are the last admin or are
        linked to a chantier. */
    method DestroyUser(id: int, linked: set<int>) returns (o: Outcome)
      modifies this
      ensures id !in old(users) ==> o == NotFound && users == old(users)
      ensures id in old(users) && DestroyRefusal(old(users), id, linked).Some? ==>
                o == Refused(DestroyRefusal(old(users), id, linked).value) && users == old(users)
      ensures id in old(users) && DestroyRefusal(old(users), id, linked).None? ==>
                o == Done && users == old(users) - {id}
      ensures |Admins(old(users))| >= 1 ==> |Admins(users)| >= 1
    {
      if id !in users {
        return NotFound;
      }
      var u := users[id];
      if IsAdmin(u) && |Admins(users)| <= 1 {
        return Refused(LastAdmin);
      }
      if id in linked {
        return Refused(LinkedToChantiers);
      }
      if |Admins(users)| >= 1 {
        DestroyKeepsAdmin(users, id, linked);
      }
      users := users - {id};
      o := Done;
    }

    /** updateUser: writes the validated fields unless the guard sees the last
        active admin being deactivated. */
    method UpdateUser(id: int, req: UpdateRequest) returns (o: Outcome)
      modifies this
      ensures id !in old(users) ==> o == NotFound && users == old(users)
      ensures id in old(users) && UpdateRefused(old(users), id, req) ==> o == Refused(LastActiveAdmin) && users == old(users)
      ensures id in old(users) && !UpdateRefused(old(users), id, req) ==>
                o == Done && users == old(users)[id := Updated(old(users)[id], req)]
    {
      if id !in users {
        return NotFound;
      }
      var u := users[id];
      if IsAdmin(u) && !req.active.GetOr(false) && |ActiveAdmins(users)| <= 1 {
        return Refused(LastActiveAdmin);
      }
      users := users[id := Updated(u, req)];
      o := Done;
    }

    /** One iteration of bulkAction's loop on a user u loaded before the
        loop, whose row is still u: the action is applied unless a guard
        refuses it. */
    method BulkApply(kind: BulkKind, id: int, u: Account, linked: set<int>) returns (changed: bool)
      requires id in users && users[id] == u
      modifies this
      ensures (users, changed) == BulkStep(old(users), id, kind, linked)
    {
      changed := false;
      match kind {
        case Activate =>
          if !u.active {
            users := users[id := u.(active := true)];
            changed := true;
          }
        case Deactivate =>
          if u.active && !(IsAdmin(u) && |ActiveAdmins(users)| <= 1) {
            users := users[id := u.(active := false)];
            changed := true;
          }
        case Delete =>
          if !(IsAdmin(u) && |Admins(users)| <= 1) && id !in linked {
            users := users - {id};
            changed := true;
          }
      }
    }

    /** bulkAction: ids are the selected users as the query returns them
        (validated to exist, without repetition). Each is judged on the
        values loaded before the loop and against admin counts re-read on
        every iteration. */
    method BulkAction(kind: BulkKind, ids: seq<int>, linked: set<int>) returns (count: nat)
      requires forall i, j :: 0 <= i < j < |ids| ==> ids[i] != ids[j]
      modifies this
      ensures (users, count) == BulkRun(old(users), ids, kind, linked)
      ensures count <= |ids|
      ensures kind == Deactivate && |ActiveAdmins(old(users))| >= 1 ==> |ActiveAdmins(users)| >= 1
      ensures kind == Delete && |Admins(old(users))| >= 1 ==> |Admins(users)| >= 1
      ensures kind == Delete ==> forall id :: id in old(users) && id in linked ==> id in users && users[id] == old(users)[id]
    {
      var loaded := users;
      count := 0;
      var k := 0;
      while k < |ids|
        invariant 0 <= k <= |ids|
        invariant (users, count) == BulkRun(loaded, ids[..k], kind, linked)
        invariant forall j :: k <= j < |ids| ==> (ids[j] in users <==> ids[j] in loaded)
        invariant forall j :: k <= j < |ids| && ids[j] in loaded ==> users[ids[j]] == loaded[ids[j]]
      {
        assert ids[..k + 1][..k] == ids[..k];
        var id := ids[k];
        ghost var before := users;
        if id in loaded {
          var changed := BulkApply(kind, id, loaded[id], linked);
          if changed {
            count := count + 1;
          }
        }
        assert forall j :: k < j < |ids| ==> ids[j] != id;
        k := k + 1;
      }
      assert ids[..k] == ids;
      if kind == Deactivate && |ActiveAdmins(loaded)| >= 1 {
        BulkDeactivateKeepsActiveAdmin(loaded, ids, linked);
      }
      if kind == Delete && |Admins(loaded)| >= 1 {
        BulkDeleteKeepsAdmin(loaded, ids, linked);
      }
      if kind == Delete {
        BulkDeleteKeepsLinked(loaded, ids, linked);
      }
    }
  }
}
