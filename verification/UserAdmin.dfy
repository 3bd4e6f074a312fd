/** Administrator-driven changes of user accounts, and the super administrator they never take away. */
module UserAdmin {
  import opened Prelude

  datatype Role = SuperAdmin | GroupAdmin | Auditor | Viewer | Member
  datatype User = User(username: Option<string>, passwordHash: Option<string>, role: Role, loginAttempts: nat,
                       lockedUntil: Option<nat>)
  datatype Session = Session(user: nat, revokedAt: Option<nat>)

  type Users = map<nat, User>
  type Sessions = map<nat, Session>

  /** A partial update; a lock can be left, lifted or set. */
  datatype Change = Change(passwordHash: Option<string>, role: Option<Role>, loginAttempts: Option<nat>,
                           lockedUntil: Option<Option<nat>>)

  datatype Refusal = UserNotFound | SelfDelete | LastUsableSuperAdmin
  datatype Result<+T> = Ok(value: T) | Refused(reason: Refusal) | Failed

  datatype Audit = Created(user: nat) | Bootstrapped(user: nat) | Recovered(user: nat) | Updated(user: nat)
                 | Deleted(user: nat) | MutationRejected(user: nat, reason: Refusal)

  predicate Blank(s: string) {
    forall i | 0 <= i < |s| :: s[i] == ' '
  }

  predicate IsUsableSuperAdmin(user: User, now: nat) {
    && user.role == SuperAdmin
    && user.username.Some? && !Blank(user.username.value)
    && user.passwordHash.Some? && user.passwordHash.value != ""
    && (user.lockedUntil.Some? ==> user.lockedUntil.value <= now)
  }

  function UsableSuperAdmins(users: Users, now: nat): set<nat> {
    set id | id in users && IsUsableSuperAdmin(users[id], now)
  }

  /** An account to sign in with: a name that is not blank, a password, and no lock beyond this moment. */
  predicate CanSignIn(user: User, now: nat) {
    && user.username.Some? && (exists i | 0 <= i < |user.username.value| :: user.username.value[i] != ' ')
    && user.passwordHash.Some? && user.passwordHash.value != ""
    && (user.lockedUntil.None? || user.lockedUntil.value <= now)
  }

  /** Nobody but this account is a super administrator who can sign in. */
  predicate OthersAreOut(users: Users, id: nat, now: nat) {
    forall other | other in users && other != id && users[other].role == SuperAdmin :: !CanSignIn(users[other], now)
  }

  /** Who counts as usable, on the fields of the accounts. */
  lemma UsableOnFields(users: Users, now: nat, id: nat)
    ensures id in UsableSuperAdmins(users, now) <==>
            && id in users && users[id].role == SuperAdmin
            && users[id].username.Some?
            && (exists i | 0 <= i < |users[id].username.value| :: users[id].username.value[i] != ' ')
            && users[id].passwordHash.Some? && users[id].passwordHash.value != ""
            && (users[id].lockedUntil.None? || users[id].lockedUntil.value <= now)
    ensures id in UsableSuperAdmins(users, now) <==>
            id in users && users[id].role == SuperAdmin && CanSignIn(users[id], now)
  {
  }

  lemma LoneUsable(users: Users, now: nat, id: nat)
    ensures UsableSuperAdmins(users, now) == {id} <==>
            && id in users && users[id].role == SuperAdmin && CanSignIn(users[id], now)
            && OthersAreOut(users, id, now)
  {
    forall other ensures other in UsableSuperAdmins(users, now) <==>
                         other in users && users[other].role == SuperAdmin && CanSignIn(users[other], now)
    {
      UsableOnFields(users, now, other);
    }
    if UsableSuperAdmins(users, now) == {id} {
      assert id in UsableSuperAdmins(users, now);
    }
  }

  lemma NobodyUsable(users: Users, now: nat)
    ensures UsableSuperAdmins(users, now) == {} <==>
            forall id | id in users && users[id].role == SuperAdmin :: !CanSignIn(users[id], now)
  {
    forall other ensures other in UsableSuperAdmins(users, now) <==>
                         other in users && users[other].role == SuperAdmin && CanSignIn(users[other], now)
    {
      UsableOnFields(users, now, other);
    }
  }

  function Projected(user: User, change: Change): User {
    User(user.username,
         if change.passwordHash.Some? then change.passwordHash else user.passwordHash,
         if change.role.Some? then change.role.value else user.role,
         if change.loginAttempts.Some? then change.loginAttempts.value else user.loginAttempts,
         if change.lockedUntil.Some? then change.lockedUntil.value else user.lockedUntil)
  }

  function Revoked(sessions: Sessions, user: nat, now: nat): Sessions {
    map id | id in sessions ::
      if sessions[id].user == user && sessions[id].revokedAt.None? then sessions[id].(revokedAt := Some(now))
      else sessions[id]
  }

  predicate HasActiveSession(sessions: Sessions, user: nat) {
    exists id | id in sessions :: sessions[id].user == user && sessions[id].revokedAt.None?
  }

  /** Time alone never takes a usable super administrator away: locks only run out. */
  lemma UsableStayUsable(users: Users, now: nat, later: nat)
    requires now <= later
    ensures UsableSuperAdmins(users, now) <= UsableSuperAdmins(users, later)
  {
  }

  predicate NameTaken(users: Users, username: Option<string>) {
    username.Some? && exists id | id in users :: users[id].username == username
  }

  datatype Operation =
    | Create(user: User)
    | Bootstrap(user: User)
    | Recover(username: string, passwordHash: string)
    | Update(id: nat, change: Change)
    | Delete(id: nat, actor: nat)

  /** An operation, when it happens, and whether the database lets it commit. */
  datatype Event = Event(operation: Operation, now: nat, commit: bool)

  predicate Ordered(events: seq<Event>) {
    forall i, j | 0 <= i < j < |events| :: events[i].now <= events[j].now
  }

  class Repository {
    var users: Users
    var sessions: Sessions
    var audits: seq<Audit>
    var nextId: nat

    ghost predicate Valid()
      reads this
    {
      && (forall id | id in users :: id < nextId)
      && (forall s | s in sessions :: sessions[s].user in users)
      && (forall a, b | a in users && b in users && a != b && users[a].username.Some? ::
            users[a].username != users[b].username)
    }

    constructor ()
      ensures Valid() && users == map[] && sessions == map[] && audits == []
    {
      users, sessions, audits, nextId := map[], map[], [], 0;
    }

    method Insert(user: User) returns (id: Option<nat>)
      requires Valid()
      modifies this`users, this`nextId
      ensures Valid()
      ensures id.Some? <==> !NameTaken(old(users), user.username)
      ensures id.Some? ==> id.value == old(nextId) && id.value !in old(users) && users == old(users)[id.value := user]
      ensures id.None? ==> users == old(users)
    {
      if NameTaken(users, user.username) {
        return None;
      }
      id := Some(nextId);
      users := users[nextId := user];
      nextId := nextId + 1;
    }

    /** A database failure anywhere rolls the whole operation back. */
    method CreateByAdministrator(user: User, commit: bool, ghost now: nat) returns (result: Result<nat>)
      requires Valid()
      modifies this
      ensures Valid() && sessions == old(sessions)
      ensures result.Ok? <==> commit && !NameTaken(old(users), user.username)
      ensures if result.Ok? then users == old(users)[result.value := user] && result.value !in old(users)
                && audits == old(audits) + [Created(result.value)]
              else users == old(users) && audits == old(audits)
      ensures UsableSuperAdmins(old(users), now) <= UsableSuperAdmins(users, now)
    {
      if !commit {
        return Failed;
      }
      var id := Insert(user);
      if id.None? {
        return Failed;
      }
      audits := audits + [Created(id.value)];
      return Ok(id.value);
    }

    /** Only an empty installation gets its first administrator. */
    method CreateBootstrapAdmin(user: User, commit: bool) returns (result: Result<Option<nat>>)
      requires Valid()
      modifies this
      ensures Valid() && sessions == old(sessions)
      ensures result.Ok? <==> commit
      ensures if result.Ok? && result.value.Some? then
                old(users) == map[] && users == map[result.value.value := user]
                && audits == old(audits) + [Bootstrapped(result.value.value)]
              else users == old(users) && audits == old(audits)
      ensures result.Ok? && result.value.None? ==> old(users) != map[]
    {
      if !commit {
        return Failed;
      }
      if users != map[] {
        return Ok(None);
      }
      var id := Insert(user);
      audits := audits + [Bootstrapped(id.value)];
      return Ok(id);
    }

    /** Break-glass recovery acts only where no usable super administrator is left. */
    method RecoverSuperAdmin(username: string, passwordHash: string, now: nat, commit: bool)
      returns (result: Result<Option<nat>>)
      requires Valid()
      modifies this
      ensures Valid()
      ensures result.Ok? <==> commit
      ensures result.Ok? ==> (result.value.Some? <==> UsableSuperAdmins(old(users), now) == {})
      ensures result.Ok? ==>
                (result.value.Some? <==>
                   forall id | id in old(users) && old(users)[id].role == SuperAdmin :: !CanSignIn(old(users)[id], now))
      ensures result.Ok? && result.value.Some? ==>
                users == old(users)[result.value.value :=
                                    User(Some(username), Some(passwordHash), SuperAdmin, 0, None)]
      ensures !(result.Ok? && result.value.Some?) ==>
                users == old(users) && sessions == old(sessions) && audits == old(audits)
      ensures result.Ok? && result.value.Some? ==>
                var id := result.value.value;
                && id in users && !HasActiveSession(sessions, id)
                && users[id].username == Some(username) && audits == old(audits) + [Recovered(id)]
                && (id in UsableSuperAdmins(users, now) <==> !Blank(username) && passwordHash != "")
                && forall other | other in old(users) && other != id :: other in users && users[other] == old(users)[other]
    {
      if !commit {
        return Failed;
      }
      NobodyUsable(users, now);
      if UsableSuperAdmins(users, now) != {} {
        return Ok(None);
      }
      var id: nat;
      if existing :| existing in users && users[existing].username == Some(username) {
        id := existing;
        ReplaceUser(id, User(Some(username), Some(passwordHash), SuperAdmin, 0, None), now);
      } else {
        var inserted := Insert(User(Some(username), Some(passwordHash), SuperAdmin, 0, None));
        id := inserted.value;
      }
      audits := audits + [Recovered(id)];
      return Ok(Some(id));
    }

    /** Refused exactly where it would disable the only usable super administrator. */
    method UpdateByAdministrator(id: nat, change: Change, now: nat, commit: bool) returns (result: Result<User>)
      requires Valid()
      modifies this
      ensures Valid() && (result.Failed? <==> !commit)
      ensures commit ==>
                match result
                case Refused(UserNotFound) => id !in old(users)
                case Refused(LastUsableSuperAdmin) =>
                  && UsableSuperAdmins(old(users), now) == {id}
                  && !IsUsableSuperAdmin(Projected(old(users)[id], change), now)
                case Refused(SelfDelete) => false
                case Ok(user) => id in old(users) && user == Projected(old(users)[id], change)
                case Failed => false
      // On the fields: refused where it takes the last one who can sign in away, and for no other reason.
      ensures commit && id in old(users) ==>
                var user, after := old(users)[id], Projected(old(users)[id], change);
                result == Refused(LastUsableSuperAdmin) <==>
                  && user.role == SuperAdmin && CanSignIn(user, now) && OthersAreOut(old(users), id, now)
                  && (after.role != SuperAdmin || !CanSignIn(after, now))
      ensures result.Ok? ==>
                var user := old(users)[id];
                && result.value.username == user.username
                && result.value.passwordHash == (if change.passwordHash.Some? then change.passwordHash else user.passwordHash)
                && result.value.role == (if change.role.Some? then change.role.value else user.role)
                && result.value.lockedUntil
                   == (if change.lockedUntil.Some? then change.lockedUntil.value else user.lockedUntil)
                && result.value.loginAttempts
                   == (if change.loginAttempts.Some? then change.loginAttempts.value else user.loginAttempts)
      ensures result.Ok? ==> users == old(users)[id := result.value]
      ensures result.Ok? && result.value != old(users)[id] ==>
                && sessions == Revoked(old(sessions), id, now) && !HasActiveSession(sessions, id)
                && sessions.Keys == old(sessions).Keys
                && forall s | s in sessions && old(sessions)[s].user != id :: sessions[s] == old(sessions)[s]
      ensures !result.Ok? || result.value == old(users)[id] ==> sessions == old(sessions)
      ensures !result.Ok? ==> users == old(users)
      ensures UsableSuperAdmins(old(users), now) != {} ==> UsableSuperAdmins(users, now) != {}
    {
      if !commit {
        return Failed;
      }
      if id !in users {
        audits := audits + [MutationRejected(id, UserNotFound)];
        return Refused(UserNotFound);
      }
      var current := users[id];
      var projected := Projected(current, change);
      if projected == current {
        assert users == users[id := current];
        return Ok(current);
      }
      ChangeIsGuarded(users, id, projected, now);
      if IsUsableSuperAdmin(current, now) && !IsUsableSuperAdmin(projected, now)
         && |UsableSuperAdmins(users, now) - {id}| == 0
      {
        audits := audits + [MutationRejected(id, LastUsableSuperAdmin)];
        return Refused(LastUsableSuperAdmin);
      }
      ReplaceUser(id, projected, now);
      audits := audits + [Updated(id)];
      return Ok(projected);
    }

    /** Writes an account and revokes its sessions. */
    method ReplaceUser(id: nat, user: User, now: nat)
      requires Valid() && id in users && user.username == users[id].username
      modifies this`users, this`sessions
      ensures Valid() && users == old(users)[id := user]
      ensures sessions == Revoked(old(sessions), id, now) && !HasActiveSession(sessions, id)
    {
      users := users[id := user];
      sessions := Revoked(sessions, id, now);
    }

    method DeleteByAdministrator(id: nat, actor: nat, now: nat, commit: bool) returns (result: Result<()>)
      requires Valid()
      modifies this
      ensures Valid() && (result.Failed? <==> !commit)
      ensures commit ==>
                match result
                case Refused(UserNotFound) => id !in old(users)
                case Refused(SelfDelete) => id in old(users) && id == actor
                case Refused(LastUsableSuperAdmin) => id != actor && UsableSuperAdmins(old(users), now) == {id}
                case Ok(_) => id in old(users) && id != actor
                case Failed => false
      // On the fields: refused for the last one who can sign in, and for no other reason.
      ensures commit && id in old(users) && id != actor ==>
                (result == Refused(LastUsableSuperAdmin) <==>
                   && old(users)[id].role == SuperAdmin && CanSignIn(old(users)[id], now)
                   && OthersAreOut(old(users), id, now))
      ensures result.Ok? ==>
                && users == old(users) - {id}
                && (forall s | s in sessions :: sessions[s].user != id)
                && (forall s | s in old(sessions) && old(sessions)[s].user != id ::
                      s in sessions && sessions[s] == old(sessions)[s])
      ensures !result.Ok? ==> users == old(users) && sessions == old(sessions)
      ensures UsableSuperAdmins(old(users), now) != {} ==> UsableSuperAdmins(users, now) != {}
    {
      if !commit {
        return Failed;
      }
      if id !in users {
        audits := audits + [MutationRejected(id, UserNotFound)];
        return Refused(UserNotFound);
      }
      if id == actor {
        audits := audits + [MutationRejected(id, SelfDelete)];
        return Refused(SelfDelete);
      }
      ghost var usable := UsableSuperAdmins(users, now);
      LoneUsable(users, now, id);
      assert UsableSuperAdmins(users - {id}, now) == usable - {id};
      if IsUsableSuperAdmin(users[id], now) && |UsableSuperAdmins(users, now) - {id}| == 0 {
        assert usable == {id};
        audits := audits + [MutationRejected(id, LastUsableSuperAdmin)];
        return Refused(LastUsableSuperAdmin);
      }
      if usable - {id} == {} {
        assert id !in usable;
        assert usable == {};
      }
      audits := audits + [Deleted(id)];
      users := users - {id};
      sessions := map s | s in sessions && sessions[s].user != id :: sessions[s];
      return Ok(());
    }

    method Perform(event: Event)
      requires Valid()
      modifies this
      ensures Valid()
      ensures UsableSuperAdmins(old(users), event.now) != {} ==> UsableSuperAdmins(users, event.now) != {}
    {
      match event.operation
      case Create(user) =>
        var _ := CreateByAdministrator(user, event.commit, event.now);
      case Bootstrap(user) =>
        var _ := CreateBootstrapAdmin(user, event.commit);
      case Recover(username, passwordHash) =>
        var _ := RecoverSuperAdmin(username, passwordHash, event.now, event.commit);
      case Update(id, change) =>
        var _ := UpdateByAdministrator(id, change, event.now, event.commit);
      case Delete(id, actor) =>
        var _ := DeleteByAdministrator(id, actor, event.now, event.commit);
    }

    /** However administrators create, change, delete, bootstrap and recover, a usable super administrator remains. */
    method Administer(events: seq<Event>)
      requires Valid() && Ordered(events)
      modifies this
      ensures Valid()
      ensures events != [] && UsableSuperAdmins(old(users), events[0].now) != {} ==>
                UsableSuperAdmins(users, events[|events| - 1].now) != {}
    {
      for k := 0 to |events|
        invariant Valid()
        invariant k > 0 && UsableSuperAdmins(old(users), events[0].now) != {} ==>
                    UsableSuperAdmins(users, events[k - 1].now) != {}
        invariant k == 0 ==> users == old(users)
      {
        if k > 0 {
          UsableStayUsable(users, events[k - 1].now, events[k].now);
        }
        Perform(events[k]);
      }
    }
  }

  /** The guard of a change, on the fields, and what stays usable where it lets the change pass. */
  lemma ChangeIsGuarded(users: Users, id: nat, user: User, now: nat)
    requires id in users
    ensures var refused := IsUsableSuperAdmin(users[id], now) && !IsUsableSuperAdmin(user, now)
                           && |UsableSuperAdmins(users, now) - {id}| == 0;
            && (refused <==>
                  && users[id].role == SuperAdmin && CanSignIn(users[id], now) && OthersAreOut(users, id, now)
                  && (user.role != SuperAdmin || !CanSignIn(user, now)))
            && (refused ==> UsableSuperAdmins(users, now) == {id})
            && (!refused && UsableSuperAdmins(users, now) != {} ==> UsableSuperAdmins(users[id := user], now) != {})
  {
    OthersKeep(users, id, user, now);
    LoneUsable(users, now, id);
    UsableOnFields(users[id := user], now, id);
  }

  lemma OthersKeep(users: Users, id: nat, user: User, now: nat)
    requires id in users
    ensures UsableSuperAdmins(users[id := user], now)
         == UsableSuperAdmins(users, now) - {id} + (if IsUsableSuperAdmin(user, now) then {id} else {})
    ensures id in UsableSuperAdmins(users, now) && |UsableSuperAdmins(users, now) - {id}| == 0 ==>
              UsableSuperAdmins(users, now) == {id}
  {
    var usable := UsableSuperAdmins(users, now);
    if id in usable && |usable - {id}| == 0 {
      assert usable == (usable - {id}) + {id};
    }
  }

  /** A super administrator with a password and a name of one letter. */
  function Named(letter: char, lockedUntil: Option<nat>): User {
    User(Some([letter]), Some("hash"), SuperAdmin, 0, lockedUntil)
  }

  lemma NamedCanSignIn(letter: char, lockedUntil: Option<nat>, now: nat)
    requires letter != ' '
    ensures CanSignIn(Named(letter, lockedUntil), now) <==> lockedUntil.None? || lockedUntil.value <= now
  {
    assert [letter][0] == letter;
  }

  /** Two super administrators, the first of them locked for another moment. */
  method LockedAndFree(now: nat) returns (repository: Repository, locked: nat, free: nat)
    ensures fresh(repository) && repository.Valid() && locked != free
    ensures repository.users == map[locked := Named('a', Some(now + 1)), free := Named('b', None)]
  {
    repository := new Repository();
    var first := repository.CreateBootstrapAdmin(Named('a', Some(now + 1)), true);
    locked := first.value.value;
    assert locked in repository.users;
    assert !NameTaken(repository.users, Named('b', None).username);
    var second := repository.CreateByAdministrator(Named('b', None), true, now);
    free := second.value;
  }

  /** The free one cannot be demoted or deleted while the other is locked, and can be deleted when that lock is over. */
  method LockedIsNoReplacement(now: nat) returns (demoted: Result<User>, deleted: Result<()>, deletedLater: Result<()>)
    ensures demoted == Refused(LastUsableSuperAdmin) && deleted == Refused(LastUsableSuperAdmin)
    ensures deletedLater.Ok?
  {
    var repository, locked, free := LockedAndFree(now);
    NamedCanSignIn('a', Some(now + 1), now);
    NamedCanSignIn('a', Some(now + 1), now + 1);
    NamedCanSignIn('b', None, now);
    demoted := repository.UpdateByAdministrator(free, Change(None, Some(Viewer), None, None), now, true);
    deleted := repository.DeleteByAdministrator(free, locked, now, true);
    assert repository.users[locked].role == SuperAdmin && CanSignIn(repository.users[locked], now + 1);
    deletedLater := repository.DeleteByAdministrator(free, locked, now + 1, true);
  }

  /** Recovery acts while the only super administrator is locked, and not when the lock is over. */
  method RecoveryWaitsForLock(now: nat, passwordHash: string) returns (late: Result<Option<nat>>, early: Result<Option<nat>>)
    ensures late == Ok(None) && early.Ok? && early.value.Some?
  {
    var repository := new Repository();
    var first := repository.CreateBootstrapAdmin(Named('a', Some(now + 1)), true);
    assert first.value.Some?;
    NamedCanSignIn('a', Some(now + 1), now);
    NamedCanSignIn('a', Some(now + 1), now + 1);
    assert first.value.value in repository.users;
    late := repository.RecoverSuperAdmin("c", passwordHash, now + 1, true);
    early := repository.RecoverSuperAdmin("c", passwordHash, now, true);
  }
}
