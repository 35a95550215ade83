/**
 * The `create_usuarios` management command: every login user without an inventory profile gets
 * one, numbered from the next free `mat_usuario` on, in the order the users are listed.
 */
module CreateUsuarios {
  import opened Wrappers
  import opened Models

  /** Where the command stands: the profiles, the next number, and its two counters. */
  datatype Progress = Progress(usuarios: seq<Usuario>, nextMat: int, created: nat, existing: nat)

  /** One user: skipped and counted when it has a profile, otherwise given one named by its username. */
  function Visit(p: Progress, u: User): Progress {
    if UsuarioOf(p.usuarios, u.id).Some? then p.(existing := p.existing + 1)
    else Progress(p.usuarios + [Usuario(p.nextMat, u.username, Some(u.id), [])], p.nextMat + 1, p.created + 1, p.existing)
  }

  /** The command over `users`, starting from the profiles `start`. */
  function Run(start: seq<Usuario>, users: seq<User>): Progress {
    if users == [] then Progress(start, NextMat(start), 0, 0)
    else Visit(Run(start, users[..|users| - 1]), users[|users| - 1])
  }

  /**
   * `Command.handle`: `next_mat` is read once, then each user is either skipped or given the
   * current number, which then moves on by one.
   */
  method Handle(store: UserStore) returns (created: nat, existing: nat)
    modifies store
    ensures store.users == old(store.users)
    ensures Run(old(store.usuarios), store.users) == Progress(store.usuarios, NextMat(old(store.usuarios)) + created, created, existing)
  {
    var users := store.users;
    ghost var start := store.usuarios;
    created, existing := 0, 0;
    var nextMat := NextMat(store.usuarios);
    var i := 0;
    while i < |users|
      invariant 0 <= i <= |users|
      invariant store.users == users
      invariant Run(start, users[..i]) == Progress(store.usuarios, nextMat, created, existing)
      invariant nextMat == NextMat(start) + created
    {
      RunSnoc(start, users, i);
      var user := users[i];
      if UsuarioOf(store.usuarios, user.id).Some? {
        existing := existing + 1;
      } else {
        store.usuarios := store.usuarios + [Usuario(nextMat, user.username, Some(user.id), [])];
        nextMat := nextMat + 1;
        created := created + 1;
      }
      i := i + 1;
    }
    assert users[..|users|] == users;
  }

  /**
   * The counters add up to the number of users; the old profiles are kept, one profile is added
   * per created user, and the next number is the first one past them.
   */
  lemma {:induction false} RunCounts(start: seq<Usuario>, users: seq<User>)
    ensures Run(start, users).created + Run(start, users).existing == |users|
    ensures |Run(start, users).usuarios| == |start| + Run(start, users).created
    ensures Run(start, users).usuarios[..|start|] == start
    ensures Run(start, users).nextMat == NextMat(start) + Run(start, users).created
  {
    if users != [] {
      RunCounts(start, users[..|users| - 1]);
      var p := Run(start, users[..|users| - 1]);
      if UsuarioOf(p.usuarios, users[|users| - 1].id).None? {
        assert (p.usuarios + [Usuario(p.nextMat, users[|users| - 1].username, Some(users[|users| - 1].id), [])])[..|start|] == p.usuarios[..|start|];
      }
    }
  }

  /**
   * From index `from` on, the profiles are numbered consecutively from `first`, carry no
   * permissions, and each is linked to one of `users` and named by its username.
   */
  predicate NumberedFrom(us: seq<Usuario>, from: nat, first: int, users: seq<User>) {
    forall k | from <= k < |us| ::
      && us[k].matUsuario == first + (k - from)
      && us[k].permissions == []
      && exists v | v in users :: us[k].authUser == Some(v.id) && us[k].nomeUsuario == v.username
  }

  /** A visit continues the numbering: the new profile takes the next number. */
  lemma VisitNumbers(p: Progress, u: User, from: nat, first: int, done: seq<User>)
    requires from <= |p.usuarios| && p.nextMat == first + (|p.usuarios| - from)
    requires NumberedFrom(p.usuarios, from, first, done)
    ensures NumberedFrom(Visit(p, u).usuarios, from, first, done + [u])
    ensures Visit(p, u).nextMat == first + (|Visit(p, u).usuarios| - from)
  {
    var us := Visit(p, u).usuarios;
    forall k | from <= k < |us|
      ensures exists v | v in done + [u] :: us[k].authUser == Some(v.id) && us[k].nomeUsuario == v.username
    {
      if k < |p.usuarios| {
        assert us[k] == p.usuarios[k];
        assert exists v | v in done :: p.usuarios[k].authUser == Some(v.id) && p.usuarios[k].nomeUsuario == v.username;
        var v :| v in done && p.usuarios[k].authUser == Some(v.id) && p.usuarios[k].nomeUsuario == v.username;
        assert v in done + [u];
      } else {
        assert u in done + [u];
      }
    }
  }

  /**
   * The added profiles are numbered consecutively from `NextMat(start)`, above every old number;
   * each is linked to one of the users, named by that user's username, with no permissions.
   */
  lemma {:induction false} RunNumbers(start: seq<Usuario>, users: seq<User>)
    ensures NumberedFrom(Run(start, users).usuarios, |start|, NextMat(start), users)
    ensures Run(start, users).nextMat == NextMat(start) + (|Run(start, users).usuarios| - |start|)
  {
    if users != [] {
      var init := users[..|users| - 1];
      var last := users[|users| - 1];
      RunNumbers(start, init);
      RunCounts(start, init);
      assert Run(start, users) == Visit(Run(start, init), last);
      VisitNumbers(Run(start, init), last, |start|, NextMat(start), init);
      assert init + [last] == users;
    }
  }

  /** One more user is one more visit. */
  lemma RunSnoc(start: seq<Usuario>, users: seq<User>, i: nat)
    requires i < |users|
    ensures Run(start, users[..i + 1]) == Visit(Run(start, users[..i]), users[i])
  {
    assert users[..i + 1][..i] == users[..i];
  }

  /** A visit keeps every profile and leaves the visited user with one. */
  lemma VisitCovers(p: Progress, u: User, done: seq<User>)
    requires forall v | v in done :: UsuarioOf(p.usuarios, v.id).Some?
    ensures forall v | v in done + [u] :: UsuarioOf(Visit(p, u).usuarios, v.id).Some?
  {
    var us := Visit(p, u).usuarios;
    if UsuarioOf(p.usuarios, u.id).None? {
      var added := Usuario(p.nextMat, u.username, Some(u.id), []);
      assert us == p.usuarios + [added];
      assert added in us;
      forall v | v in done
        ensures UsuarioOf(us, v.id).Some?
      {
        assert UsuarioOf(p.usuarios, v.id).value in us;
      }
    }
  }

  /** Every listed user has a profile when the command ends. */
  lemma {:induction false} RunCoversUsers(start: seq<Usuario>, users: seq<User>)
    ensures forall u | u in users :: UsuarioOf(Run(start, users).usuarios, u.id).Some?
  {
    if users != [] {
      var init := users[..|users| - 1];
      var last := users[|users| - 1];
      RunCoversUsers(start, init);
      assert Run(start, users) == Visit(Run(start, init), last);
      VisitCovers(Run(start, init), last, init);
      assert init + [last] == users;
    }
  }

  /** The command keeps profile numbers distinct and never gives a login a second profile. */
  lemma {:induction false} RunKeepsProfilesValid(start: seq<Usuario>, users: seq<User>)
    requires ProfilesValid(start)
    ensures ProfilesValid(Run(start, users).usuarios)
    ensures forall u | u in Run(start, users).usuarios :: u.matUsuario < Run(start, users).nextMat
  {
    if users != [] {
      var init := users[..|users| - 1];
      var u := users[|users| - 1];
      RunKeepsProfilesValid(start, init);
      var p := Run(start, init);
      if UsuarioOf(p.usuarios, u.id).None? {
        var added := Usuario(p.nextMat, u.username, Some(u.id), []);
        var us := p.usuarios + [added];
        forall i, j | 0 <= i < j < |us|
          ensures us[i].matUsuario != us[j].matUsuario
          ensures us[i].authUser.Some? ==> us[i].authUser != us[j].authUser
        {
          if j == |p.usuarios| {
            assert us[i] in p.usuarios;
          }
        }
      }
    }
  }

  /** Exactly one profile is linked to the login `id`. */
  predicate HasOneProfile(us: seq<Usuario>, id: int) {
    exists k | 0 <= k < |us| :: us[k].authUser == Some(id)
      && forall m | 0 <= m < |us| && us[m].authUser == Some(id) :: m == k
  }

  /** In a valid profile table, a login that has a profile has exactly one. */
  lemma OneProfileOf(us: seq<Usuario>, id: int)
    requires ProfilesValid(us)
    requires UsuarioOf(us, id).Some?
    ensures HasOneProfile(us, id)
  {
    var found := UsuarioOf(us, id).value;
    var k :| 0 <= k < |us| && us[k] == found;
    forall m | 0 <= m < |us| && us[m].authUser == Some(id)
      ensures m == k
    {
    }
  }

  /** After the command, every listed user has exactly one profile. */
  lemma ExactlyOneProfile(start: seq<Usuario>, users: seq<User>, j: int)
    requires ProfilesValid(start)
    requires 0 <= j < |users|
    ensures HasOneProfile(Run(start, users).usuarios, users[j].id)
  {
    var us := Run(start, users).usuarios;
    assert UsuarioOf(us, users[j].id).Some? by {
      RunCoversUsers(start, users);
      assert users[j] in users;
    }
    assert ProfilesValid(us) by {
      RunKeepsProfilesValid(start, users);
    }
    OneProfileOf(us, users[j].id);
  }
}
