/** The three repositories as finite maps, the invariant the database schema maintains over them,
    and the repository queries the services use. */
module Store {
  import opened Wrappers
  import opened Entities
  import opened Tokens

  /** The persistent state: users by id, and both token kinds by token string. `nextUserId` is
      the identity column's next value. */
  datatype State = State(
    users: map<UserId, User>,
    nextUserId: UserId,
    verificationTokens: map<string, Token>,
    resetTokens: map<string, Token>)

  /** The empty database. */
  function Initial(): State {
    State(map[], 0, map[], map[])
  }

  /** Every user is stored under its own id, every id was handed out already, and no two users
      share an email. */
  ghost predicate UsersWf(s: State) {
    && (forall id :: id in s.users ==> s.users[id].id == id && id < s.nextUserId)
    && (forall id, id' :: id in s.users && id' in s.users && id != id' ==>
          s.users[id].email != s.users[id'].email)
  }

  /** Every token is stored under its own string and points at an existing user
      (the join column is not nullable and is a foreign key). */
  ghost predicate TokensWf(tokens: map<string, Token>, users: map<UserId, User>) {
    forall k :: k in tokens ==>
      tokens[k].token == k && tokens[k].user.Some? && tokens[k].user.value in users
  }

  ghost predicate Wf(s: State) {
    && UsersWf(s)
    && TokensWf(s.verificationTokens, s.users)
    && TokensWf(s.resetTokens, s.users)
  }

  lemma InitialWf()
    ensures Wf(Initial())
  {
  }

  /** Storing a user under the next identity value, with an email no stored user has, keeps the
      state well formed. */
  lemma AddUserWf(s: State, u: User)
    requires Wf(s)
    requires u.id == s.nextUserId
    requires forall id :: id in s.users ==> s.users[id].email != u.email
    ensures Wf(s.(users := s.users[u.id := u], nextUserId := s.nextUserId + 1))
  {
    var s' := s.(users := s.users[u.id := u], nextUserId := s.nextUserId + 1);
    assert UsersWf(s');
    assert TokensWf(s'.verificationTokens, s'.users);
    assert TokensWf(s'.resetTokens, s'.users);
  }

  /** Scans the ids `from .. bound - 1` for a user with the given email. */
  function FindByEmailFrom(users: map<UserId, User>, email: string, from: nat, bound: nat)
    : (r: Option<UserId>)
    ensures r.Some? ==> from <= r.value < bound && r.value in users && users[r.value].email == email
    ensures r.None? ==> forall id :: from <= id < bound && id in users ==> users[id].email != email
    decreases bound - from
  {
    if from >= bound then None
    else if from in users && users[from].email == email then Some(from)
    else FindByEmailFrom(users, email, from + 1, bound)
  }

  /** `UserRepository.findByEmail`: the user with that email, or nothing. */
  function FindByEmail(s: State, email: string): (r: Option<User>)
    requires Wf(s)
    ensures r.Some? ==> r.value.id in s.users && s.users[r.value.id] == r.value && r.value.email == email
    ensures r.Some? ==> forall id :: id in s.users && s.users[id].email == email ==> id == r.value.id
    ensures r.None? <==> forall id :: id in s.users ==> s.users[id].email != email
  {
    match FindByEmailFrom(s.users, email, 0, s.nextUserId)
    case None => None
    case Some(id) => Some(s.users[id])
  }
}
