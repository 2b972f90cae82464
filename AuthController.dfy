/** `POST /auth/register`: refuse an email that is already stored, otherwise
    store the account with its password replaced by the encoder's output.
    The password encoder is a parameter: its hashing is not modelled. */
module AuthController {
  import opened Common
  import opened Entities
  import opened Repositories

  /** The status and plain-text body register answers with. */
  datatype Response = Response(status: int, body: string)

  /** `findByEmail(email).isPresent()`: the email is among the stored ones. */
  function EmailTaken(users: map<int, User>, email: string): (b: bool)
    ensures b <==> email in (set id | id in users :: users[id].email)
  {
    exists id :: id in users && users[id].email == email
  }

  /** The ids of the accounts stored with this email. */
  function RecordsWith(users: map<int, User>, email: string): set<int> {
    set id | id in users && users[id].email == email
  }

  method Register(repo: UserRepository, user: User, encode: string -> string) returns (resp: Response)
    requires repo.Valid()
    modifies repo
    ensures repo.Valid()
    ensures EmailTaken(old(repo.users), user.email) ==>
      && resp == Response(400, "Email already registered")
      && repo.users == old(repo.users) && repo.nextId == old(repo.nextId)
    ensures !EmailTaken(old(repo.users), user.email) ==>
      && resp == Response(200, "User registered successfully")
      && old(repo.nextId) !in old(repo.users)
      && repo.users == old(repo.users)[old(repo.nextId) :=
           User(old(repo.nextId), user.email, encode(user.password), user.role)]
  {
    if EmailTaken(repo.users, user.email) {
      return Response(400, "Email already registered");
    }
    var stored := user.(password := encode(user.password));
    stored := stored.(id := repo.nextId);
    repo.users := repo.users[stored.id := stored];
    repo.nextId := repo.nextId + 1;
    resp := Response(200, "User registered successfully");
  }

  /** In a store without duplicate emails, a stored email has exactly one
      record and any other email none. */
  lemma OneRecordPerEmail(users: map<int, User>, email: string)
    requires EmailsUnique(users)
    ensures EmailTaken(users, email) ==> |RecordsWith(users, email)| == 1
    ensures !EmailTaken(users, email) ==> RecordsWith(users, email) == {}
  {
    if EmailTaken(users, email) {
      var id :| id in users && users[id].email == email;
      forall x | x in RecordsWith(users, email) ensures x == id {
        assert users[x].email == users[id].email;
      }
      assert RecordsWith(users, email) == {id};
    } else {
      assert forall x :: x in users ==> users[x].email != email;
    }
  }

  /** Storing an account under a fresh id with an email nobody has yet gives
      that email exactly the one new record, leaves every other email's
      records as they were, and keeps emails unique. */
  lemma RegistrationAddsExactlyOne(users: map<int, User>, id: int, u: User, email: string)
    requires EmailsUnique(users) && id !in users && !EmailTaken(users, u.email)
    ensures EmailsUnique(users[id := u])
    ensures RecordsWith(users[id := u], u.email) == {id}
    ensures email != u.email ==> RecordsWith(users[id := u], email) == RecordsWith(users, email)
  {
    OneRecordPerEmail(users, u.email);
    assert RecordsWith(users[id := u], u.email) == RecordsWith(users, u.email) + {id};
  }

  /** Two registrations of one email in a row: the second is refused and the
      store holds exactly one account with that email, whatever the first
      call found. */
  method RegisterTwice(repo: UserRepository, user: User, encode: string -> string)
    returns (first: Response, second: Response)
    requires repo.Valid()
    modifies repo
    ensures repo.Valid()
    ensures second == Response(400, "Email already registered")
    ensures |RecordsWith(repo.users, user.email)| == 1
  {
    first := Register(repo, user, encode);
    assert EmailTaken(repo.users, user.email) by {
      if !EmailTaken(old(repo.users), user.email) {
        assert repo.users[old(repo.nextId)].email == user.email;
      }
    }
    second := Register(repo, user, encode);
    OneRecordPerEmail(repo.users, user.email);
  }
}
