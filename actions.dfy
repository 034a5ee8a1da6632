/**
 * The member registry's server actions (`src/app/actions.ts`): creating a
 * member after validating the form, and checking a name and PIN at sign-in.
 * A form field that is missing is the empty string here; both are refused.
 */
module Actions {
  import opened Wrappers
  import opened Queries
  import opened Schema

  /** What a form action returns: `{ error }` or `{ success: true, message }`. */
  datatype FormResult = FormError(error: string) | FormSuccess(message: string)

  const InvalidData := "Invalid data. PIN must be 4 digits."
  const UserExists := "User already exists."
  const UserCreated := "User created successfully."
  const InvalidCredentials := "Invalid username or PIN"

  predicate HasName(u: User, name: string) {
    u.name == name
  }

  /** Whether some member already has this name. */
  function NameTaken(us: seq<User>, name: string): (b: bool)
    ensures b <==> exists i :: 0 <= i < |us| && us[i].name == name
  {
    Count(us, u => HasName(u, name)) > 0
  }

  /** The form is refused unless both fields are given and the PIN has 4 characters. */
  predicate ValidForm(username: string, pin: string) {
    !(username == "" || pin == "" || |pin| != 4)
  }

  /** createUserAction as a function of the tables before it. */
  function CreateUserStep(s: Store, username: string, pin: string): Step<FormResult> {
    if username == "" || pin == "" || |pin| != 4 then Step(s, FormError(InvalidData))
    else if NameTaken(s.users, username) then Step(s, FormError(UserExists))
    else Step(s.(users := s.users + [User(|s.users|, username, pin)]), FormSuccess(UserCreated))
  }

  method CreateUser(db: Database, username: string, pin: string) returns (r: FormResult)
    requires db.Valid()
    modifies db`users
    ensures db.Valid()
    ensures Step(db.Tables(), r) == CreateUserStep(old(db.Tables()), username, pin)
  {
    if username == "" || pin == "" || |pin| != 4 {
      return FormError(InvalidData);
    }
    var existing := NameTaken(db.users, username);
    if existing {
      return FormError(UserExists);
    }
    db.users := db.users + [User(|db.users|, username, pin)];
    r := FormSuccess(UserCreated);
  }

  /** No two members share a name. */
  ghost predicate UniqueNames(us: seq<User>) {
    forall i, j :: 0 <= i < j < |us| ==> us[i].name != us[j].name
  }

  /**
   * An invalid form or a taken name is refused and inserts nothing; otherwise
   * exactly one member with the given name and PIN is added, and nothing else
   * changes.
   */
  lemma CreateUserContract(s: Store, username: string, pin: string)
    ensures var st := CreateUserStep(s, username, pin);
      !ValidForm(username, pin) ==> st == Step(s, FormError(InvalidData))
    ensures var st := CreateUserStep(s, username, pin);
      ValidForm(username, pin) && (exists i :: 0 <= i < |s.users| && s.users[i].name == username) ==>
        st == Step(s, FormError(UserExists))
    ensures var st := CreateUserStep(s, username, pin);
      ValidForm(username, pin) && (forall i :: 0 <= i < |s.users| ==> s.users[i].name != username) ==>
        && st.result == FormSuccess(UserCreated)
        && |st.after.users| == |s.users| + 1 && st.after.users[..|s.users|] == s.users
        && st.after.users[|s.users|].name == username && st.after.users[|s.users|].pin == pin
        && st.after == s.(users := st.after.users)
  {
    assert ValidForm(username, pin) <==> !(username == "" || pin == "" || |pin| != 4);
  }

  /** Used alone, createUserAction keeps member names unique. */
  lemma CreateUserKeepsNamesUnique(s: Store, username: string, pin: string)
    requires UniqueNames(s.users)
    ensures UniqueNames(CreateUserStep(s, username, pin).after.users)
  {
    var us := CreateUserStep(s, username, pin).after.users;
    if us != s.users {
      assert forall i :: 0 <= i < |s.users| ==> us[i] == s.users[i];
      assert us[|s.users|].name == username;
    }
  }

  /** What loginAction decides before it starts the session. */
  datatype LoginResult = LoginError(error: string) | LoggedIn(userId: UserId)

  /** The first member with that name signs in if the PIN matches. */
  function Login(s: Store, username: string, pin: string): (r: LoginResult)
    ensures r.LoginError? ==> r.error == InvalidCredentials
    ensures r.LoggedIn? ==>
      exists i :: 0 <= i < |s.users| && s.users[i].id == r.userId && s.users[i].name == username && s.users[i].pin == pin
  {
    match FindFirst(s.users, u => HasName(u, username))
    case None => LoginError(InvalidCredentials)
    case Some(i) => if s.users[i].pin != pin then LoginError(InvalidCredentials) else LoggedIn(s.users[i].id)
  }

  /**
   * With unique names, sign-in succeeds exactly when some member has that name
   * and that PIN, and it signs in that member.
   */
  lemma LoginAcceptsExactlyTheMembers(s: Store, username: string, pin: string)
    requires UniqueNames(s.users)
    ensures Login(s, username, pin).LoggedIn? <==>
      exists i :: 0 <= i < |s.users| && s.users[i].name == username && s.users[i].pin == pin
    ensures forall i :: 0 <= i < |s.users| && s.users[i].name == username && s.users[i].pin == pin ==>
      Login(s, username, pin) == LoggedIn(s.users[i].id)
  {
    var found := FindFirst(s.users, u => HasName(u, username));
    forall i | 0 <= i < |s.users| && s.users[i].name == username && s.users[i].pin == pin
      ensures Login(s, username, pin) == LoggedIn(s.users[i].id)
    {
      assert found.Some?;
      assert found.value == i;
    }
  }
}
