/**
 The client-side user store (src/store/authStore.ts) with the state library
 and the browser's local storage removed: the state is a record and each
 reducer a function from state to state.
 */
module AuthStore {
  import opened Options
  import opened AuthTypes

  datatype AuthState = AuthState(users: seq<UserData>, currentUser: Option<UserData>)

  /** The store at start-up: no users, and the current user read back from
      local storage (passed in, since storage is outside the model). */
  function Create(saved: Option<UserData>): (s: AuthState)
    ensures s.currentUser == saved
    ensures forall username :: GetUser(s, username) == None
  {
    AuthState([], saved)
  }

  /** Appends a user; nobody is replaced, even under the same username. */
  function AddUser(s: AuthState, userData: UserData): (s': AuthState)
    ensures |s'.users| == |s.users| + 1
    ensures s'.users[..|s.users|] == s.users && s'.users[|s.users|] == userData
    ensures s'.currentUser == s.currentUser
  {
    s.(users := s.users + [userData])
  }

  /** Appends `pattern` to the samples of every user named `username`. */
  function AppendPattern(users: seq<UserData>, username: string, pattern: KeystrokePattern): (r: seq<UserData>)
    ensures |r| == |users|
    ensures forall i :: 0 <= i < |users| ==>
              r[i] == if users[i].username == username
                      then users[i].(keystrokePatterns := users[i].keystrokePatterns + [pattern])
                      else users[i]
  {
    if users == [] then []
    else
      var u := users[0];
      var u' := if u.username == username then u.(keystrokePatterns := u.keystrokePatterns + [pattern]) else u;
      [u'] + AppendPattern(users[1..], username, pattern)
  }

  function AddKeystrokePattern(s: AuthState, username: string, pattern: KeystrokePattern): (s': AuthState)
    ensures |s'.users| == |s.users|
    ensures forall i :: 0 <= i < |s.users| ==>
              && s'.users[i].username == s.users[i].username
              && s'.users[i].password == s.users[i].password
              && (s.users[i].username != username ==> s'.users[i] == s.users[i])
              && (s.users[i].username == username ==>
                    s'.users[i].keystrokePatterns == s.users[i].keystrokePatterns + [pattern])
    ensures s'.currentUser == s.currentUser
  {
    s.(users := AppendPattern(s.users, username, pattern))
  }

  /** Position of the first user named `username`. */
  function FirstNamed(users: seq<UserData>, username: string): (r: Option<nat>)
    ensures r.Some? ==> r.value < |users| && users[r.value].username == username
    ensures r.Some? ==> forall j :: 0 <= j < r.value ==> users[j].username != username
    ensures r.None? ==> forall j :: 0 <= j < |users| ==> users[j].username != username
  {
    if users == [] then None
    else if users[0].username == username then Some(0)
    else match FirstNamed(users[1..], username)
      case None =>
        assert forall j :: 1 <= j < |users| ==> users[j] == users[1..][j - 1];
        None
      case Some(i) =>
        assert forall j :: 1 <= j <= i + 1 ==> users[j] == users[1..][j - 1];
        Some(i + 1)
  }

  /** The first user named `username`, or nothing when there is none. */
  function GetUser(s: AuthState, username: string): (r: Option<UserData>)
    ensures r.Some? ==> exists i :: 0 <= i < |s.users| && s.users[i] == r.value
                                   && r.value.username == username
                                   && forall j :: 0 <= j < i ==> s.users[j].username != username
    ensures r.None? <==> forall j :: 0 <= j < |s.users| ==> s.users[j].username != username
  {
    match FirstNamed(s.users, username)
    case None => None
    case Some(i) => Some(s.users[i])
  }

  /** Replaces the current user; the user list is untouched. */
  function SetCurrentUser(s: AuthState, user: Option<UserData>): (s': AuthState)
    ensures s'.currentUser == user && s'.users == s.users
  {
    s.(currentUser := user)
  }

  /** Looking a name up after `AddUser`: an earlier user of that name still
      wins; otherwise the new user is found if the name is theirs. */
  lemma GetUserAfterAddUser(s: AuthState, userData: UserData, username: string)
    ensures GetUser(AddUser(s, userData), username)
         == if GetUser(s, username).Some? then GetUser(s, username)
            else if userData.username == username then Some(userData)
            else None
  {
    var users' := AddUser(s, userData).users;
    assert forall j :: 0 <= j < |s.users| ==> users'[j] == s.users[j];
    match FirstNamed(s.users, username)
    case Some(i) =>
      assert FirstNamed(users', username) == Some(i) by {
        var k := FirstNamed(users', username);
        assert k.Some?;
        assert k.value <= i;
        assert k.value >= i;
      }
    case None =>
  }

  /** Looking a name up after `AddKeystrokePattern` for that name finds the
      same user with the pattern at the end of its samples; any other name
      finds what it found before. */
  lemma GetUserAfterAddKeystrokePattern(s: AuthState, username: string, pattern: KeystrokePattern, other: string)
    ensures GetUser(AddKeystrokePattern(s, username, pattern), username)
         == match GetUser(s, username)
            case None => None
            case Some(u) => Some(u.(keystrokePatterns := u.keystrokePatterns + [pattern]))
    ensures other != username ==>
              GetUser(AddKeystrokePattern(s, username, pattern), other) == GetUser(s, other)
  {
    var s' := AddKeystrokePattern(s, username, pattern);
    SameNamedPositions(s.users, s'.users, username);
    SameNamedPositions(s.users, s'.users, other);
  }

  /** Two user lists with the same names position by position have their
      first user of any name at the same position. */
  lemma SameNamedPositions(a: seq<UserData>, b: seq<UserData>, username: string)
    requires |a| == |b|
    requires forall i :: 0 <= i < |a| ==> a[i].username == b[i].username
    ensures FirstNamed(a, username) == FirstNamed(b, username)
  {
    var x, y := FirstNamed(a, username), FirstNamed(b, username);
    if x.Some? && y.Some? {
      assert !(x.value < y.value) && !(y.value < x.value);
    }
  }
}
