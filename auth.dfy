/**
 * The front end's authentication context: one state cell holding the
 * signed-in user, if any, overwritten by login, register and logout. No
 * credential is checked; the password is accepted and ignored.
 */
module Auth {
  import opened Common

  datatype User = User(email: string, name: string)

  datatype AuthState = AuthState(user: Option<User>, isAuthenticated: bool)

  /** A state is consistent when it is authenticated exactly when it has a user. */
  predicate Consistent(s: AuthState)
  {
    s.isAuthenticated <==> s.user.Some?
  }

  /** `email.split('@')[0]`: the text before the first '@', or all of it when there is none. */
  function NameOf(email: string): (name: string)
    ensures '@' !in name
    ensures |name| <= |email| && name == email[..|name|]
    ensures |name| < |email| ==> email[|name|] == '@'
  {
    if email == [] || email[0] == '@' then []
    else [email[0]] + NameOf(email[1..])
  }

  /** An address with an '@' is its name, the '@', and the rest; one without is its name. */
  lemma NameOfSplits(email: string)
    ensures '@' in email ==> exists rest :: email == NameOf(email) + "@" + rest
    ensures '@' !in email ==> NameOf(email) == email
  {
    if '@' in email {
      var k :| 0 <= k < |email| && email[k] == '@';
      NameBeforeAt(email, k);
    }
  }

  /** The name ends at or before any '@', and an '@' follows it. */
  lemma NameBeforeAt(email: string, k: nat)
    requires k < |email| && email[k] == '@'
    ensures |NameOf(email)| <= k
    ensures email == NameOf(email) + "@" + email[|NameOf(email)| + 1..]
  {
    var name := NameOf(email);
    assert forall j :: 0 <= j < |name| ==> email[j] == name[j] && name[j] != '@';
    assert |name| <= k;
    assert email == name + [email[|name|]] + email[|name| + 1..];
  }

  /** The state the provider starts with. */
  const InitialState := AuthState(None, false)

  /** The state `login(email, password)` sets. */
  function LoginState(email: string, password: string): AuthState
  {
    AuthState(Some(User(email, NameOf(email))), true)
  }

  /** The state `register(name, email, password)` sets. */
  function RegisterState(name: string, email: string, password: string): AuthState
  {
    AuthState(Some(User(email, name)), true)
  }

  /** The state `logout()` sets. */
  const LoggedOutState := AuthState(None, false)

  /**
   * Login and register sign the user in with the given email, under the
   * name before the '@' or the given name; logout and the initial state
   * have no user; every one of these states is consistent.
   */
  lemma AuthStates(email: string, name: string, password: string)
    ensures LoginState(email, password).isAuthenticated
    ensures LoginState(email, password).user.Some?
    ensures LoginState(email, password).user.value.email == email
    ensures '@' !in email ==> LoginState(email, password).user.value.name == email
    ensures '@' in email ==> email == LoginState(email, password).user.value.name + "@" + email[|NameOf(email)| + 1..]
    ensures RegisterState(name, email, password) == AuthState(Some(User(email, name)), true)
    ensures !InitialState.isAuthenticated && InitialState.user.None?
    ensures !LoggedOutState.isAuthenticated && LoggedOutState.user.None?
    ensures Consistent(InitialState) && Consistent(LoggedOutState)
    ensures Consistent(LoginState(email, password)) && Consistent(RegisterState(name, email, password))
  {
    NameOfSplits(email);
  }

  /** The password never changes the resulting state. */
  lemma PasswordIgnored(email: string, name: string, p1: string, p2: string)
    ensures LoginState(email, p1) == LoginState(email, p2)
    ensures RegisterState(name, email, p1) == RegisterState(name, email, p2)
  {
  }

  /** `AuthProvider`: the `authState` cell and the three functions it passes down. */
  class AuthProvider {
    var authState: AuthState

    constructor()
      ensures authState == InitialState && Consistent(authState)
    {
      authState := AuthState(None, false);
    }

    method Login(email: string, password: string)
      modifies this
      ensures authState == LoginState(email, password) && Consistent(authState)
    {
      var user := User(email, NameOf(email));
      authState := AuthState(Some(user), true);
    }

    method Register(name: string, email: string, password: string)
      modifies this
      ensures authState == RegisterState(name, email, password) && Consistent(authState)
    {
      var user := User(email, name);
      authState := AuthState(Some(user), true);
    }

    method Logout()
      modifies this
      ensures authState == LoggedOutState && Consistent(authState)
    {
      authState := AuthState(None, false);
    }
  }

  /** `useAuth()`: the context of the enclosing provider, or an error outside any provider. */
  function UseAuth(context: Option<AuthState>): (r: Outcome<AuthState>)
    ensures r.Raised? <==> context.None?
    ensures r.Raised? ==> r.error == Error("useAuth must be used within an AuthProvider")
    ensures r.Returned? ==> Some(r.value) == context
  {
    if context.None? then Raised(Error("useAuth must be used within an AuthProvider"))
    else Returned(context.value)
  }
}
