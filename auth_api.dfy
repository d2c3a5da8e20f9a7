// The backend's account endpoints: `/register` adds a user after a length
// check and a uniqueness check, `/login` compares password hashes. The users
// table is a map from username to stored hash; SHA-256 is an opaque
// deterministic function fixed when the table is made. Whether the database
// answers is an input (`dbUp`): when it does not, the endpoint's `except`
// branch answers and nothing is stored.

module AuthApi {
  import opened Basics
  import AuthForm

  /** `3 <= len(username) <= 150` and `4 <= len(password) <= 128` */
  predicate LengthsAccepted(username: string, password: string) {
    3 <= |username| <= 150 && 4 <= |password| <= 128
  }

  const BadLengths := "用户名或密码长度不符合要求"
  const Taken := "用户名已存在"
  const Registered := "注册成功"
  const NoDatabase := "数据库连接失败，请检查网络连接"
  const BadCredentials := "用户名或密码不正确"
  const LoggedIn := "登录成功"

  function Failure(error: string): AuthReply {
    AuthReply(false, "", error)
  }

  class UserTable {
    var users: map<string, string>
    const hash: string -> string

    constructor(hash: string -> string)
      ensures users == map[] && this.hash == hash
    {
      users := map[];
      this.hash := hash;
    }

    /** `POST /register`. The length check needs no database, so it
        answers even when the database is down. */
    method Register(username: string, password: string, dbUp: bool) returns (r: AuthReply)
      modifies this
      ensures !LengthsAccepted(username, password) ==> r == Failure(BadLengths)
      ensures LengthsAccepted(username, password) && !dbUp ==> r == Failure(NoDatabase)
      ensures LengthsAccepted(username, password) && dbUp && username in old(users) ==> r == Failure(Taken)
      ensures r.ok <==> LengthsAccepted(username, password) && dbUp && username !in old(users)
      ensures r.ok ==> r == AuthReply(true, Registered, "") && users == old(users)[username := hash(password)]
      ensures !r.ok ==> users == old(users)
    {
      if !(3 <= |username| <= 150) || !(4 <= |password| <= 128) {
        return Failure(BadLengths);
      }
      if !dbUp {
        return Failure(NoDatabase);
      }
      if username in users {
        return Failure(Taken);
      }
      var pwHash := hash(password);
      users := users[username := pwHash];
      r := AuthReply(true, Registered, "");
    }
  }

  /** `POST /login` against a users table. */
  function Login(users: map<string, string>, hash: string -> string,
                 username: string, password: string, dbUp: bool): (r: AuthReply)
    ensures r.ok ==> r == AuthReply(true, LoggedIn, "")
    ensures !r.ok ==> r.message == "" && r.error in {BadCredentials, NoDatabase}
  {
    if !dbUp then Failure(NoDatabase)
    else if username !in users then Failure(BadCredentials)
    else if hash(password) != users[username] then Failure(BadCredentials)
    else AuthReply(true, LoggedIn, "")
  }

  /** Login succeeds iff the user exists and the password hashes to the
      stored value; an unknown user and a wrong password get the same
      answer. */
  lemma LoginSucceedsIff(users: map<string, string>, hash: string -> string,
                         username: string, password: string)
    ensures Login(users, hash, username, password, true).ok <==>
              username in users && users[username] == hash(password)
    ensures username !in users ==>
              Login(users, hash, username, password, true) == Failure(BadCredentials)
    ensures username in users && users[username] != hash(password) ==>
              Login(users, hash, username, password, true) == Failure(BadCredentials)
  {
  }

  /** After a successful registration the same credentials log in, and
      every other account logs in exactly as before. */
  lemma RegisterThenLogin(users: map<string, string>, hash: string -> string,
                          username: string, password: string, other: string, otherPassword: string)
    requires other != username
    ensures Login(users[username := hash(password)], hash, username, password, true).ok
    ensures Login(users[username := hash(password)], hash, other, otherPassword, true)
         == Login(users, hash, other, otherPassword, true)
  {
  }

  /** The client's checks pass for `confirm == password` exactly when the
      backend's length check does. */
  lemma ClientLengthChecksMatchServer(username: string, password: string)
    ensures AuthForm.CheckRegister(username, password, password).Submit? <==>
              LengthsAccepted(username, password)
  {
    AuthForm.RegisterChecks(username, password, password);
  }

  /** The notice the sign-in page publishes carries the backend's own
      words: its success message on a good login and its error otherwise,
      never the fallbacks. */
  lemma LoginToast(users: map<string, string>, hash: string -> string,
                   username: string, password: string, dbUp: bool)
    ensures var (notice, moves) := AuthForm.AfterLogin(Got(Login(users, hash, username, password, dbUp)));
            && (moves <==> dbUp && username in users && users[username] == hash(password))
            && (moves ==> notice == Notice(LoggedIn, Success))
            && (!moves ==> notice == Notice(if dbUp then BadCredentials else NoDatabase, Danger))
  {
  }

  /** The register form and `/register` back to back: the form's checks,
      then the endpoint, then the notice passed to `pushToast`. Because the
      form checks the same lengths first, the backend's length error is
      never that notice. */
  method SubmitRegistration(t: UserTable, username: string, password: string, confirm: string, dbUp: bool)
    returns (notice: Notice, switches: bool)
    modifies t
    ensures switches <==>
              password == confirm && LengthsAccepted(username, password) && dbUp && username !in old(t.users)
    ensures switches ==> notice == AuthForm.Registered && t.users == old(t.users)[username := t.hash(password)]
    ensures !switches ==> t.users == old(t.users) && notice.variant != Success
    ensures notice.message != BadLengths
  {
    var step := AuthForm.CheckRegister(username, password, confirm);
    AuthForm.RegisterChecks(username, password, confirm);
    match step {
      case Rejected(n) =>
        return n, false;
      case Submit(u, p) =>
        var reply := t.Register(u, p, dbUp);
        notice, switches := AuthForm.AfterRegister(Got(reply)).0, AuthForm.AfterRegister(Got(reply)).1;
    }
  }
}
