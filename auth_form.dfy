// The sign-in page: the register form's client-side checks and how the
// login and register responses become toasts.

module AuthForm {
  import opened Basics
  import opened JsText
  import ToastBus

  const MinUsername := 3
  const MaxUsername := 150
  const MinPassword := 4
  const MaxPassword := 128

  const Mismatch := Notice("两次密码输入不一致", Danger)
  const BadUsername := Notice("用户名长度应在3-150个字符之间", Warning)
  const BadPassword := Notice("密码长度应在4-128个字符之间", Warning)

  /** Either the toast of the first failed check, or the go-ahead to post
      `{username, password}` to `/register`. */
  datatype RegisterStep = Rejected(notice: Notice) | Submit(username: string, password: string)

  /** `handleRegister` up to its `fetch`: three early returns in order. */
  function CheckRegister(username: string, password: string, confirm: string): RegisterStep {
    if password != confirm then Rejected(Mismatch)
    else if |username| < MinUsername || |username| > MaxUsername then Rejected(BadUsername)
    else if |password| < MinPassword || |password| > MaxPassword then Rejected(BadPassword)
    else Submit(username, password)
  }

  predicate UsernameLengthOk(username: string) {
    MinUsername <= |username| <= MaxUsername
  }

  predicate PasswordLengthOk(password: string) {
    MinPassword <= |password| <= MaxPassword
  }

  /** The checks run in their written order: a mismatch wins whatever the
      lengths, then the username, then the password; the request goes out
      iff all three pass, carrying the typed username and password. */
  lemma RegisterChecks(username: string, password: string, confirm: string)
    ensures password != confirm ==> CheckRegister(username, password, confirm) == Rejected(Mismatch)
    ensures password == confirm && !UsernameLengthOk(username) ==>
              CheckRegister(username, password, confirm) == Rejected(BadUsername)
    ensures password == confirm && UsernameLengthOk(username) && !PasswordLengthOk(password) ==>
              CheckRegister(username, password, confirm) == Rejected(BadPassword)
    ensures CheckRegister(username, password, confirm).Submit? <==>
              password == confirm && UsernameLengthOk(username) && PasswordLengthOk(password)
    ensures CheckRegister(username, password, confirm).Submit? ==>
              CheckRegister(username, password, confirm) == Submit(username, password)
  {
  }

  /** A two-character password typed twice, with a valid username, is
      refused with the password warning. */
  lemma ShortPasswordExample(username: string)
    requires UsernameLengthOk(username)
    ensures CheckRegister(username, "ab", "ab") == Rejected(BadPassword)
    ensures CheckRegister(username, "ab", "ab").notice.variant == Warning
  {
  }

  const LoginOk := "登录成功"
  const LoginFailed := "登录失败"
  const NoBackend := Notice("无法连接到后端", Danger)

  /** What `handleLogin` does with the response: the notice it passes to
      `pushToast`, and whether
      it schedules the move to the dashboard. */
  function AfterLogin(reply: Fetch<AuthReply>): (r: (Notice, bool))
    ensures r.1 <==> reply.Got? && reply.data.ok
    ensures r.0.variant == (if r.1 then Success else Danger)
    ensures r.0.message != ""
    ensures reply.Got? && reply.data.ok ==> r.0.message == (if reply.data.message != "" then reply.data.message else LoginOk)
    ensures reply.Got? && !reply.data.ok ==> r.0.message == (if reply.data.error != "" then reply.data.error else LoginFailed)
    ensures reply.Threw? ==> r.0 == NoBackend
  {
    match reply
    case Threw => (NoBackend, false)
    case Got(d) =>
      if d.ok then (Notice(Or(d.message, LoginOk), Success), true)
      else (Notice(Or(d.error, LoginFailed), Danger), false)
  }

  const Registered := Notice("🎉 注册成功！2秒后自动跳转到登录页面...", Success)
  const RegisterFailed := "注册失败，请重试"
  const NoServer := Notice("无法连接到服务器，请检查网络", Danger)

  /** What `handleRegister` does with the response: the notice it passes
      to `pushToast`, and whether
      it schedules the switch to the login form (which also clears the
      three fields). The server's own success message is not shown. */
  function AfterRegister(reply: Fetch<AuthReply>): (r: (Notice, bool))
    ensures r.1 <==> reply.Got? && reply.data.ok
    ensures r.1 ==> r.0 == Registered
    ensures reply.Got? && !reply.data.ok ==>
              r.0 == Notice(if reply.data.error != "" then reply.data.error else RegisterFailed, Danger)
    ensures reply.Threw? ==> r.0 == NoServer
  {
    match reply
    case Threw => (NoServer, false)
    case Got(d) =>
      if d.ok then (Registered, true)
      else (Notice(Or(d.error, RegisterFailed), Danger), false)
  }

  /** The sign-in page publishes its toasts on the bus, but the bus's only
      subscriber is the dashboard, which is not mounted on the sign-in
      route: every notice this page passes to `pushToast(message, variant)`
      is published to an empty handler set and changes nothing. */
  lemma SignInToastsReachNobody(s: ToastBus.BusState, reply: Fetch<AuthReply>,
                                username: string, password: string, confirm: string,
                                throws: (ToastBus.HandlerId, ToastBus.ToastEvent) -> bool)
    requires s.handlers == []
    ensures var n := AfterLogin(reply).0;
            ToastBus.Step(s, ToastBus.Pub(n.message, Some(n.variant), None), throws) == s
    ensures var n := AfterRegister(reply).0;
            ToastBus.Step(s, ToastBus.Pub(n.message, Some(n.variant), None), throws) == s
    ensures CheckRegister(username, password, confirm).Rejected? ==>
              var n := CheckRegister(username, password, confirm).notice;
              ToastBus.Step(s, ToastBus.Pub(n.message, Some(n.variant), None), throws) == s
  {
    var l := AfterLogin(reply).0;
    ToastBus.PublishToNobody(s, l.message, Some(l.variant), None, throws);
    var r := AfterRegister(reply).0;
    ToastBus.PublishToNobody(s, r.message, Some(r.variant), None, throws);
    var c := CheckRegister(username, password, confirm);
    if c.Rejected? {
      ToastBus.PublishToNobody(s, c.notice.message, Some(c.notice.variant), None, throws);
    }
  }
}
