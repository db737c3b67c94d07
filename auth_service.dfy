/** The authentication service: `loginUser`, `registerNewAluno`,
    `changePassword`, `testarConexao`, `getLoggedUser` and `logout`.

    Each credential operation validates its input, then (when the Apps
    Script endpoint is configured) makes one backend call. The reply of
    that call is an input here (`Exchange`), and the call the operation
    makes is an output (`Option<Call>`, `None` when no call is made). The
    pure `...Flow` functions decide the call, the result and the change to
    the session storage; the methods perform them on a `SessionStorage`. */
module AuthService {
  import opened Common
  import opened JsText
  import opened IsoDate
  import opened Json
  import opened Validation
  import opened Config
  import opened Session

  const LoginNotConfigured := "Sistema não configurado. Contate o administrador."
  const RegistrationNotConfigured := "Sistema não configurado. Verifique as variáveis de ambiente."
  const ScriptUrlMissing := "URL do Apps Script não configurada"
  const InvalidCredentials := "Credenciais inválidas"
  const RegistrationFailed := "Erro ao processar solicitação"
  const RegistrationSent := "Solicitação enviada! Aguarde a validação do laboratório."
  const PasswordChangeFailed := "Erro ao alterar senha"
  const PasswordChanged := "Senha alterada com sucesso! Faça login novamente."
  const ConnectionFailed := "Falha ao conectar com o servidor"
  const TimedOut := "Tempo esgotado. Tente novamente."

  /** The object the Apps Script hands to the callback. */
  datatype Reply = Reply(sucesso: bool, mensagem: Option<string>, nome: Option<string>, email: Option<string>)

  /** Why the script-tag transport rejected: the script failed to load, or
      no answer came within 30 seconds. */
  datatype TransportFailure = ScriptLoadError | Timeout

  /** What one backend call produced. */
  datatype Exchange = Answered(reply: Reply) | Failed(failure: TransportFailure)

  /** A backend call: the action `acao` and its parameters, in order. */
  datatype Call = Call(acao: string, params: seq<(string, string)>)

  /** What an operation does to the session storage. */
  datatype Effect = Keep | Save(user: UserData, at: nat) | Clear

  /** The acknowledgement `{sucesso, mensagem}` an operation resolves to. */
  datatype Ack = Ack(sucesso: bool, mensagem: string)

  /** One run of an operation: the backend call it made, its result, and
      its effect on the session storage. */
  datatype Step<T> = Step(call: Option<Call>, result: Result<T>, effect: Effect)

  /** The message the transport rejects with. */
  function TransportMessage(f: TransportFailure): (r: string)
    ensures r != ""
    ensures r == ConnectionFailed <==> f.ScriptLoadError?
    ensures r == TimedOut <==> f.Timeout?
  {
    match f
    case ScriptLoadError => ConnectionFailed
    case Timeout => TimedOut
  }

  /** `mensagem || fallback`: an absent or empty message gives way. */
  function MessageOr(mensagem: Option<string>, fallback: string): (r: string)
    ensures mensagem.Some? && mensagem.value != "" ==> r == mensagem.value
    ensures mensagem.None? || mensagem.value == "" ==> r == fallback
  {
    if mensagem.Some? && mensagem.value != "" then mensagem.value else fallback
  }

  /** The session storage after an effect. */
  function Apply(e: Effect, items: map<string, string>): map<string, string> {
    match e
    case Keep => items
    case Save(u, at) => WithSession(items, u, at)
    case Clear => WithoutSession(items)
  }

  /** A failure raised before any backend call, leaving the storage alone. */
  function Rejected<T>(message: string): Step<T> {
    Step(None, Failure(message), Keep)
  }

  /** The outcome of a call that did not answer `sucesso`. */
  function CallFailed<T>(call: Call, ex: Exchange, fallback: string): Step<T>
    requires ex.Failed? || !ex.reply.sucesso
  {
    match ex
    case Failed(f) => Step(Some(call), Failure(TransportMessage(f)), Keep)
    case Answered(reply) => Step(Some(call), Failure(MessageOr(reply.mensagem, fallback)), Keep)
  }

  function VerifyCall(matricula: string, senha: string): Call {
    Call("verificarSenha", [("matricula", Trim(matricula)), ("senha", senha)])
  }

  /** `loginUser(matricula, senha)` with the backend answering `ex` at
      instant `now`. */
  function LoginFlow(env: Env, matricula: string, senha: string, ex: Exchange, now: nat): (s: Step<UserData>)
    ensures matricula == "" || senha == "" ==> s == Rejected(LoginFieldsRequired)
    ensures matricula != "" && senha != "" && env.appsScriptUrl == "" ==> s == Rejected(LoginNotConfigured)
    ensures s.call.Some? <==> matricula != "" && senha != "" && env.appsScriptUrl != ""
    ensures s.call.Some? ==> s.call == Some(VerifyCall(matricula, senha))
    ensures s.call.Some? && ex.Failed? ==> s.result == Failure(TransportMessage(ex.failure))
    ensures s.call.Some? && ex.Answered? && !ex.reply.sucesso ==>
      s.result == Failure(MessageOr(ex.reply.mensagem, InvalidCredentials))
    ensures s.result.Failure? <==> s.effect == Keep
    ensures s.result.Success? <==> s.call.Some? && ex.Answered? && ex.reply.sucesso
    ensures s.result.Success? ==>
      && s.result.value == UserData(ex.reply.nome, Trim(matricula), ex.reply.email, IsoTimestamp(now))
      && s.effect == Save(s.result.value, now)
  {
    if ValidateLogin(matricula, senha).Some? then Rejected(ValidateLogin(matricula, senha).value)
    else if env.appsScriptUrl == "" then Rejected(LoginNotConfigured)
    else
      var call := VerifyCall(matricula, senha);
      if ex.Failed? || !ex.reply.sucesso then CallFailed(call, ex, InvalidCredentials)
      else
        var user := UserData(ex.reply.nome, Trim(matricula), ex.reply.email, IsoTimestamp(now));
        Step(Some(call), Success(user), Save(user, now))
  }

  /** `registerNewAluno(nome, matricula, email)` with the backend answering
      `ex`. It never touches the session storage. */
  function RegisterNewAluno(env: Env, nome: string, matricula: string, email: string, ex: Exchange): (s: Step<Ack>)
    ensures s.effect == Keep
    ensures ValidateRegistration(nome, matricula, email).Some? ==>
      s == Rejected(ValidateRegistration(nome, matricula, email).value)
    ensures ValidateRegistration(nome, matricula, email).None? && env.appsScriptUrl == "" ==>
      s == Rejected(RegistrationNotConfigured)
    ensures s.call.Some? <==> ValidateRegistration(nome, matricula, email).None? && env.appsScriptUrl != ""
    ensures s.call.Some? ==>
      s.call == Some(Call("solicitarAcesso", [("nome", Trim(nome)), ("matricula", matricula), ("email", email)]))
    ensures s.call.Some? && ex.Failed? ==> s.result == Failure(TransportMessage(ex.failure))
    ensures s.call.Some? && ex.Answered? && !ex.reply.sucesso ==>
      s.result == Failure(MessageOr(ex.reply.mensagem, RegistrationFailed))
    ensures s.result.Success? <==> s.call.Some? && ex.Answered? && ex.reply.sucesso
    ensures s.result.Success? ==> s.result.value == Ack(true, MessageOr(ex.reply.mensagem, RegistrationSent))
  {
    var invalid := ValidateRegistration(nome, matricula, email);
    if invalid.Some? then Rejected(invalid.value)
    else if env.appsScriptUrl == "" then Rejected(RegistrationNotConfigured)
    else
      var call := Call("solicitarAcesso", [("nome", Trim(nome)), ("matricula", Trim(matricula)), ("email", Trim(email))]);
      if ex.Failed? || !ex.reply.sucesso then CallFailed(call, ex, RegistrationFailed)
      else Step(Some(call), Success(Ack(true, MessageOr(ex.reply.mensagem, RegistrationSent))), Keep)
  }

  function ChangeCall(matricula: string, senhaAtual: string, novaSenha: string): Call {
    Call("mudarSenhaAluno", [("matricula", Trim(matricula)), ("senhaAtual", senhaAtual), ("novaSenha", novaSenha)])
  }

  /** `changePassword(matricula, senhaAtual, novaSenha)` with the backend
      answering `ex`. A successful change logs the student out. */
  function ChangePasswordFlow(env: Env, matricula: string, senhaAtual: string, novaSenha: string, ex: Exchange): (s: Step<Ack>)
    ensures ValidatePasswordChange(matricula, senhaAtual, novaSenha).Some? ==>
      s == Rejected(ValidatePasswordChange(matricula, senhaAtual, novaSenha).value)
    ensures ValidatePasswordChange(matricula, senhaAtual, novaSenha).None? && env.appsScriptUrl == "" ==>
      s == Rejected(ScriptUrlMissing)
    ensures s.call.Some? <==> ValidatePasswordChange(matricula, senhaAtual, novaSenha).None? && env.appsScriptUrl != ""
    ensures s.call.Some? ==> s.call == Some(ChangeCall(matricula, senhaAtual, novaSenha)) && novaSenha != senhaAtual
    ensures s.call.Some? && ex.Failed? ==> s.result == Failure(TransportMessage(ex.failure))
    ensures s.call.Some? && ex.Answered? && !ex.reply.sucesso ==>
      s.result == Failure(MessageOr(ex.reply.mensagem, PasswordChangeFailed))
    ensures s.result.Success? <==> s.call.Some? && ex.Answered? && ex.reply.sucesso
    ensures s.result.Success? ==> s.result == Success(Ack(true, PasswordChanged)) && s.effect == Clear
    ensures s.result.Failure? ==> s.effect == Keep
  {
    var invalid := ValidatePasswordChange(matricula, senhaAtual, novaSenha);
    if invalid.Some? then Rejected(invalid.value)
    else if env.appsScriptUrl == "" then Rejected(ScriptUrlMissing)
    else
      var call := ChangeCall(matricula, senhaAtual, novaSenha);
      if ex.Failed? || !ex.reply.sucesso then CallFailed(call, ex, PasswordChangeFailed)
      else Step(Some(call), Success(Ack(true, PasswordChanged)), Clear)
  }

  /** `testarConexao()` with the backend answering `ex`. It never throws: a
      missing endpoint or a transport failure becomes a reply with
      `sucesso = false` and the error's message, and a backend reply is
      passed through as it came. */
  function TestarConexao(env: Env, ex: Exchange): (r: (Option<Call>, Reply))
    ensures r.0.Some? <==> env.appsScriptUrl != ""
    ensures r.0.Some? ==> r.0 == Some(Call("testar", []))
    ensures r.1.sucesso ==> r.0.Some? && ex == Answered(r.1)
    ensures r.0.Some? && ex.Answered? ==> r.1 == ex.reply
    ensures !r.1.sucesso && (r.0.None? || ex.Failed?) ==>
      && r.1.mensagem == Some(if r.0.None? then ScriptUrlMissing else TransportMessage(ex.failure))
      && r.1.nome.None? && r.1.email.None?
  {
    if env.appsScriptUrl == "" then (None, Reply(false, Some(ScriptUrlMissing), None, None))
    else
      match ex
      case Answered(reply) => (Some(Call("testar", [])), reply)
      case Failed(f) => (Some(Call("testar", [])), Reply(false, Some(TransportMessage(f)), None, None))
  }

  /** `logout()`: removes exactly the two session keys; it cannot fail, and
      a second logout changes nothing. */
  method Logout(store: SessionStorage)
    modifies store
    ensures store.items == WithoutSession(old(store.items))
  {
    store.RemoveItem(UserKey);
    store.RemoveItem(LoginTimeKey);
  }

  /** `getLoggedUser()` at instant `now`. */
  method GetLoggedUser(store: SessionStorage, now: int) returns (user: Option<UserData>)
    modifies store
    ensures user == LoggedUser(old(store.items), now)
    ensures store.items == if PurgedOnRead(old(store.items), now) then WithoutSession(old(store.items)) else old(store.items)
  {
    var userStr := store.GetItem(UserKey);
    if userStr.None? || userStr.value == "" {
      return None;
    }
    var parsed := ParseObject(userStr.value);
    if parsed.None? {
      return None;
    }
    var loginTime := store.GetItem(LoginTimeKey);
    if loginTime.Some? && loginTime.value != "" {
      var t := ParseInt(loginTime.value);
      if t.Some? && now - t.value > SessionCapMs {
        Logout(store);
        return None;
      }
    }
    return UserOfMembers(parsed.value);
  }

  /** `loginUser(matricula, senha)` at instant `now`, the backend answering
      `ex`: returns the call made and the outcome, and records the session
      on success. */
  method LoginUser(store: SessionStorage, env: Env, matricula: string, senha: string, ex: Exchange, now: nat)
    returns (call: Option<Call>, result: Result<UserData>)
    modifies store
    ensures var s := LoginFlow(env, matricula, senha, ex, now);
      call == s.call && result == s.result && store.items == Apply(s.effect, old(store.items))
  {
    if matricula == "" || senha == "" {
      return None, Failure(LoginFieldsRequired);
    }
    if env.appsScriptUrl == "" {
      return None, Failure(LoginNotConfigured);
    }
    call := Some(VerifyCall(matricula, senha));
    match ex {
      case Failed(f) =>
        return call, Failure(TransportMessage(f));
      case Answered(reply) =>
        if !reply.sucesso {
          return call, Failure(MessageOr(reply.mensagem, InvalidCredentials));
        }
        var user := UserData(reply.nome, Trim(matricula), reply.email, IsoTimestamp(now));
        store.SetItem(UserKey, SerializeUser(user));
        store.SetItem(LoginTimeKey, NatToString(now));
        return call, Success(user);
    }
  }

  /** `changePassword(matricula, senhaAtual, novaSenha)`, the backend
      answering `ex`: returns the call made and the outcome, and logs out on
      success. */
  method ChangePassword(store: SessionStorage, env: Env, matricula: string, senhaAtual: string, novaSenha: string, ex: Exchange)
    returns (call: Option<Call>, result: Result<Ack>)
    modifies store
    ensures var s := ChangePasswordFlow(env, matricula, senhaAtual, novaSenha, ex);
      call == s.call && result == s.result && store.items == Apply(s.effect, old(store.items))
  {
    var invalid := ValidatePasswordChange(matricula, senhaAtual, novaSenha);
    if invalid.Some? {
      return None, Failure(invalid.value);
    }
    if env.appsScriptUrl == "" {
      return None, Failure(ScriptUrlMissing);
    }
    call := Some(ChangeCall(matricula, senhaAtual, novaSenha));
    match ex {
      case Failed(f) =>
        return call, Failure(TransportMessage(f));
      case Answered(reply) =>
        if !reply.sucesso {
          return call, Failure(MessageOr(reply.mensagem, PasswordChangeFailed));
        }
        Logout(store);
        return call, Success(Ack(true, PasswordChanged));
    }
  }

  /** After a successful login, `getLoggedUser` within 24 hours returns the
      record `loginUser` returned, and purges nothing. */
  lemma LoginThenLoad(env: Env, matricula: string, senha: string, ex: Exchange, now: nat,
                      items: map<string, string>, later: int)
    requires LoginFlow(env, matricula, senha, ex, now).result.Success?
    requires later - now <= SessionCapMs
    ensures var s := LoginFlow(env, matricula, senha, ex, now);
      && LoggedUser(Apply(s.effect, items), later) == Some(s.result.value)
      && !PurgedOnRead(Apply(s.effect, items), later)
  {
    var s := LoginFlow(env, matricula, senha, ex, now);
    SaveThenLoad(items, s.result.value, now, later);
  }

  /** After a successful login, `getLoggedUser` more than 24 hours later
      returns nothing and purges the session. */
  lemma LoginThenExpire(env: Env, matricula: string, senha: string, ex: Exchange, now: nat,
                        items: map<string, string>, later: int)
    requires LoginFlow(env, matricula, senha, ex, now).result.Success?
    requires later - now > SessionCapMs
    ensures var s := LoginFlow(env, matricula, senha, ex, now);
      && LoggedUser(Apply(s.effect, items), later) == None
      && PurgedOnRead(Apply(s.effect, items), later)
  {
    var s := LoginFlow(env, matricula, senha, ex, now);
    LoadAfterExpiry(items, s.result.value, now, later, later);
  }

  /** After a successful password change nobody is logged in, at any time. */
  lemma PasswordChangeEndsSession(env: Env, matricula: string, senhaAtual: string, novaSenha: string,
                                  ex: Exchange, items: map<string, string>, later: int)
    requires ChangePasswordFlow(env, matricula, senhaAtual, novaSenha, ex).result.Success?
    ensures LoggedUser(Apply(ChangePasswordFlow(env, matricula, senhaAtual, novaSenha, ex).effect, items), later) == None
  {
  }

  /** A login the backend accepts returns the record built from the
      reply, and `getLoggedUser` returns that record in the same session. */
  lemma LoginExample(env: Env, now: nat, items: map<string, string>)
    requires env.appsScriptUrl != ""
    ensures var ex := Answered(Reply(true, None, Some("Ana"), Some("ana@x.com")));
      var s := LoginFlow(env, "2021001", "correct-pw", ex, now);
      && s.result == Success(UserData(Some("Ana"), "2021001", Some("ana@x.com"), IsoTimestamp(now)))
      && LoggedUser(Apply(s.effect, items), now) == Some(s.result.value)
  {
    var ex := Answered(Reply(true, None, Some("Ana"), Some("ana@x.com")));
    TrimUnchanged("2021001");
    LoginThenLoad(env, "2021001", "correct-pw", ex, now, items, now);
  }
}
