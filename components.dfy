/**
 * The session logic of utils/components.py: `login`, a state machine over
 * the session's `logged_in` and `username`, and `select_model`, a chain of
 * early returns that decides where the provider's API key comes from and
 * writes it into the session's own `API_KEY_REGISTRY` dict.
 *
 * Everything Streamlit supplies is a parameter: the credentials table, the
 * secrets, the process environment, whether Streamlit is running, the typed
 * key, the form inputs and the buttons. The sidebar messages become an
 * `Outcome`.
 */
module Components {
  import opened Wrappers
  import opened Kwargs
  import opened Models
  import opened Registry

  /** What Streamlit and the process provide to one run of `select_model`. */
  datatype Environment = Environment(
    credentials: map<string, string>,  // USER_CREDENTIALS: user name to password
    secrets: map<string, string>,      // st.secrets["api_keys"]
    streamlitRunning: bool,            // is_streamlit_running()
    osEnv: map<string, string>,        // os.environ
    enteredKey: string)                // the password field of the key prompt

  /** The message `select_model` leaves in the sidebar. */
  datatype Outcome =
    | OpensourceInfo       // the open-source model needs no key
    | AssignedFromSecrets  // the logged-in user's key came from the secrets
    | UserKeyNotFound      // the logged-in user is not in the credentials
    | DeveloperMode        // the key came from the environment
    | RegisteredKeyUsed    // a key was already in the session registry
    | KeyRegistered        // the typed key was stored
    | KeyRequested         // no key anywhere, and none typed
    | InvalidModel         // not a listed model name

  /** `dict.get(key)` being truthy: present and not the empty string. */
  predicate HasValue(m: map<string, string>, key: string)
  {
    key in m && m[key] != ""
  }

  /** A logged-in user that `select_model` finds in the credentials. */
  predicate KnownUser(loggedIn: bool, username: Option<string>, env: Environment)
  {
    loggedIn && username.Some? && username.value in env.credentials
  }

  /** The key name `select_model` reads and writes for a listed model. */
  function EnvKeyName(model: string): string
    requires model in AllModels()
  {
    ListedModelsResolve(model);
    KeyName(GetCompanyName(model).value)
  }

  /** The decision of `select_model`: its outcome and the session registry it leaves. */
  function Resolve(loggedIn: bool, username: Option<string>, registry: map<string, string>, model: string,
                   env: Environment): (r: (Outcome, map<string, string>))
    ensures r.0 !in {AssignedFromSecrets, DeveloperMode, KeyRegistered} ==> r.1 == registry
    ensures r.0 in {AssignedFromSecrets, DeveloperMode, KeyRegistered} ==>
              && model in AllModels()
              && HasValue(r.1, EnvKeyName(model))
              && r.1 == registry[EnvKeyName(model) := r.1[EnvKeyName(model)]]
    ensures r.0 == InvalidModel <==> model !in AllModels()
  {
    if model in CommercialModels[0].1 then (OpensourceInfo, registry)
    else if model !in AllModels() then (InvalidModel, registry)
    else
      var key := EnvKeyName(model);
      if KnownUser(loggedIn, username, env) && HasValue(env.secrets, key) then
        (AssignedFromSecrets, registry[key := env.secrets[key]])
      else if loggedIn && !KnownUser(loggedIn, username, env) then (UserKeyNotFound, registry)
      else if env.streamlitRunning && HasValue(env.osEnv, key) then (DeveloperMode, registry[key := env.osEnv[key]])
      else if HasValue(registry, key) then (RegisteredKeyUsed, registry)
      else if env.enteredKey != "" then (KeyRegistered, registry[key := env.enteredKey])
      else (KeyRequested, registry)
  }

  /** The login state machine on `(logged_in, username)`: the next state and what `login` returns. */
  function LoginStep(loggedIn: bool, username: Option<string>, credentials: map<string, string>,
                     logoutPressed: bool, submitted: bool, name: string, password: string): (r: (bool, Option<string>, bool))
    ensures loggedIn ==> r.2
    ensures !loggedIn ==> r.2 == r.0
    ensures r.0 && !loggedIn ==> submitted && name in credentials && credentials[name] == password && r.1 == Some(name)
    ensures !r.0 && loggedIn ==> r.1 == None
  {
    if loggedIn then
      if logoutPressed then (false, None, true) else (loggedIn, username, true)
    else if submitted then
      if name in credentials && credentials[name] == password then (true, Some(name), true)
      else (false, None, false)
    else (loggedIn, username, false)
  }

  /** The session state `login` and `select_model` work on. */
  class Session {
    var loggedIn: bool
    var username: Option<string>
    /** `st.session_state["API_KEY_REGISTRY"]`. */
    var registry: map<string, string>

    /** A fresh session: not logged in, no user, an empty registry. */
    constructor()
      ensures !loggedIn && username == None && registry == map[]
    {
      loggedIn := false;
      username := None;
      registry := map[];
    }

    /**
     * `login()`: when logged in, report success and log out if the button was
     * pressed; otherwise check a submitted form against the credentials.
     */
    method Login(credentials: map<string, string>, logoutPressed: bool, submitted: bool, name: string, password: string)
      returns (r: bool)
      modifies this
      ensures (loggedIn, username, r) == LoginStep(old(loggedIn), old(username), credentials, logoutPressed, submitted, name, password)
      ensures registry == old(registry)
    {
      if loggedIn {
        if logoutPressed {
          loggedIn := false;
          username := None;
        }
        return true;
      }
      if submitted {
        if name in credentials && credentials[name] == password {
          loggedIn := true;
          username := Some(name);
          return true;
        } else {
          username := None;
        }
      }
      return false;
    }

    /** `select_model(select_model)`: one early return per tier; only the provider's key entry may be written. */
    method SelectModel(model: string, env: Environment) returns (outcome: Outcome)
      modifies this
      ensures (outcome, registry) == Resolve(old(loggedIn), old(username), old(registry), model, env)
      ensures loggedIn == old(loggedIn) && username == old(username)
    {
      if model in CommercialModels[0].1 {
        return OpensourceInfo;
      }
      if model in AllModels() {
        ListedModelsResolve(model);
        var company := GetCompanyName(model).value;
        var key := KeyName(company);
        if loggedIn {
          if username.Some? && username.value in env.credentials {
            if key in env.secrets && env.secrets[key] != "" {
              registry := registry[key := env.secrets[key]];
              return AssignedFromSecrets;
            }
          } else {
            return UserKeyNotFound;
          }
        }
        if env.streamlitRunning {
          if key in env.osEnv && env.osEnv[key] != "" {
            registry := registry[key := env.osEnv[key]];
            return DeveloperMode;
          }
        }
        if key in registry && registry[key] != "" {
          return RegisteredKeyUsed;
        }
        if env.enteredKey != "" {
          registry := registry[key := env.enteredKey];
          return KeyRegistered;
        }
        return KeyRequested;
      }
      return InvalidModel;
    }
  }

  /** The decorated call `select_model(select_model=m, api_key=k)`: the wrapper registers, then the body runs. */
  method DecoratedSelectModel(keys: ApiKeyRegistry, session: Session, model: string, apiKey: PyValue, env: Environment)
    returns (outcome: Outcome)
    modifies keys, session
    ensures keys.entries == Registered(old(keys.entries), map["select_model" := PyStr(model), "api_key" := apiKey])
    ensures (outcome, session.registry) == Resolve(old(session.loggedIn), old(session.username), old(session.registry), model, env)
    ensures session.loggedIn == old(session.loggedIn) && session.username == old(session.username)
  {
    keys.Register(map["select_model" := PyStr(model), "api_key" := apiKey]);
    outcome := session.SelectModel(model, env);
  }

  // ---------------------------------------------------------------- properties of select_model

  /** The open-source model returns at once and leaves the registry alone. */
  lemma OpensourceLeavesRegistry(loggedIn: bool, username: Option<string>, registry: map<string, string>, env: Environment)
    ensures Resolve(loggedIn, username, registry, OpensourceModel, env) == (OpensourceInfo, registry)
  {
  }

  /** A name outside the flattened table is reported invalid and nothing is written. */
  lemma UnlistedIsInvalid(loggedIn: bool, username: Option<string>, registry: map<string, string>, model: string,
                          env: Environment)
    requires model !in AllModels()
    ensures Resolve(loggedIn, username, registry, model, env) == (InvalidModel, registry)
  {
    assert model != OpensourceModel;
  }

  /** Every entry except the provider's `<COMPANY>_API_KEY` is kept; for an unlisted model, every entry is. */
  lemma OnlyKeyNameWritten(loggedIn: bool, username: Option<string>, registry: map<string, string>, model: string,
                           env: Environment, other: string)
    requires model in AllModels() ==> other != EnvKeyName(model)
    ensures var after := Resolve(loggedIn, username, registry, model, env).1;
            (other in after <==> other in registry) && (other in registry ==> after[other] == registry[other])
  {
  }

  /** A known logged-in user with a secret gets it, whatever the environment, the registry or the prompt hold. */
  lemma SecretTierWins(username: string, registry: map<string, string>, model: string, env: Environment)
    requires model in AllModels() && model != OpensourceModel
    requires username in env.credentials && HasValue(env.secrets, EnvKeyName(model))
    ensures Resolve(true, Some(username), registry, model, env)
            == (AssignedFromSecrets, registry[EnvKeyName(model) := env.secrets[EnvKeyName(model)]])
  {
  }

  /** A logged-in user missing from the credentials stops the chain, with nothing written. */
  lemma UnknownUserStops(username: Option<string>, registry: map<string, string>, model: string, env: Environment)
    requires model in AllModels() && model != OpensourceModel
    requires !(username.Some? && username.value in env.credentials)
    ensures Resolve(true, username, registry, model, env) == (UserKeyNotFound, registry)
  {
  }

  /** A known user without a secret is treated exactly like a session that is not logged in. */
  lemma KnownUserWithoutSecretFallsThrough(username: string, registry: map<string, string>, model: string,
                                           env: Environment)
    requires model in AllModels()
    requires username in env.credentials && !HasValue(env.secrets, EnvKeyName(model))
    ensures Resolve(true, Some(username), registry, model, env) == Resolve(false, None, registry, model, env)
  {
  }

  /** The environment comes before the registry: under Streamlit, a non-empty variable overwrites any stored key. */
  lemma EnvOverridesRegistry(registry: map<string, string>, model: string, env: Environment)
    requires model in AllModels() && model != OpensourceModel
    requires env.streamlitRunning && HasValue(env.osEnv, EnvKeyName(model))
    ensures Resolve(false, None, registry, model, env)
            == (DeveloperMode, registry[EnvKeyName(model) := env.osEnv[EnvKeyName(model)]])
  {
  }

  /** With no secret or environment key in play, a stored key is kept as it is. */
  lemma StoredKeyKept(registry: map<string, string>, model: string, env: Environment)
    requires model in AllModels() && model != OpensourceModel
    requires !(env.streamlitRunning && HasValue(env.osEnv, EnvKeyName(model)))
    requires HasValue(registry, EnvKeyName(model))
    ensures Resolve(false, None, registry, model, env) == (RegisteredKeyUsed, registry)
  {
  }

  /** Otherwise the typed key is stored when it is non-empty, and nothing is written when it is empty. */
  lemma PromptedKey(registry: map<string, string>, model: string, env: Environment)
    requires model in AllModels() && model != OpensourceModel
    requires !(env.streamlitRunning && HasValue(env.osEnv, EnvKeyName(model)))
    requires !HasValue(registry, EnvKeyName(model))
    ensures env.enteredKey != "" ==>
              Resolve(false, None, registry, model, env) == (KeyRegistered, registry[EnvKeyName(model) := env.enteredKey])
    ensures env.enteredKey == "" ==> Resolve(false, None, registry, model, env) == (KeyRequested, registry)
  {
  }

  /** Every outcome that reports a usable key leaves a non-empty key under the provider's key name. */
  lemma UsableKeyStored(loggedIn: bool, username: Option<string>, registry: map<string, string>, model: string,
                        env: Environment)
    requires model in AllModels()
    ensures var (outcome, after) := Resolve(loggedIn, username, registry, model, env);
            outcome in {AssignedFromSecrets, DeveloperMode, RegisteredKeyUsed, KeyRegistered} ==>
              HasValue(after, EnvKeyName(model))
  {
  }

  /** Only non-empty keys are ever written, so a registry of non-empty keys stays one. */
  lemma KeysStayNonEmpty(loggedIn: bool, username: Option<string>, registry: map<string, string>, model: string,
                         env: Environment)
    requires forall k :: k in registry ==> registry[k] != ""
    ensures var after := Resolve(loggedIn, username, registry, model, env).1;
            forall k :: k in after ==> after[k] != ""
  {
  }

  /** Running `select_model` twice in the same environment leaves the same registry as running it once. */
  lemma SelectModelIdempotent(loggedIn: bool, username: Option<string>, registry: map<string, string>, model: string,
                              env: Environment)
    ensures var once := Resolve(loggedIn, username, registry, model, env).1;
            Resolve(loggedIn, username, once, model, env).1 == once
  {
  }

  // ---------------------------------------------------------------- properties of login

  /** The session invariant: a logged-in session names a user of the credentials. */
  predicate LoginValid(loggedIn: bool, username: Option<string>, credentials: map<string, string>)
  {
    loggedIn ==> username.Some? && username.value in credentials
  }

  /** `login` keeps the invariant, and succeeds on a form exactly when name and password match. */
  lemma LoginKeepsValid(loggedIn: bool, username: Option<string>, credentials: map<string, string>,
                        logoutPressed: bool, submitted: bool, name: string, password: string)
    requires LoginValid(loggedIn, username, credentials)
    ensures var (l, u, r) := LoginStep(loggedIn, username, credentials, logoutPressed, submitted, name, password);
            && LoginValid(l, u, credentials)
            && (loggedIn ==> r)
            && (!loggedIn ==> (r <==> submitted && name in credentials && credentials[name] == password))
            && (!loggedIn && submitted && !r ==> !l && u == None)
            && (r && !loggedIn ==> l && u == Some(name))
  {
  }

  /** Logging out resets both fields; staying logged in changes neither. */
  lemma LogoutResets(username: Option<string>, credentials: map<string, string>, logoutPressed: bool,
                     submitted: bool, name: string, password: string)
    ensures var (l, u, r) := LoginStep(true, username, credentials, logoutPressed, submitted, name, password);
            r && (logoutPressed ==> !l && u == None) && (!logoutPressed ==> l && u == username)
  {
  }
}
