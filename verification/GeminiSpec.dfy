/** The Gemini CLI specification: a dotenv file and a settings file, stashed together. */
module GeminiSpec {
  import opened Text
  import opened KeyMaps
  import opened AgentSpecs

  type Env = map<string, string>

  const GEMINI := "gemini-cli"
  const ENV_KEYS: seq<string> := ["GOOGLE_GEMINI_BASE_URL", "GEMINI_API_KEY", "GEMINI_MODEL", "GOOGLE_API_KEY"]
  const SELECTED := "security.auth.selectedType"
  const KEY_TYPE := "GEMINI_API_KEY"
  const STASHED_TYPE := "settings.security.auth.selectedType"

  /** Under which name an environment key is stashed. */
  function EnvName(key: string): string {
    "env." + key
  }

  function EnvNames(): seq<string> {
    [EnvName(ENV_KEYS[0]), EnvName(ENV_KEYS[1]), EnvName(ENV_KEYS[2]), EnvName(ENV_KEYS[3])]
  }

  function PresentEnv(file: Option<Env>): Env {
    if file.Some? then file.value else map[]
  }

  /** What a connect sees under a stash name. */
  function Seen(env: Env, settings: Keys, name: string): Option<string> {
    if name == STASHED_TYPE then if SELECTED in settings then Some(Shown(settings[SELECTED])) else None
    else if name in EnvNames() then Lookup(env, name[4..])
    else None
  }

  function SeenAll(env: Env, settings: Keys): Namespace {
    map name | name in EnvNames() + [STASHED_TYPE] && Seen(env, settings, name).Some? :: Seen(env, settings, name).value
  }

  function EnvWrites(g: Gateway): seq<(string, string)> {
    [(ENV_KEYS[0], g.url), (ENV_KEYS[1], g.key), (ENV_KEYS[2], g.model)]
  }

  /** A selected type other than ours is replaced; without one the settings stay alone. */
  function SelectOurs(settings: Option<Keys>): Option<Keys> {
    if settings.Some? && SELECTED in settings.value && Shown(settings.value[SELECTED]) != KEY_TYPE
    then Some(settings.value[SELECTED := Text(KEY_TYPE)])
    else settings
  }

  function GeminiConnect(env: Option<Env>, settings: Option<Keys>, agents: Agents, g: Gateway)
    : (Env, Option<Keys>, Agents)
  {
    (DelKeys(SetKeys(PresentEnv(env), EnvWrites(g)), [ENV_KEYS[3]]),
     SelectOurs(settings),
     RecordOld(agents, GEMINI, SeenAll(PresentEnv(env), Present(settings))))
  }

  /** Environment keys as stashed, the rest as they are. */
  function EnvBack(env: Env, stashed: Namespace): Env {
    map k | k in env.Keys + (set e | e in ENV_KEYS) && (k in ENV_KEYS ==> Filling(stashed, EnvName(k)).Some?)
      :: if k in ENV_KEYS then Filling(stashed, EnvName(k)).value else env[k]
  }

  /** A stash entry that is not empty. */
  function Filling(stashed: Namespace, name: string): Option<string> {
    if name in stashed && stashed[name] != "" then Some(stashed[name]) else None
  }

  function SettingsBack(settings: Keys, stashed: Namespace): Keys {
    match Filling(stashed, STASHED_TYPE)
    case Some(v) => settings[SELECTED := Text(v)]
    case None => settings - {SELECTED}
  }

  /** Each file that is there gets its keys back; the namespace goes in any case. */
  function GeminiDisconnect(env: Option<Env>, settings: Option<Keys>, agents: Agents)
    : (Option<Env>, Option<Keys>, Agents)
  {
    var stashed := OldValues(agents, GEMINI);
    (if env.Some? then Some(EnvBack(env.value, stashed)) else None,
     if settings.Some? then Some(SettingsBack(settings.value, stashed)) else None,
     agents - {GEMINI})
  }

  /**
   * What a connect leaves: in the environment file the gateway's address, key and model, no second
   * API key, and everything else as it was; in the settings the type for API keys where another type
   * was selected, and everything else as it was, a missing file or selection included.
   */
  lemma GeminiConnectLeaves(env: Option<Env>, settings: Option<Keys>, agents: Agents, g: Gateway, k: string)
    ensures var r := GeminiConnect(env, settings, agents, g);
      && Lookup(r.0, k)
         == (if k == "GOOGLE_GEMINI_BASE_URL" then Some(g.url)
             else if k == "GEMINI_API_KEY" then Some(g.key)
             else if k == "GEMINI_MODEL" then Some(g.model)
             else if k == "GOOGLE_API_KEY" then None
             else if env.Some? then Lookup(env.value, k) else None)
      && r.1.Some? == settings.Some?
      && (settings.Some? ==>
            Lookup(r.1.value, k)
            == if k == "security.auth.selectedType" && k in settings.value then
                 if settings.value[k] == Other("GEMINI_API_KEY") then Some(settings.value[k]) else Some(Text("GEMINI_API_KEY"))
               else Lookup(settings.value, k))
  {
    hide SetKeys;
    var keys, kvs := PresentEnv(env), EnvWrites(g);
    EnvKeysDiffer();
    if k == ENV_KEYS[0] {
      assert kvs[0] == (k, g.url);
      SetKeysOwn(keys, kvs, k, g.url);
    } else if k == ENV_KEYS[1] {
      assert kvs[1] == (k, g.key);
      SetKeysOwn(keys, kvs, k, g.key);
    } else if k == ENV_KEYS[2] {
      assert kvs[2] == (k, g.model);
      SetKeysOwn(keys, kvs, k, g.model);
    } else {
      SetKeysOther(keys, kvs, k);
    }
  }

  lemma EnvKeysDiffer()
    ensures ENV_KEYS[0] !in [ENV_KEYS[1], ENV_KEYS[2], ENV_KEYS[3]] && ENV_KEYS[1] !in [ENV_KEYS[2], ENV_KEYS[3]]
    ensures ENV_KEYS[2] != ENV_KEYS[3]
  {
    assert ENV_KEYS[0][1] == 'O' && ENV_KEYS[1][1] == 'E' && ENV_KEYS[2][1] == 'E' && ENV_KEYS[3][1] == 'O';
    assert ENV_KEYS[0][7] == 'G' && ENV_KEYS[3][7] == 'A' && ENV_KEYS[1][7] == 'A' && ENV_KEYS[2][7] == 'M';
  }

  // ---- any number of connects ----------------------------------------------------------------------

  /** One call of connect; `saved` if the process lives to save the stash behind the configuration. */
  datatype Round = Round(env: Option<Env>, settings: Option<Keys>, gateway: Gateway, saved: bool)

  function GeminiRounds(agents: Agents, rounds: seq<Round>): Agents
    decreases |rounds|
  {
    if rounds == [] then agents
    else
      var done := GeminiConnect(rounds[0].env, rounds[0].settings, agents, rounds[0].gateway).2;
      GeminiRounds(if rounds[0].saved then done else agents, rounds[1..])
  }

  function GeminiSeen(rounds: seq<Round>): seq<Namespace>
    decreases |rounds|
  {
    if rounds == [] then []
    else
      (if rounds[0].saved then [SeenAll(PresentEnv(rounds[0].env), Present(rounds[0].settings))] else [])
      + GeminiSeen(rounds[1..])
  }

  lemma {:induction false} GeminiRoundsRecord(agents: Agents, rounds: seq<Round>)
    ensures GeminiRounds(agents, rounds) == RecordRounds(agents, GEMINI, GeminiSeen(rounds))
    decreases |rounds|
  {
    hide RecordOld, SeenAll, SetKeys, DelKeys;
    if rounds != [] {
      if rounds[0].saved {
        GeminiRoundsRecord(GeminiConnect(rounds[0].env, rounds[0].settings, agents, rounds[0].gateway).2, rounds[1..]);
        var first := SeenAll(PresentEnv(rounds[0].env), Present(rounds[0].settings));
        assert ([first] + GeminiSeen(rounds[1..]))[1..] == GeminiSeen(rounds[1..]);
      } else {
        GeminiRoundsRecord(agents, rounds[1..]);
        assert [] + GeminiSeen(rounds[1..]) == GeminiSeen(rounds[1..]);
      }
    }
  }

  lemma SeenUnder(env: Env, settings: Keys, k: string)
    ensures k in ENV_KEYS ==> Lookup(SeenAll(env, settings), EnvName(k)) == Lookup(env, k)
    ensures Lookup(SeenAll(env, settings), STASHED_TYPE)
         == if SELECTED in settings then Some(Shown(settings[SELECTED])) else None
  {
    if k in ENV_KEYS {
      assert EnvName(k)[4..] == k;
      assert EnvName(k) in EnvNames();
      assert EnvName(k)[0] == 'e' && STASHED_TYPE[0] == 's';
    }
  }

  lemma EnvBackKey(env: Env, stashed: Namespace, k: string)
    ensures Lookup(EnvBack(env, stashed), k)
         == if k in ENV_KEYS then Filling(stashed, EnvName(k)) else Lookup(env, k)
  {
  }

  lemma FilledEntry(ns: Namespace, k: string)
    requires Filled(ns)
    ensures Filling(ns, k) == Lookup(ns, k)
  {
  }

  /** What the stash gives back under a name after any number of connects. */
  lemma StashedUnder(agents: Agents, rounds: seq<Round>, name: string)
    requires GEMINI !in agents
    ensures Filling(OldValues(GeminiRounds(agents, rounds), GEMINI), name)
         == FirstFilled(Sightings(GeminiSeen(rounds), name))
  {
    hide RecordRounds, GeminiSeen, GeminiRounds;
    GeminiRoundsRecord(agents, rounds);
    StashHoldsFirst(agents, GEMINI, GeminiSeen(rounds), name);
    RoundsFill(agents, GEMINI, GeminiSeen(rounds));
    FilledEntry(OldValues(GeminiRounds(agents, rounds), GEMINI), name);
  }

  /**
   * Any number of connects from an empty stash, some broken off before the stash is saved, any edits
   * by the user, a disconnect: in each file that is there, owned keys end with the first value that
   * was not empty in what the saved ones saw or are gone, and the other keys are as the user left
   * them. A file that is missing stays missing.
   */
  lemma GeminiRestores(agents: Agents, rounds: seq<Round>, env: Option<Env>, settings: Option<Keys>, k: string)
    requires GEMINI !in agents
    ensures var seen := GeminiSeen(rounds);
      var r := GeminiDisconnect(env, settings, GeminiRounds(agents, rounds));
      && r.0.Some? == env.Some? && r.1.Some? == settings.Some? && GEMINI !in r.2
      && (env.Some? ==>
            Lookup(r.0.value, k) == if k in ENV_KEYS then FirstFilled(Sightings(seen, EnvName(k))) else Lookup(env.value, k))
      && (settings.Some? ==>
            Lookup(r.1.value, k) == if k == SELECTED then Ending(Sightings(seen, STASHED_TYPE)) else Lookup(settings.value, k))
  {
    hide GeminiSeen, GeminiRounds, Sightings, EnvBack, FirstFilled, Filling, OldValues;
    var stashed := OldValues(GeminiRounds(agents, rounds), GEMINI);
    StashedUnder(agents, rounds, EnvName(k));
    StashedUnder(agents, rounds, STASHED_TYPE);
    if env.Some? {
      EnvBackKey(env.value, stashed, k);
    }
  }

  /** An environment value comes back if it was not empty, or was absent and no later connect saw one. */
  predicate EnvComesBack(first: Option<string>, later: seq<Option<string>>) {
    if first.Some? then first.value != "" else FirstFilled(later) == None
  }

  /** Exactly which owned keys come back as they were before the first connect, that one having saved the stash. */
  lemma GeminiComesBack(agents: Agents, first: Round, later: seq<Round>, env: Env, settings: Keys, k: string)
    requires GEMINI !in agents && first.saved
    ensures var seen := GeminiSeen(later);
      var r := GeminiDisconnect(Some(env), Some(settings), GeminiRounds(agents, [first] + later));
      var (e, s) := (PresentEnv(first.env), Present(first.settings));
      && (k in ENV_KEYS ==>
            (Lookup(r.0.value, k) == Lookup(e, k) <==> EnvComesBack(Lookup(e, k), Sightings(seen, EnvName(k)))))
      && (Lookup(r.1.value, SELECTED) == Lookup(s, SELECTED) <==> ComesBack(Lookup(s, SELECTED), Sightings(seen, STASHED_TYPE)))
  {
    hide GeminiDisconnect, GeminiRounds, SeenAll, Ending, ComesBack, Sightings;
    var e, s := PresentEnv(first.env), Present(first.settings);
    GeminiRestores(agents, [first] + later, Some(env), Some(settings), k);
    GeminiRestores(agents, [first] + later, Some(env), Some(settings), SELECTED);
    assert ([first] + later)[1..] == later;
    assert GeminiSeen([first] + later) == [SeenAll(e, s)] + GeminiSeen(later);
    SightingsCons(SeenAll(e, s), GeminiSeen(later), EnvName(k));
    SightingsCons(SeenAll(e, s), GeminiSeen(later), STASHED_TYPE);
    SeenUnder(e, s, k);
    EndingIsFirst(Lookup(s, SELECTED), Sightings(GeminiSeen(later), STASHED_TYPE));
    if k in ENV_KEYS {
      EnvEnding(Lookup(e, k), Sightings(GeminiSeen(later), EnvName(k)));
    }
  }

  lemma EnvEnding(first: Option<string>, later: seq<Option<string>>)
    ensures FirstFilled([first] + later) == first <==> EnvComesBack(first, later)
  {
    assert ([first] + later)[1..] == later;
  }

  /** After one connect and a disconnect: values that were not empty are back, the selected type as a string. */
  lemma GeminiOneConnect(agents: Agents, first: Round, env: Env, settings: Keys, k: string)
    requires GEMINI !in agents && first.saved
    ensures var r := GeminiDisconnect(Some(env), Some(settings), GeminiRounds(agents, [first]));
      var (e, s) := (PresentEnv(first.env), Present(first.settings));
      && (k in ENV_KEYS ==> Lookup(r.0.value, k) == if Lookup(e, k) == Some("") then None else Lookup(e, k))
      && Lookup(r.1.value, SELECTED)
         == if SELECTED !in s then None
            else
              var text := if s[SELECTED].Text? then s[SELECTED].text else s[SELECTED].json;
              if text == "" then None else Some(Text(text))
  {
    hide GeminiDisconnect, GeminiRounds, SeenAll, Sightings;
    var e, s := PresentEnv(first.env), Present(first.settings);
    GeminiRestores(agents, [first], Some(env), Some(settings), k);
    GeminiRestores(agents, [first], Some(env), Some(settings), SELECTED);
    assert [first][1..] == [];
    assert GeminiSeen([first]) == [SeenAll(e, s)] + GeminiSeen([]) == [SeenAll(e, s)];
    OneSighting(SeenAll(e, s), EnvName(k));
    OneSighting(SeenAll(e, s), STASHED_TYPE);
    SeenUnder(e, s, k);
    FilledOne(Lookup(e, k));
    FilledOne(if SELECTED in s then Some(Shown(s[SELECTED])) else None);
  }

  lemma FilledOne(x: Option<string>)
    ensures FirstFilled([x]) == if x == Some("") then None else x
  {
    assert [x][1..] == [] && FirstFilled([]) == None;
  }
}
