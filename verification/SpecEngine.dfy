/** The specifications as they run: key lists built in loops, the stash updated in place. */
module SpecEngine {
  import opened Text
  import opened KeyMaps
  import opened AgentSpecs
  import opened GeminiSpec

  /** `sets` and `deletes` sort the keys of `ours` by whether the stash has something for them. */
  ghost predicate Sorted<T(!new)>(ours: seq<string>, stashed: Namespace, names: string -> string, make: string -> T,
                            sets: seq<(string, T)>, deletes: seq<string>) {
    && (forall k :: Assigns(sets, k) <==> k in ours && Filling(stashed, names(k)).Some?)
    && (forall i | 0 <= i < |sets| ::
          Filling(stashed, names(sets[i].0)).Some? && sets[i].1 == make(Filling(stashed, names(sets[i].0)).value))
    && (forall k :: k in deletes <==> k in ours && Filling(stashed, names(k)).None?)
  }

  method SortKeys<T(!new)>(ours: seq<string>, stashed: Namespace, names: string -> string, make: string -> T)
    returns (sets: seq<(string, T)>, deletes: seq<string>)
    ensures Sorted(ours, stashed, names, make, sets, deletes)
  {
    sets, deletes := [], [];
    var n := 0;
    while n < |ours|
      invariant n <= |ours|
      invariant Sorted(ours[..n], stashed, names, make, sets, deletes)
    {
      var key := ours[n];
      var name := names(key);
      assert ours[..n + 1] == ours[..n] + [key];
      if name in stashed && stashed[name] != "" {
        AssignsMore(sets, key, make(stashed[name]));
        sets := sets + [(key, make(stashed[name]))];
      } else {
        deletes := deletes + [key];
      }
      n := n + 1;
    }
    assert ours[..n] == ours;
  }

  lemma AssignsMore<T(!new)>(a: seq<(string, T)>, key: string, v: T)
    ensures forall k :: Assigns(a + [(key, v)], k) <==> Assigns(a, k) || k == key
  {
    var b := a + [(key, v)];
    forall k ensures Assigns(b, k) <==> Assigns(a, k) || k == key {
      assert b[|a|].0 == key;
      if Assigns(a, k) {
        var i :| 0 <= i < |a| && a[i].0 == k;
        assert b[i].0 == k;
      }
    }
  }

  /** Setting and deleting sorted keys, key by key. */
  lemma EditedKey<T(!new)>(keys: map<string, T>, ours: seq<string>, stashed: Namespace, names: string -> string,
                     make: string -> T, sets: seq<(string, T)>, deletes: seq<string>, k: string)
    requires Sorted(ours, stashed, names, make, sets, deletes)
    ensures Lookup(DelKeys(SetKeys(keys, sets), deletes), k)
         == if k !in ours then Lookup(keys, k)
            else match Filling(stashed, names(k))
                 case Some(v) => Some(make(v))
                 case None => None
  {
    if Assigns(sets, k) {
      SetKeysOwn(keys, sets, k, make(Filling(stashed, names(k)).value));
    } else {
      SetKeysOther(keys, sets, k);
    }
  }

  lemma SameMap<T(!new)>(a: map<string, T>, b: map<string, T>)
    requires forall k :: Lookup(a, k) == Lookup(b, k)
    ensures a == b
  {
    forall k ensures k in a <==> k in b {
      assert Lookup(a, k) == Lookup(b, k);
    }
    forall k | k in a ensures a[k] == b[k] {
      assert Lookup(a, k) == Lookup(b, k);
    }
  }

  // ---- Claude Code ----------------------------------------------------------------------------------

  method ConnectClaude(file: Option<Keys>, stash: Stash, g: Gateway) returns (r: Result<Keys, SpecError>)
    modifies stash
    ensures match ClaudeConnect(file, old(stash.agents), g)
      case Ok(done) => r == Ok(done.0) && stash.agents == done.1
      case Err(e) => r == Err(e) && stash.agents == old(stash.agents)
  {
    var current := Present(file);
    if HELPER in current {
      return Err(Refused);
    }
    var seen: Namespace, n := map[], 0;
    while n < |CLAUDE_KEYS|
      invariant n <= |CLAUDE_KEYS| && stash.agents == old(stash.agents)
      invariant seen == ShownKeys(current, CLAUDE_KEYS[..n])
    {
      ghost var was := seen;
      ShownMore(current, CLAUDE_KEYS, n);
      if CLAUDE_KEYS[n] in current {
        seen := seen[CLAUDE_KEYS[n] := Shown(current[CLAUDE_KEYS[n]])];
      }
      n := n + 1;
    }
    assert CLAUDE_KEYS[..n] == CLAUDE_KEYS;
    stash.RecordOldValues(CLAUDE, seen);
    var kvs := [(BASE_URL, Text(g.url)), (AUTH_TOKEN, Text(g.key)), (MODEL, Text(g.model))];
    if g.sonnet.Some? {
      kvs := kvs + [(SONNET, Text(g.sonnet.value))];
    }
    if g.haiku.Some? {
      kvs := kvs + [(HAIKU, Text(g.haiku.value))];
    }
    if g.opus.Some? {
      kvs := kvs + [(OPUS, Text(g.opus.value))];
    }
    assert kvs == ClaudeWrites(g);
    return Ok(DelKeys(SetKeys(current, kvs), [API_KEY]));
  }

  lemma ShownMore(keys: Keys, ours: seq<string>, n: nat)
    requires n < |ours|
    ensures ShownKeys(keys, ours[..n + 1])
         == if ours[n] in keys then ShownKeys(keys, ours[..n])[ours[n] := Shown(keys[ours[n]])] else ShownKeys(keys, ours[..n])
  {
    assert ours[..n + 1] == ours[..n] + [ours[n]];
  }

  method DisconnectClaude(file: Option<Keys>, stash: Stash) returns (r: Option<Keys>)
    modifies stash
    ensures (r, stash.agents) == ClaudeDisconnect(file, old(stash.agents))
  {
    if file.None? {
      var _ := stash.TakeNamespace(CLAUDE);
      return None;
    }
    var stashed := OldValues(stash.agents, CLAUDE);
    var names, make := (k: string) => k, (v: string) => Text(v);
    var sets, deletes := SortKeys(CLAUDE_KEYS, stashed, names, make);
    var keys := DelKeys(SetKeys(file.value, sets), deletes);
    forall k ensures Lookup(keys, k) == Lookup(PutBack(file.value, CLAUDE_KEYS, stashed), k) {
      EditedKey(file.value, CLAUDE_KEYS, stashed, names, make, sets, deletes, k);
      PutBackKey(file.value, CLAUDE_KEYS, stashed, k);
    }
    SameMap(keys, PutBack(file.value, CLAUDE_KEYS, stashed));
    var _ := stash.TakeNamespace(CLAUDE);
    return Some(keys);
  }

  // ---- Gemini CLI -------------------------------------------------------------------------------------

  /** What is there under the first `n` environment names. */
  function SeenFirst(env: Env, settings: Keys, n: nat): Namespace
    requires n <= |ENV_KEYS|
  {
    map name | name in EnvNames()[..n] && Seen(env, settings, name).Some? :: Seen(env, settings, name).value
  }

  lemma SeenMore(env: Env, settings: Keys, n: nat)
    requires n < |ENV_KEYS|
    ensures SeenFirst(env, settings, n + 1)
         == if ENV_KEYS[n] in env then SeenFirst(env, settings, n)[EnvName(ENV_KEYS[n]) := env[ENV_KEYS[n]]]
            else SeenFirst(env, settings, n)
  {
    var name := EnvName(ENV_KEYS[n]);
    assert EnvNames()[..n + 1] == EnvNames()[..n] + [name];
    assert name[4..] == ENV_KEYS[n] && name[0] == 'e' && STASHED_TYPE[0] == 's';
    assert Seen(env, settings, name) == Lookup(env, ENV_KEYS[n]);
  }

  method LookAtGemini(env: Env, settings: Keys) returns (seen: Namespace)
    ensures seen == SeenAll(env, settings)
  {
    hide SeenFirst;
    var n := 0;
    seen := map[];
    assert seen == SeenFirst(env, settings, 0) by { SeenNone(env, settings); }
    while n < |ENV_KEYS|
      invariant n <= |ENV_KEYS| && seen == SeenFirst(env, settings, n)
    {
      SeenMore(env, settings, n);
      if ENV_KEYS[n] in env {
        seen := seen[EnvName(ENV_KEYS[n]) := env[ENV_KEYS[n]]];
      }
      n := n + 1;
    }
    SeenEvery(env, settings);
    if SELECTED in settings {
      seen := seen[STASHED_TYPE := Shown(settings[SELECTED])];
    }
  }

  lemma SeenNone(env: Env, settings: Keys)
    ensures SeenFirst(env, settings, 0) == map[]
  {
  }

  lemma SeenEvery(env: Env, settings: Keys)
    ensures SeenAll(env, settings)
         == if SELECTED in settings then SeenFirst(env, settings, |ENV_KEYS|)[STASHED_TYPE := Shown(settings[SELECTED])]
            else SeenFirst(env, settings, |ENV_KEYS|)
  {
    assert EnvNames()[..|ENV_KEYS|] == EnvNames();
    assert Seen(env, settings, STASHED_TYPE) == if SELECTED in settings then Some(Shown(settings[SELECTED])) else None;
  }

  method ConnectGemini(env: Option<Env>, settings: Option<Keys>, stash: Stash, g: Gateway)
    returns (nextEnv: Env, nextSettings: Option<Keys>)
    modifies stash
    ensures (nextEnv, nextSettings, stash.agents) == GeminiConnect(env, settings, old(stash.agents), g)
  {
    var current, chosen := PresentEnv(env), Present(settings);
    var seen := LookAtGemini(current, chosen);
    stash.RecordOldValues(GEMINI, seen);
    nextEnv := DelKeys(SetKeys(current, EnvWrites(g)), [ENV_KEYS[3]]);
    nextSettings := settings;
    if SELECTED in chosen && Shown(chosen[SELECTED]) != KEY_TYPE {
      nextSettings := Some(chosen[SELECTED := Text(KEY_TYPE)]);
    }
  }

  method DisconnectGemini(env: Option<Env>, settings: Option<Keys>, stash: Stash)
    returns (nextEnv: Option<Env>, nextSettings: Option<Keys>)
    modifies stash
    ensures (nextEnv, nextSettings, stash.agents) == GeminiDisconnect(env, settings, old(stash.agents))
  {
    var stashed := OldValues(stash.agents, GEMINI);
    nextEnv, nextSettings := None, None;
    if env.Some? {
      var same := (v: string) => v;
      var sets, deletes := SortKeys(ENV_KEYS, stashed, EnvName, same);
      var keys := DelKeys(SetKeys(env.value, sets), deletes);
      forall k ensures Lookup(keys, k) == Lookup(EnvBack(env.value, stashed), k) {
        EditedKey(env.value, ENV_KEYS, stashed, EnvName, same, sets, deletes, k);
        EnvBackKey(env.value, stashed, k);
      }
      SameMap(keys, EnvBack(env.value, stashed));
      nextEnv := Some(keys);
    }
    if settings.Some? {
      if STASHED_TYPE in stashed && stashed[STASHED_TYPE] != "" {
        nextSettings := Some(settings.value[SELECTED := Text(stashed[STASHED_TYPE])]);
      } else {
        nextSettings := Some(settings.value - {SELECTED});
      }
    }
    var _ := stash.TakeNamespace(GEMINI);
  }
}
