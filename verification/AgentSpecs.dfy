/** Any number of connects and a disconnect over key maps, and the Claude Code specification. */
module AgentSpecs {
  import opened Text
  import opened KeyMaps

  /** What the gateway writes; a tier without a model is left out. */
  datatype Gateway = Gateway(url: string, key: string, model: string,
                             sonnet: Option<string>, haiku: Option<string>, opus: Option<string>)

  // ---- any number of connects ------------------------------------------------------------------

  function RecordRounds(agents: Agents, agent: string, seen: seq<Namespace>): Agents
    decreases |seen|
  {
    if seen == [] then agents else RecordRounds(RecordOld(agents, agent, seen[0]), agent, seen[1..])
  }

  function Sightings(seen: seq<Namespace>, k: string): (s: seq<Option<string>>)
    ensures |s| == |seen|
    decreases |seen|
  {
    if seen == [] then [] else [Lookup(seen[0], k)] + Sightings(seen[1..], k)
  }

  /** However often it connects, the stash holds the first value that was not empty. */
  lemma {:induction false} StashHoldsFirst(agents: Agents, agent: string, seen: seq<Namespace>, k: string)
    ensures var entry := Lookup(OldValues(agents, agent), k);
      Lookup(OldValues(RecordRounds(agents, agent, seen), agent), k)
      == if entry.Some? then entry else FirstFilled(Sightings(seen, k))
    decreases |seen|
  {
    hide RecordOld, OldValues;
    if seen != [] {
      RecordedEntry(agents, agent, seen[0], k);
      StashHoldsFirst(RecordOld(agents, agent, seen[0]), agent, seen[1..], k);
      assert Sightings(seen, k)[1..] == Sightings(seen[1..], k);
    }
  }

  lemma {:induction false} RoundsFill(agents: Agents, agent: string, seen: seq<Namespace>)
    requires Filled(OldValues(agents, agent))
    ensures Filled(OldValues(RecordRounds(agents, agent, seen), agent))
    decreases |seen|
  {
    hide RecordOld, OldValues, Filled;
    if seen != [] {
      RecordFills(agents, agent, seen[0]);
      RoundsFill(RecordOld(agents, agent, seen[0]), agent, seen[1..]);
    }
  }

  /** The first connect's value comes back in the end. */
  predicate ComesBack(first: Option<Value>, later: seq<Option<string>>) {
    match first
    case None => FirstFilled(later) == None
    case Some(Text(text)) => text != ""
    case Some(Other(_)) => false
  }

  /** The value an owned key ends with. */
  function Ending(seen: seq<Option<string>>): Option<Value> {
    match FirstFilled(seen)
    case Some(v) => Some(Text(v))
    case None => None
  }

  lemma EndingIsFirst(first: Option<Value>, later: seq<Option<string>>)
    ensures var shown := if first.Some? then Some(Shown(first.value)) else None;
      Ending([shown] + later) == first <==> ComesBack(first, later)
  {
    var shown := if first.Some? then Some(Shown(first.value)) else None;
    assert ([shown] + later)[1..] == later;
  }

  // ---- Claude Code ---------------------------------------------------------------------------------

  const CLAUDE := "claude-code"
  const HELPER := "apiKeyHelper"
  const BASE_URL := "env.ANTHROPIC_BASE_URL"
  const AUTH_TOKEN := "env.ANTHROPIC_AUTH_TOKEN"
  const MODEL := "env.ANTHROPIC_MODEL"
  const HAIKU := "env.ANTHROPIC_DEFAULT_HAIKU_MODEL"
  const SONNET := "env.ANTHROPIC_DEFAULT_SONNET_MODEL"
  const OPUS := "env.ANTHROPIC_DEFAULT_OPUS_MODEL"
  const API_KEY := "env.ANTHROPIC_API_KEY"
  const CLAUDE_KEYS: seq<string> := [BASE_URL, AUTH_TOKEN, MODEL, HAIKU, SONNET, OPUS, API_KEY]

  function Present(file: Option<Keys>): Keys {
    if file.Some? then file.value else map[]
  }

  function Tier(key: string, model: Option<string>): seq<(string, Value)> {
    if model.Some? then [(key, Text(model.value))] else []
  }

  function ClaudeWrites(g: Gateway): seq<(string, Value)> {
    [(BASE_URL, Text(g.url)), (AUTH_TOKEN, Text(g.key)), (MODEL, Text(g.model))]
    + Tier(SONNET, g.sonnet) + Tier(HAIKU, g.haiku) + Tier(OPUS, g.opus)
  }

  datatype SpecError = Refused

  function ClaudeConnect(file: Option<Keys>, agents: Agents, g: Gateway): Result<(Keys, Agents), SpecError> {
    var current := Present(file);
    if HELPER in current then Err(Refused)
    else Ok((DelKeys(SetKeys(current, ClaudeWrites(g)), [API_KEY]),
             RecordOld(agents, CLAUDE, ShownKeys(current, CLAUDE_KEYS))))
  }

  /** A missing file drops the stash. */
  function ClaudeDisconnect(file: Option<Keys>, agents: Agents): (Option<Keys>, Agents) {
    match file
    case None => (None, agents - {CLAUDE})
    case Some(current) => (Some(PutBack(current, CLAUDE_KEYS, OldValues(agents, CLAUDE))), agents - {CLAUDE})
  }

  /**
   * What a connect leaves in the configuration: refused if an API key helper is configured; else the
   * gateway's address, key, model and the models of the tiers it has, no API key of the user's own,
   * and everything else as it was.
   */
  lemma ClaudeConnectLeaves(file: Option<Keys>, agents: Agents, g: Gateway, k: string)
    ensures var before := if file.Some? then Lookup(file.value, k) else None;
      var r := ClaudeConnect(file, agents, g);
      && (r.Err? <==> file.Some? && "apiKeyHelper" in file.value)
      && (r.Ok? ==>
            Lookup(r.value.0, k)
            == if k == "env.ANTHROPIC_BASE_URL" then Some(Text(g.url))
               else if k == "env.ANTHROPIC_AUTH_TOKEN" then Some(Text(g.key))
               else if k == "env.ANTHROPIC_MODEL" then Some(Text(g.model))
               else if k == "env.ANTHROPIC_DEFAULT_SONNET_MODEL" && g.sonnet.Some? then Some(Text(g.sonnet.value))
               else if k == "env.ANTHROPIC_DEFAULT_HAIKU_MODEL" && g.haiku.Some? then Some(Text(g.haiku.value))
               else if k == "env.ANTHROPIC_DEFAULT_OPUS_MODEL" && g.opus.Some? then Some(Text(g.opus.value))
               else if k == "env.ANTHROPIC_API_KEY" then None
               else before)
  {
    hide SetKeys, DelKeys, ClaudeWrites;
    var (keys, kvs) := (Present(file), ClaudeWrites(g));
    if k in CLAUDE_KEYS {
      OwnedWritten(keys, g);
      Deleted(SetKeys(keys, kvs), k);
    } else {
      ClaudeWritesKeep(keys, g, k);
    }
  }

  lemma Deleted(keys: Keys, k: string)
    ensures Lookup(DelKeys(keys, [API_KEY]), k) == if k == API_KEY then None else Lookup(keys, k)
  {
  }

  lemma OwnedWritten(keys: Keys, g: Gateway)
    ensures var after := SetKeys(keys, ClaudeWrites(g));
      && Lookup(after, BASE_URL) == Some(Text(g.url))
      && Lookup(after, AUTH_TOKEN) == Some(Text(g.key))
      && Lookup(after, MODEL) == Some(Text(g.model))
      && Lookup(after, SONNET) == (if g.sonnet.Some? then Some(Text(g.sonnet.value)) else Lookup(keys, SONNET))
      && Lookup(after, HAIKU) == (if g.haiku.Some? then Some(Text(g.haiku.value)) else Lookup(keys, HAIKU))
      && Lookup(after, OPUS) == (if g.opus.Some? then Some(Text(g.opus.value)) else Lookup(keys, OPUS))
  {
    hide SetKeys, ClaudeWrites;
    var kvs := ClaudeWrites(g);
    WritesDiffer(g);
    WrittenOnce(keys, kvs, 0);
    WrittenOnce(keys, kvs, 1);
    WrittenOnce(keys, kvs, 2);
    TierWritten(keys, g, SONNET, g.sonnet, 3);
    TierWritten(keys, g, HAIKU, g.haiku, 3 + |Tier(SONNET, g.sonnet)|);
    TierWritten(keys, g, OPUS, g.opus, |kvs| - 1);
  }

  lemma TierWritten(keys: Keys, g: Gateway, k: string, model: Option<string>, n: nat)
    requires var kvs := ClaudeWrites(g);
      && (forall a, b | 0 <= a < b < |kvs| :: kvs[a].0 != kvs[b].0)
      && if model.Some? then n < |kvs| && kvs[n] == (k, Text(model.value)) else !Assigns(kvs, k)
    ensures Lookup(SetKeys(keys, ClaudeWrites(g)), k) == if model.Some? then Some(Text(model.value)) else Lookup(keys, k)
  {
    hide SetKeys, ClaudeWrites;
    if model.Some? {
      WrittenOnce(keys, ClaudeWrites(g), n);
    } else {
      SetKeysOther(keys, ClaudeWrites(g), k);
    }
  }

  lemma WrittenOnce(keys: Keys, kvs: seq<(string, Value)>, i: nat)
    requires i < |kvs| && forall a, b | 0 <= a < b < |kvs| :: kvs[a].0 != kvs[b].0
    ensures Lookup(SetKeys(keys, kvs), kvs[i].0) == Some(kvs[i].1)
  {
    hide SetKeys;
    SetKeysOwn(keys, kvs, kvs[i].0, kvs[i].1);
  }

  lemma WritesDiffer(g: Gateway)
    ensures var kvs := ClaudeWrites(g);
      && (forall a, b | 0 <= a < b < |kvs| :: kvs[a].0 != kvs[b].0)
      && |kvs| >= 3 && kvs[0] == (BASE_URL, Text(g.url)) && kvs[1] == (AUTH_TOKEN, Text(g.key))
      && kvs[2] == (MODEL, Text(g.model))
      && (g.sonnet.Some? ==> |kvs| > 3 && kvs[3] == (SONNET, Text(g.sonnet.value)))
      && (var n := 3 + |Tier(SONNET, g.sonnet)|; g.haiku.Some? ==> |kvs| > n && kvs[n] == (HAIKU, Text(g.haiku.value)))
      && (g.opus.Some? ==> kvs[|kvs| - 1] == (OPUS, Text(g.opus.value)))
      && (g.sonnet.None? ==> !Assigns(kvs, SONNET)) && (g.haiku.None? ==> !Assigns(kvs, HAIKU))
      && (g.opus.None? ==> !Assigns(kvs, OPUS))
  {
    KeysDiffer();
  }

  /** The owned keys are seven different ones. */
  lemma KeysDiffer()
    ensures BASE_URL !in [AUTH_TOKEN, MODEL, HAIKU, SONNET, OPUS, API_KEY]
    ensures AUTH_TOKEN !in [MODEL, HAIKU, SONNET, OPUS, API_KEY] && MODEL !in [HAIKU, SONNET, OPUS, API_KEY]
    ensures HAIKU !in [SONNET, OPUS, API_KEY] && SONNET !in [OPUS, API_KEY] && OPUS != API_KEY
  {
    assert BASE_URL[14] == 'B' && AUTH_TOKEN[14] == 'A' && MODEL[14] == 'M' && API_KEY[14] == 'A';
    assert HAIKU[14] == 'D' && SONNET[14] == 'D' && OPUS[14] == 'D';
    assert AUTH_TOKEN[15] == 'U' && API_KEY[15] == 'P';
    assert HAIKU[22] == 'H' && SONNET[22] == 'S' && OPUS[22] == 'O';
  }

  /**
   * One call of connect: the file as it is found, what the gateway has to write, and whether the
   * process lives to save the stash behind the configuration.
   */
  datatype Round = Round(file: Option<Keys>, gateway: Gateway, saved: bool)

  /** The stash after several connects; a refused one changes nothing, and neither does one that dies before saving. */
  function ClaudeRounds(agents: Agents, rounds: seq<Round>): Agents
    decreases |rounds|
  {
    if rounds == [] then agents
    else
      match ClaudeConnect(rounds[0].file, agents, rounds[0].gateway)
      case Ok(done) => ClaudeRounds(if rounds[0].saved then done.1 else agents, rounds[1..])
      case Err(_) => ClaudeRounds(agents, rounds[1..])
  }

  /** What the connects that were not refused and saved the stash saw. */
  function ClaudeSeen(rounds: seq<Round>): seq<Namespace>
    decreases |rounds|
  {
    if rounds == [] then []
    else
      (if HELPER in Present(rounds[0].file) || !rounds[0].saved then [] else [ShownKeys(Present(rounds[0].file), CLAUDE_KEYS)])
      + ClaudeSeen(rounds[1..])
  }

  lemma {:induction false} ClaudeRoundsRecord(agents: Agents, rounds: seq<Round>)
    ensures ClaudeRounds(agents, rounds) == RecordRounds(agents, CLAUDE, ClaudeSeen(rounds))
    decreases |rounds|
  {
    hide RecordOld, ShownKeys, SetKeys, DelKeys;
    if rounds != [] {
      var current := Present(rounds[0].file);
      if HELPER in current || !rounds[0].saved {
        ClaudeRoundsRecord(agents, rounds[1..]);
        assert [] + ClaudeSeen(rounds[1..]) == ClaudeSeen(rounds[1..]);
      } else {
        var shown := ShownKeys(current, CLAUDE_KEYS);
        ClaudeRoundsRecord(RecordOld(agents, CLAUDE, shown), rounds[1..]);
        assert ([shown] + ClaudeSeen(rounds[1..]))[1..] == ClaudeSeen(rounds[1..]);
      }
    }
  }

  /**
   * Any number of connects from an empty stash, with any edits by the user in between and some of
   * them broken off before the stash is saved, then a disconnect: owned keys end with the first
   * value that was not empty in what the saved ones saw, as a string, or are gone; every other key
   * is as the user left it.
   */
  lemma ClaudeRestores(agents: Agents, rounds: seq<Round>, current: Keys, k: string)
    requires CLAUDE !in agents
    ensures var (file, after) := ClaudeDisconnect(Some(current), ClaudeRounds(agents, rounds));
      && CLAUDE !in after
      && Lookup(file.value, k)
         == if k in CLAUDE_KEYS then Ending(Sightings(ClaudeSeen(rounds), k)) else Lookup(current, k)
  {
    hide RecordRounds, ClaudeSeen, ClaudeRounds, PutBack;
    var stash := ClaudeRounds(agents, rounds);
    ClaudeRoundsRecord(agents, rounds);
    StashHoldsFirst(agents, CLAUDE, ClaudeSeen(rounds), k);
    RoundsFill(agents, CLAUDE, ClaudeSeen(rounds));
    PutBackKey(current, CLAUDE_KEYS, OldValues(stash, CLAUDE), k);
  }

  /**
   * An owned key comes back as it was before the first connect, that one having saved the stash, if
   * and only if it held a string that was not empty, or was absent and no later connect saw
   * anything there.
   */
  lemma ClaudeComesBack(agents: Agents, first: Round, later: seq<Round>, current: Keys, k: string)
    requires CLAUDE !in agents && k in CLAUDE_KEYS && HELPER !in Present(first.file) && first.saved
    ensures var (file, _) := ClaudeDisconnect(Some(current), ClaudeRounds(agents, [first] + later));
      var before := Lookup(Present(first.file), k);
      Lookup(file.value, k) == before <==> ComesBack(before, Sightings(ClaudeSeen(later), k))
  {
    hide ClaudeDisconnect, ClaudeRounds, Ending, ComesBack;
    var seen := Present(first.file);
    ClaudeRestores(agents, [first] + later, current, k);
    assert ([first] + later)[1..] == later;
    assert ClaudeSeen([first] + later) == [ShownKeys(seen, CLAUDE_KEYS)] + ClaudeSeen(later);
    SightingsCons(ShownKeys(seen, CLAUDE_KEYS), ClaudeSeen(later), k);
    EndingIsFirst(Lookup(seen, k), Sightings(ClaudeSeen(later), k));
  }

  lemma SightingsCons(ns: Namespace, rest: seq<Namespace>, k: string)
    ensures Sightings([ns] + rest, k) == [Lookup(ns, k)] + Sightings(rest, k)
  {
    assert ([ns] + rest)[1..] == rest;
  }

  /**
   * After one connect: a string that was not empty is back, anything else that was there is back as a
   * string of its JSON, an empty string is gone; so it is restored if and only if it was absent or
   * held a string that was not empty.
   */
  lemma ClaudeOneConnect(agents: Agents, first: Round, current: Keys, k: string)
    requires CLAUDE !in agents && k in CLAUDE_KEYS && HELPER !in Present(first.file) && first.saved
    ensures var (file, _) := ClaudeDisconnect(Some(current), ClaudeRounds(agents, [first]));
      var before := Lookup(Present(first.file), k);
      && Lookup(file.value, k)
         == (if before.None? then None
             else
               var text := if before.value.Text? then before.value.text else before.value.json;
               if text == "" then None else Some(Text(text)))
      && (Lookup(file.value, k) == before <==> before.None? || (before.value.Text? && before.value.text != ""))
  {
    hide ClaudeDisconnect, ClaudeRounds, Sightings;
    assert [first] + [] == [first];
    ClaudeComesBack(agents, first, [], current, k);
    assert Sightings(ClaudeSeen([]), k) == [];
    ClaudeRestores(agents, [first], current, k);
    SeenOnce(first);
    OneSighting(ShownKeys(Present(first.file), CLAUDE_KEYS), k);
    ShownOwned(Present(first.file), k);
    assert FirstFilled([]) == None;
  }

  lemma SeenOnce(first: Round)
    requires HELPER !in Present(first.file) && first.saved
    ensures ClaudeSeen([first]) == [ShownKeys(Present(first.file), CLAUDE_KEYS)]
  {
    hide ShownKeys;
    assert [first][1..] == [];
    assert ClaudeSeen([first]) == [ShownKeys(Present(first.file), CLAUDE_KEYS)] + ClaudeSeen([]);
  }

  /** A second connect takes our own value for the user's: a base URL that was absent stays. */
  lemma SecondConnectKeepsOurs(agents: Agents, file: Option<Keys>, g: Gateway)
    requires CLAUDE !in agents && HELPER !in Present(file) && BASE_URL !in Present(file) && g.url != ""
    ensures var once := ClaudeConnect(file, agents, g);
      && once.Ok?
      && var twice := ClaudeConnect(Some(once.value.0), once.value.1, g);
         && twice.Ok?
         && Lookup(ClaudeDisconnect(Some(twice.value.0), twice.value.1).0.value, BASE_URL) == Some(Text(g.url))
  {
    hide RecordOld, SetKeys, DelKeys, ShownKeys, PutBack, OldValues;
    var once := ClaudeConnect(file, agents, g).value;
    ClaudeWritesKeep(Present(file), g, HELPER);
    ClaudeWritesUrl(Present(file), g);
    var twice := ClaudeConnect(Some(once.0), once.1, g).value;
    RecordedEntry(agents, CLAUDE, ShownKeys(Present(file), CLAUDE_KEYS), BASE_URL);
    RecordedEntry(once.1, CLAUDE, ShownKeys(once.0, CLAUDE_KEYS), BASE_URL);
    ShownOwned(Present(file), BASE_URL);
    ShownOwned(once.0, BASE_URL);
    NoOldValues(agents);
    PutBackKey(twice.0, CLAUDE_KEYS, OldValues(twice.1, CLAUDE), BASE_URL);
  }

  // ---- a connect broken off before the stash is saved -----------------------------------------------

  /** What the gateway writes for a key, if it does. */
  function Ours(g: Gateway, k: string): Option<Value> {
    LastValue(ClaudeWrites(g), k)
  }

  /** A key as the configuration has it once it is written. */
  lemma LeftByConnect(keys: Keys, g: Gateway, k: string)
    ensures Lookup(DelKeys(SetKeys(keys, ClaudeWrites(g)), [API_KEY]), k)
         == if k == API_KEY then None else if Ours(g, k).Some? then Ours(g, k) else Lookup(keys, k)
  {
    hide SetKeys, ClaudeWrites;
    SetKeysIs(keys, ClaudeWrites(g), k);
  }

  /** The value a stash gives back: what was shown, as a string, unless it was empty. */
  function GivenBack(v: Option<Value>): Option<Value> {
    if v.Some? && Shown(v.value) != "" then Some(Text(Shown(v.value))) else None
  }

  /**
   * A first connect writes its configuration and dies before the stash is saved; the user changes
   * nothing, and a second connect goes through. It takes what it finds for the user's: after a
   * disconnect a key that the gateway writes holds the gateway's value, and it comes back only if
   * that is what it had been; the removed API key comes back only if it had been absent; a key the
   * gateway leaves alone comes back as from any single connect.
   */
  lemma CrashKeepsOurs(agents: Agents, file: Option<Keys>, g: Gateway, again: Gateway, current: Keys, k: string)
    requires CLAUDE !in agents && HELPER !in Present(file) && k in CLAUDE_KEYS
    ensures var before := Lookup(Present(file), k);
      var broken := ClaudeConnect(file, agents, g);
      && broken.Ok?
      && var rounds := [Round(file, g, false), Round(Some(broken.value.0), again, true)];
         var end := Lookup(ClaudeDisconnect(Some(current), ClaudeRounds(agents, rounds)).0.value, k);
         && end == (if k == API_KEY then None else GivenBack(if Ours(g, k).Some? then Ours(g, k) else before))
         && (end == before <==>
               if k == API_KEY then before == None
               else if Ours(g, k).Some? then before == GivenBack(Ours(g, k))
               else before == None || (before.value.Text? && before.value.text != ""))
  {
    hide SetKeys, DelKeys, ShownKeys, PutBack, ClaudeDisconnect, ClaudeRounds, ClaudeWrites, Sightings;
    var left := ClaudeConnect(file, agents, g).value.0;
    var rounds := [Round(file, g, false), Round(Some(left), again, true)];
    ClaudeWritesKeep(Present(file), g, HELPER);
    ClaudeRestores(agents, rounds, current, k);
    SeenAfterCrash(file, g, left, again);
    OneSighting(ShownKeys(left, CLAUDE_KEYS), k);
    ShownOwned(left, k);
    LeftByConnect(Present(file), g, k);
  }

  lemma SeenAfterCrash(file: Option<Keys>, g: Gateway, left: Keys, again: Gateway)
    requires HELPER !in left
    ensures ClaudeSeen([Round(file, g, false), Round(Some(left), again, true)]) == [ShownKeys(left, CLAUDE_KEYS)]
  {
    hide ShownKeys;
    var rounds := [Round(file, g, false), Round(Some(left), again, true)];
    assert rounds[1..] == [rounds[1]] && rounds[1..][1..] == [];
    assert ClaudeSeen([rounds[1]]) == [ShownKeys(left, CLAUDE_KEYS)] + ClaudeSeen([]);
  }

  lemma OneSighting(ns: Namespace, k: string)
    ensures Sightings([ns], k) == [Lookup(ns, k)]
  {
    SightingsCons(ns, [], k);
    assert [ns] + [] == [ns];
  }

  lemma NoOldValues(agents: Agents)
    requires CLAUDE !in agents
    ensures forall k :: Lookup(OldValues(agents, CLAUDE), k) == None
  {
  }

  lemma ShownOwned(keys: Keys, k: string)
    requires k in CLAUDE_KEYS
    ensures Lookup(ShownKeys(keys, CLAUDE_KEYS), k) == if k in keys then Some(Shown(keys[k])) else None
  {
  }

  lemma ClaudeWritesKeep(keys: Keys, g: Gateway, k: string)
    requires k !in CLAUDE_KEYS
    ensures Lookup(DelKeys(SetKeys(keys, ClaudeWrites(g)), [API_KEY]), k) == Lookup(keys, k)
  {
    assert !Assigns(ClaudeWrites(g), k);
    SetKeysOther(keys, ClaudeWrites(g), k);
  }

  lemma ClaudeWritesUrl(keys: Keys, g: Gateway)
    ensures Lookup(DelKeys(SetKeys(keys, ClaudeWrites(g)), [API_KEY]), BASE_URL) == Some(Text(g.url))
  {
    assert ClaudeWrites(g)[0].0 == BASE_URL;
    SetKeysOwn(keys, ClaudeWrites(g), BASE_URL, Text(g.url));
  }
}
