/** Configurations as key maps: what connect stashes and what disconnect puts back. */
module KeyMaps {
  import opened Text

  /** A value as the editors show it: a string, or the compact JSON of anything else. */
  datatype Value = Text(text: string) | Other(json: string)

  type Keys = map<string, Value>
  type Namespace = map<string, string>
  type Agents = map<string, Namespace>

  function Shown(v: Value): string {
    match v
    case Text(text) => text
    case Other(json) => json
  }

  function Lookup<T>(m: map<string, T>, k: string): Option<T> {
    if k in m then Some(m[k]) else None
  }

  /** The owned keys that are there, as shown. */
  function ShownKeys(keys: Keys, ours: seq<string>): Namespace {
    map k | k in keys && k in ours :: Shown(keys[k])
  }

  // ---- the stash ------------------------------------------------------------------------------

  function OldValues(agents: Agents, agent: string): Namespace {
    if agent in agents then agents[agent] else map[]
  }

  /** An empty value takes its key out. */
  function Recorded(ns: Namespace, kvs: Namespace): Namespace {
    map k | k in ns.Keys + kvs.Keys && (k in kvs ==> kvs[k] != "") :: if k in kvs then kvs[k] else ns[k]
  }

  /** The values worth stashing: not empty, and no entry yet. */
  function FreshValues(ns: Namespace, values: Namespace): Namespace {
    map k | k in values && values[k] != "" && k !in ns :: values[k]
  }

  function RecordOld(agents: Agents, agent: string, values: Namespace): Agents {
    var filled := FreshValues(OldValues(agents, agent), values);
    if filled == map[] then agents else agents[agent := Recorded(OldValues(agents, agent), filled)]
  }

  /** What one key's entry is after recording: the one it had, or the first value that is not empty. */
  function Entry(stashed: Option<string>, seen: Option<string>): Option<string> {
    if stashed.Some? then stashed else if seen == Some("") then None else seen
  }

  lemma RecordedEntry(agents: Agents, agent: string, values: Namespace, k: string)
    ensures Lookup(OldValues(RecordOld(agents, agent, values), agent), k)
         == Entry(Lookup(OldValues(agents, agent), k), Lookup(values, k))
  {
    var filled := FreshValues(OldValues(agents, agent), values);
    assert k in values && values[k] != "" && k !in OldValues(agents, agent) ==> k in filled;
  }

  /** No stash entry is ever empty. */
  predicate Filled(ns: Namespace) {
    forall k | k in ns :: ns[k] != ""
  }

  lemma RecordFills(agents: Agents, agent: string, values: Namespace)
    requires Filled(OldValues(agents, agent))
    ensures Filled(OldValues(RecordOld(agents, agent, values), agent))
    ensures forall other | other != agent :: OldValues(RecordOld(agents, agent, values), other) == OldValues(agents, other)
  {
  }

  /** The first value that is not empty in a history of sightings. */
  function FirstFilled(seen: seq<Option<string>>): (first: Option<string>)
    ensures first.Some? ==> first.value != "" && first in seen
    ensures first.None? ==> forall i | 0 <= i < |seen| :: seen[i] in [None, Some("")]
    decreases |seen|
  {
    if seen == [] then None
    else if seen[0].Some? && seen[0].value != "" then seen[0]
    else FirstFilled(seen[1..])
  }

  // ---- putting back -----------------------------------------------------------------------------

  /** Owned keys as stashed, the rest as they are. */
  function PutBack(keys: Keys, ours: seq<string>, stashed: Namespace): Keys {
    map k | k in keys.Keys + stashed.Keys && (k in ours ==> k in stashed && stashed[k] != "") && (k in stashed && k !in keys ==> k in ours)
      :: if k in ours then Text(stashed[k]) else keys[k]
  }

  lemma PutBackKey(keys: Keys, ours: seq<string>, stashed: Namespace, k: string)
    ensures Lookup(PutBack(keys, ours, stashed), k)
         == if k !in ours then Lookup(keys, k)
            else match Lookup(stashed, k)
                 case Some(v) => if v == "" then None else Some(Text(v))
                 case None => None
  {
  }

  /** What `set` and `del` do to a key map. */
  function SetKeys<T>(keys: map<string, T>, kvs: seq<(string, T)>): map<string, T>
    decreases |kvs|
  {
    if kvs == [] then keys else SetKeys(keys[kvs[0].0 := kvs[0].1], kvs[1..])
  }

  function DelKeys<T>(keys: map<string, T>, gone: seq<string>): map<string, T>
  {
    map k | k in keys && k !in gone :: keys[k]
  }

  predicate Assigns<T>(kvs: seq<(string, T)>, k: string) {
    exists i | 0 <= i < |kvs| :: kvs[i].0 == k
  }

  lemma {:induction false} SetKeysOther<T>(keys: map<string, T>, kvs: seq<(string, T)>, k: string)
    requires !Assigns(kvs, k)
    ensures Lookup(SetKeys(keys, kvs), k) == Lookup(keys, k)
    decreases |kvs|
  {
    if kvs != [] {
      forall i | 0 <= i < |kvs[1..]| ensures kvs[1..][i].0 != k {
        assert kvs[1..][i] == kvs[i + 1];
      }
      assert kvs[0].0 != k;
      SetKeysOther(keys[kvs[0].0 := kvs[0].1], kvs[1..], k);
    }
  }

  /** The last assignment of a key. */
  function LastValue<T>(kvs: seq<(string, T)>, k: string): Option<T> {
    if kvs == [] then None
    else
      var later := LastValue(kvs[1..], k);
      if later.Some? then later else if kvs[0].0 == k then Some(kvs[0].1) else None
  }

  lemma {:induction false} SetKeysIs<T>(keys: map<string, T>, kvs: seq<(string, T)>, k: string)
    ensures Lookup(SetKeys(keys, kvs), k) == if LastValue(kvs, k).Some? then LastValue(kvs, k) else Lookup(keys, k)
    decreases |kvs|
  {
    if kvs != [] {
      SetKeysIs(keys[kvs[0].0 := kvs[0].1], kvs[1..], k);
    }
  }

  /** All assignments of a key agree. */
  predicate OneValue<T(==)>(kvs: seq<(string, T)>, k: string, v: T) {
    forall i | 0 <= i < |kvs| :: kvs[i].0 == k ==> kvs[i].1 == v
  }

  lemma {:induction false} SetKeysOwn<T>(keys: map<string, T>, kvs: seq<(string, T)>, k: string, v: T)
    requires Assigns(kvs, k) && OneValue(kvs, k, v)
    ensures Lookup(SetKeys(keys, kvs), k) == Some(v)
    decreases |kvs|
  {
    var i :| 0 <= i < |kvs| && kvs[i].0 == k;
    var next := keys[kvs[0].0 := kvs[0].1];
    forall j | 0 <= j < |kvs[1..]| ensures kvs[1..][j] == kvs[j + 1] {
    }
    assert i > 0 ==> kvs[1..][i - 1].0 == k;
    if Assigns(kvs[1..], k) {
      SetKeysOwn(next, kvs[1..], k, v);
    } else {
      SetKeysOther(next, kvs[1..], k);
    }
  }

  // ---- the stash as it runs --------------------------------------------------------------------------

  lemma RecordNone(start: Namespace, kvs: Namespace)
    ensures Recorded(start, kvs - kvs.Keys) == start
  {
  }

  lemma RecordStep(start: Namespace, kvs: Namespace, left: set<string>, key: string)
    requires left <= kvs.Keys && key in left
    ensures var so := Recorded(start, kvs - left);
      Recorded(start, kvs - (left - {key})) == if kvs[key] == "" then so - {key} else so[key := kvs[key]]
  {
  }

  class Stash {
    var agents: Agents

    constructor (agents: Agents)
      ensures this.agents == agents
    {
      this.agents := agents;
    }

    method Record(agent: string, kvs: Namespace)
      modifies this
      ensures agents == old(agents)[agent := Recorded(OldValues(old(agents), agent), kvs)]
    {
      hide Recorded;
      var start := OldValues(agents, agent);
      var namespace, left := start, kvs.Keys;
      RecordNone(start, kvs);
      while left != {}
        invariant left <= kvs.Keys && agents == old(agents)
        invariant namespace == Recorded(start, kvs - left)
        decreases |left|
      {
        var key :| key in left;
        RecordStep(start, kvs, left, key);
        namespace := if kvs[key] == "" then namespace - {key} else namespace[key := kvs[key]];
        left := left - {key};
      }
      assert kvs - left == kvs;
      assert namespace == Recorded(start, kvs);
      assert start == OldValues(old(agents), agent);
      agents := agents[agent := namespace];
    }

    method TakeNamespace(agent: string) returns (taken: Namespace)
      modifies this
      ensures taken == OldValues(old(agents), agent)
      ensures agents == old(agents) - {agent}
    {
      taken := OldValues(agents, agent);
      agents := agents - {agent};
    }

    /** Never replaces an entry, so reconnecting keeps the first values. */
    method RecordOldValues(agent: string, values: Namespace)
      modifies this
      ensures agents == RecordOld(old(agents), agent, values)
    {
      var filled := FreshValues(OldValues(agents, agent), values);
      if filled != map[] {
        Record(agent, filled);
      }
    }
  }
}
