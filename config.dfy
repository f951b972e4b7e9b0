/** The configuration document `ar_limit_conf.yaml` as the manager sees it,
    and the pure effect each manager operation has on it. */
module Config {
  import opened Wrappers

  /** A YAML scalar stored as a limit: `null` (no cap) or an integer. */
  datatype Value = Null | Int(n: int)

  /** The `active-response` mapping; a field is `None` when its key is absent. */
  datatype Section = Section(globalLimit: Option<Value>, customLimit: Option<map<string, Value>>)

  /** The loaded document, `None` when it has no `active-response` key. A
      missing, empty or unparsable file loads as `{}`, which is `None` too. */
  type Document = Option<Section>

  /** The global limit used when the document does not give one. */
  const DEFAULT_GLOBAL_LIMIT: int := 200

  /** `doc.get('active-response', {}).get('custom-limit', {})`. */
  function CustomLimits(doc: Document): map<string, Value> {
    match doc
    case None => map[]
    case Some(section) => section.customLimit.GetOr(map[])
  }

  /** `doc.get('active-response', {}).get('global-limit', 200)`: the
      document's global limit when it has one, and 200 otherwise. */
  function GlobalLimitOf(doc: Document): (g: Value)
    ensures doc.Some? && doc.value.globalLimit.Some? ==> g == doc.value.globalLimit.value
    ensures doc.None? || doc.value.globalLimit.None? ==> g == Int(DEFAULT_GLOBAL_LIMIT)
  {
    match doc
    case None => Int(DEFAULT_GLOBAL_LIMIT)
    case Some(section) => section.globalLimit.GetOr(Int(DEFAULT_GLOBAL_LIMIT))
  }

  /** `limits` with every command of `commands` it lacks added at `global`:
      the key set grows to include `commands`, old entries keep their values
      and new entries hold `global`. */
  function Merged(limits: map<string, Value>, commands: set<string>, global: Value): (r: map<string, Value>)
    ensures r.Keys == limits.Keys + commands
    ensures forall c :: c in limits ==> r[c] == limits[c]
    ensures forall c :: c in commands && c !in limits ==> r[c] == global
  {
    map c | c in limits.Keys + commands :: if c in limits then limits[c] else global
  }

  /** Merging one more command adds it at `global` unless it is already a key. */
  lemma MergedNext(limits: map<string, Value>, done: set<string>, c: string, global: Value)
    ensures Merged(limits, done + {c}, global) ==
            var m := Merged(limits, done, global);
            if c in m then m else m[c := global]
  {
  }

  /** The document after `update_yaml_with_new_and_removed_commands` with
      the commands read from the AR conf file. With the section present,
      every command becomes a key of `custom-limit`, a key that was absent
      holds `global`, no key is lost, no existing value changes, and the
      global limit is untouched. Without the section the `KeyError` leaves
      the document as it was. */
  function Synced(doc: Document, commands: set<string>, global: Value): (r: Document)
    ensures doc.None? ==> r == doc
    ensures doc.Some? ==> r.Some? && r.value.customLimit.Some?
    ensures doc.Some? ==> commands <= CustomLimits(r).Keys
    ensures doc.Some? ==> CustomLimits(r).Keys == CustomLimits(doc).Keys + commands
    ensures forall c :: c in CustomLimits(doc) ==> c in CustomLimits(r) && CustomLimits(r)[c] == CustomLimits(doc)[c]
    ensures forall c :: c in CustomLimits(r) && c !in CustomLimits(doc) ==> CustomLimits(r)[c] == global
    ensures doc.Some? ==> r.value.globalLimit == doc.value.globalLimit
    ensures GlobalLimitOf(r) == GlobalLimitOf(doc)
  {
    match doc
    case None => doc
    case Some(section) =>
      Some(section.(customLimit := Some(Merged(CustomLimits(doc), commands, global))))
  }

  /** `limits` with the value of every key it shares with `updates` replaced
      by the update: the key set stays the same, and keys not in `updates`
      keep their values. */
  function Overridden(limits: map<string, Value>, updates: map<string, Value>): (r: map<string, Value>)
    ensures r.Keys == limits.Keys
    ensures forall c :: c in limits && c in updates ==> r[c] == updates[c]
    ensures forall c :: c in limits && c !in updates ==> r[c] == limits[c]
  {
    map c | c in limits :: if c in updates then updates[c] else limits[c]
  }

  /** The document after `update_command_limits(updates)`. With the section
      present, `custom-limit` has the same keys as before (an empty one is
      written when it was absent), each key also in `updates` takes the
      update's value and every other entry is untouched; the global limit is
      untouched. Without the section the `KeyError` leaves the document as
      it was. */
  function LimitsUpdated(doc: Document, updates: map<string, Value>): (r: Document)
    ensures doc.None? ==> r == doc
    ensures doc.Some? ==> r.Some? && r.value.customLimit.Some?
    ensures CustomLimits(r).Keys == CustomLimits(doc).Keys
    ensures forall c :: c in CustomLimits(doc) && c in updates ==> CustomLimits(r)[c] == updates[c]
    ensures forall c :: c in CustomLimits(doc) && c !in updates ==> CustomLimits(r)[c] == CustomLimits(doc)[c]
    ensures doc.Some? ==> r.value.globalLimit == doc.value.globalLimit
    ensures GlobalLimitOf(r) == GlobalLimitOf(doc)
  {
    match doc
    case None => doc
    case Some(section) =>
      Some(section.(customLimit := Some(Overridden(CustomLimits(doc), updates))))
  }

  /** The document after `update_global_limit(global)`. With the section
      present, its `global-limit` is `global` and `custom-limit` is
      untouched; without it the `KeyError` leaves the document as it was. */
  function GlobalLimitUpdated(doc: Document, global: Value): (r: Document)
    ensures doc.None? ==> r == doc
    ensures doc.Some? ==> r.Some? && r.value.globalLimit == Some(global)
    ensures doc.Some? ==> r.value.customLimit == doc.value.customLimit
    ensures GlobalLimitOf(r) == if doc.Some? then global else GlobalLimitOf(doc)
  {
    match doc
    case None => doc
    case Some(section) => Some(section.(globalLimit := Some(global)))
  }

  /** Synchronising twice with the same commands changes nothing the second
      time, whatever global limit is current then. */
  lemma SyncedIdempotent(doc: Document, commands: set<string>, global: Value, later: Value)
    ensures Synced(Synced(doc, commands, global), commands, later) == Synced(doc, commands, global)
  {
    if doc.Some? {
      var once := Synced(doc, commands, global);
      var m := CustomLimits(once);
      assert Merged(m, commands, later) == m;
    }
  }

  /** Applying the same limit updates twice is the same as applying them once. */
  lemma LimitsUpdatedIdempotent(doc: Document, updates: map<string, Value>)
    ensures LimitsUpdated(LimitsUpdated(doc, updates), updates) == LimitsUpdated(doc, updates)
  {
    if doc.Some? {
      var once := LimitsUpdated(doc, updates);
      var m := CustomLimits(once);
      assert Overridden(m, updates) == m;
    }
  }

  /** Once every command of the AR conf file is a key of `custom-limit`,
      limit updates and global limit updates keep it so: neither ever
      removes a key. */
  lemma SeedingPreserved(doc: Document, commands: set<string>, updates: map<string, Value>, global: Value)
    requires commands <= CustomLimits(doc).Keys
    ensures commands <= CustomLimits(LimitsUpdated(doc, updates)).Keys
    ensures commands <= CustomLimits(GlobalLimitUpdated(doc, global)).Keys
    ensures commands <= CustomLimits(Synced(doc, commands, global)).Keys
  {
  }

}
