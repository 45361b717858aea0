/**
 Sparse config overrides (src/config.ts).

 The read path repairs whatever the store holds; the write path rejects what it would have to
 repair.  Names of stored entries are known settings, unknown names, or names every object
 inherits: the code's membership test takes the last kind for known ones.
 */
module Config {
  import opened ConfigTable
  import opened JsText
  import opened Options

  datatype Name = Known(key: ConfigKey) | Inherited(text: string) | Unknown(text: string)

  type Entries = map<Name, Json>

  /** What the store holds under the config key. */
  datatype Blob = Unusable | Record(entries: Entries)

  /** Checks of the platform: time zone names, push contacts, and comparisons that mix types. */
  datatype Platform = Platform(isZone: string -> bool, isContact: string -> bool,
                               looseGreater: (Json, Json) -> bool, looseAtMost: (Json, Json) -> bool)

  /** The platform knows the shipped time zone. */
  ghost predicate IsPlatform(env: Platform) {
    env.isZone("UTC")
  }

  function Modes(key: ConfigKey): set<string> {
    match key
    case RERANK_MODE => {"off", "on", "auto"}
    case NOTICE_COLLAPSE => {"off", "on"}
    case RECALL_LOG => {"off", "on"}
    case _ => {}
  }

  predicate IsBlank(s: string) {
    forall i :: 0 <= i < |s| ==> IsSpace(s[i])
  }

  predicate InModes(key: ConfigKey, value: Json) {
    value.Str? && value.text in Modes(key)
  }

  function Round(x: real): real { (x + 0.5).Floor as real }

  predicate IsWhole(x: real) { x.Floor as real == x }

  function Clamp(x: real, min: real, max: real): real {
    var atLeast := if x >= min then x else min;
    if atLeast <= max then atLeast else max
  }

  /** One stored value, repaired. */
  function Coerce(env: Platform, key: ConfigKey, value: Json): Json {
    match RuleOf(key)
    case Fixed(fixed) => if value == Str(fixed) then value else Default(key)
    case Text =>
      if key == PUSH_CONTACT then
        if value == Str("") then value
        else if !value.Str? || !env.isContact(value.text) then Default(key)
        else value
      else if Modes(key) != {} && !InModes(key, value) then Str("off")
      else if !value.Str? || IsBlank(value.text) then Default(key)
      else if key == TIMEZONE && !env.isZone(value.text) then Default(key)
      else value
    case Number(min, max, integer) =>
      if !value.Num? then Default(key)
      else Num(Clamp(if integer then Round(value.number) else value.number, min, max))
  }

  /** A patched value, checked; the log mode is one of the texts that only have to be non-blank. */
  predicate Accepts(env: Platform, name: Name, value: Json) {
    match name
    case Unknown(_) => false
    case Inherited(_) => value.Num?
    case Known(key) =>
      match RuleOf(key)
      case Fixed(fixed) => value == Str(fixed)
      case Text =>
        if key == PUSH_CONTACT then value == Str("") || (value.Str? && env.isContact(value.text))
        else if key == RERANK_MODE || key == NOTICE_COLLAPSE then InModes(key, value)
        else value.Str? && !IsBlank(value.text) && (key == TIMEZONE ==> env.isZone(value.text))
      case Number(min, max, integer) =>
        value.Num? && (integer ==> IsWhole(value.number)) && min <= value.number <= max
  }

  // ── Groups that must stay ordered ─────────────────────────────────────────

  type Config = map<ConfigKey, Json>

  ghost predicate IsTotal(c: Config) {
    forall key :: key in c
  }

  function Greater(env: Platform, a: Json, b: Json): bool {
    if a.Num? && b.Num? then a.number > b.number else env.looseGreater(a, b)
  }

  function AtMost(env: Platform, a: Json, b: Json): bool {
    if a.Num? && b.Num? then a.number <= b.number else env.looseAtMost(a, b)
  }

  /** The group of settings that a setting is kept in order with. */
  datatype Group = Duplicates | Recency | Alone(key: ConfigKey)

  function GroupOf(key: ConfigKey): Group {
    match key
    case DUPLICATE_BLOCK_THRESHOLD => Duplicates
    case DUPLICATE_FLAG_THRESHOLD => Duplicates
    case RECENCY_FLOOR_VOLATILE => Recency
    case RECENCY_FLOOR => Recency
    case RECENCY_FLOOR_DURABLE => Recency
    case _ => Alone(key)
  }

  /** The group's ordering holds; a setting alone has none to keep. */
  predicate Holds(env: Platform, group: Group, c: Config)
    requires IsTotal(c)
  {
    match group
    case Duplicates => Greater(env, c[DUPLICATE_BLOCK_THRESHOLD], c[DUPLICATE_FLAG_THRESHOLD])
    case Recency =>
      AtMost(env, c[RECENCY_FLOOR_VOLATILE], c[RECENCY_FLOOR]) && AtMost(env, c[RECENCY_FLOOR], c[RECENCY_FLOOR_DURABLE])
    case Alone(_) => true
  }

  ghost predicate AllHold(env: Platform, c: Config)
    requires IsTotal(c)
  {
    Holds(env, Duplicates, c) && Holds(env, Recency, c)
  }

  /** Whether a group is in order depends on its own settings only. */
  lemma SameGroup(env: Platform, group: Group, c: Config, c': Config)
    requires IsTotal(c) && IsTotal(c')
    requires forall key :: GroupOf(key) == group ==> c[key] == c'[key]
    ensures Holds(env, group, c) == Holds(env, group, c')
  {
    assert GroupOf(DUPLICATE_BLOCK_THRESHOLD) == GroupOf(DUPLICATE_FLAG_THRESHOLD) == Duplicates;
    assert GroupOf(RECENCY_FLOOR_VOLATILE) == GroupOf(RECENCY_FLOOR) == GroupOf(RECENCY_FLOOR_DURABLE) == Recency;
  }

  // ── The read path ─────────────────────────────────────────────────────────

  function Defaults(): (c: Config)
    ensures IsTotal(c)
  {
    map key: ConfigKey | true :: Default(key)
  }

  function Entry(blob: Blob, key: ConfigKey): Option<Json> {
    if blob.Record? && Known(key) in blob.entries then Some(blob.entries[Known(key)]) else None
  }

  function Repair(env: Platform, key: ConfigKey, entry: Option<Json>): Json {
    if entry.Some? then Coerce(env, key, entry.value) else Default(key)
  }

  /** The settings before the groups are looked at. */
  function Repaired(env: Platform, blob: Blob): (c: Config)
    ensures IsTotal(c)
  {
    map key: ConfigKey | true :: Repair(env, key, Entry(blob, key))
  }

  function WithDefaults(c: Config, group: Group): (r: Config)
    requires IsTotal(c)
    ensures IsTotal(r)
  {
    map key: ConfigKey | true :: if GroupOf(key) == group then Default(key) else c[key]
  }

  /** A group out of order falls back to its defaults as a whole. */
  function Ordered(env: Platform, group: Group, c: Config): (r: Config)
    requires IsTotal(c)
    ensures IsTotal(r)
  {
    if Holds(env, group, c) then c else WithDefaults(c, group)
  }

  /** What the store resolves to. */
  function Resolved(env: Platform, blob: Blob): (c: Config)
    ensures IsTotal(c)
  {
    Ordered(env, Recency, Ordered(env, Duplicates, Repaired(env, blob)))
  }

  /** A value every reader of this setting may rely on. */
  ghost predicate Valid(env: Platform, key: ConfigKey, value: Json) {
    match RuleOf(key)
    case Fixed(fixed) => value == Str(fixed)
    case Number(min, max, integer) =>
      value.Num? && min <= value.number <= max && (integer ==> IsWhole(value.number))
    case Text =>
      if key == PUSH_CONTACT then value == Str("") || (value.Str? && env.isContact(value.text))
      else if Modes(key) != {} then InModes(key, value)
      else value.Str? && !IsBlank(value.text) && (key == TIMEZONE ==> env.isZone(value.text))
  }

  lemma DefaultNumberIsInRange(key: ConfigKey)
    requires RuleOf(key).Number?
    ensures Default(key).Num? && RuleOf(key).min <= Default(key).number <= RuleOf(key).max
  {
  }

  lemma DefaultNumberIsWhole(key: ConfigKey)
    requires RuleOf(key).Number? && RuleOf(key).integer
    ensures Default(key).Num? && IsWhole(Default(key).number)
  {
  }

  lemma FirstIsNotBlank(s: string)
    requires s != "" && !IsSpace(s[0])
    ensures !IsBlank(s)
  {
  }

  lemma DefaultModelIsNotBlank(key: ConfigKey)
    requires key == LLM_MODEL || key == INSIGHT_LLM_MODEL || key == WHEN_LLM_MODEL
    ensures Default(key).Str? && Default(key).text != "" && Default(key).text[0] == '@'
  {
  }

  lemma TextKeys(key: ConfigKey)
    requires RuleOf(key).Text?
    ensures key in {LLM_MODEL, INSIGHT_LLM_MODEL, WHEN_LLM_MODEL, RERANK_MODE, NOTICE_COLLAPSE, RECALL_LOG,
                    TEAM_DEFAULT_WORKSPACE, TEAM_INSIGHTS, TEAM_MODE, TIMEZONE, PUSH_CONTACT}
  {
    hide Default;
  }

  lemma DefaultWordIsNotBlank(key: ConfigKey)
    requires key in {RERANK_MODE, NOTICE_COLLAPSE, RECALL_LOG, TEAM_DEFAULT_WORKSPACE, TEAM_INSIGHTS, TEAM_MODE, TIMEZONE}
    ensures Default(key).Str? && Default(key).text != "" && !IsSpace(Default(key).text[0])
  {
  }

  lemma DefaultTextIsNotBlank(key: ConfigKey)
    requires RuleOf(key).Text? && key != PUSH_CONTACT
    ensures Default(key).Str? && !IsBlank(Default(key).text)
  {
    TextKeys(key);
    hide IsBlank, RuleOf, Default;
    if key == LLM_MODEL || key == INSIGHT_LLM_MODEL || key == WHEN_LLM_MODEL {
      DefaultModelIsNotBlank(key);
    } else {
      DefaultWordIsNotBlank(key);
    }
    FirstIsNotBlank(Default(key).text);
  }

  lemma DefaultModeIsKnown(key: ConfigKey)
    ensures Modes(key) != {} ==> InModes(key, Default(key))
  {
    hide RuleOf;
  }

  lemma DefaultIsValid(env: Platform, key: ConfigKey)
    requires IsPlatform(env)
    ensures Valid(env, key, Default(key))
  {
    if RuleOf(key).Number? {
      DefaultNumberIsInRange(key);
      if RuleOf(key).integer {
        DefaultNumberIsWhole(key);
      }
      hide RuleOf, Default, Modes, IsWhole;
    } else if RuleOf(key).Text? && key != PUSH_CONTACT {
      DefaultTextIsNotBlank(key);
      DefaultModeIsKnown(key);
      assert key == TIMEZONE ==> Default(key) == Str("UTC");
      hide RuleOf, Default, Modes, IsBlank, InModes;
    } else {
      assert key == PUSH_CONTACT || key == EMBEDDING_MODEL;
    }
  }

  /** Ranges are proper, and those of whole-number settings have whole bounds. */
  lemma RangesAreProper(key: ConfigKey)
    ensures var rule := RuleOf(key);
            rule.Number? ==> rule.min <= rule.max && (rule.integer ==> IsWhole(rule.min) && IsWhole(rule.max))
  {
    hide Default;
  }

  lemma RoundIsWhole(x: real)
    ensures IsWhole(Round(x))
    ensures IsWhole(x) ==> Round(x) == x
  {
    HalfAbove(x.Floor);
  }

  lemma HalfAbove(n: int)
    ensures (n as real + 0.5).Floor == n
  {
  }

  lemma NumberRepaired(x: real, min: real, max: real, integer: bool)
    requires min <= max && (integer ==> IsWhole(min) && IsWhole(max))
    ensures var y := Clamp(if integer then Round(x) else x, min, max);
            && min <= y <= max && (integer ==> IsWhole(y))
            && (min <= x <= max && (integer ==> IsWhole(x)) ==> y == x)
  {
    hide IsWhole, Round;
    RoundIsWhole(x);
  }

  lemma CoercedNumber(env: Platform, key: ConfigKey, value: Json)
    requires RuleOf(key).Number? && Valid(env, key, Default(key))
    ensures Valid(env, key, Coerce(env, key, value))
    ensures Valid(env, key, value) ==> Coerce(env, key, value) == value
  {
    RangesAreProper(key);
    hide Default, RuleOf, Modes, Clamp, Round, IsWhole, InModes, IsBlank;
    if value.Num? {
      var rule := RuleOf(key);
      NumberRepaired(value.number, rule.min, rule.max, rule.integer);
      assert Num(value.number) == value;
    }
  }

  lemma CoercedText(env: Platform, key: ConfigKey, value: Json)
    requires RuleOf(key).Text? && Valid(env, key, Default(key))
    ensures Valid(env, key, Coerce(env, key, value))
    ensures Valid(env, key, value) ==> Coerce(env, key, value) == value
  {
    hide Default, RuleOf;
    if Modes(key) != {} && InModes(key, value) {
      assert !IsSpace(value.text[0]);
    }
  }

  /** Repair always ends in a valid value, and changes nothing that already is one. */
  lemma CoerceIsValid(env: Platform, key: ConfigKey, value: Json)
    requires IsPlatform(env)
    ensures Valid(env, key, Coerce(env, key, value))
    ensures Valid(env, key, value) ==> Coerce(env, key, value) == value
  {
    DefaultIsValid(env, key);
    match RuleOf(key)
    case Fixed(_) => hide Default, RuleOf, Modes;
    case Number(_, _, _) => hide *; CoercedNumber(env, key, value);
    case Text => hide *; CoercedText(env, key, value);
  }

  lemma DefaultGroupsHold(env: Platform)
    ensures AllHold(env, Defaults())
  {
  }

  /** Falling back to defaults puts the group in order, whatever the other settings are. */
  lemma OrderedHolds(env: Platform, group: Group, c: Config)
    requires IsTotal(c)
    ensures Holds(env, group, Ordered(env, group, c))
    ensures forall key :: GroupOf(key) != group ==> Ordered(env, group, c)[key] == c[key]
  {
    DefaultGroupsHold(env);
    SameGroup(env, group, WithDefaults(c, group), Defaults());
    hide Default;
  }

  /** Main result of the read path: whatever the store holds, every resolved setting is valid and both groups are ordered. */
  lemma ResolvedIsSound(env: Platform, blob: Blob)
    requires IsPlatform(env)
    ensures var c := Resolved(env, blob);
            (forall key :: Valid(env, key, c[key])) && AllHold(env, c)
  {
    var c := Repaired(env, blob);
    var c1 := Ordered(env, Duplicates, c);
    forall key ensures Valid(env, key, Resolved(env, blob)[key]) {
      DefaultIsValid(env, key);
      var e := Entry(blob, key);
      if e.Some? {
        CoerceIsValid(env, key, e.value);
      }
      hide Valid, Coerce, Default, GroupOf, Holds;
    }
    OrderedHolds(env, Duplicates, c);
    OrderedHolds(env, Recency, c1);
    SameGroup(env, Duplicates, c1, Ordered(env, Recency, c1));
  }

  /** A setting resolves to its repaired entry unless its group is out of order, and then to its default. */
  lemma ResolvedAt(env: Platform, blob: Blob, key: ConfigKey)
    ensures var c := Repaired(env, blob);
            Resolved(env, blob)[key] == if Holds(env, GroupOf(key), c) then c[key] else Default(key)
  {
    var c := Repaired(env, blob);
    OrderedHolds(env, Duplicates, c);
    SameGroup(env, Recency, c, Ordered(env, Duplicates, c));
    assert GroupOf(key).Alone? ==> Holds(env, GroupOf(key), c);
    assert GroupOf(key) == Duplicates || GroupOf(key) == Recency || GroupOf(key) == Alone(key);
    hide Repaired, Default, Holds, GroupOf;
  }

  // ── The store and its operations ──────────────────────────────────────────

  datatype Outcome = Done | BadValue(name: Name) | BrokenGroup(group: Group)

  /** The active overrides: known or inherited names, less a stale value of a fixed setting. */
  predicate Active(name: Name, value: Json) {
    match name
    case Unknown(_) => false
    case Inherited(_) => true
    case Known(key) => RuleOf(key).Fixed? ==> value == Str(RuleOf(key).value)
  }

  function Overrides(blob: Blob): Entries {
    if blob.Unusable? then map[] else map name | name in blob.entries && Active(name, blob.entries[name]) :: blob.entries[name]
  }

  /** What the settings would be with these overrides taken as they are. */
  function Effective(overrides: Entries): (c: Config)
    ensures IsTotal(c)
  {
    map key: ConfigKey | true :: if Known(key) in overrides then overrides[Known(key)] else Default(key)
  }

  /** JSON has no infinite number: it is written as null. */
  function Serialized(value: Json): Json {
    if value.Infinite? then Null else value
  }

  predicate IsDefault(name: Name, value: Json) {
    name.Known? && value == Default(name.key)
  }

  function Sparse(merged: Entries): Entries {
    map name | name in merged && !IsDefault(name, merged[name]) :: Serialized(merged[name])
  }

  ghost predicate AllAccepted(env: Platform, patch: Entries) {
    forall name :: name in patch ==> Accepts(env, name, patch[name])
  }

  /** The patch is stored: every value passes and the merged settings keep both groups in order. */
  ghost predicate Storable(env: Platform, blob: Blob, patch: Entries) {
    && AllAccepted(env, patch)
    && AllHold(env, Effective(Overrides(blob) + patch))
  }

  ghost function Written(env: Platform, blob: Blob, patch: Entries): Blob {
    if Storable(env, blob, patch) then Record(Sparse(Overrides(blob) + patch)) else blob
  }

  function ResetOf(blob: Blob, key: ConfigKey): Blob {
    var overrides := Overrides(blob);
    if Known(key) in overrides
    then Record(map name | name in overrides && name != Known(key) :: Serialized(overrides[name]))
    else blob
  }

  class Store {
    var blob: Blob

    constructor ()
      ensures blob == Unusable
    {
      blob := Unusable;
    }

    /** Reads and repairs; entries may come in any order. */
    method ResolveConfig(env: Platform) returns (resolved: Config)
      ensures resolved == Resolved(env, blob)
    {
      resolved := Defaults();
      if blob.Unusable? {
        assert Repaired(env, blob) == Defaults();
        DefaultGroupsHold(env);
        return;
      }
      var todo := blob.entries.Keys;
      while todo != {}
        invariant todo <= blob.entries.Keys
        invariant IsTotal(resolved)
        invariant forall key ::
                    resolved[key] == if Known(key) in todo then Default(key) else Repaired(env, blob)[key]
        decreases todo
      {
        var name :| name in todo;
        todo := todo - {name};
        if name.Known? {
          resolved := resolved[name.key := Coerce(env, name.key, blob.entries[name])];
        }
      }
      assert resolved == Repaired(env, blob);
      if !Holds(env, Duplicates, resolved) {
        resolved := WithDefaults(resolved, Duplicates);
      }
      if !Holds(env, Recency, resolved) {
        resolved := WithDefaults(resolved, Recency);
      }
    }

    method ReadOverrides() returns (out: Entries)
      ensures out == Overrides(blob)
    {
      out := map[];
      if blob.Unusable? {
        return;
      }
      var todo := blob.entries.Keys;
      while todo != {}
        invariant todo <= blob.entries.Keys
        invariant out == map name | name in Overrides(blob) && name !in todo :: Overrides(blob)[name]
        decreases todo
      {
        var name :| name in todo;
        todo := todo - {name};
        if name.Unknown? {
          continue;
        }
        if name.Known? && RuleOf(name.key).Fixed? && blob.entries[name] != Str(RuleOf(name.key).value) {
          continue;
        }
        out := out[name := blob.entries[name]];
      }
    }

    /** Stores the patch or rejects it whole. */
    method WriteOverrides(env: Platform, patch: Entries) returns (outcome: Outcome)
      modifies this
      ensures blob == Written(env, old(blob), patch)
      ensures outcome.Done? <==> Storable(env, old(blob), patch)
      ensures outcome.BadValue? ==> outcome.name in patch && !Accepts(env, outcome.name, patch[outcome.name])
      ensures outcome.BrokenGroup? ==>
                AllAccepted(env, patch) && !Holds(env, outcome.group, Effective(Overrides(old(blob)) + patch))
    {
      hide Accepts, Overrides, Sparse, Holds, Effective;
      var todo := patch.Keys;
      while todo != {}
        invariant todo <= patch.Keys
        invariant forall name :: name in patch && name !in todo ==> Accepts(env, name, patch[name])
        decreases todo
      {
        var name :| name in todo;
        todo := todo - {name};
        if !Accepts(env, name, patch[name]) {
          return BadValue(name);
        }
      }
      var overrides := ReadOverrides();
      var merged := overrides + patch;
      var effective := Effective(merged);
      if !Holds(env, Duplicates, effective) {
        return BrokenGroup(Duplicates);
      }
      if !Holds(env, Recency, effective) {
        return BrokenGroup(Recency);
      }
      var sparse := DropDefaults(merged);
      blob := Record(sparse);
      return Done;
    }

    /** Keeps the values that differ from their shipped default. */
    static method DropDefaults(merged: Entries) returns (sparse: Entries)
      ensures sparse == Sparse(merged)
    {
      hide IsDefault;
      sparse := map[];
      var todo := merged.Keys;
      while todo != {}
        invariant todo <= merged.Keys
        invariant sparse == map name | name in Sparse(merged) && name !in todo :: Sparse(merged)[name]
        decreases todo
      {
        var name :| name in todo;
        todo := todo - {name};
        if !IsDefault(name, merged[name]) {
          sparse := sparse[name := Serialized(merged[name])];
        }
      }
    }

    method ResetOverride(key: ConfigKey)
      modifies this
      ensures blob == ResetOf(old(blob), key)
    {
      var overrides := ReadOverrides();
      if Known(key) !in overrides {
        return;
      }
      blob := Record(map name | name in overrides && name != Known(key) :: Serialized(overrides[name]));
    }
  }

  // ── Runs ──────────────────────────────────────────────────────────────────

  datatype Operation = Write(patch: Entries) | Reset(key: ConfigKey)

  ghost function Apply(env: Platform, blob: Blob, op: Operation): Blob {
    match op
    case Write(patch) => Written(env, blob, patch)
    case Reset(key) => ResetOf(blob, key)
  }

  /** The store after some operations, in order, from an empty store. */
  ghost function After(env: Platform, ops: seq<Operation>): Blob {
    if ops == [] then Unusable else Apply(env, After(env, ops[..|ops| - 1]), ops[|ops| - 1])
  }

  /** Everything in the store passed the strict check, and nothing is stored that equals its default. */
  ghost predicate WellKept(env: Platform, blob: Blob) {
    blob.Record? ==>
      forall name :: name in blob.entries ==>
        Accepts(env, name, blob.entries[name]) && !IsDefault(name, blob.entries[name])
  }

  /** An accepted value is an active override, and survives being serialized. */
  lemma AcceptedIsActive(env: Platform, name: Name, value: Json)
    requires Accepts(env, name, value)
    ensures Active(name, value) && Serialized(value) == value
  {
  }

  lemma OverridesOfKept(env: Platform, blob: Blob)
    requires WellKept(env, blob)
    ensures Overrides(blob) == if blob.Record? then blob.entries else map[]
  {
    hide Accepts, Active;
    if blob.Record? {
      forall name | name in blob.entries ensures Active(name, blob.entries[name]) {
        AcceptedIsActive(env, name, blob.entries[name]);
      }
    }
  }

  lemma ApplyKeepsWell(env: Platform, blob: Blob, op: Operation)
    requires WellKept(env, blob)
    ensures WellKept(env, Apply(env, blob, op))
  {
    OverridesOfKept(env, blob);
    var overrides := Overrides(blob);
    hide Accepts, Default, Overrides;
    match op
    case Reset(key) =>
      forall name | name in overrides ensures Serialized(overrides[name]) == overrides[name] {
        AcceptedIsActive(env, name, overrides[name]);
      }
    case Write(patch) =>
      if Storable(env, blob, patch) {
        var merged := overrides + patch;
        forall name | name in merged
          ensures Accepts(env, name, merged[name]) && Serialized(merged[name]) == merged[name]
        {
          AcceptedIsActive(env, name, merged[name]);
        }
      }
  }

  /** In any run, writes and resets alike, the store never holds a value equal to its default, or an unchecked one. */
  lemma {:induction false} RunKeepsWell(env: Platform, ops: seq<Operation>)
    ensures WellKept(env, After(env, ops))
  {
    if ops != [] {
      RunKeepsWell(env, ops[..|ops| - 1]);
      ApplyKeepsWell(env, After(env, ops[..|ops| - 1]), ops[|ops| - 1]);
    }
  }

  /** Defaults overlaid by the accepted patches, in order. */
  ghost function Overlay(env: Platform, patches: seq<Entries>): (c: Config)
    ensures IsTotal(c)
  {
    if patches == [] then Defaults()
    else
      var before, patch := patches[..|patches| - 1], patches[|patches| - 1];
      var c := Overlay(env, before);
      if Storable(env, After(env, Writes(before)), patch)
      then map key: ConfigKey | true :: if Known(key) in patch then patch[Known(key)] else c[key]
      else c
  }

  function Writes(patches: seq<Entries>): (ops: seq<Operation>)
    ensures |ops| == |patches|
  {
    seq(|patches|, i requires 0 <= i < |patches| => Write(patches[i]))
  }

  lemma WritesSnoc(patches: seq<Entries>)
    requires patches != []
    ensures Writes(patches)[..|patches| - 1] == Writes(patches[..|patches| - 1])
    ensures Writes(patches)[|patches| - 1] == Write(patches[|patches| - 1])
  {
  }

  /** After writes only, the stored overrides over the defaults are the overlay, and its groups are in order. */
  lemma {:induction false} WritesStoreOverlay(env: Platform, patches: seq<Entries>)
    requires IsPlatform(env)
    ensures var c := Effective(Overrides(After(env, Writes(patches))));
            c == Overlay(env, patches) && AllHold(env, c)
  {
    if patches == [] {
      assert Effective(map[]) == Defaults();
      DefaultGroupsHold(env);
    } else {
      var before, patch := patches[..|patches| - 1], patches[|patches| - 1];
      var blob := After(env, Writes(before));
      WritesSnoc(patches);
      WritesStoreOverlay(env, before);
      RunKeepsWell(env, Writes(before));
      assert After(env, Writes(patches)) == Written(env, blob, patch);
      hide After, Overlay, Writes, WellKept, Accepts, Overrides;
      if Storable(env, blob, patch) {
        ApplyKeepsWell(env, blob, Write(patch));
        OverridesOfKept(env, Written(env, blob, patch));
        SparseIsEffective(env, blob, patch);
      }
    }
  }

  /** Dropping defaults from the stored overrides does not change what they amount to. */
  lemma SparseIsEffective(env: Platform, blob: Blob, patch: Entries)
    requires WellKept(env, blob) && Storable(env, blob, patch)
    ensures Effective(Sparse(Overrides(blob) + patch)) == Effective(Overrides(blob) + patch)
  {
    OverridesOfKept(env, blob);
    var merged := Overrides(blob) + patch;
    forall name | name in merged ensures Serialized(merged[name]) == merged[name] {
      AcceptedIsActive(env, name, merged[name]);
    }
  }

  /** The strict check admits only valid values, but for the log mode. */
  lemma AcceptedIsValid(env: Platform, key: ConfigKey, value: Json)
    requires Accepts(env, Known(key), value)
    ensures key != RECALL_LOG ==> Valid(env, key, value)
    ensures key == RECALL_LOG ==> value.Str?
  {
  }

  lemma LogModeCoerced(env: Platform, value: Json)
    ensures Coerce(env, RECALL_LOG, value) == if InModes(RECALL_LOG, value) then value else Str("off")
    ensures InModes(RECALL_LOG, Default(RECALL_LOG)) && InModes(RECALL_LOG, Str("off"))
  {
    if InModes(RECALL_LOG, value) {
      assert !IsSpace(value.text[0]);
    }
  }

  /** In a well-kept store repair changes nothing, but for an unknown log mode. */
  lemma KeptIsRepaired(env: Platform, blob: Blob, key: ConfigKey)
    requires IsPlatform(env) && WellKept(env, blob)
    ensures var value := Effective(Overrides(blob))[key];
            Repaired(env, blob)[key] ==
            if key == RECALL_LOG && !InModes(RECALL_LOG, value) then Str("off") else value
  {
    OverridesOfKept(env, blob);
    LogModeCoerced(env, Effective(Overrides(blob))[RECALL_LOG]);
    var e := Entry(blob, key);
    hide Valid, Coerce, Default, Overrides;
    if e.Some? {
      AcceptedIsValid(env, key, e.value);
      CoerceIsValid(env, key, e.value);
    }
  }

  /**
   Main result for runs of writes: the store resolves to the defaults overlaid by the accepted
   patches in order, if and only if the overlay's log mode is one of its two modes.  Every other
   setting always resolves to the overlay.
   */
  lemma WritesResolveToOverlay(env: Platform, patches: seq<Entries>)
    requires IsPlatform(env)
    ensures var blob := After(env, Writes(patches));
            && (Resolved(env, blob) == Overlay(env, patches) <==> InModes(RECALL_LOG, Overlay(env, patches)[RECALL_LOG]))
            && (forall key :: key != RECALL_LOG ==> Resolved(env, blob)[key] == Overlay(env, patches)[key])
  {
    WritesStoreOverlay(env, patches);
    RunKeepsWell(env, Writes(patches));
    hide After, Overlay, Writes;
    KeptResolves(env, After(env, Writes(patches)));
  }

  /** A well-kept store with ordered groups resolves to its overrides, but for an unknown log mode. */
  lemma KeptResolves(env: Platform, blob: Blob)
    requires IsPlatform(env) && WellKept(env, blob)
    requires AllHold(env, Effective(Overrides(blob)))
    ensures var c := Effective(Overrides(blob));
            && (Resolved(env, blob) == c <==> InModes(RECALL_LOG, c[RECALL_LOG]))
            && (forall key :: key != RECALL_LOG ==> Resolved(env, blob)[key] == c[key])
  {
    var c, r := Effective(Overrides(blob)), Repaired(env, blob);
    forall key ensures r[key] == if key == RECALL_LOG && !InModes(RECALL_LOG, c[key]) then Str("off") else c[key] {
      KeptIsRepaired(env, blob, key);
    }
    LogModeCoerced(env, c[RECALL_LOG]);
    LogModeIsAlone();
    hide Repaired, Overrides, Default, Modes, WellKept, Effective, InModes, GroupOf, Coerce, Resolved;
    SameGroup(env, Duplicates, c, r);
    SameGroup(env, Recency, c, r);
    ResolvedIfOrdered(env, blob);
    hide *;
    EqualButOne(c, r, RECALL_LOG);
  }

  lemma EqualButOne(c: Config, r: Config, one: ConfigKey)
    requires forall key :: key in c && key in r
    requires forall key :: key != one ==> r[key] == c[key]
    ensures r == c <==> r[one] == c[one]
  {
  }

  lemma LogModeIsAlone()
    ensures GroupOf(RECALL_LOG) == Alone(RECALL_LOG)
  {
  }

  lemma ResolvedIfOrdered(env: Platform, blob: Blob)
    requires AllHold(env, Repaired(env, blob))
    ensures Resolved(env, blob) == Repaired(env, blob)
  {
    hide Repaired, Holds;
  }

  lemma SampledIsAccepted(env: Platform)
    requires IsPlatform(env)
    ensures AllAccepted(env, map[Known(RECALL_LOG) := Str("sampled")])
  {
    assert !IsSpace("sampled"[0]);
  }

  /** The log mode is not checked on the way in: a write of an unknown one is stored and resolves to "off". */
  lemma UnknownLogModeIsStored(env: Platform)
    requires IsPlatform(env)
    ensures var patch: Entries := map[Known(RECALL_LOG) := Str("sampled")];
            var blob := After(env, Writes([patch]));
            && Storable(env, Unusable, patch)
            && Overlay(env, [patch])[RECALL_LOG] == Str("sampled")
            && Resolved(env, blob)[RECALL_LOG] == Str("off")
  {
    var patch: Entries := map[Known(RECALL_LOG) := Str("sampled")];
    SampledIsAccepted(env);
    DefaultGroupsHold(env);
    hide AllAccepted;
    var patches := [patch];
    assert patches[..0] == [];
    assert After(env, Writes([])) == Unusable;
    WritesStoreOverlay(env, patches);
    RunKeepsWell(env, Writes(patches));
    KeptIsRepaired(env, After(env, Writes(patches)), RECALL_LOG);
    ResolvedAt(env, After(env, Writes(patches)), RECALL_LOG);
    assert Str("sampled").text !in Modes(RECALL_LOG);
  }

  // ── Reset ─────────────────────────────────────────────────────────────────

  lemma KeyNotActive(blob: Blob, key: ConfigKey)
    ensures Known(key) !in Overrides(blob) <==> Entry(blob, key).None? || !Active(Known(key), Entry(blob, key).value)
    ensures Known(key) in Overrides(blob) ==> Entry(blob, key) == Some(Overrides(blob)[Known(key)])
  {
    hide Active;
  }

  lemma EntryAfterReset(blob: Blob, key: ConfigKey, other: ConfigKey)
    ensures var e := Entry(blob, other);
            Entry(ResetOf(blob, key), other) ==
            if Known(key) !in Overrides(blob) then e
            else if other == key || e.None? || !Active(Known(other), e.value) then None
            else Some(Serialized(e.value))
  {
    KeyNotActive(blob, other);
    hide Active, Serialized, Overrides;
  }

  lemma RepairedAfterReset(env: Platform, blob: Blob, key: ConfigKey, other: ConfigKey)
    ensures Repaired(env, ResetOf(blob, key))[other] == if other == key then Default(key) else Repaired(env, blob)[other]
  {
    EntryAfterReset(blob, key, other);
    KeyNotActive(blob, key);
    var e := Entry(blob, other);
    if e.Some? {
      RepairIgnoresSerialization(env, other, e.value);
    }
    hide ResetOf, Overrides, Entry, Coerce, Default, Active, Serialized;
  }

  /** An inactive or infinite entry is repaired to what a missing or null one is. */
  lemma RepairIgnoresSerialization(env: Platform, key: ConfigKey, value: Json)
    ensures Coerce(env, key, Serialized(value)) == Coerce(env, key, value)
    ensures !Active(Known(key), value) ==> Coerce(env, key, value) == Default(key)
  {
    hide Default;
  }

  /**
   Main result for resets, for every stored blob: the setting resolves to its default, and every
   setting outside its group is left as it was.
   */
  lemma ResetRestoresDefault(env: Platform, blob: Blob, key: ConfigKey, other: ConfigKey)
    ensures Resolved(env, ResetOf(blob, key))[key] == Default(key)
    ensures GroupOf(other) != GroupOf(key) ==> Resolved(env, ResetOf(blob, key))[other] == Resolved(env, blob)[other]
  {
    ResolvedAt(env, ResetOf(blob, key), key);
    ResolvedAt(env, ResetOf(blob, key), other);
    ResolvedAt(env, blob, other);
    var c, c' := Repaired(env, blob), Repaired(env, ResetOf(blob, key));
    forall k ensures c'[k] == if k == key then Default(key) else c[k] {
      RepairedAfterReset(env, blob, key, k);
    }
    hide Repaired, Resolved, ResetOf, Default, Holds, GroupOf;
    if GroupOf(other) != GroupOf(key) {
      SameGroup(env, GroupOf(other), c, c');
    }
  }

  /**
   A patch that touches neither group and passes the strict check is stored exactly when the
   overrides already in the store keep both groups in order.
   */
  lemma UnrelatedWriteIsStoredExactly(env: Platform, blob: Blob, patch: Entries)
    requires AllAccepted(env, patch)
    requires forall key :: GroupOf(key) == Duplicates || GroupOf(key) == Recency ==> Known(key) !in patch
    ensures Storable(env, blob, patch) <==> AllHold(env, Effective(Overrides(blob)))
  {
    hide Default, Overrides, Accepts, GroupOf;
    var c, c' := Effective(Overrides(blob)), Effective(Overrides(blob) + patch);
    SameGroup(env, Duplicates, c, c');
    SameGroup(env, Recency, c, c');
  }

  /** Resetting one of a pair can leave the pair out of order, and then even unrelated writes are refused. */
  lemma ResetCanBlockWrites(env: Platform)
    requires IsPlatform(env)
    ensures var pair: Entries := map[Known(DUPLICATE_BLOCK_THRESHOLD) := Num(0.75), Known(DUPLICATE_FLAG_THRESHOLD) := Num(0.7)];
            var unrelated: Entries := map[Known(MMR_LAMBDA) := Num(0.5)];
            && Storable(env, Unusable, pair)
            && AllAccepted(env, unrelated)
            && !Storable(env, ResetOf(Written(env, Unusable, pair), DUPLICATE_FLAG_THRESHOLD), unrelated)
  {
    var pair: Entries := map[Known(DUPLICATE_BLOCK_THRESHOLD) := Num(0.75), Known(DUPLICATE_FLAG_THRESHOLD) := Num(0.7)];
    var unrelated: Entries := map[Known(MMR_LAMBDA) := Num(0.5)];
    var low, high := Known(DUPLICATE_FLAG_THRESHOLD), Known(DUPLICATE_BLOCK_THRESHOLD);
    assert AllAccepted(env, pair) && AllAccepted(env, unrelated);
    DefaultGroupsHold(env);
    assert Overrides(Unusable) + pair == pair;
    assert Storable(env, Unusable, pair);
    assert Sparse(pair) == pair;
    var blob := Written(env, Unusable, pair);
    assert blob == Record(pair) && Overrides(blob) == pair;
    var reset := ResetOf(blob, DUPLICATE_FLAG_THRESHOLD);
    assert reset == Record(map[high := Num(0.75)]);
    hide Accepts, AllAccepted, Written, Sparse, ResetOf, Storable;
    assert Overrides(reset) == map[high := Num(0.75)];
    UnrelatedWriteIsStoredExactly(env, reset, unrelated);
    var c := Effective(Overrides(reset));
    assert c[DUPLICATE_BLOCK_THRESHOLD] == Num(0.75) && c[DUPLICATE_FLAG_THRESHOLD] == Num(0.8);
  }
}
