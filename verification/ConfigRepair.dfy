/** What repair makes of a stored value, and what the strict check lets through (src/config.ts). */
module ConfigRepair {
  import opened Config
  import opened ConfigTable

  function Apart(x: real, y: real): real {
    if x >= y then x - y else y - x
  }

  /** Out of range the nearest bound, within range the number itself. */
  lemma ClampIsNearest(x: real, min: real, max: real)
    requires min <= max
    ensures var c := Clamp(x, min, max);
      min <= c <= max && forall y: real :: min <= y <= max ==> Apart(c, x) <= Apart(y, x)
  {
  }

  /** Rounding goes to the nearest whole number, and from the middle upwards. */
  lemma RoundIsNearest(x: real)
    ensures IsWhole(Round(x)) && -0.5 <= x - Round(x) < 0.5
  {
    RoundIsWhole(x);
  }

  lemma WholeApart(x: real, m: int, k: int)
    requires -0.5 <= x - m as real < 0.5
    ensures Apart(m as real, x) <= Apart(k as real, x)
    ensures k <= m || k >= m + 1
  {
  }

  lemma NearestWhole(x: real, y: real)
    requires IsWhole(y)
    ensures Apart(Round(x), x) <= Apart(y, x)
    ensures y <= Round(x) || y >= Round(x) + 1.0
  {
    RoundIsNearest(x);
    var m, k := (x + 0.5).Floor, y.Floor;
    assert Round(x) == m as real && y == k as real;
    hide Apart, Round, IsWhole;
    WholeApart(x, m, k);
  }

  lemma NearestWholeInRange(x: real, min: real, max: real, y: real)
    requires IsWhole(min) && IsWhole(max) && min <= y <= max && IsWhole(y)
    ensures Apart(Clamp(Round(x), min, max), x) <= Apart(y, x)
  {
    NearestWhole(x, y);
    NearestWhole(x, min);
    NearestWhole(x, max);
    RoundIsNearest(x);
    hide Round, IsWhole;
  }

  /** Of all numbers valid for a setting none is nearer to a stored number than what it is repaired to. */
  lemma RepairIsNearest(env: Platform, key: ConfigKey, x: real, y: real)
    requires IsPlatform(env) && RuleOf(key).Number? && Valid(env, key, Num(y))
    ensures var r := Coerce(env, key, Num(x)); r.Num? && Apart(r.number, x) <= Apart(y, x)
  {
    RangesAreProper(key);
    var rule := RuleOf(key);
    hide RuleOf, Default, Modes;
    assert rule.min <= y <= rule.max && (rule.integer ==> IsWhole(y));
    if rule.integer {
      NearestWholeInRange(x, rule.min, rule.max, y);
    } else {
      ClampIsNearest(x, rule.min, rule.max);
    }
  }

  /** What is neither valid nor a number for a number setting becomes the default, or "off" where there are modes. */
  lemma InvalidFallsBack(env: Platform, key: ConfigKey, value: Json)
    requires IsPlatform(env) && !Valid(env, key, value) && !(RuleOf(key).Number? && value.Num?)
    ensures Coerce(env, key, value) == if Modes(key) != {} then Str("off") else Default(key)
  {
    if Modes(key) != {} {
      ModesAreTexts(key);
    }
    hide RuleOf, Default, Modes, IsBlank;
  }

  lemma ModesAreTexts(key: ConfigKey)
    requires Modes(key) != {}
    ensures RuleOf(key).Text? && key != PUSH_CONTACT && "off" in Modes(key)
  {
    hide Default;
  }

  /** The strict check lets exactly the valid values through, but for the log mode, where any text that is not blank passes. */
  lemma StrictExactly(env: Platform, key: ConfigKey, value: Json)
    ensures key != RECALL_LOG ==> (Accepts(env, Known(key), value) <==> Valid(env, key, value))
    ensures key == RECALL_LOG ==> (Accepts(env, Known(key), value) <==> value.Str? && !IsBlank(value.text))
  {
    ModeKeys(key);
    if Modes(key) != {} {
      ModesAreTexts(key);
    }
    hide Default, IsBlank, RuleOf, Modes, IsWhole;
  }

  lemma ModeKeys(key: ConfigKey)
    ensures Modes(key) != {} <==> key == RERANK_MODE || key == NOTICE_COLLAPSE || key == RECALL_LOG
  {
  }

  // ── The ordered groups, in numbers ────────────────────────────────────────

  ghost predicate IsAbove(c: Config, high: ConfigKey, low: ConfigKey)
    requires IsTotal(c)
  {
    c[high].Num? && c[low].Num? && c[high].number > c[low].number
  }

  ghost predicate IsNotAbove(c: Config, low: ConfigKey, high: ConfigKey)
    requires IsTotal(c)
  {
    c[high].Num? && c[low].Num? && c[low].number <= c[high].number
  }

  ghost predicate DuplicatesInOrder(c: Config)
    requires IsTotal(c)
  {
    IsAbove(c, DUPLICATE_BLOCK_THRESHOLD, DUPLICATE_FLAG_THRESHOLD)
  }

  ghost predicate RecencyInOrder(c: Config)
    requires IsTotal(c)
  {
    IsNotAbove(c, RECENCY_FLOOR_VOLATILE, RECENCY_FLOOR) && IsNotAbove(c, RECENCY_FLOOR, RECENCY_FLOOR_DURABLE)
  }

  lemma GroupedAreNumbers(env: Platform, key: ConfigKey, value: Json)
    requires !GroupOf(key).Alone? && Valid(env, key, value)
    ensures value.Num?
  {
  }

  lemma GroupsInNumbers(env: Platform, c: Config)
    requires IsTotal(c) && forall key :: Valid(env, key, c[key])
    ensures Holds(env, Duplicates, c) <==> DuplicatesInOrder(c)
    ensures Holds(env, Recency, c) <==> RecencyInOrder(c)
  {
    hide Valid;
    GroupedAreNumbers(env, DUPLICATE_BLOCK_THRESHOLD, c[DUPLICATE_BLOCK_THRESHOLD]);
    GroupedAreNumbers(env, DUPLICATE_FLAG_THRESHOLD, c[DUPLICATE_FLAG_THRESHOLD]);
    GroupedAreNumbers(env, RECENCY_FLOOR_VOLATILE, c[RECENCY_FLOOR_VOLATILE]);
    GroupedAreNumbers(env, RECENCY_FLOOR, c[RECENCY_FLOOR]);
    GroupedAreNumbers(env, RECENCY_FLOOR_DURABLE, c[RECENCY_FLOOR_DURABLE]);
  }

  lemma RepairedIsValid(env: Platform, blob: Blob)
    requires IsPlatform(env)
    ensures forall key :: Valid(env, key, Repaired(env, blob)[key])
  {
    hide Valid, Coerce, Default;
    forall key ensures Valid(env, key, Repaired(env, blob)[key]) {
      DefaultIsValid(env, key);
      if Entry(blob, key).Some? {
        CoerceIsValid(env, key, Entry(blob, key).value);
      }
    }
  }

  /** Whatever is stored, blocking takes more than flagging, and the recency floors rise with durability. */
  lemma NumbersInOrder(env: Platform, blob: Blob)
    requires IsPlatform(env)
    ensures DuplicatesInOrder(Resolved(env, blob)) && RecencyInOrder(Resolved(env, blob))
  {
    hide *;
    ResolvedIsSound(env, blob);
    AllHoldBoth(env, Resolved(env, blob));
    GroupsInNumbers(env, Resolved(env, blob));
  }

  /**
   A setting resolves to its repaired value, if it is in no ordered group or the repaired numbers of
   its group are in order, and to its default if they are not.
   */
  lemma FallsBackExactly(env: Platform, blob: Blob, key: ConfigKey)
    requires IsPlatform(env)
    ensures var r := Repaired(env, blob);
      var inOrder := (GroupOf(key) == Duplicates ==> DuplicatesInOrder(r)) && (GroupOf(key) == Recency ==> RecencyInOrder(r));
      Resolved(env, blob)[key] == if inOrder then r[key] else Default(key)
  {
    var r := Repaired(env, blob);
    RepairedIsValid(env, blob);
    ResolvedAt(env, blob, key);
    AloneHolds(env, key, r);
    hide *;
    GroupsInNumbers(env, r);
  }

  lemma AloneHolds(env: Platform, key: ConfigKey, c: Config)
    requires IsTotal(c)
    ensures GroupOf(key) == Duplicates || GroupOf(key) == Recency || Holds(env, GroupOf(key), c)
  {
  }

  lemma AllHoldBoth(env: Platform, c: Config)
    requires IsTotal(c) && AllHold(env, c)
    ensures Holds(env, Duplicates, c) && Holds(env, Recency, c)
  {
  }
}
