/** The cached session limit. Unlike the other caches, a load that cannot read the database
    stores the default and counts as loaded. */
module RoutingLimitCache {

  import opened Wrappers

  const DEFAULT_LIMIT := 50
  const MAX_LIMIT := 100_000

  /** The stored setting as a number: absent, unreadable as a number, or its value. */
  datatype Setting = Absent | Malformed | Set(value: int)

  /** What the setting means. */
  function Limit(s: Setting): (limit: int)
    ensures 0 <= limit <= MAX_LIMIT
  {
    match s
    case Set(value) => if 0 <= value <= MAX_LIMIT then value else DEFAULT_LIMIT
    case _ => DEFAULT_LIMIT
  }

  /** One use of the cache; `succeeds` says whether its query does, the setting what it finds. */
  datatype Step = Use(setting: Setting, succeeds: bool) | Invalidate

  function After(cached: Option<int>, s: Step): Option<int> {
    match s
    case Invalidate => None
    case Use(setting, succeeds) =>
      if cached.Some? then cached else Some(if succeeds then Limit(setting) else DEFAULT_LIMIT)
  }

  function Run(cached: Option<int>, steps: seq<Step>): Option<int>
    decreases |steps|
  {
    if steps == [] then cached else Run(After(cached, steps[0]), steps[1..])
  }

  class LimitCache {
    var loaded: bool
    var limit: int

    constructor ()
      ensures Cached() == None
    {
      loaded, limit := false, 0;
    }

    function Cached(): Option<int>
      reads this
    {
      if loaded then Some(limit) else None
    }

    method CachedRoutingLimit(setting: Setting, succeeds: bool) returns (answer: int)
      modifies this
      ensures Cached() == After(old(Cached()), Use(setting, succeeds)) == Some(answer)
    {
      if loaded {
        return limit;
      }
      answer := DEFAULT_LIMIT;
      if succeeds && setting.Set? {
        var parsed := setting.value;
        if parsed >= 0 && parsed <= MAX_LIMIT {
          answer := parsed;
        }
      }
      limit, loaded := answer, true;
    }

    method InvalidateRoutingLimit()
      modifies this
      ensures Cached() == None == After(old(Cached()), Invalidate)
    {
      loaded, limit := false, 0;
    }
  }

  /** While the setting does not change and nothing is invalidated, every use answers what the
      first one found: the setting if that read succeeded and it is a number from 0 to 100000,
      and 50 if not. */
  lemma {:induction false} FirstReadDecides(steps: seq<Step>, setting: Setting)
    requires steps != [] && forall s | s in steps :: s.Use? && s.setting == setting
    ensures Run(None, steps) ==
            Some(if steps[0].succeeds && setting.Set? && 0 <= setting.value <= 100_000
                 then setting.value else 50)
  {
    var first := After(None, steps[0]);
    assert steps[0] in steps;
    KeptWhileUsed(first, steps[1..]);
    assert Run(None, steps) == first;
  }

  lemma {:induction false} KeptWhileUsed(cached: Option<int>, steps: seq<Step>)
    requires cached.Some? && forall s | s in steps :: s.Use?
    ensures Run(cached, steps) == cached
    decreases |steps|
  {
    if steps != [] {
      KeptWhileUsed(cached, steps[1..]);
    }
  }
}
