/** Threshold resolution: which trigger level of a synergy a count of
    distinct families reaches, and which tier the view highlights. */
module Thresholds {
  import opened Types

  /** Triggers in ascending order, as the trigger tables are authored. */
  ghost predicate Ascending(triggers: seq<int>) {
    forall i, j | 0 <= i < j < |triggers| :: triggers[i] <= triggers[j]
  }

  /** Triggers in strictly ascending order: no two tiers share a count. */
  ghost predicate StrictlyAscending(triggers: seq<int>) {
    forall i, j | 0 <= i < j < |triggers| :: triggers[i] < triggers[j]
  }

  /** `triggers.filter((n) => n <= value)`: the triggers not above `value`,
      in their original order. */
  function AtMost(triggers: seq<int>, value: int): (r: seq<int>)
    ensures |r| <= |triggers|
    ensures forall x :: x in r <==> x in triggers && x <= value
    ensures forall x {:trigger multiset(r)[x]} :: multiset(r)[x] == if x <= value then multiset(triggers)[x] else 0
    decreases |triggers|
  {
    if triggers == [] then []
    else
      var n := |triggers| - 1;
      assert triggers == triggers[..n] + [triggers[n]];
      AtMost(triggers[..n], value) + (if triggers[n] <= value then [triggers[n]] else [])
  }

  /** The filter keeps the order of its input: filtering a concatenation
      concatenates the filtered parts. */
  lemma {:induction false} AtMostAppend(a: seq<int>, b: seq<int>, value: int)
    ensures AtMost(a + b, value) == AtMost(a, value) + AtMost(b, value)
    decreases |b|
  {
    if b == [] {
      assert a + b == a;
    } else {
      var n := |b| - 1;
      AtMostAppend(a, b[..n], value);
      assert (a + b)[..|a + b| - 1] == a + b[..n];
      assert (a + b)[|a + b| - 1] == b[n];
    }
  }

  /** `s.at(-1)`: the last element, absent on an empty sequence. */
  function Last(s: seq<int>): (r: Option<int>)
    ensures r.None? <==> s == []
    ensures r.Some? ==> r.value == s[|s| - 1]
  {
    if s == [] then None else Some(s[|s| - 1])
  }

  /** `levelReached`: the last trigger that does not exceed `value`. */
  function LevelReached(triggers: seq<int>, value: int): Option<int> {
    Last(AtMost(triggers, value))
  }

  /** `SynergyTriggers[type][i]`: undefined (here `None`) past the end. */
  function TriggerAt(triggers: seq<int>, i: nat): Option<int> {
    if i < |triggers| then Some(triggers[i]) else None
  }

  /** Tier `i` is drawn highlighted when `levelReached === triggers[i]`;
      two undefined values compare equal. */
  predicate IsHighlighted(triggers: seq<int>, value: int, i: nat) {
    LevelReached(triggers, value) == TriggerAt(triggers, i)
  }

  /** For any trigger table, the level reached is the trigger at the last
      position whose trigger does not exceed `value`, and it is absent
      exactly when every trigger exceeds `value`. */
  lemma {:induction false} LevelReachedIsLastAtMost(triggers: seq<int>, value: int)
    ensures LevelReached(triggers, value).None? <==>
              forall i | 0 <= i < |triggers| :: triggers[i] > value
    ensures LevelReached(triggers, value).Some? ==>
              exists i | 0 <= i < |triggers| ::
                && triggers[i] == LevelReached(triggers, value).value
                && triggers[i] <= value
                && forall j | i < j < |triggers| :: triggers[j] > value
    decreases |triggers|
  {
    if triggers != [] {
      var n := |triggers| - 1;
      var prefix := triggers[..n];
      if triggers[n] <= value {
        assert AtMost(triggers, value) == AtMost(prefix, value) + [triggers[n]];
      } else {
        assert AtMost(triggers, value) == AtMost(prefix, value);
        LevelReachedIsLastAtMost(prefix, value);
        if LevelReached(prefix, value).Some? {
          var i :| 0 <= i < |prefix| && prefix[i] == LevelReached(prefix, value).value
                   && prefix[i] <= value && forall j | i < j < |prefix| :: prefix[j] > value;
          assert triggers[i] == prefix[i];
          assert forall j | i < j < |triggers| :: triggers[j] > value by {
            forall j | i < j < |triggers| ensures triggers[j] > value {
              if j < n { assert triggers[j] == prefix[j]; }
            }
          }
        } else {
          forall i | 0 <= i < |triggers| ensures triggers[i] > value {
            if i < n { assert triggers[i] == prefix[i]; }
          }
        }
      }
    }
  }

  /** With ascending triggers the level reached is the greatest trigger
      that does not exceed `value`. */
  lemma LevelReachedIsGreatest(triggers: seq<int>, value: int)
    requires Ascending(triggers)
    ensures LevelReached(triggers, value).Some? ==>
              && LevelReached(triggers, value).value in triggers
              && LevelReached(triggers, value).value <= value
              && forall k | 0 <= k < |triggers| && triggers[k] <= value ::
                   triggers[k] <= LevelReached(triggers, value).value
    ensures LevelReached(triggers, value).None? ==>
              forall k | 0 <= k < |triggers| :: value < triggers[k]
  {
    LevelReachedIsLastAtMost(triggers, value);
    if LevelReached(triggers, value).Some? {
      var t := LevelReached(triggers, value).value;
      var i :| 0 <= i < |triggers| && triggers[i] == t && triggers[i] <= value
               && forall j | i < j < |triggers| :: triggers[j] > value;
      assert forall k | 0 <= k < |triggers| && triggers[k] <= value :: k <= i;
    }
  }

  /** With ascending triggers, no level is reached exactly when `value`
      is below the first trigger. */
  lemma LevelReachedAbsentBelowFirst(triggers: seq<int>, value: int)
    requires Ascending(triggers) && |triggers| > 0
    ensures LevelReached(triggers, value).None? <==> value < triggers[0]
  {
    LevelReachedIsLastAtMost(triggers, value);
    if value < triggers[0] {
      assert forall i | 0 <= i < |triggers| :: triggers[0] <= triggers[i];
    }
  }

  /** Resolution is a monotone step function: a larger count never loses
      a level and never resolves to a lower one. */
  lemma LevelReachedMonotone(triggers: seq<int>, v1: int, v2: int)
    requires Ascending(triggers) && v1 <= v2
    ensures LevelReached(triggers, v1).Some? ==>
              && LevelReached(triggers, v2).Some?
              && LevelReached(triggers, v1).value <= LevelReached(triggers, v2).value
  {
    LevelReachedIsGreatest(triggers, v1);
    LevelReachedIsGreatest(triggers, v2);
    if LevelReached(triggers, v1).Some? {
      var t1 := LevelReached(triggers, v1).value;
      var k :| 0 <= k < |triggers| && triggers[k] == t1;
      assert triggers[k] <= v2;
    }
  }

  /** With strictly ascending triggers, tier `i` of the table is
      highlighted exactly when its trigger is reached and the next one
      (if any) is not. */
  lemma HighlightedIff(triggers: seq<int>, value: int, i: nat)
    requires StrictlyAscending(triggers) && i < |triggers|
    ensures IsHighlighted(triggers, value, i) <==>
              && triggers[i] <= value
              && (i + 1 == |triggers| || value < triggers[i + 1])
  {
    LevelReachedIsLastAtMost(triggers, value);
    var r := LevelReached(triggers, value);
    if IsHighlighted(triggers, value, i) {
      var k :| 0 <= k < |triggers| && triggers[k] == r.value && triggers[k] <= value
               && forall j | k < j < |triggers| :: triggers[j] > value;
      assert triggers[k] == triggers[i];
    }
    if triggers[i] <= value && (i + 1 == |triggers| || value < triggers[i + 1]) {
      assert forall j | i < j < |triggers| :: triggers[j] > value by {
        forall j | i < j < |triggers| ensures triggers[j] > value {
          if i + 1 < j { assert triggers[i + 1] < triggers[j]; }
        }
      }
      var k :| 0 <= k < |triggers| && triggers[k] == r.value && triggers[k] <= value
               && forall j | k < j < |triggers| :: triggers[j] > value;
      assert k >= i;
    }
  }

  /** With strictly ascending triggers at most one tier of the table is
      highlighted. */
  lemma AtMostOneHighlighted(triggers: seq<int>, value: int, i: nat, j: nat)
    requires StrictlyAscending(triggers) && i < |triggers| && j < |triggers|
    requires IsHighlighted(triggers, value, i) && IsHighlighted(triggers, value, j)
    ensures i == j
  {
  }

  /** When no level is reached, no tier of the table is highlighted; a tier
      index past the table compares equal to the absent level instead. */
  lemma NoHighlightWhenAbsent(triggers: seq<int>, value: int, i: nat)
    requires LevelReached(triggers, value).None?
    ensures IsHighlighted(triggers, value, i) <==> i >= |triggers|
  {
  }
}
