/**
 * The visibility latch: sections that have intersected the viewport at least
 * once, used to trigger their entrance animations. Ids are only ever added.
 */
module Visibility {
  import opened Scroll

  /** One intersection-observer entry: its target section and whether it is
      intersecting. */
  datatype Entry = Entry(target: Section, isIntersecting: bool)

  /** The functional update `prev => new Set(prev).add(id)`: nothing is
      removed, `id` is in, nothing else is added, and adding an id already
      present leaves the set equal. */
  function Add(prev: set<Section>, id: Section): (next: set<Section>)
    ensures prev <= next && id in next && next - prev <= {id}
    ensures next == prev <==> id in prev
  {
    prev + {id}
  }

  /** The targets of the intersecting entries of one observer callback. */
  function IntersectingTargets(entries: seq<Entry>): (r: set<Section>)
    ensures forall s :: s in r <==> exists i | 0 <= i < |entries| :: entries[i].isIntersecting && entries[i].target == s
  {
    if entries == [] then {}
    else
      var last := entries[|entries| - 1];
      var front := entries[..|entries| - 1];
      assert forall i | 0 <= i < |front| :: front[i] == entries[i];
      IntersectingTargets(front) + (if last.isIntersecting then {last.target} else {})
  }

  /** The latch after a session's sequence of observer callbacks. */
  function AfterCallbacks(seen: set<Section>, callbacks: seq<seq<Entry>>): set<Section>
    decreases |callbacks|
  {
    if callbacks == [] then seen
    else AfterCallbacks(seen + IntersectingTargets(callbacks[0]), callbacks[1..])
  }

  /** Once seen, a section stays seen for the rest of the session, and a section
      is seen exactly when it was seen before or some callback reported it
      intersecting. */
  lemma {:induction false} LatchNeverForgets(seen: set<Section>, callbacks: seq<seq<Entry>>)
    ensures seen <= AfterCallbacks(seen, callbacks)
    ensures forall s :: s in AfterCallbacks(seen, callbacks) <==>
      s in seen || exists c | 0 <= c < |callbacks| :: s in IntersectingTargets(callbacks[c])
    decreases |callbacks|
  {
    if callbacks != [] {
      var next := seen + IntersectingTargets(callbacks[0]);
      LatchNeverForgets(next, callbacks[1..]);
      forall s ensures s in AfterCallbacks(seen, callbacks) <==>
        s in seen || exists c | 0 <= c < |callbacks| :: s in IntersectingTargets(callbacks[c])
      {
        if s in AfterCallbacks(seen, callbacks) && s !in next {
          var c :| 0 <= c < |callbacks[1..]| && s in IntersectingTargets(callbacks[1..][c]);
          assert callbacks[1..][c] == callbacks[c + 1];
        }
        if exists c | 0 <= c < |callbacks| :: s in IntersectingTargets(callbacks[c]) {
          var c :| 0 <= c < |callbacks| && s in IntersectingTargets(callbacks[c]);
          if c > 0 {
            assert callbacks[1..][c - 1] == callbacks[c];
          }
        }
      }
    }
  }

  /** Delivering the same callback again changes nothing. */
  lemma RepeatedCallbackIsIdempotent(seen: set<Section>, entries: seq<Entry>)
    ensures AfterCallbacks(seen, [entries, entries]) == AfterCallbacks(seen, [entries])
  {
    assert [entries, entries][1..] == [entries];
    assert [entries, entries][1..][1..] == [];
    assert [entries][1..] == [];
  }
}
