/** BackEnd/models/getNextId.js: one counter document per sequence name,
    incremented by `$inc: { seq: 1 }` with `upsert` and returned after the
    increment. A name without a document counts as 0. */
module Counters {

  function Counter(counters: map<string, nat>, name: string): nat {
    if name in counters then counters[name] else 0
  }

  /** One call of getNextId: the new counters and the value returned. */
  function Allocate(counters: map<string, nat>, name: string): (r: (map<string, nat>, nat))
    ensures r.1 == Counter(counters, name) + 1
    ensures name in r.0 && Counter(r.0, name) == r.1
    ensures forall other :: other != name ==> Counter(r.0, other) == Counter(counters, other)
    ensures r.0.Keys == counters.Keys + {name}
  {
    var next := Counter(counters, name) + 1;
    (counters[name := next], next)
  }

  /** Successive calls of getNextId, one per name, in order: the final
      counters and the values returned. */
  function AllocateAll(counters: map<string, nat>, names: seq<string>): (r: (map<string, nat>, seq<nat>))
    ensures |r.1| == |names|
    decreases |names|
  {
    if |names| == 0 then (counters, [])
    else
      var (c, id) := Allocate(counters, names[0]);
      var (final, ids) := AllocateAll(c, names[1..]);
      (final, [id] + ids)
  }

  /** Every value handed out lies above the counter it started from and at
      or below the counter it leaves; two calls for the same name return
      strictly increasing values, so the ids of one table never repeat. */
  lemma {:induction false} AllocateAllIncreasing(counters: map<string, nat>, names: seq<string>)
    ensures var (final, ids) := AllocateAll(counters, names);
      && (forall i :: 0 <= i < |names| ==> Counter(counters, names[i]) < ids[i] <= Counter(final, names[i]))
      && (forall i, j :: 0 <= i < j < |names| && names[i] == names[j] ==> ids[i] < ids[j])
      && (forall n :: Counter(counters, n) <= Counter(final, n))
    decreases |names|
  {
    if |names| > 0 {
      var (c, id) := Allocate(counters, names[0]);
      AllocateAllIncreasing(c, names[1..]);
      var (final, ids) := AllocateAll(c, names[1..]);
      assert AllocateAll(counters, names) == (final, [id] + ids);
      var all := [id] + ids;
      forall i | 0 <= i < |names|
        ensures Counter(counters, names[i]) < all[i] <= Counter(final, names[i])
      {
        if i > 0 {
          assert names[1..][i - 1] == names[i];
          assert Counter(counters, names[i]) <= Counter(c, names[i]);
        }
      }
      forall i, j | 0 <= i < j < |names| && names[i] == names[j] ensures all[i] < all[j] {
        assert names[1..][j - 1] == names[j];
        if i > 0 {
          assert names[1..][i - 1] == names[i];
        }
      }
    }
  }
}
