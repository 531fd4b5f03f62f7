/** What several components share. */
module Common {
  type byte = x: int | 0 <= x < 256

  datatype Option<+T> = None | Some(value: T)

  function Min(a: int, b: int): int { if a < b then a else b }

  function Max(a: int, b: int): int { if a < b then b else a }

  predicate NoRepeats(q: seq<nat>) { q == [] || (q[0] !in q[1..] && NoRepeats(q[1..])) }

  lemma {:induction false} AppendRepeats(q: seq<nat>, id: nat)
    requires NoRepeats(q) && id !in q
    ensures NoRepeats(q + [id])
  {
    if q == [] {
      assert q + [id] == [id];
    } else {
      assert (q + [id])[1..] == q[1..] + [id] && (q + [id])[0] == q[0];
      AppendRepeats(q[1..], id);
    }
  }
}
