/** The linear undo ledger as the store's actions manipulate it: a sequence of
    entries and a cursor, with commit, the capped commit `saveHistory`, and
    the cursor predicates. Generic in the entry type. */
module Ledger {

  function Min(a: int, b: int): int { if a <= b then a else b }

  /** `history.slice(0, index + 1)`: the entries at or before the cursor
      (all of them when the cursor lies past the end). */
  function Kept<T>(history: seq<T>, index: nat): (r: seq<T>)
    ensures |r| == if index < |history| then index + 1 else |history|
    ensures r == history[..|r|]
  {
    history[..Min(index + 1, |history|)]
  }

  /** Truncate after the cursor and append the new entry; the cursor then
      points at `|r| - 1`. Nothing is evicted. */
  function Commit<T>(history: seq<T>, index: nat, entry: T): (r: seq<T>)
    ensures |r| >= 1 && r[|r| - 1] == entry
    ensures r[..|r| - 1] == Kept(history, index)
    ensures index < |history| ==> |r| == index + 2 && r[..index + 1] == history[..index + 1]
  {
    Kept(history, index) + [entry]
  }

  /** `saveHistory`: a commit that afterwards drops the oldest entry when the
      ledger has grown past `maxHistory`. Returns the new ledger and cursor. */
  function CappedCommit<T>(history: seq<T>, index: nat, maxHistory: nat, entry: T): (r: (seq<T>, int))
    ensures r.1 == |r.0| - 1
    ensures maxHistory >= 1 ==> 0 <= r.1 < |r.0| && r.0[r.1] == entry
    ensures |history| <= maxHistory ==> |r.0| <= maxHistory
    ensures |r.0| == if |Kept(history, index)| + 1 > maxHistory then |Kept(history, index)|
                     else |Kept(history, index)| + 1
    ensures var full := Kept(history, index) + [entry]; r.0 == full[|full| - |r.0|..]
  {
    var full := Kept(history, index) + [entry];
    var capped := if |full| > maxHistory then full[1..] else full;
    (capped, |capped| - 1)
  }

  /** Some entry lies before the cursor. */
  predicate CanStepBack(index: nat)
  {
    index > 0
  }

  /** Some entry lies after the cursor. */
  predicate CanStepForward<T>(history: seq<T>, index: nat)
  {
    index < |history| - 1
  }
}
