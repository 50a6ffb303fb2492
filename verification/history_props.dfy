/** Properties of the undo ledger as the store's actions drive it. */
module HistoryProps {
  import opened Types
  import Store
  import Actions

  /** canUndo and canRedo say exactly whether undo and redo will move. */
  lemma CursorPredicatesMatchMoves(b: Board)
    requires Store.Valid(b)
    ensures Store.CanUndo(b) <==> Store.Undo(b).historyIndex != b.historyIndex
    ensures Store.CanRedo(b) <==> Store.Redo(b).historyIndex != b.historyIndex
    ensures Store.CanUndo(b) <==> b.historyIndex > 0
    ensures Store.CanRedo(b) <==> b.historyIndex < |b.history| - 1
  {
  }

  /** undo followed by redo lands back on the entry the cursor was on. */
  lemma UndoThenRedo(b: Board)
    requires Store.Valid(b) && Store.CanUndo(b)
    ensures var r := Store.Redo(Store.Undo(b));
      && r.historyIndex == b.historyIndex
      && r.pins == b.history[b.historyIndex]
      && r.history == b.history
      && r.highestZIndex == b.highestZIndex
      && r.selectedPinId.None?
  {
  }

  /** redo followed by undo lands back on the entry the cursor was on. */
  lemma RedoThenUndo(b: Board)
    requires Store.Valid(b) && Store.CanRedo(b)
    ensures var r := Store.Undo(Store.Redo(b));
      && r.historyIndex == b.historyIndex
      && r.pins == b.history[b.historyIndex]
      && r.history == b.history
      && r.highestZIndex == b.highestZIndex
  {
  }

  /** `k` undos in a row. Each moves the cursor back one entry while there is
      one; the ledger is never touched. */
  function UndoTimes(b: Board, k: nat): (r: Board)
    requires Store.Valid(b)
    ensures Store.Valid(r) && r.history == b.history && r.highestZIndex == b.highestZIndex
    ensures k <= b.historyIndex ==> r.historyIndex == b.historyIndex - k
    ensures 0 < k <= b.historyIndex ==> r.pins == b.history[r.historyIndex]
    decreases k
  {
    if k == 0 then b else Store.Undo(UndoTimes(b, k - 1))
  }

  /** `k` redos in a row. */
  function RedoTimes(b: Board, k: nat): (r: Board)
    requires Store.Valid(b)
    ensures Store.Valid(r) && r.history == b.history && r.highestZIndex == b.highestZIndex
    ensures b.historyIndex + k < |b.history| ==> r.historyIndex == b.historyIndex + k
    ensures 0 < k && b.historyIndex + k < |b.history| ==> r.pins == b.history[r.historyIndex]
    decreases k
  {
    if k == 0 then b else Store.Redo(RedoTimes(b, k - 1))
  }

  /** After `k` undos there is something to redo, and `k` redos restore the
      pins of the entry the cursor started on. */
  lemma UndoRedoRoundTrip(b: Board, k: nat)
    requires Store.Valid(b) && 0 < k <= b.historyIndex
    ensures Store.CanRedo(UndoTimes(b, k))
    ensures var r := RedoTimes(UndoTimes(b, k), k);
      r.historyIndex == b.historyIndex && r.pins == b.history[b.historyIndex] && r.history == b.history
  {
  }

  /** A committing action after `k` undos discards every entry after the
      cursor: the ledger is the entries up to the cursor plus the new pins. */
  lemma CommitAfterUndoDiscardsRedo(b: Board, k: nat, a: Actions.Action)
    requires Store.Valid(b) && k <= b.historyIndex
    requires Actions.Admissible(a) && Actions.AlwaysCommits(a)
    ensures var u := UndoTimes(b, k);
      var r := Actions.Apply(u, a);
      && !Store.CanRedo(r)
      && |r.history| == b.historyIndex - k + 2
      && r.history[..b.historyIndex - k + 1] == b.history[..b.historyIndex - k + 1]
      && r.history[r.historyIndex] == r.pins
  {
    Actions.CommittingActionsCommit(UndoTimes(b, k), a);
  }

  predicate AllCommit(acts: seq<Actions.Action>)
  {
    forall i :: 0 <= i < |acts| ==> Actions.AlwaysCommits(acts[i]) && Actions.Admissible(acts[i])
  }

  /** From a cursor at the newest entry, every committing action adds one
      entry: no action applies the `maxHistory` cap. */
  lemma {:induction false} CommitsGrowLedger(b: Board, acts: seq<Actions.Action>)
    requires Store.Valid(b) && b.historyIndex == |b.history| - 1 && AllCommit(acts)
    ensures Actions.AllAdmissible(acts)
    ensures var r := Actions.Run(b, acts);
      |r.history| == |b.history| + |acts| && r.historyIndex == |r.history| - 1 && r.maxHistory == b.maxHistory
    decreases |acts|
  {
    if acts != [] {
      Actions.CommittingActionsCommit(b, acts[0]);
      var next := Actions.Apply(b, acts[0]);
      assert AllCommit(acts[1..]) by {
        forall i | 0 <= i < |acts[1..]|
          ensures Actions.AlwaysCommits(acts[1..][i]) && Actions.Admissible(acts[1..][i])
        {
          assert acts[1..][i] == acts[i + 1];
        }
      }
      CommitsGrowLedger(next, acts[1..]);
    }
  }

  /** Fifty committing actions from the initial state leave fifty-one
      entries, one more than `maxHistory`. */
  lemma LedgerOutgrowsCap(acts: seq<Actions.Action>)
    requires |acts| == Store.DefaultMaxHistory && AllCommit(acts)
    ensures Actions.AllAdmissible(acts)
    ensures var r := Actions.Run(Store.InitialState(), acts);
      |r.history| == 51 && |r.history| > r.maxHistory
  {
    CommitsGrowLedger(Store.InitialState(), acts);
  }

  /** The capped commit `saveHistory`, applied to a ledger within capacity,
      keeps it within capacity and keeps the newest entry last. */
  lemma SaveHistoryRespectsCap(b: Board, pins: seq<Pin>)
    requires Store.Valid(b) && b.maxHistory >= 1 && |b.history| <= b.maxHistory
    ensures var r := Store.SaveHistory(b, pins);
      && 1 <= |r.0| <= b.maxHistory
      && r.0[|r.0| - 1] == pins
      && r.1 == |r.0| - 1
  {
  }

  /** On the over-capacity ledger the actions actually build, saveHistory
      evicts a single entry, so the ledger stays over capacity. */
  lemma SaveHistoryEvictsOnlyOne(b: Board, pins: seq<Pin>)
    requires Store.Valid(b) && b.historyIndex == |b.history| - 1 && |b.history| > b.maxHistory
    ensures var r := Store.SaveHistory(b, pins);
      && |r.0| == |b.history| > b.maxHistory
      && r.0 == b.history[1..] + [pins]
  {
  }
}
