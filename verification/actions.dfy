/** The store's public actions as data, one step function over them, and the
    invariants every step keeps. */
module Actions {
  import opened Wrappers
  import opened Types
  import Store

  /** One call of a store action, with the values the source would obtain
      from `uuidv4`, `Date.now` and `Math.random` supplied as arguments. */
  datatype Action =
    | AddPin(draft: PinDraft, id: string, now: int, colorIndex: nat)
    | UpdatePin(id: string, updates: PinPatch, now: int)
    | DeletePin(id: string)
    | MovePin(id: string, x: real, y: real, now: int)
    | ResizePin(id: string, width: real, height: real, now: int)
    | BringToFront(id: string)
    | SelectPin(target: Option<string>)
    | DuplicatePin(id: string, newId: string, now: int, colorIndex: nat)
    | AddListItem(pinId: string, text: string, itemId: string, now: int)
    | UpdateListItem(pinId: string, itemId: string, itemUpdates: ItemPatch, now: int)
    | DeleteListItem(pinId: string, itemId: string, now: int)
    | ToggleListItem(pinId: string, itemId: string, now: int)
    | AddTag(pinId: string, tag: string, now: int)
    | RemoveTag(pinId: string, tag: string, now: int)
    | SetZoom(zoom: real)
    | SetPan(x: real, y: real)
    | ResetView
    | Undo
    | Redo
    | SaveSnapshot(name: string, id: string, now: int)
    | LoadSnapshot(id: string)
    | DeleteSnapshot(id: string)
    | RenameSnapshot(id: string, name: string)
    | ClearBoard

  /** The random palette pick is an index into the palette. */
  predicate Admissible(a: Action)
  {
    match a
    case AddPin(_, _, _, c) => c < |Store.PinColors|
    case DuplicatePin(_, _, _, c) => c < |Store.PinColors|
    case _ => true
  }

  /** Actions that always commit the resulting pins to the ledger. */
  predicate AlwaysCommits(a: Action)
  {
    a.AddPin? || a.UpdatePin? || a.DeletePin? || a.AddListItem? || a.DeleteListItem?
  }

  /** Actions that never touch the ledger. */
  predicate KeepsLedger(a: Action)
  {
    || a.MovePin? || a.ResizePin? || a.BringToFront? || a.SelectPin?
    || a.UpdateListItem? || a.ToggleListItem? || a.AddTag? || a.RemoveTag?
    || a.SetZoom? || a.SetPan? || a.ResetView?
    || a.SaveSnapshot? || a.DeleteSnapshot? || a.RenameSnapshot?
  }

  /** Actions that can change the snapshot list. */
  predicate EditsSnapshots(a: Action)
  {
    a.SaveSnapshot? || a.DeleteSnapshot? || a.RenameSnapshot? || a.ClearBoard?
  }

  /** One store transition. Every action keeps the cursor inside the ledger. */
  function Apply(b: Board, a: Action): (r: Board)
    requires Store.Valid(b) && Admissible(a)
    ensures Store.Valid(r)
    ensures r.maxHistory == b.maxHistory || a.ClearBoard?
  {
    match a
    case AddPin(d, id, now, c) => Store.AddPin(b, d, id, now, c)
    case UpdatePin(id, u, now) => Store.UpdatePin(b, id, u, now)
    case DeletePin(id) => Store.DeletePin(b, id)
    case MovePin(id, x, y, now) => Store.MovePin(b, id, x, y, now)
    case ResizePin(id, w, h, now) => Store.ResizePin(b, id, w, h, now)
    case BringToFront(id) => Store.BringToFront(b, id)
    case SelectPin(t) => Store.SelectPin(b, t)
    case DuplicatePin(id, newId, now, c) => Store.DuplicatePin(b, id, newId, now, c)
    case AddListItem(p, text, item, now) => Store.AddListItem(b, p, text, item, now)
    case UpdateListItem(p, item, u, now) => Store.UpdateListItem(b, p, item, u, now)
    case DeleteListItem(p, item, now) => Store.DeleteListItem(b, p, item, now)
    case ToggleListItem(p, item, now) => Store.ToggleListItem(b, p, item, now)
    case AddTag(p, tag, now) => Store.AddTag(b, p, tag, now)
    case RemoveTag(p, tag, now) => Store.RemoveTag(b, p, tag, now)
    case SetZoom(z) => Store.SetZoom(b, z)
    case SetPan(x, y) => Store.SetPan(b, x, y)
    case ResetView => Store.ResetView(b)
    case Undo => Store.Undo(b)
    case Redo => Store.Redo(b)
    case SaveSnapshot(name, id, now) => Store.SaveSnapshot(b, name, id, now)
    case LoadSnapshot(id) => Store.LoadSnapshot(b, id)
    case DeleteSnapshot(id) => Store.DeleteSnapshot(b, id)
    case RenameSnapshot(id, name) => Store.RenameSnapshot(b, id, name)
    case ClearBoard => Store.ClearBoard(b)
  }

  predicate AllAdmissible(acts: seq<Action>)
  {
    forall i :: 0 <= i < |acts| ==> Admissible(acts[i])
  }

  /** A sequence of actions applied in order. Every state it passes through
      keeps the cursor inside the ledger. */
  function Run(b: Board, acts: seq<Action>): (r: Board)
    requires Store.Valid(b) && AllAdmissible(acts)
    ensures Store.Valid(r)
    decreases |acts|
  {
    if acts == [] then b
    else
      assert AllAdmissible(acts[1..]) by {
        forall i | 0 <= i < |acts[1..]| ensures Admissible(acts[1..][i]) {
          assert acts[1..][i] == acts[i + 1];
        }
      }
      Run(Apply(b, acts[0]), acts[1..])
  }

  /** Every state reachable from the initial state keeps the cursor inside
      the ledger. */
  lemma ReachableIsValid(acts: seq<Action>)
    requires AllAdmissible(acts)
    ensures Store.Valid(Run(Store.InitialState(), acts))
  {
  }

  /** The committing actions leave the live pins as the newest ledger entry,
      keep the entries up to the old cursor, and leave nothing to redo. */
  lemma CommittingActionsCommit(b: Board, a: Action)
    requires Store.Valid(b) && Admissible(a) && AlwaysCommits(a)
    ensures var r := Apply(b, a);
      && Store.Commits(b, r)
      && r.pins == r.history[r.historyIndex]
      && r.history[..b.historyIndex + 1] == b.history[..b.historyIndex + 1]
      && |r.history| == b.historyIndex + 2
      && !Store.CanRedo(r)
  {
  }

  /** Live edits, viewport changes and snapshot-list edits leave the ledger
      and its cursor exactly as they were. */
  lemma LiveEditsKeepLedger(b: Board, a: Action)
    requires Store.Valid(b) && Admissible(a) && KeepsLedger(a)
    ensures Apply(b, a).history == b.history && Apply(b, a).historyIndex == b.historyIndex
  {
  }

  /** Only snapshot actions and clearBoard change the snapshot list. */
  lemma PinActionsKeepSnapshots(b: Board, a: Action)
    requires Store.Valid(b) && Admissible(a) && !EditsSnapshots(a)
    ensures Apply(b, a).snapshots == b.snapshots
  {
  }

  // -----------------------------------------------------------------------
  // The z-order counter

  /** Except for loadSnapshot and clearBoard, no action lowers the counter;
      addPin and bringToFront raise it by exactly one. */
  lemma CounterNeverDecreases(b: Board, a: Action)
    requires Store.Valid(b) && Admissible(a)
    requires !a.LoadSnapshot? && !a.ClearBoard?
    ensures Apply(b, a).highestZIndex >= b.highestZIndex
    ensures a.AddPin? || a.BringToFront? ==> Apply(b, a).highestZIndex == b.highestZIndex + 1
  {
  }

  predicate NoResets(acts: seq<Action>)
  {
    forall i :: 0 <= i < |acts| ==> !acts[i].LoadSnapshot? && !acts[i].ClearBoard?
  }

  /** Over any run free of loadSnapshot and clearBoard, the counter never
      decreases, so every value issued later exceeds every earlier one. */
  lemma {:induction false} RunCounterNeverDecreases(b: Board, acts: seq<Action>)
    requires Store.Valid(b) && AllAdmissible(acts) && NoResets(acts)
    ensures Run(b, acts).highestZIndex >= b.highestZIndex
    decreases |acts|
  {
    if acts != [] {
      CounterNeverDecreases(b, acts[0]);
      assert AllAdmissible(acts[1..]) && NoResets(acts[1..]) by {
        forall i | 0 <= i < |acts[1..]| ensures Admissible(acts[1..][i]) && !acts[1..][i].LoadSnapshot? && !acts[1..][i].ClearBoard? {
          assert acts[1..][i] == acts[i + 1];
        }
      }
      RunCounterNeverDecreases(Apply(b, acts[0]), acts[1..]);
    }
  }

  /** Every pin, live or in any ledger entry, sits at or below the counter. */
  ghost predicate CounterCeiling(b: Board)
  {
    && Store.ZBounded(b)
    && forall k, i :: 0 <= k < |b.history| && 0 <= i < |b.history[k]| ==> b.history[k][i].zIndex <= b.highestZIndex
  }

  /** Entries kept by a commit are the old entries. */
  lemma CommitKeepsEntries(b: Board, r: Board)
    requires Store.Commits(b, r)
    ensures forall k :: 0 <= k < r.historyIndex ==> k < |b.history| && r.history[k] == b.history[k]
  {
    forall k | 0 <= k < r.historyIndex
      ensures k < |b.history| && r.history[k] == b.history[k]
    {
      assert r.history[..r.historyIndex][k] == r.history[k];
    }
  }

  /** A step that does not lower the counter, keeps the live pins under it,
      and either leaves the ledger alone or commits, keeps the ceiling. */
  lemma CeilingAfterStep(b: Board, r: Board)
    requires CounterCeiling(b) && Store.ZBounded(r)
    requires r.highestZIndex >= b.highestZIndex
    requires r.history == b.history || Store.Commits(b, r)
    ensures CounterCeiling(r)
  {
    if r.history != b.history {
      CommitKeepsEntries(b, r);
    }
  }

  /** Pins keep their z-order values position by position. */
  ghost predicate SameZ(before: seq<Pin>, after: seq<Pin>)
  {
    |after| == |before| && forall i :: 0 <= i < |before| ==> after[i].zIndex == before[i].zIndex
  }

  /** A step that leaves every pin's z-order value alone keeps the ceiling. */
  lemma CeilingAfterSameZ(b: Board, r: Board)
    requires CounterCeiling(b) && SameZ(b.pins, r.pins) && r.highestZIndex >= b.highestZIndex
    requires r.history == b.history || Store.Commits(b, r)
    ensures CounterCeiling(r)
  {
    CeilingAfterStep(b, r);
  }

  lemma AppendOnTopKeepsBound(b: Board, r: Board)
    requires Store.ZBounded(b)
    requires |r.pins| == |b.pins| + 1 && r.pins[..|b.pins|] == b.pins
    requires r.highestZIndex == b.highestZIndex + 1 && r.pins[|b.pins|].zIndex == r.highestZIndex
    ensures Store.ZBounded(r)
  {
    forall i | 0 <= i < |r.pins| ensures r.pins[i].zIndex <= r.highestZIndex {
      if i < |b.pins| { assert r.pins[i] == r.pins[..|b.pins|][i]; }
    }
  }

  lemma CeilingAddPin(b: Board, d: PinDraft, id: string, now: int, c: nat)
    requires CounterCeiling(b) && c < |Store.PinColors|
    ensures CounterCeiling(Store.AddPin(b, d, id, now, c))
  {
    var r := Store.AddPin(b, d, id, now, c);
    AppendOnTopKeepsBound(b, r);
    CeilingAfterStep(b, r);
  }

  lemma CeilingDuplicatePin(b: Board, id: string, newId: string, now: int, c: nat)
    requires CounterCeiling(b) && c < |Store.PinColors|
    ensures CounterCeiling(Store.DuplicatePin(b, id, newId, now, c))
  {
    var r := Store.DuplicatePin(b, id, newId, now, c);
    if Store.PinIndex(b.pins, id).Some? {
      AppendOnTopKeepsBound(b, r);
      CeilingAfterStep(b, r);
    }
  }

  lemma CeilingDeletePin(b: Board, id: string)
    requires CounterCeiling(b)
    ensures CounterCeiling(Store.DeletePin(b, id))
  {
    var r := Store.DeletePin(b, id);
    forall i | 0 <= i < |r.pins| ensures r.pins[i].zIndex <= r.highestZIndex {
      assert r.pins[i] in b.pins;
    }
    CeilingAfterStep(b, r);
  }

  /** The z-order bump: matching pins take the new counter value. */
  lemma CeilingBringToFront(b: Board, id: string)
    requires CounterCeiling(b)
    ensures CounterCeiling(Store.BringToFront(b, id))
  {
    var r := Store.BringToFront(b, id);
    forall i | 0 <= i < |r.pins| ensures r.pins[i].zIndex <= r.highestZIndex {
      if b.pins[i].id == id { assert r.pins[i].zIndex == r.highestZIndex; }
    }
    CeilingAfterStep(b, r);
  }

  lemma CeilingSelectPin(b: Board, t: Option<string>)
    requires CounterCeiling(b)
    ensures CounterCeiling(Store.SelectPin(b, t))
  {
    if t.Some? && t.value != "" {
      CeilingBringToFront(b.(selectedPinId := t), t.value);
    }
  }

  lemma CeilingUndoRedo(b: Board)
    requires CounterCeiling(b) && Store.Valid(b)
    ensures CounterCeiling(Store.Undo(b)) && CounterCeiling(Store.Redo(b))
  {
    var u := Store.Undo(b);
    assert Store.ZBounded(u) by {
      if Store.CanUndo(b) {
        forall i | 0 <= i < |u.pins| ensures u.pins[i].zIndex <= u.highestZIndex {
          assert u.pins[i] == b.history[u.historyIndex][i];
        }
      }
    }
    var v := Store.Redo(b);
    assert Store.ZBounded(v) by {
      if Store.CanRedo(b) {
        forall i | 0 <= i < |v.pins| ensures v.pins[i].zIndex <= v.highestZIndex {
          assert v.pins[i] == b.history[v.historyIndex][i];
        }
      }
    }
  }

  /** The counter ceiling is kept by every action except updatePin (a patch
      may carry any zIndex) and loadSnapshot (which lowers the counter to the
      restored pins while older ledger entries may sit higher). */
  lemma CounterCeilingPreserved(b: Board, a: Action)
    requires Store.Valid(b) && Admissible(a) && CounterCeiling(b)
    requires !a.UpdatePin? && !a.LoadSnapshot?
    ensures CounterCeiling(Apply(b, a))
  {
    match a {
      case AddPin(d, id, now, c) => CeilingAddPin(b, d, id, now, c);
      case DuplicatePin(id, newId, now, c) => CeilingDuplicatePin(b, id, newId, now, c);
      case DeletePin(id) => CeilingDeletePin(b, id);
      case BringToFront(id) => CeilingBringToFront(b, id);
      case SelectPin(t) => CeilingSelectPin(b, t);
      case Undo => CeilingUndoRedo(b);
      case Redo => CeilingUndoRedo(b);
      case MovePin(id, x, y, now) => CeilingAfterSameZ(b, Store.MovePin(b, id, x, y, now));
      case ResizePin(id, w, h, now) => CeilingAfterSameZ(b, Store.ResizePin(b, id, w, h, now));
      case AddListItem(p, text, item, now) => CeilingAfterSameZ(b, Store.AddListItem(b, p, text, item, now));
      case UpdateListItem(p, item, u, now) => CeilingAfterSameZ(b, Store.UpdateListItem(b, p, item, u, now));
      case DeleteListItem(p, item, now) => CeilingAfterSameZ(b, Store.DeleteListItem(b, p, item, now));
      case ToggleListItem(p, item, now) => CeilingAfterSameZ(b, Store.ToggleListItem(b, p, item, now));
      case AddTag(p, tag, now) => CeilingAfterSameZ(b, Store.AddTag(b, p, tag, now));
      case RemoveTag(p, tag, now) => CeilingAfterSameZ(b, Store.RemoveTag(b, p, tag, now));
      case _ =>
    }
  }

  /** Any run free of updatePin and loadSnapshot keeps the counter ceiling. */
  lemma {:induction false} RunKeepsCounterCeiling(b: Board, acts: seq<Action>)
    requires Store.Valid(b) && AllAdmissible(acts) && CounterCeiling(b)
    requires forall i :: 0 <= i < |acts| ==> !acts[i].UpdatePin? && !acts[i].LoadSnapshot?
    ensures CounterCeiling(Run(b, acts))
    decreases |acts|
  {
    if acts != [] {
      CounterCeilingPreserved(b, acts[0]);
      assert AllAdmissible(acts[1..]) by {
        forall i | 0 <= i < |acts[1..]| ensures Admissible(acts[1..][i]) {
          assert acts[1..][i] == acts[i + 1];
        }
      }
      assert forall i :: 0 <= i < |acts[1..]| ==> !acts[1..][i].UpdatePin? && !acts[1..][i].LoadSnapshot? by {
        forall i | 0 <= i < |acts[1..]| ensures !acts[1..][i].UpdatePin? && !acts[1..][i].LoadSnapshot? {
          assert acts[1..][i] == acts[i + 1];
        }
      }
      RunKeepsCounterCeiling(Apply(b, acts[0]), acts[1..]);
    }
  }
}
