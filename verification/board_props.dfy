/** Properties of the store's pin, tag, list, z-order and snapshot actions,
    and the scenarios that exercise them. */
module BoardProps {
  import opened Wrappers
  import opened Types
  import Seqs
  import Store
  import Actions
  import Page

  // -----------------------------------------------------------------------
  // Tags

  /** Adding a tag twice is adding it once, and a tag that was absent is
      present exactly once afterwards. */
  lemma AddTagIdempotent(b: Board, pinId: string, tag: string, t1: int, t2: int)
    ensures Store.AddTag(Store.AddTag(b, pinId, tag, t1), pinId, tag, t2) == Store.AddTag(b, pinId, tag, t1)
    ensures forall i :: 0 <= i < |b.pins| && b.pins[i].id == pinId && tag !in b.pins[i].tags ==>
      multiset(Store.AddTag(b, pinId, tag, t1).pins[i].tags)[tag] == 1
  {
    var r1 := Store.AddTag(b, pinId, tag, t1);
    var r2 := Store.AddTag(r1, pinId, tag, t2);
    assert r2.pins == r1.pins by {
      forall i | 0 <= i < |r1.pins| ensures r2.pins[i] == r1.pins[i] {
        if r1.pins[i].id == pinId {
          assert b.pins[i].id == pinId;
        }
      }
    }
    forall i | 0 <= i < |b.pins| && b.pins[i].id == pinId && tag !in b.pins[i].tags
      ensures multiset(r1.pins[i].tags)[tag] == 1
    {
      assert r1.pins[i].tags == b.pins[i].tags + [tag];
      assert multiset(b.pins[i].tags)[tag] == 0;
    }
  }

  /** removeTag undoes addTag of a tag the target pins lacked, up to `updatedAt`. */
  lemma RemoveTagUndoesAddTag(b: Board, pinId: string, tag: string, t1: int, t2: int)
    requires forall i :: 0 <= i < |b.pins| && b.pins[i].id == pinId ==> tag !in b.pins[i].tags
    ensures var r := Store.RemoveTag(Store.AddTag(b, pinId, tag, t1), pinId, tag, t2);
      && r == b.(pins := r.pins)
      && |r.pins| == |b.pins|
      && forall i :: 0 <= i < |b.pins| ==> r.pins[i] == b.pins[i].(updatedAt := r.pins[i].updatedAt)
  {
    var a := Store.AddTag(b, pinId, tag, t1);
    var r := Store.RemoveTag(a, pinId, tag, t2);
    forall i | 0 <= i < |b.pins| ensures r.pins[i] == b.pins[i].(updatedAt := r.pins[i].updatedAt) {
      if b.pins[i].id == pinId {
        var tags := b.pins[i].tags;
        var keep := (t: string) => t != tag;
        assert a.pins[i].tags == tags + [tag];
        Seqs.FilterAppend(tags, tag, keep);
        assert forall j :: 0 <= j < |tags| ==> keep(tags[j]);
        assert Seqs.Filter(tags, keep) == tags;
        assert r.pins[i].tags == Seqs.Filter(a.pins[i].tags, keep);
      }
    }
  }

  // -----------------------------------------------------------------------
  // Checklists

  /** Toggling the same item twice restores every pin except `updatedAt`. */
  lemma ToggleTwiceRestores(b: Board, pinId: string, itemId: string, t1: int, t2: int)
    ensures var r := Store.ToggleListItem(Store.ToggleListItem(b, pinId, itemId, t1), pinId, itemId, t2);
      && r == b.(pins := r.pins)
      && |r.pins| == |b.pins|
      && forall i :: 0 <= i < |b.pins| ==> r.pins[i] == b.pins[i].(updatedAt := r.pins[i].updatedAt)
  {
    var m := Store.ToggleListItem(b, pinId, itemId, t1);
    var r := Store.ToggleListItem(m, pinId, itemId, t2);
    forall i | 0 <= i < |b.pins| ensures r.pins[i] == b.pins[i].(updatedAt := r.pins[i].updatedAt) {
      if b.pins[i].id == pinId {
        var before := b.pins[i].listItems;
        var after := r.pins[i].listItems;
        if before.Some? {
          assert after.Some?;
          assert after.value == before.value by {
            forall j | 0 <= j < |before.value| ensures after.value[j] == before.value[j] {
              assert m.pins[i].listItems.value[j].id == before.value[j].id;
            }
          }
        }
      }
    }
  }

  // -----------------------------------------------------------------------
  // Z-order

  /** A new pin is stacked strictly above every existing pin. */
  lemma NewPinIsOnTop(b: Board, d: PinDraft, id: string, now: int, c: nat)
    requires Store.ZBounded(b) && c < |Store.PinColors|
    ensures var r := Store.AddPin(b, d, id, now, c);
      && Store.ZBounded(r)
      && forall i :: 0 <= i < |b.pins| ==> r.pins[i].zIndex < r.pins[|b.pins|].zIndex
  {
    var r := Store.AddPin(b, d, id, now, c);
    forall i | 0 <= i < |b.pins| ensures r.pins[i] == b.pins[i] {
      assert r.pins[i] == r.pins[..|b.pins|][i];
    }
  }

  /** bringToFront stacks the target strictly above every other pin. */
  lemma BringToFrontIsOnTop(b: Board, id: string)
    requires Store.ZBounded(b)
    ensures var r := Store.BringToFront(b, id);
      && Store.ZBounded(r)
      && forall i, j :: 0 <= i < |b.pins| && 0 <= j < |b.pins| && b.pins[i].id == id && b.pins[j].id != id ==>
           r.pins[j].zIndex < r.pins[i].zIndex
  {
  }

  /** loadSnapshot can lower the counter: after loading an empty snapshot and
      undoing, the restored pins sit above the counter, and the next new pin
      is stacked below one of them. */
  lemma LoadSnapshotCanLowerCounter(d: PinDraft)
    ensures
      var s0 := Store.SaveSnapshot(Store.InitialState(), "empty", "s", 0);
      var s1 := Store.AddPin(s0, d, "a", 1, 0);
      var s2 := Store.AddPin(s1, d, "b", 2, 0);
      var s3 := Store.LoadSnapshot(s2, "s");
      var s4 := Store.Undo(s3);
      var s5 := Store.AddPin(s4, d, "c", 3, 0);
      && s2.highestZIndex == 2 && s3.highestZIndex == 0
      && s4.pins == s2.pins && !Store.ZBounded(s4)
      && s5.pins[2].zIndex == 1 && s5.pins[1].zIndex == 2
  {
    var s0 := Store.SaveSnapshot(Store.InitialState(), "empty", "s", 0);
    var s1 := Store.AddPin(s0, d, "a", 1, 0);
    var s2 := Store.AddPin(s1, d, "b", 2, 0);
    assert s2.snapshots == s0.snapshots;
    assert Store.SnapshotIndex(s2.snapshots, "s") == Some(0);
    var s3 := Store.LoadSnapshot(s2, "s");
    assert s3.pins == [];
    var s4 := Store.Undo(s3);
    assert s4.pins == s3.history[s3.historyIndex - 1] == s2.pins;
    assert s4.pins[1].zIndex == 2;
    var s5 := Store.AddPin(s4, d, "c", 3, 0);
    assert s5.pins[1] == s5.pins[..2][1] == s4.pins[1];
  }

  // -----------------------------------------------------------------------
  // Resize and zoom

  /** An image pin with floors 200 by 260 asked to shrink to 50 by 50 stays at
      200 by 260. */
  lemma ResizeFloorExample(b: Board, id: string, k: nat, now: int)
    requires Store.PinIndex(b.pins, id) == Some(k)
    requires b.pins[k].imageMinWidth == Some(200.0) && b.pins[k].imageMinHeight == Some(260.0)
    ensures Store.ResizePin(b, id, 50.0, 50.0, now).pins[k].width == 200.0
    ensures Store.ResizePin(b, id, 50.0, 50.0, now).pins[k].height == 260.0
  {
  }

  /** A size at or above the floors is taken as requested. */
  lemma ResizeIdentityAboveFloor(b: Board, id: string, width: real, height: real, now: int)
    requires Store.PinIndex(b.pins, id).Some?
    requires width >= Store.WidthFloor(b.pins[Store.PinIndex(b.pins, id).value].imageMinWidth)
    requires height >= Store.HeightFloor(b.pins[Store.PinIndex(b.pins, id).value].imageMinHeight)
    ensures forall i :: 0 <= i < |b.pins| && b.pins[i].id == id ==>
      Store.ResizePin(b, id, width, height, now).pins[i] == b.pins[i].(width := width, height := height, updatedAt := now)
  {
  }

  /** Clamping the zoom twice is clamping it once. */
  lemma SetZoomIdempotent(b: Board, z: real)
    ensures Store.SetZoom(Store.SetZoom(b, z), z) == Store.SetZoom(b, z)
  {
  }

  // -----------------------------------------------------------------------
  // Selection

  /** The selection, when present, names an existing pin. */
  ghost predicate SelectionExists(b: Board)
  {
    b.selectedPinId.None? || exists i :: 0 <= i < |b.pins| && b.pins[i].id == b.selectedPinId.value
  }

  /** addPin selects the pin it adds; deletePin never leaves the selection
      dangling. */
  lemma AddDeleteKeepSelection(b: Board, d: PinDraft, id: string, now: int, c: nat, gone: string)
    requires c < |Store.PinColors|
    ensures SelectionExists(Store.AddPin(b, d, id, now, c))
    ensures SelectionExists(b) ==> SelectionExists(Store.DeletePin(b, gone))
  {
    var added := Store.AddPin(b, d, id, now, c);
    assert added.pins[|b.pins|].id == id;
    if SelectionExists(b) {
      DeleteKeepsSelection(b, gone);
    }
  }

  lemma DeleteKeepsSelection(b: Board, gone: string)
    requires SelectionExists(b)
    ensures SelectionExists(Store.DeletePin(b, gone))
  {
    var r := Store.DeletePin(b, gone);
    if b.selectedPinId.Some? && b.selectedPinId.value != gone {
      var i :| 0 <= i < |b.pins| && b.pins[i].id == b.selectedPinId.value;
      assert b.pins[i] in r.pins;
      var j :| 0 <= j < |r.pins| && r.pins[j] == b.pins[i];
    }
  }

  /** selectPin records an id without checking it: selecting an unknown id
      leaves a dangling selection. */
  lemma SelectPinDoesNotCheck()
    ensures !SelectionExists(Store.SelectPin(Store.InitialState(), Some("missing")))
  {
  }

  // -----------------------------------------------------------------------
  // No validation in the store

  /** Empty names and empty tags are accepted, and updatePin may overwrite
      the id, the type and the z-order value of its target. */
  lemma StoreDoesNotValidate(b: Board, pinId: string, i: nat, newId: string, kind: PinType, z: int, now: int)
    requires i < |b.pins| && b.pins[i].id == pinId
    ensures |Store.SaveSnapshot(b, "", newId, now).snapshots| == |b.snapshots| + 1
    ensures "" in Store.AddTag(b, pinId, "", now).pins[i].tags
    ensures var r := Store.UpdatePin(b, pinId, EmptyPatch.(id := Some(newId), kind := Some(kind), zIndex := Some(z)), now);
      r.pins[i].id == newId && r.pins[i].kind == kind && r.pins[i].zIndex == z
  {
  }

  // -----------------------------------------------------------------------
  // Snapshots

  /** The first snapshot with id `sid` holds `pins`. */
  ghost predicate HoldsSnapshot(b: Board, sid: string, pins: seq<Pin>)
  {
    Store.SnapshotIndex(b.snapshots, sid).Some? && b.snapshots[Store.SnapshotIndex(b.snapshots, sid).value].pins == pins
  }

  /** Changing nothing at or before the first match keeps it the first match. */
  lemma FirstSnapshotStable(s: seq<Snapshot>, t: seq<Snapshot>, sid: string, k: nat)
    requires Store.SnapshotIndex(s, sid) == Some(k)
    requires k < |t| && forall i :: 0 <= i <= k ==> t[i].id == s[i].id
    ensures Store.SnapshotIndex(t, sid) == Some(k)
  {
    var r := Store.SnapshotIndex(t, sid);
    assert t[k].id == sid;
    assert r.Some?;
  }

  /** Every action other than deleteSnapshot and clearBoard keeps a held
      snapshot loadable with the same pins. */
  lemma HoldsSnapshotPreserved(b: Board, a: Actions.Action, sid: string, pins: seq<Pin>)
    requires Store.Valid(b) && Actions.Admissible(a) && HoldsSnapshot(b, sid, pins)
    requires !a.DeleteSnapshot? && !a.ClearBoard?
    ensures HoldsSnapshot(Actions.Apply(b, a), sid, pins)
  {
    var k := Store.SnapshotIndex(b.snapshots, sid).value;
    var r := Actions.Apply(b, a);
    if a.SaveSnapshot? {
      FirstSnapshotStable(b.snapshots, r.snapshots, sid, k);
      assert r.snapshots[k] == r.snapshots[..|b.snapshots|][k];
    } else if a.RenameSnapshot? {
      FirstSnapshotStable(b.snapshots, r.snapshots, sid, k);
    } else {
      Actions.PinActionsKeepSnapshots(b, a);
    }
  }

  predicate KeepsSnapshots(acts: seq<Actions.Action>)
  {
    forall i :: 0 <= i < |acts| ==> Actions.Admissible(acts[i]) && !acts[i].DeleteSnapshot? && !acts[i].ClearBoard?
  }

  lemma {:induction false} RunHoldsSnapshot(b: Board, acts: seq<Actions.Action>, sid: string, pins: seq<Pin>)
    requires Store.Valid(b) && KeepsSnapshots(acts) && HoldsSnapshot(b, sid, pins)
    ensures Actions.AllAdmissible(acts)
    ensures HoldsSnapshot(Actions.Run(b, acts), sid, pins)
    decreases |acts|
  {
    if acts != [] {
      HoldsSnapshotPreserved(b, acts[0], sid, pins);
      assert KeepsSnapshots(acts[1..]) by {
        forall i | 0 <= i < |acts[1..]|
          ensures Actions.Admissible(acts[1..][i]) && !acts[1..][i].DeleteSnapshot? && !acts[1..][i].ClearBoard?
        {
          assert acts[1..][i] == acts[i + 1];
        }
      }
      RunHoldsSnapshot(Actions.Apply(b, acts[0]), acts[1..], sid, pins);
    }
  }

  /** Snapshot isolation: save under a fresh id, run any actions other than
      deleteSnapshot and clearBoard, load: the pins are the saved ones. */
  lemma SnapshotIsolation(b: Board, name: string, sid: string, now: int, acts: seq<Actions.Action>)
    requires Store.Valid(b) && Store.SnapshotIndex(b.snapshots, sid).None?
    requires KeepsSnapshots(acts)
    ensures Actions.AllAdmissible(acts)
    ensures Store.LoadSnapshot(Actions.Run(Store.SaveSnapshot(b, name, sid, now), acts), sid).pins == b.pins
  {
    var saved := Store.SaveSnapshot(b, name, sid, now);
    var r := Store.SnapshotIndex(saved.snapshots, sid);
    assert saved.snapshots[|b.snapshots|].id == sid;
    assert r.Some?;
    assert forall j :: 0 <= j < |b.snapshots| ==> saved.snapshots[j] == b.snapshots[j];
    assert r.value == |b.snapshots|;
    RunHoldsSnapshot(saved, acts, sid, b.pins);
  }

  /** clearBoard empties the snapshot list, so a snapshot saved before it can
      no longer be loaded. */
  lemma ClearBoardForgetsSnapshots(b: Board, name: string, sid: string, now: int)
    ensures var c := Store.ClearBoard(Store.SaveSnapshot(b, name, sid, now));
      c.snapshots == [] && Store.LoadSnapshot(c, sid) == c && !Store.CanUndo(c)
  {
  }

  /** renameSnapshot leaves ids and pins alone, so loading is unaffected. */
  lemma RenameKeepsLoad(b: Board, id: string, name: string, sid: string)
    ensures Store.LoadSnapshot(Store.RenameSnapshot(b, id, name), sid).pins ==
            Store.LoadSnapshot(b, sid).pins
  {
    var r := Store.RenameSnapshot(b, id, name);
    match Store.SnapshotIndex(b.snapshots, sid)
    case None =>
      assert Store.SnapshotIndex(r.snapshots, sid).None?;
    case Some(k) =>
      FirstSnapshotStable(b.snapshots, r.snapshots, sid, k);
  }

  // -----------------------------------------------------------------------
  // A session from the empty board

  /** Add a note and a checklist, edit the note, undo twice, redo twice. */
  lemma NoteAndChecklistSession(p1: string, p2: string, x: real, y: real)
    requires p1 != p2
    ensures
      var text := Page.DraftFor(Text, None, x, y).value;
      var list := Page.DraftFor(List, None, x, y).value;
      var b1 := Store.AddPin(Store.InitialState(), text, p1, 1, 0);
      var b2 := Store.AddPin(b1, list, p2, 2, 1);
      var b3 := Store.UpdatePin(b2, p1, EmptyPatch.(content := Some("hello")), 3);
      var b4 := Store.Undo(b3);
      var b5 := Store.Undo(b4);
      var b6 := Store.Redo(Store.Redo(b5));
      && b1.pins[0].zIndex == 1 && b2.pins[1].zIndex == 2
      && b3.pins[0].content == "hello"
      && |b4.pins| == 2 && b4.pins[0].content == ""
      && b5.pins == [b1.pins[0]] && b5.pins[0].content == ""
      && b6.pins == b3.pins && b6.pins[0].content == "hello" && b6.pins[1].id == p2
  {
    var text := Page.DraftFor(Text, None, x, y).value;
    var list := Page.DraftFor(List, None, x, y).value;
    var b1 := Store.AddPin(Store.InitialState(), text, p1, 1, 0);
    var b2 := Store.AddPin(b1, list, p2, 2, 1);
    assert b2.pins[0] == b2.pins[..1][0] == b1.pins[0];
    var b3 := Store.UpdatePin(b2, p1, EmptyPatch.(content := Some("hello")), 3);
    assert b3.pins[1] == b2.pins[1];
    var b4 := Store.Undo(b3);
    assert b4.pins == b2.pins;
    var b5 := Store.Undo(b4);
    assert b5.pins == b1.pins;
  }
}
