/** The board store: every action is one copy-on-write transition of the
    store record. The clock, the id generator and the random palette pick
    are parameters (`now`, a fresh `id`, `colorIndex`). */
module Store {
  import opened Wrappers
  import opened Types
  import Seqs
  import Ledger

  /** The palette `getRandomColor` draws from. */
  const PinColors: seq<string> :=
    ["#fef3c7", "#fce7f3", "#dbeafe", "#dcfce7", "#f3e8ff", "#ffedd5", "#e0e7ff", "#fae8ff"]

  const DefaultMaxHistory: nat := 50
  const MinZoom: real := 0.25
  const MaxZoom: real := 3.0
  /** Resize floors used when a pin has no (or a zero) image minimum. */
  const DefaultMinWidth: real := 150.0
  const DefaultMinHeight: real := 100.0

  function MaxReal(a: real, b: real): real { if a >= b then a else b }

  /** The ledger cursor lies inside the ledger. Every reachable store satisfies it. */
  predicate Valid(b: Board)
  {
    b.historyIndex < |b.history|
  }

  /** `canUndo`: a ledger entry exists just before the cursor (for a cursor
      inside the ledger). */
  function CanUndo(b: Board): (r: bool)
    ensures Valid(b) ==> (r <==> 0 <= b.historyIndex - 1 < |b.history|)
  {
    Ledger.CanStepBack(b.historyIndex)
  }

  /** `canRedo`: a ledger entry exists just after the cursor. */
  function CanRedo(b: Board): (r: bool)
    ensures r <==> 0 <= b.historyIndex + 1 < |b.history|
  {
    Ledger.CanStepForward(b.history, b.historyIndex)
  }

  /** Every live pin sits at or below the z-order counter. */
  ghost predicate ZBounded(b: Board)
  {
    forall i :: 0 <= i < |b.pins| ==> b.pins[i].zIndex <= b.highestZIndex
  }

  /** `createInitialState`. */
  function InitialState(): (r: Board)
    ensures Valid(r) && !CanUndo(r) && !CanRedo(r)
    ensures r.pins == r.history[r.historyIndex] == []
    ensures r.snapshots == [] && r.selectedPinId == None
    ensures r.highestZIndex == 0 && ZBounded(r)
    ensures r.maxHistory == DefaultMaxHistory
    ensures r.zoom == 1.0 && r.panX == 0.0 && r.panY == 0.0
  {
    Board([], [], [[]], 0, DefaultMaxHistory, 1.0, 0.0, 0.0, None, 0)
  }

  // ---------------------------------------------------------------------
  // Ledger commits as the actions inline them

  /** `r` is `b` after a commit of `r.pins`: the entries up to `b`'s cursor are
      kept, the new pins are appended, and the cursor points at them. */
  ghost predicate Commits(b: Board, r: Board)
  {
    && Valid(r)
    && r.historyIndex == |r.history| - 1
    && r.history[r.historyIndex] == r.pins
    && r.history[..r.historyIndex] == Ledger.Kept(b.history, b.historyIndex)
    && r.maxHistory == b.maxHistory
  }

  /** Sets the pins and commits them to the ledger without any capacity check. */
  function CommitPins(b: Board, pins: seq<Pin>): (r: Board)
    ensures Commits(b, r) && r.pins == pins && !CanRedo(r)
    ensures Valid(b) ==> r.history[..b.historyIndex + 1] == b.history[..b.historyIndex + 1]
    ensures r == b.(pins := pins, history := r.history, historyIndex := r.historyIndex)
  {
    var h := Ledger.Commit(b.history, b.historyIndex, pins);
    b.(pins := pins, history := h, historyIndex := |h| - 1)
  }

  /** `saveHistory`: the capped commit. It returns the new ledger and cursor
      and is called by no action. */
  function SaveHistory(b: Board, pins: seq<Pin>): (r: (seq<seq<Pin>>, int))
    ensures r.1 == |r.0| - 1
    ensures b.maxHistory >= 1 ==> 0 <= r.1 == |r.0| - 1 && r.0[r.1] == pins
    ensures |b.history| <= b.maxHistory ==> |r.0| <= b.maxHistory
    ensures var full := Ledger.Kept(b.history, b.historyIndex) + [pins];
            && |r.0| == (if |full| > b.maxHistory then |full| - 1 else |full|)
            && r.0 == full[|full| - |r.0|..]
  {
    Ledger.CappedCommit(b.history, b.historyIndex, b.maxHistory, pins)
  }

  // ---------------------------------------------------------------------
  // Lookup and frame helpers

  /** The first pin carrying `id`, the one `pins.find` returns. */
  function PinIndex(pins: seq<Pin>, id: string): (r: Option<nat>)
    ensures r.Some? ==> r.value < |pins| && pins[r.value].id == id
    ensures r.Some? ==> forall j :: 0 <= j < r.value ==> pins[j].id != id
    ensures r.None? <==> forall j :: 0 <= j < |pins| ==> pins[j].id != id
  {
    Seqs.FindFirst(pins, (p: Pin) => p.id == id)
  }

  /** The first snapshot carrying `id`, the one `snapshots.find` returns. */
  function SnapshotIndex(snapshots: seq<Snapshot>, id: string): (r: Option<nat>)
    ensures r.Some? ==> r.value < |snapshots| && snapshots[r.value].id == id
    ensures r.Some? ==> forall j :: 0 <= j < r.value ==> snapshots[j].id != id
    ensures r.None? <==> forall j :: 0 <= j < |snapshots| ==> snapshots[j].id != id
  {
    Seqs.FindFirst(snapshots, (s: Snapshot) => s.id == id)
  }

  /** Same length, and every pin whose id is not `id` is untouched. */
  ghost predicate OnlyTarget(before: seq<Pin>, after: seq<Pin>, id: string)
  {
    && |after| == |before|
    && forall i :: 0 <= i < |before| && before[i].id != id ==> after[i] == before[i]
  }

  /** `pins.map(pin => pin.id === id ? f(pin) : pin)`. */
  function MapPin(pins: seq<Pin>, id: string, f: Pin -> Pin): (r: seq<Pin>)
    ensures OnlyTarget(pins, r, id)
    ensures forall i :: 0 <= i < |pins| && pins[i].id == id ==> r[i] == f(pins[i])
  {
    Seqs.MapWhere(pins, (p: Pin) => p.id == id, f)
  }

  /** `pin.listItems || []`. */
  function Items(p: Pin): seq<ListItem>
  {
    OrElse(p.listItems, [])
  }

  /** `pin.imageMinWidth || 150`: zero and absence both fall back. */
  function WidthFloor(minWidth: Option<real>): real
  {
    if minWidth.None? || minWidth.value == 0.0 then DefaultMinWidth else minWidth.value
  }

  /** `pin.imageMinHeight || 100`. */
  function HeightFloor(minHeight: Option<real>): real
  {
    if minHeight.None? || minHeight.value == 0.0 then DefaultMinHeight else minHeight.value
  }

  /** The `reduce` in loadSnapshot: the largest zIndex, starting from 0. */
  function MaxZ(pins: seq<Pin>): (m: int)
    ensures m >= 0
    ensures forall i :: 0 <= i < |pins| ==> pins[i].zIndex <= m
    ensures m == 0 || exists i :: 0 <= i < |pins| && pins[i].zIndex == m
  {
    if pins == [] then 0
    else
      var m := MaxZ(pins[..|pins| - 1]);
      var z := pins[|pins| - 1].zIndex;
      assert forall i :: 0 <= i < |pins| - 1 ==> pins[..|pins| - 1][i] == pins[i];
      if z > m then z else m
  }

  // ---------------------------------------------------------------------
  // Pin actions

  /** addPin. The new pin goes last, takes the next z-order value, becomes
      the selection, and the result is committed. */
  function AddPin(b: Board, draft: PinDraft, id: string, now: int, colorIndex: nat): (r: Board)
    requires colorIndex < |PinColors|
    ensures |r.pins| == |b.pins| + 1 && r.pins[..|b.pins|] == b.pins
    ensures var p := r.pins[|b.pins|];
      && p.id == id && p.zIndex == b.highestZIndex + 1
      && p.createdAt == now && p.updatedAt == now
      && p.kind == draft.kind && p.x == draft.x && p.y == draft.y
      && p.width == draft.width && p.height == draft.height && p.content == draft.content
      && p.listItems == draft.listItems && p.imageUrl == draft.imageUrl
      && p.imageMinWidth == draft.imageMinWidth && p.imageMinHeight == draft.imageMinHeight
      && (draft.color != "" ==> p.color == draft.color)
      && (draft.color == "" ==> p.color == PinColors[colorIndex])
      && p.color != ""
      && (draft.tags.Some? ==> p.tags == draft.tags.value)
      && (draft.tags.None? ==> p.tags == [])
    ensures r.highestZIndex == b.highestZIndex + 1 && r.selectedPinId == Some(id)
    ensures Commits(b, r)
    ensures r == b.(pins := r.pins, history := r.history, historyIndex := r.historyIndex,
                    highestZIndex := r.highestZIndex, selectedPinId := r.selectedPinId)
  {
    var z := b.highestZIndex + 1;
    var color := if draft.color != "" then draft.color else PinColors[colorIndex];
    var pin := Pin(id, draft.kind, draft.x, draft.y, draft.width, draft.height, draft.content,
                   draft.listItems, draft.imageUrl, draft.imageMinWidth, draft.imageMinHeight,
                   color, OrElse(draft.tags, []), z, now, now);
    var pins := b.pins + [pin];
    assert pins[..|b.pins|] == b.pins;
    CommitPins(b, pins).(highestZIndex := z, selectedPinId := Some(id))
  }

  /** updatePin. Matching pins take every supplied field (none is
      protected) and a fresh `updatedAt`; the result is committed even when
      no pin matches. */
  function UpdatePin(b: Board, id: string, updates: PinPatch, now: int): (r: Board)
    ensures OnlyTarget(b.pins, r.pins, id)
    ensures forall i :: 0 <= i < |b.pins| && b.pins[i].id == id ==>
      r.pins[i] == Merge(b.pins[i], updates).(updatedAt := now)
    ensures Commits(b, r)
    ensures r == b.(pins := r.pins, history := r.history, historyIndex := r.historyIndex)
  {
    CommitPins(b, MapPin(b.pins, id, (p: Pin) => Merge(p, updates).(updatedAt := now)))
  }

  /** deletePin. Removes every pin with the id, keeps the others in order,
      clears the selection exactly when it was that id, and commits. */
  function DeletePin(b: Board, id: string): (r: Board)
    ensures forall p :: p in r.pins <==> p in b.pins && p.id != id
    ensures forall p: Pin :: p.id != id ==> multiset(r.pins)[p] == multiset(b.pins)[p]
    ensures Seqs.Subsequence(r.pins, b.pins)
    ensures PinIndex(b.pins, id).None? ==> r.pins == b.pins
    ensures b.selectedPinId == Some(id) ==> r.selectedPinId == None
    ensures b.selectedPinId != Some(id) ==> r.selectedPinId == b.selectedPinId
    ensures Commits(b, r)
    ensures r == b.(pins := r.pins, history := r.history, historyIndex := r.historyIndex,
                    selectedPinId := r.selectedPinId)
  {
    var pins := Seqs.Filter(b.pins, (p: Pin) => p.id != id);
    CommitPins(b, pins).(selectedPinId := if b.selectedPinId == Some(id) then None else b.selectedPinId)
  }

  /** movePin: a live edit. Only the position and `updatedAt` of matching
      pins change; nothing is committed. */
  function MovePin(b: Board, id: string, x: real, y: real, now: int): (r: Board)
    ensures r == b.(pins := r.pins)
    ensures OnlyTarget(b.pins, r.pins, id)
    ensures forall i :: 0 <= i < |b.pins| && b.pins[i].id == id ==>
      r.pins[i] == b.pins[i].(x := x, y := y, updatedAt := now)
  {
    b.(pins := MapPin(b.pins, id, (p: Pin) => p.(x := x, y := y, updatedAt := now)))
  }

  /** resizePin: a live edit. The floors come from the first matching pin;
      each requested dimension is raised to its floor; nothing is committed;
      an unknown id leaves the store as it is. */
  function ResizePin(b: Board, id: string, width: real, height: real, now: int): (r: Board)
    ensures r == b.(pins := r.pins)
    ensures OnlyTarget(b.pins, r.pins, id)
    ensures PinIndex(b.pins, id).None? ==> r == b
    ensures PinIndex(b.pins, id).Some? ==>
      var k := PinIndex(b.pins, id).value;
      var w := r.pins[k].width;
      var h := r.pins[k].height;
      && w >= width && w >= WidthFloor(b.pins[k].imageMinWidth)
      && (w == width || w == WidthFloor(b.pins[k].imageMinWidth))
      && h >= height && h >= HeightFloor(b.pins[k].imageMinHeight)
      && (h == height || h == HeightFloor(b.pins[k].imageMinHeight))
      && forall i :: 0 <= i < |b.pins| && b.pins[i].id == id ==>
           r.pins[i] == b.pins[i].(width := w, height := h, updatedAt := now)
  {
    match PinIndex(b.pins, id)
    case None => b
    case Some(k) =>
      var w := MaxReal(width, WidthFloor(b.pins[k].imageMinWidth));
      var h := MaxReal(height, HeightFloor(b.pins[k].imageMinHeight));
      b.(pins := MapPin(b.pins, id, (p: Pin) => p.(width := w, height := h, updatedAt := now)))
  }

  /** bringToFront. The counter moves up by one whether or not a pin
      matches; matching pins take the new value and nothing else changes. */
  function BringToFront(b: Board, id: string): (r: Board)
    ensures r.highestZIndex == b.highestZIndex + 1
    ensures r == b.(pins := r.pins, highestZIndex := r.highestZIndex)
    ensures OnlyTarget(b.pins, r.pins, id)
    ensures forall i :: 0 <= i < |b.pins| && b.pins[i].id == id ==>
      r.pins[i] == b.pins[i].(zIndex := r.highestZIndex)
  {
    var z := b.highestZIndex + 1;
    b.(pins := MapPin(b.pins, id, (p: Pin) => p.(zIndex := z)), highestZIndex := z)
  }

  /** selectPin. Records the selection (unchecked); a non-empty id is also
      brought to front. */
  function SelectPin(b: Board, id: Option<string>): (r: Board)
    ensures r.selectedPinId == id
    ensures r == b.(pins := r.pins, highestZIndex := r.highestZIndex, selectedPinId := id)
    ensures id.Some? && id.value != "" ==>
      && r.highestZIndex == b.highestZIndex + 1
      && OnlyTarget(b.pins, r.pins, id.value)
      && forall i :: 0 <= i < |b.pins| && b.pins[i].id == id.value ==>
           r.pins[i] == b.pins[i].(zIndex := r.highestZIndex)
    ensures !(id.Some? && id.value != "") ==> r == b.(selectedPinId := id)
  {
    var selected := b.(selectedPinId := id);
    if id.Some? && id.value != "" then BringToFront(selected, id.value) else selected
  }

  /** The draft `{ ...pin, x: pin.x + 30, y: pin.y + 30 }` duplicatePin sends. */
  function DuplicateDraft(p: Pin): PinDraft
  {
    PinDraft(p.kind, p.x + 30.0, p.y + 30.0, p.width, p.height, p.content, p.listItems,
             p.imageUrl, p.imageMinWidth, p.imageMinHeight, p.color, Some(p.tags))
  }

  /** duplicatePin: addPin of an offset copy of the first matching pin; an
      unknown id leaves the store as it is. */
  function DuplicatePin(b: Board, id: string, newId: string, now: int, colorIndex: nat): (r: Board)
    requires colorIndex < |PinColors|
    ensures PinIndex(b.pins, id).None? ==> r == b
    ensures PinIndex(b.pins, id).Some? ==>
      var src := b.pins[PinIndex(b.pins, id).value];
      && |r.pins| == |b.pins| + 1 && r.pins[..|b.pins|] == b.pins
      && var copy := r.pins[|b.pins|];
      && copy == src.(id := newId, x := src.x + 30.0, y := src.y + 30.0, zIndex := b.highestZIndex + 1,
                      createdAt := now, updatedAt := now, color := copy.color)
      && (src.color != "" ==> copy.color == src.color)
      && (src.color == "" ==> copy.color == PinColors[colorIndex])
      && r.highestZIndex == b.highestZIndex + 1 && r.selectedPinId == Some(newId)
      && Commits(b, r)
      && r == b.(pins := r.pins, history := r.history, historyIndex := r.historyIndex,
                 highestZIndex := r.highestZIndex, selectedPinId := r.selectedPinId)
  {
    match PinIndex(b.pins, id)
    case None => b
    case Some(k) => AddPin(b, DuplicateDraft(b.pins[k]), newId, now, colorIndex)
  }

  // ---------------------------------------------------------------------
  // List actions

  /** addListItem. Matching pins (of any kind) get the new unchecked item
      appended, creating the list when absent; committed even when no pin
      matches. */
  function AddListItem(b: Board, pinId: string, text: string, itemId: string, now: int): (r: Board)
    ensures OnlyTarget(b.pins, r.pins, pinId)
    ensures forall i :: 0 <= i < |b.pins| && b.pins[i].id == pinId ==>
      r.pins[i] == b.pins[i].(listItems := Some(Items(b.pins[i]) + [ListItem(itemId, text, false)]),
                              updatedAt := now)
    ensures Commits(b, r)
    ensures r == b.(pins := r.pins, history := r.history, historyIndex := r.historyIndex)
  {
    var item := ListItem(itemId, text, false);
    CommitPins(b, MapPin(b.pins, pinId, (p: Pin) => p.(listItems := Some(Items(p) + [item]), updatedAt := now)))
  }

  /** `pin.listItems?.map(item => item.id === itemId ? f(item) : item)`. */
  function MapItems(items: Option<seq<ListItem>>, itemId: string, f: ListItem -> ListItem): (r: Option<seq<ListItem>>)
    ensures items.None? <==> r.None?
    ensures items.Some? ==>
      && |r.value| == |items.value|
      && forall j :: 0 <= j < |items.value| ==>
           r.value[j] == if items.value[j].id == itemId then f(items.value[j]) else items.value[j]
  {
    match items
    case None => None
    case Some(s) => Some(Seqs.MapWhere(s, (it: ListItem) => it.id == itemId, f))
  }

  /** updateListItem: a live edit. Matching items in matching pins take the
      supplied fields; the pin's `updatedAt` is refreshed even when no item
      matches; nothing is committed. */
  function UpdateListItem(b: Board, pinId: string, itemId: string, updates: ItemPatch, now: int): (r: Board)
    ensures r == b.(pins := r.pins)
    ensures OnlyTarget(b.pins, r.pins, pinId)
    ensures forall i :: 0 <= i < |b.pins| && b.pins[i].id == pinId ==>
      var before := b.pins[i].listItems;
      var after := r.pins[i].listItems;
      && r.pins[i] == b.pins[i].(listItems := after, updatedAt := now)
      && (before.None? <==> after.None?)
      && (before.Some? ==>
            && |after.value| == |before.value|
            && forall j :: 0 <= j < |before.value| ==>
                after.value[j] == if before.value[j].id == itemId then MergeItem(before.value[j], updates)
                                  else before.value[j])
  {
    b.(pins := MapPin(b.pins, pinId, (p: Pin) =>
      p.(listItems := MapItems(p.listItems, itemId, (it: ListItem) => MergeItem(it, updates)), updatedAt := now)))
  }

  /** deleteListItem. Matching pins lose every item with the id and keep the
      others in order (a pin with no list keeps none); committed even when
      nothing matches. */
  function DeleteListItem(b: Board, pinId: string, itemId: string, now: int): (r: Board)
    ensures OnlyTarget(b.pins, r.pins, pinId)
    ensures forall i :: 0 <= i < |b.pins| && b.pins[i].id == pinId ==>
      var before := b.pins[i].listItems;
      var after := r.pins[i].listItems;
      && r.pins[i] == b.pins[i].(listItems := after, updatedAt := now)
      && (before.None? <==> after.None?)
      && (before.Some? ==>
            && (forall it :: it in after.value <==> it in before.value && it.id != itemId)
            && (forall it: ListItem :: it.id != itemId ==> multiset(after.value)[it] == multiset(before.value)[it])
            && Seqs.Subsequence(after.value, before.value))
    ensures Commits(b, r)
    ensures r == b.(pins := r.pins, history := r.history, historyIndex := r.historyIndex)
  {
    CommitPins(b, MapPin(b.pins, pinId, (p: Pin) =>
      p.(listItems := match p.listItems
                      case None => None
                      case Some(s) => Some(Seqs.Filter(s, (it: ListItem) => it.id != itemId)),
         updatedAt := now)))
  }

  /** toggleListItem: a live edit. Matching items flip `completed`; nothing
      is committed. */
  function ToggleListItem(b: Board, pinId: string, itemId: string, now: int): (r: Board)
    ensures r == b.(pins := r.pins)
    ensures OnlyTarget(b.pins, r.pins, pinId)
    ensures forall i :: 0 <= i < |b.pins| && b.pins[i].id == pinId ==>
      var before := b.pins[i].listItems;
      var after := r.pins[i].listItems;
      && r.pins[i] == b.pins[i].(listItems := after, updatedAt := now)
      && (before.None? <==> after.None?)
      && (before.Some? ==>
            && |after.value| == |before.value|
            && forall j :: 0 <= j < |before.value| ==>
                after.value[j] == if before.value[j].id == itemId
                                  then before.value[j].(completed := !before.value[j].completed)
                                  else before.value[j])
  {
    b.(pins := MapPin(b.pins, pinId, (p: Pin) =>
      p.(listItems := MapItems(p.listItems, itemId, (it: ListItem) => it.(completed := !it.completed)),
         updatedAt := now)))
  }

  // ---------------------------------------------------------------------
  // Tag actions

  /** addTag: a live edit. A matching pin that lacks the tag gets it
      appended; one that has it is left exactly as it is. */
  function AddTag(b: Board, pinId: string, tag: string, now: int): (r: Board)
    ensures r == b.(pins := r.pins)
    ensures OnlyTarget(b.pins, r.pins, pinId)
    ensures forall i :: 0 <= i < |b.pins| && b.pins[i].id == pinId ==> tag in r.pins[i].tags
    ensures forall i :: 0 <= i < |b.pins| && b.pins[i].id == pinId && tag in b.pins[i].tags ==>
      r.pins[i] == b.pins[i]
    ensures forall i :: 0 <= i < |b.pins| && b.pins[i].id == pinId && tag !in b.pins[i].tags ==>
      r.pins[i] == b.pins[i].(tags := b.pins[i].tags + [tag], updatedAt := now)
  {
    b.(pins := Seqs.MapWhere(b.pins, (p: Pin) => p.id == pinId && tag !in p.tags,
                             (p: Pin) => p.(tags := p.tags + [tag], updatedAt := now)))
  }

  /** removeTag: a live edit. Matching pins lose every occurrence of the tag
      and keep the others, in order and with their multiplicities. */
  function RemoveTag(b: Board, pinId: string, tag: string, now: int): (r: Board)
    ensures r == b.(pins := r.pins)
    ensures OnlyTarget(b.pins, r.pins, pinId)
    ensures forall i :: 0 <= i < |b.pins| && b.pins[i].id == pinId ==>
      && r.pins[i] == b.pins[i].(tags := r.pins[i].tags, updatedAt := now)
      && tag !in r.pins[i].tags
      && (forall t :: t != tag ==> multiset(r.pins[i].tags)[t] == multiset(b.pins[i].tags)[t])
      && Seqs.Subsequence(r.pins[i].tags, b.pins[i].tags)
  {
    b.(pins := MapPin(b.pins, pinId, (p: Pin) =>
      p.(tags := Seqs.Filter(p.tags, (t: string) => t != tag), updatedAt := now)))
  }

  // ---------------------------------------------------------------------
  // Viewport

  /** setZoom: clamps into [MinZoom, MaxZoom]. */
  function SetZoom(b: Board, zoom: real): (r: Board)
    ensures r == b.(zoom := r.zoom)
    ensures MinZoom <= r.zoom <= MaxZoom
    ensures MinZoom <= zoom <= MaxZoom ==> r.zoom == zoom
    ensures zoom < MinZoom ==> r.zoom == MinZoom
    ensures zoom > MaxZoom ==> r.zoom == MaxZoom
  {
    var z := if zoom >= MinZoom then zoom else MinZoom;
    b.(zoom := if z <= MaxZoom then z else MaxZoom)
  }

  /** setPan: moves only the viewport offset. */
  function SetPan(b: Board, x: real, y: real): (r: Board)
    ensures r.panX == x && r.panY == y
    ensures r == b.(panX := r.panX, panY := r.panY)
  {
    b.(panX := x, panY := y)
  }

  /** resetView: unit zoom (already inside the clamp range) at the origin. */
  function ResetView(b: Board): (r: Board)
    ensures r.panX == 0.0 && r.panY == 0.0 && r.zoom == 1.0 && MinZoom <= r.zoom <= MaxZoom
    ensures r == b.(zoom := r.zoom, panX := r.panX, panY := r.panY)
  {
    b.(zoom := 1.0, panX := 0.0, panY := 0.0)
  }

  // ---------------------------------------------------------------------
  // History

  /** undo: at the first entry nothing happens; otherwise the cursor steps
      back one entry, the pins become that entry and the selection is
      cleared. The ledger and the counter are never touched. A cursor more
      than one past the end would load an entry that does not exist. */
  function Undo(b: Board): (r: Board)
    requires b.historyIndex <= |b.history|
    ensures Valid(b) ==> Valid(r)
    ensures r == b.(pins := r.pins, historyIndex := r.historyIndex, selectedPinId := r.selectedPinId)
    ensures !CanUndo(b) ==> r == b
    ensures CanUndo(b) ==>
      && r.historyIndex + 1 == b.historyIndex
      && Valid(r)
      && r.pins == b.history[r.historyIndex]
      && r.selectedPinId == None
      && (Valid(b) ==> CanRedo(r))
  {
    if b.historyIndex > 0 then
      var k := b.historyIndex - 1;
      b.(pins := b.history[k], historyIndex := k, selectedPinId := None)
    else b
  }

  /** redo: at the last entry nothing happens; otherwise the cursor steps
      forward one entry, the pins become that entry and the selection is
      cleared. The guard keeps the read inside the ledger for any cursor. */
  function Redo(b: Board): (r: Board)
    ensures Valid(b) ==> Valid(r)
    ensures r == b.(pins := r.pins, historyIndex := r.historyIndex, selectedPinId := r.selectedPinId)
    ensures !CanRedo(b) ==> r == b
    ensures CanRedo(b) ==>
      && r.historyIndex == b.historyIndex + 1
      && Valid(r)
      && r.pins == b.history[r.historyIndex]
      && r.selectedPinId == None
      && CanUndo(r)
  {
    if b.historyIndex < |b.history| - 1 then
      var k := b.historyIndex + 1;
      b.(pins := b.history[k], historyIndex := k, selectedPinId := None)
    else b
  }

  // ---------------------------------------------------------------------
  // Snapshots

  /** saveSnapshot: appends one snapshot holding the live pins; no name check. */
  function SaveSnapshot(b: Board, name: string, id: string, now: int): (r: Board)
    ensures r == b.(snapshots := r.snapshots)
    ensures |r.snapshots| == |b.snapshots| + 1 && r.snapshots[..|b.snapshots|] == b.snapshots
    ensures var s := r.snapshots[|b.snapshots|];
      s.id == id && s.name == name && s.pins == b.pins && s.createdAt == now
  {
    var s := b.snapshots + [Snapshot(id, name, b.pins, now)];
    assert s[..|b.snapshots|] == b.snapshots;
    b.(snapshots := s)
  }

  /** loadSnapshot: an unknown id is a no-op; otherwise the first matching
      snapshot's pins become live and are committed, the counter becomes
      their largest zIndex (0 when there is none) and the selection is cleared. */
  function LoadSnapshot(b: Board, id: string): (r: Board)
    ensures SnapshotIndex(b.snapshots, id).None? ==> r == b
    ensures SnapshotIndex(b.snapshots, id).Some? ==>
      && r.pins == b.snapshots[SnapshotIndex(b.snapshots, id).value].pins
      && Commits(b, r)
      && r.selectedPinId == None
      && r.highestZIndex >= 0
      && ZBounded(r)
      && (r.highestZIndex == 0 || exists i :: 0 <= i < |r.pins| && r.pins[i].zIndex == r.highestZIndex)
      && r == b.(pins := r.pins, history := r.history, historyIndex := r.historyIndex,
                 highestZIndex := r.highestZIndex, selectedPinId := None)
  {
    match SnapshotIndex(b.snapshots, id)
    case None => b
    case Some(k) =>
      var pins := b.snapshots[k].pins;
      CommitPins(b, pins).(highestZIndex := MaxZ(pins), selectedPinId := None)
  }

  /** deleteSnapshot: drops every snapshot with the id and keeps the rest in
      order. */
  function DeleteSnapshot(b: Board, id: string): (r: Board)
    ensures r == b.(snapshots := r.snapshots)
    ensures forall s :: s in r.snapshots <==> s in b.snapshots && s.id != id
    ensures forall s: Snapshot :: s.id != id ==> multiset(r.snapshots)[s] == multiset(b.snapshots)[s]
    ensures Seqs.Subsequence(r.snapshots, b.snapshots)
  {
    b.(snapshots := Seqs.Filter(b.snapshots, (s: Snapshot) => s.id != id))
  }

  /** renameSnapshot: matching snapshots change their name and nothing else. */
  function RenameSnapshot(b: Board, id: string, name: string): (r: Board)
    ensures r == b.(snapshots := r.snapshots)
    ensures |r.snapshots| == |b.snapshots|
    ensures forall i :: 0 <= i < |b.snapshots| ==>
      r.snapshots[i] == if b.snapshots[i].id == id then b.snapshots[i].(name := name) else b.snapshots[i]
  {
    b.(snapshots := Seqs.MapWhere(b.snapshots, (s: Snapshot) => s.id == id, (s: Snapshot) => s.(name := name)))
  }

  /** clearBoard: back to the initial record, whatever the store held,
      including an empty snapshot list. */
  function ClearBoard(b: Board): (r: Board)
    ensures Valid(r) && !CanUndo(r) && !CanRedo(r)
    ensures r.pins == [] && r.snapshots == [] && r.selectedPinId == None
    ensures r.zoom == 1.0 && r.panX == 0.0 && r.panY == 0.0 && r.highestZIndex == 0
    ensures r.history == [[]] && r.maxHistory == DefaultMaxHistory
  {
    InitialState()
  }
}
