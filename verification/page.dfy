/** The page's part of the core: the per-type draft policy behind the "add
    pin" buttons, and the undo/redo keyboard shortcuts. */
module Page {
  import opened Wrappers
  import opened Types
  import Store

  /** What an image upload hands over: the data URL and the image size. */
  datatype ImageData = ImageData(url: string, width: real, height: real)

  /** The draft `handleAddPin` builds for a pin type at a position; `None`
      for an image request that carries no image. Every draft has an empty
      colour (so addPin picks one from the palette) and no tags. */
  function DraftFor(kind: PinType, image: Option<ImageData>, x: real, y: real): (r: Option<PinDraft>)
    ensures r.None? <==> kind == Image && image.None?
    ensures r.Some? ==>
      && r.value.kind == kind && r.value.x == x && r.value.y == y
      && r.value.color == "" && r.value.tags == Some([])
      && r.value.width >= Store.WidthFloor(r.value.imageMinWidth)
      && r.value.height >= Store.HeightFloor(r.value.imageMinHeight)
    ensures kind == Text ==>
      && r.value.width == 250.0 && r.value.height == 180.0 && r.value.content == ""
      && r.value.listItems.None? && r.value.imageUrl.None?
      && r.value.imageMinWidth.None? && r.value.imageMinHeight.None?
    ensures kind == List ==>
      && r.value.width == 250.0 && r.value.height == 200.0 && r.value.content == "New Checklist"
      && r.value.listItems == Some([]) && r.value.imageUrl.None?
      && r.value.imageMinWidth.None? && r.value.imageMinHeight.None?
    ensures kind == Image && image.Some? ==>
      var d := r.value;
      var img := image.value;
      && d.imageUrl == Some(img.url) && d.content == "" && d.listItems.None?
      && d.imageMinWidth == Some(img.width) && d.imageMinHeight == Some(img.height + 60.0)
      && d.width >= 200.0 && d.width >= img.width && (d.width == 200.0 || d.width == img.width)
      && d.height >= 210.0 && d.height >= img.height + 60.0
      && (d.height == 210.0 || d.height == img.height + 60.0)
  {
    match kind
    case Text =>
      Some(PinDraft(Text, x, y, 250.0, 180.0, "", None, None, None, None, "", Some([])))
    case Image =>
      if image.None? then None
      else
        var img := image.value;
        Some(PinDraft(Image, x, y, Store.MaxReal(img.width, 200.0), Store.MaxReal(img.height, 150.0) + 60.0, "",
                      None, Some(img.url), Some(img.width), Some(img.height + 60.0), "", Some([])))
    case List =>
      Some(PinDraft(List, x, y, 250.0, 200.0, "New Checklist", Some([]), None, None, None, "", Some([])))
  }

  /** `handleAddPin`: adds the draft for the type, or nothing for an image
      request without image data. The position is the caller's. */
  function HandleAddPin(b: Board, kind: PinType, image: Option<ImageData>, x: real, y: real,
                        id: string, now: int, colorIndex: nat): (r: Board)
    requires colorIndex < |Store.PinColors|
    ensures kind == Image && image.None? ==> r == b
    ensures !(kind == Image && image.None?) ==>
      var d := DraftFor(kind, image, x, y).value;
      && |r.pins| == |b.pins| + 1 && r.pins[..|b.pins|] == b.pins
      && var p := r.pins[|b.pins|];
      && p.id == id && p.kind == kind && p.x == x && p.y == y
      && p.width == d.width && p.height == d.height && p.content == d.content
      && p.listItems == d.listItems && p.imageUrl == d.imageUrl
      && p.imageMinWidth == d.imageMinWidth && p.imageMinHeight == d.imageMinHeight
      && p.color == Store.PinColors[colorIndex] && p.tags == []
      && p.zIndex == b.highestZIndex + 1 && p.createdAt == now && p.updatedAt == now
      && p.width >= Store.WidthFloor(p.imageMinWidth) && p.height >= Store.HeightFloor(p.imageMinHeight)
      && r.highestZIndex == p.zIndex && r.selectedPinId == Some(id)
      && Store.Commits(b, r)
      && r == b.(pins := r.pins, history := r.history, historyIndex := r.historyIndex,
                 highestZIndex := r.highestZIndex, selectedPinId := r.selectedPinId)
  {
    match DraftFor(kind, image, x, y)
    case None => b
    case Some(d) => Store.AddPin(b, d, id, now, colorIndex)
  }

  /** The parts of a keydown event the handler reads. `inTextField` is
      whether the target is an input or a textarea. */
  datatype KeyEvent = KeyEvent(key: string, ctrlKey: bool, metaKey: bool, shiftKey: bool, inTextField: bool)

  /** The handler's effects: the store after it, whether the browser default
      was suppressed, and whether the snapshot panel was opened. */
  datatype KeyOutcome = KeyOutcome(board: Board, prevented: bool, openSnapshots: bool)

  predicate IsUndoChord(e: KeyEvent)
  {
    (e.ctrlKey || e.metaKey) && e.key == "z" && !e.shiftKey
  }

  predicate IsRedoChord(e: KeyEvent)
  {
    (e.ctrlKey || e.metaKey) && (e.key == "y" || (e.key == "z" && e.shiftKey))
  }

  /** The keydown handler. The undo and redo chords are checked one after
      the other against the same event, each guarded by its predicate. */
  function HandleKeyDown(b: Board, e: KeyEvent): (r: KeyOutcome)
    requires Store.Valid(b)
    ensures Store.Valid(r.board)
    ensures e.inTextField ==> r == KeyOutcome(b, false, false)
    ensures !e.inTextField && IsUndoChord(e) ==>
      && r.board == Store.Undo(b)
      && (Store.CanUndo(b) ==> r.board.historyIndex + 1 == b.historyIndex
                               && r.board.pins == b.history[r.board.historyIndex])
      && (!Store.CanUndo(b) ==> r.board == b)
    ensures !e.inTextField && IsRedoChord(e) ==>
      && r.board == Store.Redo(b)
      && (Store.CanRedo(b) ==> r.board.historyIndex == b.historyIndex + 1
                               && r.board.pins == b.history[r.board.historyIndex])
      && (!Store.CanRedo(b) ==> r.board == b)
    ensures !IsUndoChord(e) && !IsRedoChord(e) ==> r.board == b
    ensures r.board.history == b.history
    ensures r.prevented <==> !e.inTextField && (e.ctrlKey || e.metaKey) && (e.key == "z" || e.key == "y" || e.key == "s")
    ensures r.openSnapshots <==> !e.inTextField && (e.ctrlKey || e.metaKey) && e.key == "s"
  {
    if e.inTextField then KeyOutcome(b, false, false)
    else
      var modifier := e.ctrlKey || e.metaKey;
      var afterUndo := if IsUndoChord(e) && Store.CanUndo(b) then Store.Undo(b) else b;
      var afterRedo := if IsRedoChord(e) && Store.CanRedo(afterUndo) then Store.Redo(afterUndo) else afterUndo;
      var save := modifier && e.key == "s";
      KeyOutcome(afterRedo, IsUndoChord(e) || IsRedoChord(e) || save, save)
  }
}
