/** The entity shapes of the board: pins, list items, snapshots and the store
    record, together with the argument shapes the store's actions accept. */
module Types {
  import opened Wrappers

  /** Exactly the three kinds of pin. */
  datatype PinType = Text | Image | List

  /** One checklist entry; owned by the pin whose `listItems` hold it. */
  datatype ListItem = ListItem(id: string, text: string, completed: bool)

  /** A placed object. `kind` is the source's `type` field; `tags`, `color`
      and `zIndex` are mandatory, the image and list fields are optional.
      Coordinates and sizes are reals; timestamps are integer milliseconds. */
  datatype Pin = Pin(
    id: string,
    kind: PinType,
    x: real,
    y: real,
    width: real,
    height: real,
    content: string,
    listItems: Option<seq<ListItem>>,
    imageUrl: Option<string>,
    imageMinWidth: Option<real>,
    imageMinHeight: Option<real>,
    color: string,
    tags: seq<string>,
    zIndex: int,
    createdAt: int,
    updatedAt: int)

  /** A named copy of the pin collection. */
  datatype Snapshot = Snapshot(id: string, name: string, pins: seq<Pin>, createdAt: int)

  /** The single store record: live pins, saved snapshots, the undo ledger
      (`history` with cursor `historyIndex` and the nominal capacity
      `maxHistory`), the viewport, the selection and the z-order counter. */
  datatype Board = Board(
    pins: seq<Pin>,
    snapshots: seq<Snapshot>,
    history: seq<seq<Pin>>,
    historyIndex: nat,
    maxHistory: nat,
    zoom: real,
    panX: real,
    panY: real,
    selectedPinId: Option<string>,
    highestZIndex: int)

  /** What a caller hands to addPin: a pin without `id`, `createdAt`,
      `updatedAt` and `zIndex`, which the store alone assigns. `tags` is an
      option because the store guards against it being absent. */
  datatype PinDraft = PinDraft(
    kind: PinType,
    x: real,
    y: real,
    width: real,
    height: real,
    content: string,
    listItems: Option<seq<ListItem>>,
    imageUrl: Option<string>,
    imageMinWidth: Option<real>,
    imageMinHeight: Option<real>,
    color: string,
    tags: Option<seq<string>>)

  /** A `Partial<Pin>`: `None` leaves a field alone. Every field may be
      supplied, `id`, `kind` and `zIndex` included; for the optional fields
      `Some(None)` writes `undefined`. */
  datatype PinPatch = PinPatch(
    id: Option<string>,
    kind: Option<PinType>,
    x: Option<real>,
    y: Option<real>,
    width: Option<real>,
    height: Option<real>,
    content: Option<string>,
    listItems: Option<Option<seq<ListItem>>>,
    imageUrl: Option<Option<string>>,
    imageMinWidth: Option<Option<real>>,
    imageMinHeight: Option<Option<real>>,
    color: Option<string>,
    tags: Option<seq<string>>,
    zIndex: Option<int>,
    createdAt: Option<int>,
    updatedAt: Option<int>)

  /** The patch that supplies no field. */
  const EmptyPatch: PinPatch :=
    PinPatch(None, None, None, None, None, None, None, None, None, None, None, None, None, None, None, None)

  /** `{ ...pin, ...updates }`. */
  function Merge(p: Pin, u: PinPatch): Pin
  {
    Pin(
      OrElse(u.id, p.id),
      OrElse(u.kind, p.kind),
      OrElse(u.x, p.x),
      OrElse(u.y, p.y),
      OrElse(u.width, p.width),
      OrElse(u.height, p.height),
      OrElse(u.content, p.content),
      OrElse(u.listItems, p.listItems),
      OrElse(u.imageUrl, p.imageUrl),
      OrElse(u.imageMinWidth, p.imageMinWidth),
      OrElse(u.imageMinHeight, p.imageMinHeight),
      OrElse(u.color, p.color),
      OrElse(u.tags, p.tags),
      OrElse(u.zIndex, p.zIndex),
      OrElse(u.createdAt, p.createdAt),
      OrElse(u.updatedAt, p.updatedAt))
  }

  /** A `Partial<ListItem>`. */
  datatype ItemPatch = ItemPatch(id: Option<string>, text: Option<string>, completed: Option<bool>)

  /** `{ ...item, ...updates }`. */
  function MergeItem(item: ListItem, u: ItemPatch): ListItem
  {
    ListItem(OrElse(u.id, item.id), OrElse(u.text, item.text), OrElse(u.completed, item.completed))
  }
}
