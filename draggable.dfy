/**
 * `makeDraggable`: a handle element whose pointer events move a shared
 * position. `start` records the offset between the position and the
 * pointer, `move` places the position at the pointer plus that offset, and
 * `end` forgets the offset. Coordinates come from the caller's
 * `eventToCoordinates`, a foreign function: each event here carries the
 * coordinates it returned.
 */
module Draggable {
  import opened Common

  datatype Point = Point(x: int, y: int)

  /** `{ dx, dy }`: the position minus the pointer at the start of a drag. */
  datatype Offset = Offset(dx: int, dy: int)

  /** A pointer event: the pressed button, and the coordinates `eventToCoordinates` maps it to. */
  datatype PointerEvent = PointerEvent(button: int, coords: Point)

  /** The part of `DraggableState` the handlers update: the offset while dragging, and the position. */
  datatype DragRecord = DragRecord(dragging: Option<Offset>, pos: Point)

  /** The offset `start` records for a pointer at `p`. */
  function OffsetFrom(pos: Point, p: Point): Offset
  {
    Offset(pos.x - p.x, pos.y - p.y)
  }

  /** The position `move` computes for a pointer at `p`. */
  function Displace(p: Point, d: Offset): Point
  {
    Point(p.x + d.dx, p.y + d.dy)
  }

  /** Displacing by the offset taken at the same point gives the original position back. */
  lemma DisplaceOffsetFrom(pos: Point, p: Point)
    ensures Displace(p, OffsetFrom(pos, p)) == pos
  {
  }

  /** `start` on the record: only a left-button press starts a drag, and the position stays put. */
  function StartStep(r: DragRecord, e: PointerEvent): (s: DragRecord)
    ensures s.pos == r.pos
    ensures e.button != 0 ==> s == r
    ensures e.button == 0 ==> s.dragging == Some(OffsetFrom(r.pos, e.coords))
  {
    if e.button != 0 then r else r.(dragging := Some(OffsetFrom(r.pos, e.coords)))
  }

  /** `move` on the record: while dragging, the position follows the pointer by the recorded offset. */
  function MoveStep(r: DragRecord, e: PointerEvent): (s: DragRecord)
    ensures s.dragging == r.dragging
    ensures r.dragging.None? ==> s == r
    ensures r.dragging.Some? ==> s.pos == Displace(e.coords, r.dragging.value)
  {
    if r.dragging.None? then r else r.(pos := Displace(e.coords, r.dragging.value))
  }

  /** `end` on the record: the offset is forgotten and the position kept. */
  function EndStep(r: DragRecord): (s: DragRecord)
    ensures s.dragging.None? && s.pos == r.pos
  {
    r.(dragging := None)
  }

  /** The record after a series of `move` events, in order. */
  function MoveAll(r: DragRecord, es: seq<PointerEvent>): DragRecord
  {
    if es == [] then r else MoveStep(MoveAll(r, es[..|es| - 1]), es[|es| - 1])
  }

  /**
   * Pressing the left button and moving back to the pressed coordinates
   * restores the position the drag started from, whatever moves came in
   * between.
   */
  lemma MoveBackRestoresPosition(r: DragRecord, down: PointerEvent, es: seq<PointerEvent>, back: PointerEvent)
    requires down.button == 0 && back.coords == down.coords
    ensures MoveStep(MoveAll(StartStep(r, down), es), back).pos == r.pos
  {
    MovesKeepOffset(StartStep(r, down), es);
    DisplaceOffsetFrom(r.pos, down.coords);
  }

  /** Moves never change the recorded offset. */
  lemma {:induction false} MovesKeepOffset(r: DragRecord, es: seq<PointerEvent>)
    ensures MoveAll(r, es).dragging == r.dragging
  {
    if es != [] {
      MovesKeepOffset(r, es[..|es| - 1]);
    }
  }

  /** After `end`, no sequence of moves changes anything. */
  lemma {:induction false} MovesAfterEndAreIgnored(r: DragRecord, es: seq<PointerEvent>)
    ensures MoveAll(EndStep(r), es) == EndStep(r)
  {
    if es != [] {
      MovesAfterEndAreIgnored(r, es[..|es| - 1]);
    }
  }

  /** The shared `DraggableState` object the handlers close over. */
  class DraggableState {
    var dragging: Option<Offset>
    var pos: Point

    constructor (pos: Point)
      ensures dragging.None? && this.pos == pos
    {
      dragging := None;
      this.pos := pos;
    }

    /** The state as a record. */
    function Record(): DragRecord
      reads this
    {
      DragRecord(dragging, pos)
    }
  }

  /** The handle element: its class list and its two text-selection style properties. */
  class Handle {
    var classes: set<string>
    var userSelect: string
    var webkitUserSelect: string

    constructor ()
      ensures classes == {} && userSelect == "" && webkitUserSelect == ""
    {
      classes := {};
      userSelect := "";
      webkitUserSelect := "";
    }
  }

  /**
   * `start`: a left-button press records the offset, marks the handle as
   * `dragging` and turns text selection off; any other button does nothing.
   */
  method Start(state: DraggableState, el: Handle, event: PointerEvent)
    modifies state, el
    ensures state.Record() == StartStep(old(state.Record()), event)
    ensures event.button != 0 ==>
      el.classes == old(el.classes) && el.userSelect == old(el.userSelect) &&
      el.webkitUserSelect == old(el.webkitUserSelect)
    ensures event.button == 0 ==>
      el.classes == old(el.classes) + {"dragging"} && el.userSelect == "none" && el.webkitUserSelect == "none"
  {
    if event.button != 0 {
      return;
    }
    var p := event.coords;
    state.dragging := Some(Offset(state.pos.x - p.x, state.pos.y - p.y));
    el.classes := el.classes + {"dragging"};
    el.userSelect := "none";
    el.webkitUserSelect := "none";
  }

  /** `end`: forgets the offset, unmarks the handle and restores text selection. */
  method End(state: DraggableState, el: Handle)
    modifies state, el
    ensures state.Record() == EndStep(old(state.Record()))
    ensures el.classes == old(el.classes) - {"dragging"} && el.userSelect == "" && el.webkitUserSelect == ""
  {
    state.dragging := None;
    el.classes := el.classes - {"dragging"};
    el.userSelect := "";
    el.webkitUserSelect := "";
  }

  /** `move`: while dragging, puts the position at the pointer plus the offset; otherwise nothing. */
  method Move(state: DraggableState, event: PointerEvent)
    modifies state
    ensures state.Record() == MoveStep(old(state.Record()), event)
  {
    if state.dragging.None? {
      return;
    }
    var p := event.coords;
    state.pos := Point(p.x + state.dragging.value.dx, p.y + state.dragging.value.dy);
  }
}
