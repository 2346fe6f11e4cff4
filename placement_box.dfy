/**
 * The draggable, resizable placement box on the first page.
 *
 * Pressing the box body starts a drag, pressing the corner handle starts a
 * resize; both record a snapshot of the box geometry and of the pointer at
 * press time. Every pointer move while a mode is active recomputes the
 * geometry from that snapshot and the current pointer only, and a release
 * anywhere ends both modes. Resizing never makes the box narrower or lower
 * than MinSize.
 */
module PlacementBox {

  datatype Option<T> = None | Some(value: T)

  /** Geometry of the box in page pixels. */
  datatype Rect = Rect(x: int, y: int, width: int, height: int)

  /** Box geometry (x, y, w, h) and pointer position (mx, my) at press time. */
  datatype Snapshot = Snapshot(x: int, y: int, w: int, h: int, mx: int, my: int)

  /** The smallest width and height a resize can produce. */
  const MinSize: int := 100

  /** The box's geometry when the composer starts. */
  const InitialRect: Rect := Rect(80, 120, 630, 850)

  function Max(a: int, b: int): (r: int)
    ensures r >= a && r >= b && (r == a || r == b)
  {
    if a >= b then a else b
  }

  /** The snapshot taken when the box at `r` is pressed at pointer (px, py). */
  function Capture(r: Rect, px: int, py: int): (s: Snapshot)
    ensures Restored(s) == r && s.mx == px && s.my == py
  {
    Snapshot(r.x, r.y, r.width, r.height, px, py)
  }

  /** The geometry recorded in a snapshot. */
  function Restored(s: Snapshot): (r: Rect)
  {
    Rect(s.x, s.y, s.w, s.h)
  }

  /** Geometry while dragging: the box is translated by the pointer's
   *  displacement since the press, and keeps its press-time size. */
  function Dragged(s: Snapshot, px: int, py: int): (r: Rect)
    ensures r.x - s.x == px - s.mx && r.y - s.y == py - s.my
    ensures r.width == s.w && r.height == s.h
  {
    Rect(s.x + (px - s.mx), s.y + (py - s.my), s.w, s.h)
  }

  /** Geometry while resizing: the top-left corner stays where it was at the
   *  press, and each side grows by the pointer's displacement, but never
   *  below MinSize. */
  function Resized(s: Snapshot, px: int, py: int): (r: Rect)
    ensures r.x == s.x && r.y == s.y
    ensures r.width >= MinSize && r.width >= s.w + (px - s.mx)
    ensures r.width == MinSize || r.width == s.w + (px - s.mx)
    ensures r.height >= MinSize && r.height >= s.h + (py - s.my)
    ensures r.height == MinSize || r.height == s.h + (py - s.my)
  {
    Rect(s.x, s.y, Max(MinSize, s.w + (px - s.mx)), Max(MinSize, s.h + (py - s.my)))
  }

  /**
   * The geometry after one pointer move. When disabled nothing changes. The
   * drag update is issued before the resize update, so when both modes are
   * on the resize update is the one that remains.
   */
  function MovedRect(dragging: bool, resizing: bool, disabled: bool, start: Option<Snapshot>,
                     r: Rect, px: int, py: int): (r': Rect)
    requires (dragging || resizing) ==> start.Some?
    ensures disabled || !(dragging || resizing) ==> r' == r
    ensures !disabled && resizing ==> r' == Resized(start.value, px, py)
    ensures !disabled && dragging && !resizing ==> r' == Dragged(start.value, px, py)
  {
    if disabled then r
    else
      var afterDrag := if dragging then Dragged(start.value, px, py) else r;
      if resizing then Resized(start.value, px, py) else afterDrag
  }

  /** Path independence: while a mode is active, the geometry after a move
   *  does not depend on the geometry before it, so any earlier moves are
   *  forgotten. */
  lemma MoveForgetsEarlierMoves(dragging: bool, resizing: bool, disabled: bool, start: Option<Snapshot>,
                                r1: Rect, r2: Rect, px: int, py: int)
    requires dragging || resizing
    requires start.Some?
    requires !disabled
    ensures MovedRect(dragging, resizing, disabled, start, r1, px, py)
         == MovedRect(dragging, resizing, disabled, start, r2, px, py)
  {
  }

  /** Returning the pointer to where it was pressed restores the press-time
   *  geometry, during a drag and during a resize that started at least
   *  MinSize wide and high. */
  lemma BackToPressPointRestores(s: Snapshot)
    ensures Dragged(s, s.mx, s.my) == Restored(s)
    ensures s.w >= MinSize && s.h >= MinSize ==> Resized(s, s.mx, s.my) == Restored(s)
  {
  }

  /** Drags compose: a drag relative to a snapshot taken at the end of an
   *  earlier drag equals one drag from the first press to the final pointer. */
  lemma DragsCompose(s: Snapshot, qx: int, qy: int, px: int, py: int)
    ensures Dragged(Capture(Dragged(s, qx, qy), qx, qy), px, py) == Dragged(s, px, py)
  {
  }

  /** A move keeps the box at least MinSize wide and high when the
   *  snapshot and the current geometry are. */
  lemma MoveKeepsMinSize(dragging: bool, resizing: bool, disabled: bool, start: Option<Snapshot>,
                         r: Rect, px: int, py: int)
    requires (dragging || resizing) ==> start.Some?
    requires start.Some? ==> start.value.w >= MinSize && start.value.h >= MinSize
    requires r.width >= MinSize && r.height >= MinSize
    ensures MovedRect(dragging, resizing, disabled, start, r, px, py).width >= MinSize
    ensures MovedRect(dragging, resizing, disabled, start, r, px, py).height >= MinSize
  {
  }

  /**
   * The interaction state of the box. `rect` is the geometry the box is
   * rendered with (its owner's state, which the box's updates overwrite);
   * `dragging` and `resizing` are the two independent mode flags; `start`
   * is the press-time snapshot, absent until the first press.
   */
  class Box {
    var rect: Rect
    var dragging: bool
    var resizing: bool
    var disabled: bool
    var start: Option<Snapshot>

    ghost predicate Valid()
      reads this
    {
      && rect.width >= MinSize && rect.height >= MinSize
      && ((dragging || resizing) ==> start.Some?)
      && (start.Some? ==> start.value.w >= MinSize && start.value.h >= MinSize)
    }

    constructor (disabled: bool)
      ensures Valid()
      ensures rect == InitialRect && !dragging && !resizing && start == None
      ensures this.disabled == disabled
    {
      rect := InitialRect;
      dragging, resizing := false, false;
      this.disabled := disabled;
      start := None;
    }

    /** Press on the box. A press whose target is the resize handle is
     *  ignored here; otherwise dragging starts from the current geometry.
     *  The disabled flag does not gate this press. */
    method BeginDrag(targetIsHandle: bool, px: int, py: int)
      requires Valid()
      modifies this
      ensures Valid()
      ensures targetIsHandle ==> unchanged(this)
      ensures !targetIsHandle ==> dragging && start == Some(Capture(old(rect), px, py))
      ensures !targetIsHandle ==> resizing == old(resizing)
      ensures rect == old(rect) && disabled == old(disabled)
    {
      if targetIsHandle {
        return;
      }
      dragging := true;
      start := Some(Capture(rect, px, py));
    }

    /** Press on the resize handle. The handle exists only while the box is
     *  enabled, and its press does not reach the box body, so dragging is
     *  left as it was. */
    method BeginResize(px: int, py: int)
      requires Valid()
      modifies this
      ensures Valid()
      ensures old(disabled) ==> unchanged(this)
      ensures !old(disabled) ==> resizing && start == Some(Capture(old(rect), px, py))
      ensures dragging == old(dragging) && rect == old(rect) && disabled == old(disabled)
    {
      if disabled {
        return;
      }
      resizing := true;
      start := Some(Capture(rect, px, py));
    }

    /** Pointer move anywhere in the window. */
    method Move(px: int, py: int)
      requires Valid()
      modifies this
      ensures Valid()
      ensures rect == MovedRect(dragging, resizing, disabled, start, old(rect), px, py)
      ensures dragging == old(dragging) && resizing == old(resizing)
      ensures disabled == old(disabled) && start == old(start)
    {
      if disabled {
        return;
      }
      if dragging {
        rect := Dragged(start.value, px, py);
      }
      if resizing {
        rect := Resized(start.value, px, py);
      }
    }

    /** Pointer release anywhere in the window: both modes end. */
    method Up()
      requires Valid()
      modifies this
      ensures Valid()
      ensures !dragging && !resizing
      ensures rect == old(rect) && disabled == old(disabled) && start == old(start)
    {
      dragging := false;
      resizing := false;
    }

    /** A change to the component's `disabled` prop. The composer's only use
     *  of the box never passes it, so there the box is always enabled. */
    method SetDisabled(d: bool)
      requires Valid()
      modifies this
      ensures Valid()
      ensures disabled == d
      ensures rect == old(rect) && dragging == old(dragging) && resizing == old(resizing)
      ensures start == old(start)
    {
      disabled := d;
    }
  }

  /** A drag by (+50, -30) followed by a resize by (-600, 0), from the
   *  initial geometry. */
  method DragThenResize()
  {
    var box := new Box(false);
    box.BeginDrag(false, 300, 300);
    box.Move(350, 270);
    assert box.rect == Rect(130, 90, 630, 850);
    box.Up();
    box.Up();
    assert !box.dragging && !box.resizing && box.rect == Rect(130, 90, 630, 850);
    box.BeginResize(760, 940);
    assert !box.dragging && box.resizing;
    box.Move(160, 940);
    assert box.rect == Rect(130, 90, 100, 850);
    box.Move(900, 1000);
    assert box.rect == Rect(130, 90, 770, 910);
    box.Up();
    box.Move(0, 0);
    assert box.rect == Rect(130, 90, 770, 910);
  }
}
