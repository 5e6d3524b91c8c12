/**
 * The photo editor page: load an image onto the canvas, drag out a
 * selection, crop, resize, rotate, save to a file, and undo/redo through
 * the snapshot history.
 *
 * Each event handler is a method of `Editor`, and each asynchronous image
 * decode (file load, snapshot restore, re-reading the edited canvas)
 * completes within the handler that starts it. What the platform's
 * graphics calls compute (the decoded file, the cropped, scaled or rotated
 * pixels) is passed in as a parameter.
 */
module PhotoEditor {
  import opened Canvas
  import History

  datatype Option<T> = None | Some(value: T)

  /** The messages the page shows with `alert`. */
  datatype Alert =
    | SelectImage     // no file chosen, or a drag started before any image is loaded
    | LoadImageFirst  // crop, resize or rotate before any image is loaded
    | InvalidArea     // crop with a selection less than one pixel wide or high
    | NothingToUndo
    | NothingToRedo

  /** A selection rectangle: top-left corner and size. */
  datatype Rect = Rect(x: int, y: int, width: nat, height: nat)

  /** What `parseInt` yields for a prompt's answer: NaN, or an integer. */
  datatype Parsed = NaN | Int(value: int)

  /** A file offered for download. */
  datatype Download = Download(filename: string, data: Bitmap)

  function Min(a: int, b: int): int { if a <= b then a else b }

  function Abs(a: int): nat { if a < 0 then -a else a }

  /**
   * The crop handler's reading of a drag from (startX, startY) to
   * (endX, endY): the rectangle spans exactly from one corner to the other,
   * whichever direction the drag went.
   */
  function NormalizeSelection(startX: int, startY: int, endX: int, endY: int): (r: Rect)
    ensures {r.x, r.x + r.width} == {startX, endX}
    ensures {r.y, r.y + r.height} == {startY, endY}
  {
    Rect(Min(startX, endX), Min(startY, endY), Abs(endX - startX), Abs(endY - startY))
  }

  /** The crop handler accepts a selection at least one pixel wide and high. */
  predicate SelectionUsable(r: Rect)
  {
    r.width >= 1 && r.height >= 1
  }

  /** A selection is usable exactly when the drag moved along both axes. */
  lemma SelectionUsableIff(startX: int, startY: int, endX: int, endY: int)
    ensures SelectionUsable(NormalizeSelection(startX, startY, endX, endY))
      <==> startX != endX && startY != endY
  {
  }

  /** Dragging the other way round selects the same rectangle. */
  lemma SelectionSymmetric(startX: int, startY: int, endX: int, endY: int)
    ensures NormalizeSelection(startX, startY, endX, endY) == NormalizeSelection(endX, endY, startX, startY)
  {
  }

  /** JavaScript truthiness of a `parseInt` result: neither NaN nor zero. */
  predicate Truthy(p: Parsed)
  {
    p.Int? && p.value != 0
  }

  /**
   * The resize handler's test: both answers parse to a truthy number and at
   * least one of them differs from the current canvas size.
   */
  predicate ResizeAccepted(newWidth: Parsed, newHeight: Parsed, width: nat, height: nat)
  {
    Truthy(newWidth) && Truthy(newHeight) &&
    (newWidth.value != width || newHeight.value != height)
  }

  /**
   * The resize test rejects an unparsable or zero answer and the current
   * size itself; it accepts negative answers, since nothing checks that
   * the new size is positive.
   */
  lemma ResizeAcceptedCases(newWidth: Parsed, newHeight: Parsed, width: nat, height: nat, a: int, b: int)
    ensures newWidth == NaN || newHeight == NaN ==> !ResizeAccepted(newWidth, newHeight, width, height)
    ensures newWidth == Int(0) || newHeight == Int(0) ==> !ResizeAccepted(newWidth, newHeight, width, height)
    ensures !ResizeAccepted(Int(width), Int(height), width, height)
    ensures a < 0 && b < 0 ==> ResizeAccepted(Int(a), Int(b), width, height)
  {
  }

  class Editor {
    // the canvas
    var width: nat
    var height: nat
    var pixels: Pixels
    var imageLoaded: bool
    // the drag selection
    var isDragging: bool
    var startX: int
    var startY: int
    var endX: int
    var endY: int
    // the history
    var history: seq<Bitmap>
    var redoStack: seq<Bitmap>

    /** `canvas.toDataURL()`: the snapshot of what the canvas shows. */
    function Surface(): Bitmap
      reads this
    {
      Bitmap(width, height, pixels)
    }

    function Stacks(): History.Stacks<Bitmap>
      reads this
    {
      History.Stacks(history, redoStack)
    }

    /**
     * The editor's invariant between events: an image is loaded exactly when
     * history is non-empty, and then the top of history is what the canvas
     * shows; every size the canvas or a snapshot holds is one the canvas
     * keeps as assigned.
     */
    ghost predicate Valid()
      reads this
    {
      width <= MaxDimension && height <= MaxDimension &&
      (forall b :: b in history ==> InRange(b)) &&
      (forall b :: b in redoStack ==> InRange(b)) &&
      imageLoaded == (|history| > 0) &&
      (|history| > 0 ==> History.Last(history) == Surface())
    }

    /** The page as loaded: a blank 1000 x 700 canvas, no image, empty stacks. */
    constructor ()
      ensures Valid()
      ensures Surface() == Bitmap(1000, 700, Transparent) && !imageLoaded
      ensures !isDragging && startX == 0 && startY == 0 && endX == 0 && endY == 0
      ensures history == [] && redoStack == []
    {
      width := CanvasDimension(1000, DefaultWidth);
      height := CanvasDimension(700, DefaultHeight);
      pixels := Transparent;
      imageLoaded := false;
      isDragging := false;
      startX, startY, endX, endY := 0, 0, 0, 0;
      history := [];
      redoStack := [];
    }

    /** `saveState(force)`: record the canvas unless it is already on top. */
    method SaveState(force: bool)
      modifies this`history, this`redoStack
      ensures Stacks() == History.Save(old(Stacks()), Surface(), force)
    {
      var data := Surface();
      if force || |history| == 0 || history[|history| - 1] != data {
        history := history + [data];
        redoStack := [];
      }
    }

    /**
     * `restoreState(state, skipSave)`: show the decoded snapshot, at its own
     * size, and record it only when `skipSave` is false.
     */
    method RestoreState(state: Bitmap, skipSave: bool)
      modifies this`width, this`height, this`pixels, this`imageLoaded, this`history, this`redoStack
      ensures width == CanvasDimension(state.width, DefaultWidth)
      ensures height == CanvasDimension(state.height, DefaultHeight)
      ensures pixels == state.pixels && imageLoaded
      ensures InRange(state) ==> Surface() == state
      ensures Stacks() == if skipSave then old(Stacks()) else History.Save(old(Stacks()), Surface(), false)
    {
      width := CanvasDimension(state.width, DefaultWidth);
      height := CanvasDimension(state.height, DefaultHeight);
      pixels := state.pixels;
      imageLoaded := true;
      if !skipSave {
        SaveState(false);
      }
    }

    /**
     * The load button: with no file chosen, only alert; otherwise show the
     * decoded file at its own size and record it with a forced save, which
     * also empties the redo stack.
     */
    method LoadImage(file: Option<Bitmap>) returns (alert: Option<Alert>)
      requires Valid()
      modifies this`width, this`height, this`pixels, this`imageLoaded, this`history, this`redoStack
      ensures Valid()
      ensures alert == if file.None? then Some(SelectImage) else None
      ensures file.None? ==>
        Surface() == old(Surface()) && Stacks() == old(Stacks()) && imageLoaded == old(imageLoaded)
      ensures file.Some? ==>
        width == CanvasDimension(file.value.width, DefaultWidth) &&
        height == CanvasDimension(file.value.height, DefaultHeight) &&
        pixels == file.value.pixels && imageLoaded &&
        (InRange(file.value) ==> Surface() == file.value)
      ensures file.Some? ==> Stacks() == History.Save(old(Stacks()), Surface(), true)
      ensures file.Some? ==> history == old(history) + [Surface()] && redoStack == []
    {
      if file.None? {
        return Some(SelectImage);
      }
      var image := file.value;
      width := CanvasDimension(image.width, DefaultWidth);
      height := CanvasDimension(image.height, DefaultHeight);
      pixels := image.pixels;
      imageLoaded := true;
      SaveState(true);
      alert := None;
    }

    /** Mouse down on the canvas: start a drag at (x, y), once an image is loaded. */
    method MouseDown(x: int, y: int) returns (alert: Option<Alert>)
      requires Valid()
      modifies this`isDragging, this`startX, this`startY
      ensures Valid()
      ensures alert == if imageLoaded then None else Some(SelectImage)
      ensures imageLoaded ==> isDragging && startX == x && startY == y
      ensures !imageLoaded ==>
        isDragging == old(isDragging) && startX == old(startX) && startY == old(startY)
    {
      if !imageLoaded {
        return Some(SelectImage);
      }
      isDragging := true;
      startX, startY := x, y;
      alert := None;
    }

    /**
     * Mouse move: while dragging over a loaded image, (x, y) becomes the
     * selection's end corner. The red outline drawn meanwhile is not part of
     * the model.
     */
    method MouseMove(x: int, y: int)
      requires Valid()
      modifies this`endX, this`endY
      ensures Valid()
      ensures isDragging && imageLoaded ==> endX == x && endY == y
      ensures !(isDragging && imageLoaded) ==> endX == old(endX) && endY == old(endY)
    {
      if isDragging && imageLoaded {
        endX, endY := x, y;
      }
    }

    /** Mouse up: the drag ends; the selection corners stay as they are. */
    method MouseUp()
      requires Valid()
      modifies this`isDragging
      ensures Valid() && !isDragging
    {
      isDragging := false;
    }

    /**
     * The crop button: reject when no image is loaded or the normalised
     * selection is empty; otherwise save, make the canvas the selection's
     * size showing `cropped`, and save again. `cropped` stands for the
     * canvas once the handler is done: the selection read by `getImageData`
     * and put back, then the re-encoded canvas drawn over itself when it has
     * decoded.
     */
    method Crop(cropped: Pixels) returns (alert: Option<Alert>)
      requires Valid()
      modifies this`width, this`height, this`pixels, this`imageLoaded, this`history, this`redoStack
      ensures Valid()
      ensures alert ==
        if !imageLoaded then Some(LoadImageFirst)
        else if !SelectionUsable(NormalizeSelection(startX, startY, endX, endY)) then Some(InvalidArea)
        else None
      ensures alert.Some? ==> Surface() == old(Surface()) && Stacks() == old(Stacks())
      ensures alert.None? ==>
        var r := NormalizeSelection(startX, startY, endX, endY);
        width == CanvasDimension(r.width, DefaultWidth) &&
        height == CanvasDimension(r.height, DefaultHeight) &&
        pixels == cropped
      ensures alert.None? ==>
        Stacks() == History.Save(History.Save(old(Stacks()), old(Surface()), false), Surface(), false)
      ensures alert.None? ==> Stacks() == History.Save(old(Stacks()), Surface(), false)
    {
      if !imageLoaded {
        return Some(LoadImageFirst);
      }
      var r := NormalizeSelection(startX, startY, endX, endY);
      if !SelectionUsable(r) {
        return Some(InvalidArea);
      }
      SaveState(false);
      width := CanvasDimension(r.width, DefaultWidth);
      height := CanvasDimension(r.height, DefaultHeight);
      pixels := cropped;
      imageLoaded := true;
      SaveState(false);
      alert := None;
    }

    /**
     * The resize button, given the two parsed answers: when an image is
     * loaded and the test accepts them, save, scale the canvas to the new
     * size showing `scaled`, and save again; otherwise change nothing.
     */
    method Resize(newWidth: Parsed, newHeight: Parsed, scaled: Pixels) returns (alert: Option<Alert>)
      requires Valid()
      modifies this`width, this`height, this`pixels, this`imageLoaded, this`history, this`redoStack
      ensures Valid()
      ensures alert == if old(imageLoaded) then None else Some(LoadImageFirst)
      ensures !(old(imageLoaded) && ResizeAccepted(newWidth, newHeight, old(width), old(height))) ==>
        Surface() == old(Surface()) && Stacks() == old(Stacks())
      ensures old(imageLoaded) && ResizeAccepted(newWidth, newHeight, old(width), old(height)) ==>
        width == CanvasDimension(newWidth.value, DefaultWidth) &&
        height == CanvasDimension(newHeight.value, DefaultHeight) &&
        pixels == scaled &&
        Stacks() == History.Save(History.Save(old(Stacks()), old(Surface()), false), Surface(), false) &&
        Stacks() == History.Save(old(Stacks()), Surface(), false)
    {
      if !imageLoaded {
        return Some(LoadImageFirst);
      }
      alert := None;
      if ResizeAccepted(newWidth, newHeight, width, height) {
        SaveState(false);
        width := CanvasDimension(newWidth.value, DefaultWidth);
        height := CanvasDimension(newHeight.value, DefaultHeight);
        pixels := scaled;
        imageLoaded := true;
        SaveState(false);
      }
    }

    /**
     * The rotate button: save, turn the canvas a quarter turn so that its
     * width and height trade places, show `rotated`, and save again.
     */
    method Rotate(rotated: Pixels) returns (alert: Option<Alert>)
      requires Valid()
      modifies this`width, this`height, this`pixels, this`imageLoaded, this`history, this`redoStack
      ensures Valid()
      ensures alert == if old(imageLoaded) then None else Some(LoadImageFirst)
      ensures alert.Some? ==> Surface() == old(Surface()) && Stacks() == old(Stacks())
      ensures alert.None? ==>
        width == old(height) && height == old(width) && pixels == rotated &&
        Stacks() == History.Save(History.Save(old(Stacks()), old(Surface()), false), Surface(), false) &&
        Stacks() == History.Save(old(Stacks()), Surface(), false)
    {
      if !imageLoaded {
        return Some(LoadImageFirst);
      }
      SaveState(false);
      // the temporary canvas takes the transposed size, then the canvas takes the temporary's
      var tempWidth := CanvasDimension(height, DefaultWidth);
      var tempHeight := CanvasDimension(width, DefaultHeight);
      width := CanvasDimension(tempWidth, DefaultWidth);
      height := CanvasDimension(tempHeight, DefaultHeight);
      pixels := rotated;
      imageLoaded := true;
      SaveState(false);
      alert := None;
    }

    /**
     * The save button: with a non-empty file name, offer the canvas as
     * `<name>.png`; a cancelled or empty prompt does nothing. The history is
     * not touched either way (the method modifies nothing).
     */
    method SaveImage(filename: Option<string>) returns (download: Option<Download>)
      ensures download.Some? <==> filename.Some? && filename.value != ""
      ensures download.Some? ==>
        download.value.filename == filename.value + ".png" && download.value.data == Surface()
    {
      if filename.None? || filename.value == "" {
        return None;
      }
      download := Some(Download(filename.value + ".png", Surface()));
    }

    /**
     * The undo button: with more than one entry in history, move the top
     * onto the redo stack and show the new top without recording it;
     * otherwise only alert.
     */
    method Undo() returns (alert: Option<Alert>)
      requires Valid()
      modifies this`width, this`height, this`pixels, this`imageLoaded, this`history, this`redoStack
      ensures Valid()
      ensures Stacks() == History.Undo(old(Stacks()))
      ensures alert == if |old(history)| > 1 then None else Some(NothingToUndo)
      ensures |old(history)| <= 1 ==> Surface() == old(Surface())
      ensures |old(history)| > 1 ==> |history| >= 1 && Surface() == History.Last(history)
    {
      if |history| > 1 {
        var lastState := history[|history| - 1];
        history := history[..|history| - 1];
        redoStack := redoStack + [lastState];
        var prevState := history[|history| - 1];
        assert prevState in old(history);
        RestoreState(prevState, true);
        alert := None;
      } else {
        alert := Some(NothingToUndo);
      }
    }

    /**
     * The redo button: with a non-empty redo stack, show its top without
     * recording it and then push it onto history; otherwise only alert.
     */
    method Redo() returns (alert: Option<Alert>)
      requires Valid()
      modifies this`width, this`height, this`pixels, this`imageLoaded, this`history, this`redoStack
      ensures Valid()
      ensures Stacks() == History.Redo(old(Stacks()))
      ensures alert == if |old(redoStack)| > 0 then None else Some(NothingToRedo)
      ensures |old(redoStack)| == 0 ==> Surface() == old(Surface())
      ensures |old(redoStack)| > 0 ==> Surface() == History.Last(old(redoStack))
    {
      if |redoStack| > 0 {
        var nextState := redoStack[|redoStack| - 1];
        redoStack := redoStack[..|redoStack| - 1];
        assert nextState in old(redoStack);
        RestoreState(nextState, true);
        history := history + [nextState];
        alert := None;
      } else {
        alert := Some(NothingToRedo);
      }
    }
  }

  /** Undo followed by redo brings back both the stacks and the canvas. */
  method UndoThenRedo(e: Editor)
    requires e.Valid() && |e.history| > 1
    modifies e
    ensures e.Valid()
    ensures e.Stacks() == old(e.Stacks()) && e.Surface() == old(e.Surface())
  {
    History.RedoUndoes(e.Stacks());
    var undone := e.Undo();
    var redone := e.Redo();
  }

  /** Two rotations give back the original width and height. */
  method RotateTwice(e: Editor, first: Pixels, second: Pixels)
    requires e.Valid()
    modifies e
    ensures e.Valid() && e.width == old(e.width) && e.height == old(e.height)
  {
    var a := e.Rotate(first);
    var b := e.Rotate(second);
  }

  /**
   * A crop's first, pre-mutation save never records anything: between
   * events the canvas is already the top of history.
   */
  lemma PreSaveIsNoOp(st: History.Stacks<Bitmap>, surface: Bitmap)
    requires |st.history| > 0 && History.Last(st.history) == surface
    ensures History.Save(st, surface, false) == st
  {
  }
}
