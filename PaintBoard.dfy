/**
 * The paint board page: a canvas filled with a background colour, and the
 * snapshot history behind its undo and redo buttons.
 *
 * Unlike the photo editor, this page's restore routine only clears the
 * canvas once the snapshot has decoded; it never draws the snapshot. The
 * model follows that: undo and redo move snapshots between the stacks and
 * leave a transparent canvas behind.
 */
module PaintBoard {
  import opened Canvas
  import History

  /** The colour `initializeCanvas` fills the board with. */
  const Background: string := "#eef5ff"

  class Board {
    var width: nat
    var height: nat
    var pixels: Pixels
    var history: seq<Bitmap>
    var redoStack: seq<Bitmap>

    /** `canvas.toDataURL()`: the snapshot of what the canvas shows. */
    function Surface(): Bitmap
      reads this
    {
      Bitmap(width, height, pixels)
    }

    function Stacks(): History.Stacks<Bitmap>
      reads this
    {
      History.Stacks(history, redoStack)
    }

    /** The page as the script starts: a blank canvas of default size, empty stacks. */
    constructor ()
      ensures Surface() == Bitmap(DefaultWidth, DefaultHeight, Transparent)
      ensures history == [] && redoStack == []
    {
      width, height := DefaultWidth, DefaultHeight;
      pixels := Transparent;
      history, redoStack := [], [];
    }

    /**
     * `initializeCanvas`: size the canvas to its laid-out box, fill it with
     * the background, and record that as the baseline with a forced save.
     */
    method InitializeCanvas(offsetWidth: nat, offsetHeight: nat)
      modifies this`width, this`height, this`pixels, this`history, this`redoStack
      ensures width == CanvasDimension(offsetWidth, DefaultWidth)
      ensures height == CanvasDimension(offsetHeight, DefaultHeight)
      ensures pixels == Fill(Background)
      ensures Stacks() == History.Save(old(Stacks()), Surface(), true)
      ensures history == old(history) + [Surface()] && redoStack == []
      ensures old(history) == [] ==> history == [Surface()]
    {
      width := CanvasDimension(offsetWidth, DefaultWidth);
      height := CanvasDimension(offsetHeight, DefaultHeight);
      pixels := Fill(Background);
      SaveState(true);
    }

    /** `saveState(force)`: record the canvas unless it is already on top. */
    method SaveState(force: bool)
      modifies this`history, this`redoStack
      ensures Stacks() == History.Save(old(Stacks()), Surface(), force)
    {
      if force || |history| == 0 || history[|history| - 1] != Surface() {
        history := history + [Surface()];
        redoStack := [];
      }
    }

    /**
     * The page's restore routine (spelled `resotreState` there): once the
     * snapshot has decoded it clears the canvas, and draws nothing.
     */
    method RestoreState(state: Bitmap)
      modifies this`pixels
      ensures pixels == Transparent
    {
      pixels := Transparent;
    }

    /**
     * The undo button: with more than one entry in history, move the top
     * onto the redo stack and restore; otherwise do nothing. History never
     * drops below the baseline.
     */
    method Undo()
      modifies this`pixels, this`history, this`redoStack
      ensures Stacks() == History.Undo(old(Stacks()))
      ensures pixels == if |old(history)| > 1 then Transparent else old(pixels)
      ensures |old(history)| >= 1 ==> |history| >= 1
    {
      if |history| > 1 {
        var top := history[|history| - 1];
        history := history[..|history| - 1];
        redoStack := redoStack + [top];
        RestoreState(history[|history| - 1]);
      }
    }

    /**
     * The redo button: with a non-empty redo stack, move its top onto
     * history and restore; otherwise do nothing.
     */
    method Redo()
      modifies this`pixels, this`history, this`redoStack
      ensures Stacks() == History.Redo(old(Stacks()))
      ensures pixels == if |old(redoStack)| > 0 then Transparent else old(pixels)
    {
      if |redoStack| > 0 {
        var redoState := redoStack[|redoStack| - 1];
        redoStack := redoStack[..|redoStack| - 1];
        history := history + [redoState];
        RestoreState(redoState);
      }
    }
  }

  /**
   * Undo on this page leaves a cleared canvas, so unless the state it goes
   * back to was itself transparent, the canvas no longer shows the top of
   * history.
   */
  method UndoShowsCleared(b: Board)
    requires |b.history| > 1
    requires History.Last(b.history[..|b.history| - 1]).pixels != Transparent
    modifies b
    ensures |b.history| >= 1 && b.Surface() != History.Last(b.history)
  {
    b.Undo();
  }
}
