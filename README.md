# Paint board and photo editor: the undo/redo history in Dafny

This project models the two browser pages of the paint-board repository. The
paint board (`script.js`) is a canvas filled with a background colour. The
photo editor (`photo-editor.js`) loads an image, crops a dragged selection,
resizes, rotates and saves it. Both pages keep the same snapshot history: a
`history` stack whose top is the state on screen, and a `redoStack` of
undone states. `saveState(force)` records the canvas as a snapshot (a
`toDataURL()` string). It does so only when forced, when history is empty, or
when the snapshot differs from the top, and each time it records it empties
the redo stack. Undo moves the top of history onto the redo stack, but only
while history holds more than one entry. Redo moves the top of the redo stack
back onto history.

Files:

- `Canvas.dfy` (module `Canvas`): a `Bitmap` value (width, height, pixels)
  stands for both the canvas contents and a snapshot. `toDataURL()` is treated
  as an injective encoding. `CanvasDimension` gives the value the canvas
  `width` or `height` attribute holds after a script assigns a number to it.
  It follows the Web IDL conversion to `unsigned long` and the HTML Living
  Standard's rule for reflected `unsigned long` attributes. The value is first
  reduced modulo 2^32. Only when that result is above 2^31-1 does the
  attribute fall back to 300 (width) or 150 (height). So -5 gives the
  default, while 2^32 gives 0 and 2^32+5 gives 5.
- `History.dfy` (module `History`): the two stacks as a value, with `Save`,
  `Undo` and `Redo` as pure functions. The lemmas cover the deduplication,
  the emptying of the redo stack, the baseline that is never undone, and the
  timeline `history ++ reverse(redo)` that undo and redo keep.
- `PhotoEditor.dfy` (module `PhotoEditor`): class `Editor`, one method per
  event handler. Each event handler keeps the invariant `Valid()`: an image
  is loaded exactly when history is non-empty, and then the top of history
  is what the canvas shows. The handlers that touch the stacks are proved
  against the `History` functions. `saveState` and `restoreState` are
  helpers that the handlers call mid-update, so they neither require nor
  ensure `Valid()`. Crop normalisation and the resize test are pure
  functions.
- `PaintBoard.dfy` (module `PaintBoard`): class `Board`, covering
  `initializeCanvas`, `saveState`, the restore routine, undo and redo.

Each asynchronous image decode (file load, snapshot restore, re-reading the
edited canvas) completes inside the handler that starts it. Pixels computed
by the platform are method parameters: the decoded file, the cropped canvas,
and the scaled and rotated draws.

Three behaviours of the code differ from what an undo/redo design would lead one to expect; the model follows the code:

- Crop, resize and rotate do not add a snapshot both before and after the
  change. The first call is a non-forced `saveState()`. In the model, the
  canvas between events already equals the top of history, so that call
  never records (`PhotoEditor.PreSaveIsNoOp`), and each such operation adds
  at most one entry. The page itself can differ: its pre-save can record
  while the selection outline is visible, or after a crop's redraw (see
  "## Left out").
- The resize test accepts any pair of non-zero integers other than the
  current size, negative ones included. It does not check for positive
  values. A negative size reaches the canvas attribute; from -1 down to
  -2^31 the attribute then falls back to its default.
- On the paint board, undo and redo do not show the restored snapshot. The
  restore routine (`resotreState`, script.js:45-51) only clears the canvas
  (`PaintBoard.UndoShowsCleared`).

## Model

| member | source | states |
|---|---|---|
| Canvas.CanvasDimension | photo-editor.js:157-158 | the attribute always holds a value in 0..2^31-1; a value in that range is kept as assigned; a negative value down to -2^31 yields the default |
| History.Records | photo-editor.js:22 | the guard of `saveState(force)`, shared with script.js:34-38: a save records when it is forced, when history is empty, or when the snapshot differs from the top of history |
| History.Save | photo-editor.js:20-26 | after saving, the snapshot is the top of history; history grows by at most one and keeps its old entries as a prefix; either the redo stack is empty or nothing changed |
| History.Undo | photo-editor.js:211-213 | with at most one entry nothing changes; otherwise the old top leaves history and becomes the top of the redo stack |
| History.Redo | photo-editor.js:223-226 | with an empty redo stack nothing changes; otherwise the redo top leaves the redo stack and becomes the top of history |
| History.SaveAppendsIff | photo-editor.js:22-25 | history grows by one exactly when forced, when it is empty, or when the snapshot differs from the top; a push empties redo; otherwise nothing changes |
| History.SaveIdempotent | photo-editor.js:21-22 | a second non-forced save of the same snapshot is a no-op |
| History.RedoAfterSaveIsNoOp | script.js:39-40 | after a save that records, the redo stack is empty and redo does nothing |
| History.UndoKeepsTimeline | script.js:56 | undo leaves `history ++ reverse(redo)` unchanged: it neither creates nor discards snapshots |
| History.RedoKeepsTimeline | script.js:64-65 | redo leaves `history ++ reverse(redo)` unchanged |
| History.RedoUndoes | photo-editor.js:210-230 | redo right after a successful undo restores both stacks exactly |
| History.UndoRedoes | script.js:54-68 | with a baseline present, undo right after a redo restores both stacks exactly |
| History.UndoTimesKeepsBaseline | script.js:55-56 | n undos from a non-empty history remove the n most recent entries but never the first one, and keep the timeline |
| History.SaveEachRecordsAll | photo-editor.js:20-26 | non-forced saves of snapshots that each differ from the previous one record all of them in order and leave redo empty |
| History.UndoAllReturnsToBaseline | photo-editor.js:210-219 | from a baseline, N changing saves then N undos give back the baseline alone with the N snapshots on the redo stack in redo order; one more undo changes nothing |
| PhotoEditor.NormalizeSelection | photo-editor.js:113-116 | the rectangle spans exactly from one drag corner to the other on each axis, whatever the drag direction |
| PhotoEditor.SelectionUsable | photo-editor.js:118 | the crop goes ahead only for a selection at least one pixel wide and at least one pixel high; otherwise it alerts |
| PhotoEditor.SelectionUsableIff | photo-editor.js:118 | the crop accepts the selection exactly when the drag moved along both axes |
| PhotoEditor.SelectionSymmetric | photo-editor.js:113-116 | dragging the opposite way selects the same rectangle |
| PhotoEditor.Truthy | photo-editor.js:143-145 | the JavaScript truthiness of a `parseInt` answer: a number other than NaN and zero |
| PhotoEditor.ResizeAccepted | photo-editor.js:143-147 | resize goes ahead when both answers are truthy and at least one differs from the current width or height |
| PhotoEditor.ResizeAcceptedCases | photo-editor.js:143-147 | resize is rejected for a NaN or zero answer and for the current size; two negative answers are accepted, since nothing checks for a positive size |
| PhotoEditor.PreSaveIsNoOp | photo-editor.js:120 | when the canvas is the top of history, the pre-mutation save changes nothing |
| PhotoEditor.Editor.constructor | photo-editor.js:5-18 | the page starts with a blank 1000 x 700 canvas, no image, no selection and empty stacks |
| PhotoEditor.Editor.Surface | photo-editor.js:21 | `canvas.toDataURL()`: the snapshot of the canvas is its width, height and pixels, so two snapshots are equal exactly when those are |
| PhotoEditor.Editor.SaveState | photo-editor.js:20-26 | the stacks become `History.Save` of the old stacks with the current canvas |
| PhotoEditor.Editor.RestoreState | photo-editor.js:28-47 | the canvas shows the snapshot at its own size, an image counts as loaded, and the stacks change only when `skipSave` is false |
| PhotoEditor.Editor.LoadImage | photo-editor.js:50-68 | with no file, only an alert; otherwise the canvas shows the decoded file and a forced save pushes it and empties redo |
| PhotoEditor.Editor.MouseDown | photo-editor.js:71-77 | a drag starts at the pointer only when an image is loaded; otherwise only an alert |
| PhotoEditor.Editor.MouseMove | photo-editor.js:80-95 | while dragging over a loaded image the pointer becomes the end corner; otherwise nothing changes |
| PhotoEditor.Editor.MouseUp | photo-editor.js:98-107 | the drag ends and the selection stays |
| PhotoEditor.Editor.Crop | photo-editor.js:110-134 | with no image or an empty selection, an alert and nothing changes; otherwise the canvas takes the selection's size and the cropped pixels, and the stacks are two non-forced saves, which amount to one |
| PhotoEditor.Editor.Resize | photo-editor.js:137-168 | with no image, an alert; when the test rejects the answers nothing changes; otherwise the canvas takes the new size and the scaled pixels between two non-forced saves |
| PhotoEditor.Editor.Rotate | photo-editor.js:171-196 | with no image, an alert and nothing changes; otherwise width and height trade places and the rotated pixels are recorded by non-forced saves |
| PhotoEditor.Editor.SaveImage | photo-editor.js:199-207 | a download happens exactly when the file name is non-empty; it is named `<name>.png` and carries the canvas; nothing is modified |
| PhotoEditor.Editor.Undo | photo-editor.js:210-219 | the stacks become `History.Undo` of the old ones; with more than one entry the canvas shows the new top without recording it; otherwise an alert and the canvas is unchanged |
| PhotoEditor.Editor.Redo | photo-editor.js:222-230 | the stacks become `History.Redo` of the old ones; with a non-empty redo stack the canvas shows the redone snapshot; otherwise an alert and nothing changes |
| PhotoEditor.UndoThenRedo | photo-editor.js:210-230 | undo followed by redo restores the stacks and the canvas |
| PhotoEditor.RotateTwice | photo-editor.js:179-187 | two rotations give back the original width and height |
| PaintBoard.Board.constructor | script.js:19-20 | the script starts with empty history and redo stacks |
| PaintBoard.Board.InitializeCanvas | script.js:24-30 | the canvas takes its laid-out size and the background fill, and a forced save pushes it as the baseline; on a fresh board history holds exactly that one entry |
| PaintBoard.Board.Surface | script.js:37-39 | `canvas.toDataURL()`: the snapshot of the board is its width, height and pixels |
| PaintBoard.Board.SaveState | script.js:33-42 | the stacks become `History.Save` of the old stacks with the current canvas |
| PaintBoard.Board.RestoreState | script.js:45-51 | the canvas is cleared to transparent; the snapshot is not drawn |
| PaintBoard.Board.Undo | script.js:54-59 | the stacks become `History.Undo` of the old ones; history never drops below one entry once it has one; a successful undo leaves the canvas cleared |
| PaintBoard.Board.Redo | script.js:62-68 | the stacks become `History.Redo` of the old ones; a successful redo leaves the canvas cleared |
| PaintBoard.UndoShowsCleared | script.js:45-57 | after an undo the canvas does not show the new top of history, unless that state was transparent |

## Left out

- Pixel contents and the drawing calls `getImageData`, `putImageData`, `drawImage` and `strokeRect` are outside the model. Their results enter as opaque `Pixels` parameters. The two calls whose result needs no platform data are modelled as constant bitmaps: `clearRect` over the whole canvas gives `Transparent`, and the paint board's background `fillRect` gives `Fill(Background)`.
- Rotation's geometry (translate, quarter-turn, centred draw) is left out; only the transposed size is modelled. Nothing is claimed about the pixels after repeated rotations.
- The `toDataURL` encoding is not modelled. It is assumed injective, so a snapshot is the bitmap itself. Its special output for a zero-area canvas is left out.
- Asynchronous decoding is not modelled (`FileReader`, `Image.onload`, the promise in `restoreState`). Each decode completes inside its handler. Overlapping restores from rapid clicks and decodes that never finish are left out.
- The red selection outline drawn while dragging, and its removal half a second after mouse up, are not modelled. In the page, a crop clicked while the outline is visible could record or crop the outlined canvas. The model's canvas never shows the outline.
- The photo editor's `image` variable is left out. It holds the last loaded or re-encoded canvas. It is drawn on load (photo-editor.js:62), over the cropped canvas (photo-editor.js:130), and again under the selection outline (photo-editor.js:86-87, 103-104).
- Crop: the redraw at photo-editor.js:130 draws the re-encoded crop over itself, so partly transparent pixels get more opaque before the save at line 132 records them. The model's canvas shows the parameter `cropped` once, and that parameter stands for the canvas after lines 125 and 130. A later outline redraw shows the single-draw `image` again, so the page's next pre-mutation save (line 120) could record a state the model does not have.
- `prompt`, `alert` and DOM event wiring are not modelled. Alerts are returned as `Alert` values and prompt answers arrive as parameters. `parseInt`'s parsing of the answer text is left out: the parsed value is a parameter, and double-precision rounding of huge answers is not modelled.
- Pointer coordinates from `getBoundingClientRect` are modelled as integers. Fractional coordinates are left out.
- The paint board's colour swatches, brush settings (`drawing`, `currentColor`, `lineWidth`, `isErasing`, declared at script.js:16-21; the swatch wiring at script.js:70-85) and freehand strokes are not part of this model. The stroke handlers are not in the source files modelled here.
- The paint board canvas's size before `initializeCanvas` runs comes from the page markup, which is not part of this model. The constructor uses the canvas defaults. The caller of `initializeCanvas` is also not part of this model.
