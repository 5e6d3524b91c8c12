/**
 * The snapshot-based undo/redo history both pages keep: a `history` stack,
 * whose last entry is the state on screen, and a `redo` stack, whose last
 * entry is the next state `redo` brings back. Both are module-level arrays
 * in the pages; here they are a value, and `Save`, `Undo` and `Redo` give
 * the value each handler leaves behind. The pages' classes are proved
 * against these functions, and the lemmas below state what the history
 * guarantees over sequences of operations.
 */
module History {

  /** The two stacks; the end of each sequence is its top. */
  datatype Stacks<S> = Stacks(history: seq<S>, redo: seq<S>)

  /** The top of a non-empty stack. */
  function Last<S>(s: seq<S>): S
    requires |s| > 0
  {
    s[|s| - 1]
  }

  /** The guard of `saveState(force)`: it records only when this holds. */
  predicate Records<S(==)>(st: Stacks<S>, snap: S, force: bool)
  {
    force || |st.history| == 0 || Last(st.history) != snap
  }

  /**
   * `saveState(force)` with the current surface encoded as `snap`: push it
   * and empty the redo stack when forced, when there is no history yet, or
   * when it differs from the top; otherwise change nothing.
   */
  function Save<S(==)>(st: Stacks<S>, snap: S, force: bool): (r: Stacks<S>)
    ensures |r.history| > 0 && Last(r.history) == snap
    ensures |st.history| <= |r.history| <= |st.history| + 1
    ensures r.history[..|st.history|] == st.history
    ensures r.redo == [] || r == st
  {
    if Records(st, snap, force) then Stacks(st.history + [snap], []) else st
  }

  /**
   * The undo handler: with more than one entry in history, move the top of
   * history onto the redo stack; otherwise (the "nothing to undo" case)
   * change nothing.
   */
  function Undo<S>(st: Stacks<S>): (r: Stacks<S>)
    ensures |st.history| <= 1 ==> r == st
    ensures |st.history| > 1 ==>
      r.history + [Last(st.history)] == st.history &&
      r.redo == st.redo + [Last(st.history)]
  {
    if |st.history| > 1 then
      var top := Last(st.history);
      Stacks(st.history[..|st.history| - 1], st.redo + [top])
    else
      st
  }

  /**
   * The redo handler: with a non-empty redo stack, move its top onto
   * history; otherwise (the "nothing to redo" case) change nothing.
   */
  function Redo<S>(st: Stacks<S>): (r: Stacks<S>)
    ensures |st.redo| == 0 ==> r == st
    ensures |st.redo| > 0 ==>
      r.redo + [Last(st.redo)] == st.redo &&
      r.history == st.history + [Last(st.redo)]
  {
    if |st.redo| > 0 then
      var next := Last(st.redo);
      Stacks(st.history + [next], st.redo[..|st.redo| - 1])
    else
      st
  }

  /** The elements of `s` in the order they leave it when popped one by one. */
  function Reversed<S>(s: seq<S>): (r: seq<S>)
    ensures |r| == |s|
  {
    if |s| == 0 then [] else [Last(s)] + Reversed(s[..|s| - 1])
  }

  /**
   * The whole linear timeline the two stacks hold: the states up to the one
   * on screen, followed by the undone states in the order redo replays them.
   */
  function Timeline<S>(st: Stacks<S>): seq<S>
  {
    st.history + Reversed(st.redo)
  }

  /** `n` undo clicks in a row. */
  function UndoTimes<S>(st: Stacks<S>, n: nat): Stacks<S>
    decreases n
  {
    if n == 0 then st else UndoTimes(Undo(st), n - 1)
  }

  /** One non-forced `saveState()` for each snapshot of `snaps`, in order. */
  function SaveEach<S(==)>(st: Stacks<S>, snaps: seq<S>): Stacks<S>
    decreases |snaps|
  {
    if |snaps| == 0 then st else SaveEach(Save(st, snaps[0], false), snaps[1..])
  }

  /** Every snapshot of `snaps` differs from the one before it. */
  predicate ChangesEachTime<S(==)>(first: S, snaps: seq<S>)
  {
    (|snaps| > 0 ==> snaps[0] != first) &&
    forall i :: 0 < i < |snaps| ==> snaps[i] != snaps[i - 1]
  }

  // ---------------------------------------------------------------------
  // saveState

  /** `saveState` appends exactly when its guard holds, and grows history by one. */
  lemma SaveAppendsIff<S>(st: Stacks<S>, snap: S, force: bool)
    ensures |Save(st, snap, force).history| == |st.history| + 1 <==> Records(st, snap, force)
    ensures Records(st, snap, force) ==> Save(st, snap, force) == Stacks(st.history + [snap], [])
    ensures !Records(st, snap, force) ==> Save(st, snap, force) == st
  {
  }

  /** A second `saveState()` with no change to the surface in between is a no-op. */
  lemma SaveIdempotent<S>(st: Stacks<S>, snap: S, force: bool)
    ensures Save(Save(st, snap, force), snap, false) == Save(st, snap, force)
  {
  }

  /** After a new snapshot is recorded there is nothing to redo. */
  lemma RedoAfterSaveIsNoOp<S>(st: Stacks<S>, snap: S, force: bool)
    requires Records(st, snap, force)
    ensures Redo(Save(st, snap, force)) == Save(st, snap, force)
    ensures Save(st, snap, force).redo == []
  {
  }

  // ---------------------------------------------------------------------
  // undo and redo move snapshots, never create or discard them

  /** Undo keeps the timeline: `history ++ reverse(redo)` is the same before and after. */
  lemma UndoKeepsTimeline<S>(st: Stacks<S>)
    ensures Timeline(Undo(st)) == Timeline(st)
  {
  }

  /** Redo keeps the timeline too. */
  lemma RedoKeepsTimeline<S>(st: Stacks<S>)
    ensures Timeline(Redo(st)) == Timeline(st)
  {
  }

  /** Redo right after a successful undo restores both stacks. */
  lemma RedoUndoes<S>(st: Stacks<S>)
    requires |st.history| > 1
    ensures Redo(Undo(st)) == st
  {
  }

  /** Undo right after a redo restores both stacks, once a baseline exists. */
  lemma UndoRedoes<S>(st: Stacks<S>)
    requires |st.history| >= 1 && |st.redo| > 0
    ensures Undo(Redo(st)) == st
  {
  }

  // ---------------------------------------------------------------------
  // the baseline is never undone

  /**
   * However many times undo is clicked, history keeps at least one entry
   * once it has one: `n` undos remove the `n` most recent entries, but never
   * the first.
   */
  lemma {:induction false} UndoTimesKeepsBaseline<S>(st: Stacks<S>, n: nat)
    requires |st.history| >= 1
    decreases n
    ensures var k := if |st.history| - n >= 1 then |st.history| - n else 1;
      UndoTimes(st, n).history == st.history[..k]
    ensures Timeline(UndoTimes(st, n)) == Timeline(st)
  {
    if n > 0 {
      UndoKeepsTimeline(st);
      var u := Undo(st);
      UndoTimesKeepsBaseline(u, n - 1);
      if |st.history| > 1 {
        assert u.history == st.history[..|st.history| - 1];
      }
    }
  }

  // ---------------------------------------------------------------------
  // a session: save distinct states, then undo them all

  /** Non-forced saves of ever-changing snapshots record every one of them. */
  lemma {:induction false} SaveEachRecordsAll<S>(st: Stacks<S>, snaps: seq<S>)
    requires |st.history| >= 1 && ChangesEachTime(Last(st.history), snaps)
    ensures SaveEach(st, snaps).history == st.history + snaps
    ensures SaveEach(st, snaps).redo == if |snaps| == 0 then st.redo else []
    decreases |snaps|
  {
    if |snaps| > 0 {
      var s := Save(st, snaps[0], false);
      assert s.history == st.history + [snaps[0]];
      var rest := snaps[1..];
      assert ChangesEachTime(Last(s.history), rest) by {
        forall i | 0 < i < |rest|
          ensures rest[i] != rest[i - 1]
        {
          assert rest[i] == snaps[i + 1];
        }
        if |rest| > 0 {
          assert rest[0] == snaps[1];
        }
      }
      SaveEachRecordsAll(s, rest);
      assert SaveEach(st, snaps) == SaveEach(s, rest);
      assert st.history + [snaps[0]] + rest == st.history + snaps;
    }
  }

  /**
   * Starting from a baseline, saving `N` snapshots that each change the
   * surface and then undoing `N` times returns to the baseline alone, with
   * the `N` snapshots waiting on the redo stack in redo order; a further
   * undo changes nothing.
   */
  lemma {:induction false} UndoAllReturnsToBaseline<S>(base: S, snaps: seq<S>)
    requires ChangesEachTime(base, snaps)
    ensures UndoTimes(SaveEach(Stacks([base], []), snaps), |snaps|) == Stacks([base], Reversed(snaps))
    ensures Undo(Stacks([base], Reversed(snaps))) == Stacks([base], Reversed(snaps))
  {
    var st := Stacks([base], []);
    SaveEachRecordsAll(st, snaps);
    var saved := SaveEach(st, snaps);
    assert saved.history == [base] + snaps;
    assert Timeline(saved) == [base] + snaps by {
      if |snaps| == 0 {
        assert saved == st;
      }
    }
    UndoTimesKeepsBaseline(saved, |snaps|);
    var done := UndoTimes(saved, |snaps|);
    assert done.history == [base];
    assert [base] + Reversed(done.redo) == [base] + snaps;
    assert Reversed(done.redo) == snaps;
    ReversedTwice(done.redo);
  }

  /** Reversing a sequence with `x` in front puts `x` at the end. */
  lemma {:induction false} ReversedCons<S>(x: S, t: seq<S>)
    ensures Reversed([x] + t) == Reversed(t) + [x]
    decreases |t|
  {
    if |t| > 0 {
      var init := t[..|t| - 1];
      ReversedCons(x, init);
      assert ([x] + t)[..|t|] == [x] + init;
    }
  }

  /** Reversing twice gives the sequence back. */
  lemma {:induction false} ReversedTwice<S>(s: seq<S>)
    ensures Reversed(Reversed(s)) == s
    decreases |s|
  {
    if |s| > 0 {
      var init := s[..|s| - 1];
      ReversedTwice(init);
      ReversedCons(Last(s), Reversed(init));
      assert s == init + [Last(s)];
    }
  }
}
