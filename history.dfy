/** The edit history of a session as values: a list of steps, each a
    non-empty list of sibling variations (image data URLs), a cursor on the
    active step and the index of the displayed variation. The session class
    applies these transitions to its fields. */
module History {
  import opened Common

  /** The three navigation fields of the session. */
  datatype Position = Position(history: seq<seq<string>>, historyIndex: int, variationIndex: int)

  /** The position right after an upload: no step, cursor and variation at -1. */
  const Start := Position([], -1, -1)

  /** The invariant every transition keeps: the cursor is -1 or names a step,
      it is -1 exactly when there is no step, and no step is empty. */
  predicate WellFormed(p: Position) {
    && -1 <= p.historyIndex < |p.history|
    && (p.historyIndex == -1 <==> p.history == [])
    && forall i :: 0 <= i < |p.history| ==> p.history[i] != []
  }

  /** Every transition except an explicit variation choice keeps the
      displayed variation inside the active step. */
  predicate VariationInRange(p: Position) {
    0 <= p.historyIndex < |p.history| ==> 0 <= p.variationIndex < |p.history[p.historyIndex]|
  }

  /** `history[historyIndex] ?? []`. */
  function CurrentVariations(p: Position): seq<string> {
    if 0 <= p.historyIndex < |p.history| then p.history[p.historyIndex] else []
  }

  /** `currentVariations[variationIndex] ?? null`: the displayed image exists
      exactly when both indices are in range. */
  function GeneratedImage(p: Position): (r: Option<string>)
    ensures r.Some? <==> 0 <= p.historyIndex < |p.history|
                         && 0 <= p.variationIndex < |p.history[p.historyIndex]|
    ensures r.Some? ==> r.value == p.history[p.historyIndex][p.variationIndex]
  {
    var variations := CurrentVariations(p);
    if 0 <= p.variationIndex < |variations| then Some(variations[p.variationIndex]) else None
  }

  /** `canUndo`: in a well-formed position there is then an earlier,
      non-empty step to go back to. */
  predicate CanUndo(p: Position)
    ensures WellFormed(p) && CanUndo(p) ==> 0 <= p.historyIndex - 1 < |p.history| - 1 && p.history[p.historyIndex - 1] != []
    ensures WellFormed(p) && p.history == [] ==> !CanUndo(p)
  {
    p.historyIndex > 0
  }

  /** `canRedo`: in a well-formed position there is then a later, non-empty
      step to go forward to. */
  predicate CanRedo(p: Position)
    ensures WellFormed(p) && CanRedo(p) ==> 0 <= p.historyIndex + 1 < |p.history| && p.history[p.historyIndex + 1] != []
    ensures WellFormed(p) && p.history == [] ==> !CanRedo(p)
  {
    p.historyIndex < |p.history| - 1
  }

  /** In a well-formed position an image is displayed exactly when there is
      a step and the variation index lies inside it. */
  lemma DisplayedWhenInRange(p: Position)
    requires WellFormed(p)
    ensures GeneratedImage(p).Some? <==> p.history != [] && 0 <= p.variationIndex < |p.history[p.historyIndex]|
    ensures VariationInRange(p) && p.history != [] ==> GeneratedImage(p).Some?
  {
  }

  /** Only a variation choice can leave the displayed variation outside the
      active step: the upload reset, an edit, a regeneration, undo and redo
      all keep it inside, so with a step present an image is displayed. */
  lemma {:induction false} TransitionsKeepVariationInRange(p: Position, result: string)
    requires WellFormed(p) && VariationInRange(p)
    ensures VariationInRange(Start)
    ensures VariationInRange(Commit(p, result)) && GeneratedImage(Commit(p, result)).Some?
    ensures VariationInRange(AddVariation(p, result))
    ensures VariationInRange(Undo(p)) && VariationInRange(Redo(p))
    ensures p.history != [] ==>
      && GeneratedImage(AddVariation(p, result)).Some?
      && GeneratedImage(Undo(p)).Some? && GeneratedImage(Redo(p)).Some?
  {
    DisplayedWhenInRange(p);
    DisplayedWhenInRange(Undo(p));
    DisplayedWhenInRange(Redo(p));
    DisplayedWhenInRange(AddVariation(p, result));
  }

  /** A successful edit that is not a regeneration: keep the steps up to the
      cursor, append a step holding only the result, and show it. */
  function Commit(p: Position, result: string): (r: Position)
    requires WellFormed(p)
    ensures WellFormed(r) && VariationInRange(r)
    ensures |r.history| == p.historyIndex + 2 && r.historyIndex == p.historyIndex + 1
    ensures r.historyIndex == |r.history| - 1 && !CanRedo(r)
    ensures forall i :: 0 <= i <= p.historyIndex ==> r.history[i] == p.history[i]
    ensures r.history[r.historyIndex] == [result]
    ensures GeneratedImage(r) == Some(result)
  {
    var sliced := p.history[..p.historyIndex + 1] + [[result]];
    Position(sliced, |sliced| - 1, 0)
  }

  /** A successful regeneration: with a step active, append the result to it
      and show it; with no step, nothing changes. */
  function AddVariation(p: Position, result: string): (r: Position)
    requires WellFormed(p)
    ensures WellFormed(r)
    ensures p.historyIndex == -1 ==> r == p
    ensures p.historyIndex > -1 ==>
      && |r.history| == |p.history| && r.historyIndex == p.historyIndex
      && r.history[r.historyIndex] == p.history[p.historyIndex] + [result]
      && (forall i :: 0 <= i < |p.history| && i != p.historyIndex ==> r.history[i] == p.history[i])
      && r.variationIndex == |r.history[r.historyIndex]| - 1
      && VariationInRange(r)
      && GeneratedImage(r) == Some(result)
  {
    if p.historyIndex > -1 then
      var step := p.history[p.historyIndex] + [result];
      Position(p.history[p.historyIndex := step], p.historyIndex, |step| - 1)
    else p
  }

  /** Undo: move to the previous step and show its last variation; a no-op
      at the first step or with no history. */
  function Undo(p: Position): (r: Position)
    requires WellFormed(p)
    ensures WellFormed(r) && r.history == p.history
    ensures CanUndo(p) ==>
      && r.historyIndex == p.historyIndex - 1
      && r.variationIndex == |p.history[p.historyIndex - 1]| - 1
      && VariationInRange(r)
      && GeneratedImage(r) == Some(Last(p.history[p.historyIndex - 1]))
    ensures !CanUndo(p) ==> r == p
  {
    if CanUndo(p) then
      var prev := p.historyIndex - 1;
      Position(p.history, prev, |p.history[prev]| - 1)
    else p
  }

  /** Redo: move to the next step and show its first variation; a no-op at
      the newest step. */
  function Redo(p: Position): (r: Position)
    requires WellFormed(p)
    ensures WellFormed(r) && r.history == p.history
    ensures CanRedo(p) ==>
      && r.historyIndex == p.historyIndex + 1 && r.variationIndex == 0
      && VariationInRange(r)
      && GeneratedImage(r) == Some(p.history[p.historyIndex + 1][0])
    ensures !CanRedo(p) ==> r == p
  {
    if CanRedo(p) then Position(p.history, p.historyIndex + 1, 0) else p
  }

  /** Choosing a variation stores the index without any range check. */
  function Select(p: Position, index: int): (r: Position)
    ensures WellFormed(p) ==> WellFormed(r)
    ensures r.history == p.history && r.historyIndex == p.historyIndex && r.variationIndex == index
    ensures GeneratedImage(r).Some? <==> 0 <= p.historyIndex < |p.history|
                                         && 0 <= index < |p.history[p.historyIndex]|
    ensures GeneratedImage(r).Some? ==> GeneratedImage(r).value == p.history[p.historyIndex][index]
  {
    Position(p.history, p.historyIndex, index)
  }

  function Last(s: seq<string>): string
    requires s != []
  {
    s[|s| - 1]
  }

  /** Undo followed by redo returns to the same step, but shows its first
      variation rather than the one shown before. */
  lemma UndoThenRedo(p: Position)
    requires WellFormed(p) && CanUndo(p)
    ensures Redo(Undo(p)) == Position(p.history, p.historyIndex, 0)
  {
  }

  /** Redo followed by undo returns to the same step and shows its last
      variation. */
  lemma RedoThenUndo(p: Position)
    requires WellFormed(p) && CanRedo(p)
    ensures Undo(Redo(p)) == Position(p.history, p.historyIndex, |p.history[p.historyIndex]| - 1)
  {
  }

  /** Applies successful non-regeneration edits in order. */
  function CommitAll(p: Position, results: seq<string>): (r: Position)
    requires WellFormed(p)
    ensures WellFormed(r)
    decreases |results|
  {
    if results == [] then p else CommitAll(Commit(p, results[0]), results[1..])
  }

  /** From the newest step, each committed edit adds exactly one step and
      leaves the cursor on the newest step; from the start, the history
      length is the number of edits. */
  lemma {:induction false} CommitAllCount(p: Position, results: seq<string>)
    requires WellFormed(p) && p.historyIndex == |p.history| - 1
    ensures |CommitAll(p, results).history| == |p.history| + |results|
    ensures CommitAll(p, results).historyIndex == |CommitAll(p, results).history| - 1
    ensures forall i :: 0 <= i < |p.history| ==> CommitAll(p, results).history[i] == p.history[i]
    decreases |results|
  {
    if results != [] {
      var q := Commit(p, results[0]);
      CommitAllCount(q, results[1..]);
    }
  }

  /** An edit made after undoing keeps only the steps up to the cursor:
      undoing `k` times from the newest step and then committing leaves
      `|history| - k + 1` steps. */
  lemma {:induction false} CommitAfterUndos(p: Position, k: nat, result: string)
    requires WellFormed(p) && p.historyIndex == |p.history| - 1 && k < |p.history|
    ensures UndoTimes(p, k).historyIndex == p.historyIndex - k
    ensures |Commit(UndoTimes(p, k), result).history| == |p.history| - k + 1
    decreases k
  {
    if k > 0 {
      CommitAfterUndos(p, k - 1, result);
    }
  }

  function UndoTimes(p: Position, k: nat): (r: Position)
    requires WellFormed(p)
    ensures WellFormed(r) && r.history == p.history
    decreases k
  {
    if k == 0 then p else Undo(UndoTimes(p, k - 1))
  }

  /** Regenerating never changes the number of steps nor the cursor, and each
      regeneration grows the active step by one variation. */
  lemma {:induction false} AddVariationsGrowStep(p: Position, results: seq<string>)
    requires WellFormed(p) && p.historyIndex >= 0
    ensures |AddVariationAll(p, results).history| == |p.history|
    ensures AddVariationAll(p, results).historyIndex == p.historyIndex
    ensures AddVariationAll(p, results).history[p.historyIndex] == p.history[p.historyIndex] + results
    decreases |results|
  {
    if results != [] {
      var q := AddVariation(p, results[0]);
      AddVariationsGrowStep(q, results[1..]);
      assert q.history[p.historyIndex] + results[1..] == p.history[p.historyIndex] + results;
    }
  }

  function AddVariationAll(p: Position, results: seq<string>): (r: Position)
    requires WellFormed(p)
    ensures WellFormed(r)
    decreases |results|
  {
    if results == [] then p else AddVariationAll(AddVariation(p, results[0]), results[1..])
  }

  /** A session from upload: an edit, a regeneration of it, a further edit,
      then undo and redo. The regeneration widens the first step, the second
      edit opens a new step, undo shows the newest variation of the first
      step and redo shows the second step's only variation. */
  lemma EditWalkthrough(a: string, b: string, c: string)
    ensures var p1 := Commit(Start, a);
      && p1 == Position([[a]], 0, 0)
      && var p2 := AddVariation(p1, b);
         && p2 == Position([[a, b]], 0, 1)
         && var p3 := Commit(p2, c);
            && p3 == Position([[a, b], [c]], 1, 0)
            && Undo(p3) == Position([[a, b], [c]], 0, 1)
            && Redo(Undo(p3)) == p3
  {
    var p1 := Commit(Start, a);
    assert p1.history == [] + [[a]];
    var p2 := AddVariation(p1, b);
    assert [a] + [b] == [a, b];
    assert p2.history == [[a]][0 := [a, b]] == [[a, b]];
    var p3 := Commit(p2, c);
    assert p3.history == p2.history[..1] + [[c]];
    assert p1 == Position([[a]], 0, 0);
    assert p2 == Position([[a, b]], 0, 1);
    assert p3 == Position([[a, b], [c]], 1, 0);
    assert Undo(p3) == Position([[a, b], [c]], 0, 1);
  }
}
