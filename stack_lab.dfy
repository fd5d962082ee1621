/**
 * The undo/redo action history of labs/lab_5_stacks/StackStarter.cs: an
 * action stack, an undo stack and an operation counter. Each stack is a
 * sequence whose last element is the top. The handlers are first stated as
 * transitions of a `History` value; the class's methods are proved to
 * perform exactly those transitions. The text a handler reads from the
 * console is a parameter (`None` for a null read).
 */
module StackLab {
  import opened Wrappers
  import opened Text

  datatype History = History(actions: seq<string>, undo: seq<string>, ops: int)

  /** Entries held by the two stacks together. */
  function Held(h: History): nat {
    |h.actions| + |h.undo|
  }

  /** `string.IsNullOrWhiteSpace`. */
  predicate IsNullOrWhiteSpace(input: Option<string>) {
    input.None? || IsBlank(input.value)
  }

  /**
   * HandlePush: a null or blank input changes nothing; any other input
   * becomes the new top, the undo stack is emptied and one operation counted.
   */
  function Push(h: History, input: Option<string>): (r: History)
    ensures IsNullOrWhiteSpace(input) ==> r == h
    ensures !IsNullOrWhiteSpace(input) ==>
      r.actions == h.actions + [input.value] && r.undo == [] && r.ops == h.ops + 1
  {
    if IsNullOrWhiteSpace(input) then h
    else History(h.actions + [input.value], [], h.ops + 1)
  }

  /**
   * HandlePop: refused, with nothing changed, on an empty action stack;
   * otherwise the top moves onto the undo stack and is returned.
   */
  function Pop(h: History): (r: (History, Option<string>))
    ensures h.actions == [] ==> r == (h, None)
    ensures h.actions != [] ==>
      r.1 == Some(h.actions[|h.actions| - 1])
      && r.0.actions + [r.1.value] == h.actions
      && r.0.undo == h.undo + [r.1.value]
      && r.0.ops == h.ops + 1
    ensures Held(r.0) == Held(h)
  {
    if h.actions == [] then (h, None)
    else
      var top := h.actions[|h.actions| - 1];
      (History(h.actions[..|h.actions| - 1], h.undo + [top], h.ops + 1), Some(top))
  }

  /** HandlePeek: the top action, if any; nothing is changed. */
  function Peek(h: History): (r: Option<string>)
    ensures r.None? <==> h.actions == []
    ensures r.Some? ==> r.value == h.actions[|h.actions| - 1] && r == Pop(h).1
  {
    if h.actions == [] then None else Some(h.actions[|h.actions| - 1])
  }

  /**
   * HandleClear: with both stacks empty nothing happens and nothing is
   * counted; otherwise both are emptied, one operation is counted and the
   * number of removed entries is reported.
   */
  function Clear(h: History): (r: (History, nat))
    ensures r.0.actions == [] && r.0.undo == []
    ensures r.1 == Held(h)
    ensures r.0.ops == if Held(h) == 0 then h.ops else h.ops + 1
  {
    if h.actions == [] && h.undo == [] then (h, 0)
    else (History([], [], h.ops + 1), |h.actions| + |h.undo|)
  }

  /**
   * HandleUndo: refused on an empty undo stack; otherwise the undo stack's
   * top goes back onto the action stack.
   */
  function Undo(h: History): (r: (History, Option<string>))
    ensures h.undo == [] ==> r == (h, None)
    ensures h.undo != [] ==>
      r.1 == Some(h.undo[|h.undo| - 1])
      && r.0.undo + [r.1.value] == h.undo
      && r.0.actions == h.actions + [r.1.value]
      && r.0.ops == h.ops + 1
    ensures Held(r.0) == Held(h)
  {
    if h.undo == [] then (h, None)
    else
      var top := h.undo[|h.undo| - 1];
      (History(h.actions + [top], h.undo[..|h.undo| - 1], h.ops + 1), Some(top))
  }

  /** HandleRedo: moves the action stack's top onto the undo stack. */
  function Redo(h: History): (r: (History, Option<string>))
    ensures h.actions == [] ==> r == (h, None)
    ensures h.actions != [] ==>
      r.1 == Some(h.actions[|h.actions| - 1])
      && r.0.actions + [r.1.value] == h.actions
      && r.0.undo == h.undo + [r.1.value]
      && r.0.ops == h.ops + 1
  {
    if h.actions == [] then (h, None)
    else
      var top := h.actions[|h.actions| - 1];
      (History(h.actions[..|h.actions| - 1], h.undo + [top], h.ops + 1), Some(top))
  }

  /** Redo has exactly the effect of Pop. */
  lemma RedoIsPop(h: History)
    ensures Redo(h) == Pop(h)
  {
  }

  /** Pop followed by Undo restores both stacks exactly, having counted two operations. */
  lemma PopThenUndo(h: History)
    requires h.actions != []
    ensures Undo(Pop(h).0).0 == History(h.actions, h.undo, h.ops + 2)
    ensures Undo(Pop(h).0).1 == Pop(h).1
  {
    var p := Pop(h).0;
    assert p.undo[..|p.undo| - 1] == h.undo;
    assert p.actions + [h.actions[|h.actions| - 1]] == h.actions;
  }

  /** Undo followed by Pop restores both stacks exactly, having counted two operations. */
  lemma UndoThenPop(h: History)
    requires h.undo != []
    ensures Pop(Undo(h).0).0 == History(h.actions, h.undo, h.ops + 2)
  {
    var u := Undo(h).0;
    assert u.actions[..|u.actions| - 1] == h.actions;
    assert u.undo + [h.undo[|h.undo| - 1]] == h.undo;
  }

  /** A successful push makes redo impossible: there is nothing left to undo. */
  lemma PushForgetsUndo(h: History, input: Option<string>)
    requires !IsNullOrWhiteSpace(input)
    ensures Undo(Push(h, input)).1 == None
    ensures Peek(Push(h, input)) == input
  {
  }

  class StackSession {
    var actionHistory: seq<string>
    var undoHistory: seq<string>
    var totalOperations: int

    function State(): History
      reads this
    {
      History(actionHistory, undoHistory, totalOperations)
    }

    constructor ()
      ensures State() == History([], [], 0)
    {
      actionHistory := [];
      undoHistory := [];
      totalOperations := 0;
    }

    method HandlePush(input: Option<string>)
      modifies this
      ensures State() == Push(old(State()), input)
    {
      if input.None? || IsBlank(input.value) {
        return;
      }
      actionHistory := actionHistory + [input.value];
      undoHistory := [];
      totalOperations := totalOperations + 1;
    }

    method HandlePop() returns (removed: Option<string>)
      modifies this
      ensures (State(), removed) == Pop(old(State()))
    {
      if |actionHistory| == 0 {
        return None;
      }
      var top := actionHistory[|actionHistory| - 1];
      actionHistory := actionHistory[..|actionHistory| - 1];
      undoHistory := undoHistory + [top];
      totalOperations := totalOperations + 1;
      removed := Some(top);
    }

    /** HandlePeek reads the action stack and changes nothing. */
    method HandlePeek() returns (top: Option<string>)
      ensures top == Peek(State())
    {
      if |actionHistory| == 0 {
        return None;
      }
      top := Some(actionHistory[|actionHistory| - 1]);
    }

    method HandleClear() returns (clearedCount: nat)
      modifies this
      ensures (State(), clearedCount) == Clear(old(State()))
    {
      if |actionHistory| == 0 && |undoHistory| == 0 {
        return 0;
      }
      clearedCount := |actionHistory| + |undoHistory|;
      actionHistory := [];
      undoHistory := [];
      totalOperations := totalOperations + 1;
    }

    method HandleUndo() returns (restored: Option<string>)
      modifies this
      ensures (State(), restored) == Undo(old(State()))
    {
      if |undoHistory| == 0 {
        return None;
      }
      var top := undoHistory[|undoHistory| - 1];
      undoHistory := undoHistory[..|undoHistory| - 1];
      actionHistory := actionHistory + [top];
      totalOperations := totalOperations + 1;
      restored := Some(top);
    }

    method HandleRedo() returns (redone: Option<string>)
      modifies this
      ensures (State(), redone) == Redo(old(State()))
    {
      if |actionHistory| == 0 {
        return None;
      }
      var top := actionHistory[|actionHistory| - 1];
      actionHistory := actionHistory[..|actionHistory| - 1];
      undoHistory := undoHistory + [top];
      totalOperations := totalOperations + 1;
      redone := Some(top);
    }
  }
}
