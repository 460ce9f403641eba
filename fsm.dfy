/**
 * The engine object. It keeps the configuration it was built with and
 * updates three fields in place: the current state, the log of states that
 * have been left, and the history cursor.
 */
module Engine {
  import opened Wrappers
  import opened Configuration
  import opened History

  /** `undefined` and the empty string are the falsy event arguments of getStates. */
  predicate IsFalsy(event: Option<string>)
    ensures IsFalsy(event) <==> event in {None, Some("")}
  {
    event.None? || event.value == ""
  }

  class Fsm {
    const config: Config
    var currState: Option<string>
    var fsmHistory: seq<Option<string>>
    var historyCount: int

    /** The fields as one value, for the operation functions of module History. */
    function Snapshot(): Machine
      reads this
    {
      Machine(currState, fsmHistory, historyCount)
    }

    ghost predicate Valid()
      reads this
    {
      CursorInRange(Snapshot())
    }

    constructor (config: Config)
      ensures this.config == config && Valid()
      ensures currState == Some(config.initial) && fsmHistory == [] && historyCount == 0
      ensures Snapshot() == Start(config)
    {
      this.config := config;
      fsmHistory := [];
      currState := Some(config.initial);
      historyCount := 0;
    }

    /** The active state. */
    function GetState(): (state: Option<string>)
      reads this`currState
      ensures state == Snapshot().cur
    {
      currState
    }

    /** Enters a declared state, or throws "Invalid state" before changing anything. */
    method ChangeState(state: string) returns (outcome: Outcome<Error>)
      requires Valid()
      modifies this
      ensures Valid()
      ensures outcome == (if IsDeclared(config, state) then Pass else Fail(InvalidState))
      ensures outcome.Pass? ==>
        && currState == Some(state)
        && fsmHistory == old(fsmHistory) + [old(currState)]
        && historyCount == old(historyCount) + 1
      ensures outcome.Fail? ==> unchanged(this)
      ensures outcome == OutcomeOf(History.ChangeState(config, old(Snapshot()), state))
      ensures Snapshot() == After(History.ChangeState(config, old(Snapshot()), state), old(Snapshot()))
    {
      if Lookup(config.states, state).Some? {
        fsmHistory := fsmHistory + [currState];
        historyCount := historyCount + 1;
        currState := Some(state);
        outcome := Pass;
      } else {
        outcome := Fail(InvalidState);
      }
    }

    /**
     * Follows the current state's transition for `event`, or throws before
     * changing anything. The target is not checked against the declared states.
     */
    method Trigger(event: string) returns (outcome: Outcome<Error>)
      requires Valid()
      modifies this
      ensures Valid()
      ensures Lookup(config.states, KeyOf(old(currState))).None? ==>
        outcome == Fail(UndeclaredCurrentState)
      ensures Lookup(config.states, KeyOf(old(currState))).Some? ==>
        var transitions := Lookup(config.states, KeyOf(old(currState))).value;
        && (outcome.Pass? <==> event in transitions)
        && (outcome.Pass? ==> currState == Some(transitions[event]))
        && (outcome.Fail? ==> outcome.error == InvalidEvent)
      ensures outcome.Pass? ==>
        fsmHistory == old(fsmHistory) + [old(currState)] && historyCount == old(historyCount) + 1
      ensures outcome.Fail? ==> unchanged(this)
      ensures outcome == OutcomeOf(History.Trigger(config, old(Snapshot()), event))
      ensures Snapshot() == After(History.Trigger(config, old(Snapshot()), event), old(Snapshot()))
    {
      var transitions := Lookup(config.states, KeyOf(currState));
      if transitions.None? {
        outcome := Fail(UndeclaredCurrentState);
      } else if event in transitions.value {
        fsmHistory := fsmHistory + [currState];
        historyCount := historyCount + 1;
        currState := Some(Lookup(config.states, KeyOf(currState)).value[event]);
        outcome := Pass;
      } else {
        outcome := Fail(InvalidEvent);
      }
    }

    /** Back to the initial state with an empty history and the cursor at 1. */
    method Reset()
      requires Valid()
      modifies this
      ensures Valid()
      ensures currState == Some(config.initial) && fsmHistory == [] && historyCount == 1
      ensures Snapshot() == History.Reset(config)
    {
      currState := Some(config.initial);
      historyCount := 1;
      fsmHistory := [];
    }

    /**
     * Every declared state when `event` is falsy; otherwise the declared
     * states whose transitions contain `event`. Both in configuration order.
     */
    method GetStates(event: Option<string>) returns (states: seq<string>)
      ensures IsFalsy(event) ==> states == Names(config.states)
      ensures !IsFalsy(event) ==> states == StatesWith(config.states, event.value)
    {
      states := [];
      var all := config.states;
      if !IsFalsy(event) {
        var i := 0;
        while i < |all|
          invariant 0 <= i <= |all|
          invariant states == StatesWith(all[..i], event.value)
        {
          if event.value in all[i].transitions {
            states := states + [all[i].name];
          }
          assert all[..i + 1][..i] == all[..i];
          i := i + 1;
        }
        assert all[..|all|] == all;
      } else {
        var i := 0;
        while i < |all|
          invariant 0 <= i <= |all|
          invariant states == Names(all[..i])
        {
          states := states + [all[i].name];
          i := i + 1;
        }
        assert all[..|all|] == all;
      }
    }

    /**
     * When the cursor is positive: logs the current state, enters the entry
     * two places behind the advanced cursor, and leaves the cursor where it
     * was. Otherwise reports false and changes nothing.
     */
    method Undo() returns (done: bool)
      requires Valid()
      modifies this
      ensures Valid()
      ensures done <==> old(historyCount) > 0
      ensures done ==>
        && fsmHistory == old(fsmHistory) + [old(currState)]
        && historyCount == old(historyCount)
        && currState == fsmHistory[historyCount - 1]
      ensures !done ==> unchanged(this)
      ensures (done, Snapshot()) == History.Undo(old(Snapshot()))
    {
      if historyCount > 0 {
        fsmHistory := fsmHistory + [currState];
        historyCount := historyCount + 1;
        currState := fsmHistory[historyCount - 2];
        historyCount := historyCount - 1;
        done := true;
      } else {
        done := false;
      }
    }

    /**
     * When the cursor is before the end of the history: enters the entry one
     * place past the cursor (`undefined` past the end) and advances the
     * cursor. Otherwise reports false and changes nothing.
     */
    method Redo() returns (done: bool)
      requires Valid()
      modifies this
      ensures Valid()
      ensures done <==> old(historyCount) < |old(fsmHistory)|
      ensures done ==>
        && fsmHistory == old(fsmHistory)
        && historyCount == old(historyCount) + 1
        && currState == (if historyCount < |fsmHistory| then fsmHistory[historyCount] else None)
      ensures !done ==> unchanged(this)
      ensures (done, Snapshot()) == History.Redo(old(Snapshot()))
    {
      if historyCount < |fsmHistory| {
        currState := if historyCount + 1 < |fsmHistory| then fsmHistory[historyCount + 1] else None;
        historyCount := historyCount + 1;
        done := true;
      } else {
        done := false;
      }
    }

    /** Empties the history and sets the cursor to 0; the current state stays. */
    method ClearHistory()
      requires Valid()
      modifies this
      ensures Valid()
      ensures currState == old(currState) && fsmHistory == [] && historyCount == 0
      ensures Snapshot() == History.ClearHistory(old(Snapshot()))
    {
      fsmHistory := [];
      historyCount := 0;
    }
  }
}
