/**
 * What the operations promise together: undo after a transition, after
 * reset and after clearHistory; how far redo can go; the invariants every
 * sequence of calls keeps; and the behaviour on a two-state configuration.
 */
module Properties {
  import opened Wrappers
  import opened Configuration
  import opened History

  // ---------------------------------------------------------------- undo

  /**
   * Under the cursor invariant undo's read is in range: it enters the logged
   * entry just before the cursor, or, with the cursor one past the end (right
   * after reset), the state it was in.
   */
  lemma UndoTarget(m: Machine)
    requires CursorInRange(m) && m.count > 0
    ensures Undo(m) ==
      (true, Machine(if m.count <= |m.history| then m.history[m.count - 1] else m.cur,
                     m.history + [m.cur], m.count))
  {
  }

  /** With the cursor at the end of the history, changeState then undo goes back to where it started. */
  lemma ChangeStateThenUndo(c: Config, m: Machine, state: string)
    requires m.count == |m.history| && IsDeclared(c, state)
    ensures ChangeState(c, m, state).Ok?
    ensures Undo(ChangeState(c, m, state).value) ==
      (true, Machine(m.cur, m.history + [m.cur, Some(state)], m.count + 1))
  {
    assert m.history + [m.cur] + [Some(state)] == m.history + [m.cur, Some(state)];
  }

  /** With the cursor at the end of the history, a successful trigger then undo goes back to where it started. */
  lemma TriggerThenUndo(c: Config, m: Machine, event: string)
    requires m.count == |m.history| && Trigger(c, m, event).Ok?
    ensures Undo(Trigger(c, m, event).value).0
    ensures Undo(Trigger(c, m, event).value).1.cur == m.cur
  {
  }

  /** Undo right after reset succeeds and stays on the initial state. */
  lemma UndoAfterReset(c: Config)
    ensures Undo(Reset(c)) == (true, Machine(Some(c.initial), [Some(c.initial)], 1))
  {
    assert [] + [Some(c.initial)] == [Some(c.initial)];
  }

  /**
   * After reset the cursor is one past the end, so changeState then undo
   * does not go back to the initial state: it stays on the state entered.
   */
  lemma UndoAfterResetAndChangeState(c: Config, state: string)
    requires IsDeclared(c, state)
    ensures ChangeState(c, Reset(c), state).Ok?
    ensures Undo(ChangeState(c, Reset(c), state).value).1.cur == Some(state)
  {
  }

  /** Undo right after clearHistory reports false and changes nothing. */
  lemma UndoAfterClearHistory(m: Machine)
    ensures Undo(ClearHistory(m)) == (false, ClearHistory(m))
    ensures ClearHistory(m).cur == m.cur
  {
  }

  // ---------------------------------------------------------------- redo

  /** A redo whose cursor is the last index of the history reads past the end and enters `undefined`. */
  lemma RedoPastEnd(m: Machine)
    requires CursorInRange(m) && m.count == |m.history| - 1
    ensures Redo(m) == (true, Machine(None, m.history, |m.history|))
  {
  }

  /** A redo with two or more entries from the cursor to the end enters the entry one past the cursor. */
  lemma RedoWithinHistory(m: Machine)
    requires 0 <= m.count && m.count + 1 < |m.history|
    ensures Redo(m) == (true, Machine(m.history[m.count + 1], m.history, m.count + 1))
  {
  }

  /** With the cursor at the end of the history, redo right after a successful undo always enters `undefined`. */
  lemma RedoAfterUndo(m: Machine)
    requires m.count == |m.history| && m.count > 0
    ensures Redo(Undo(m).1) == (true, Machine(None, m.history + [m.cur], m.count + 1))
  {
  }

  /** `k` redos in a row. */
  function Redos(m: Machine, k: nat): (r: Machine)
  {
    if k == 0 then m else Redo(Redos(m, k - 1)).1
  }

  /** Each of the first |history| - count redos in a row succeeds, moving the cursor one step. */
  lemma {:induction false} RedosAdvance(m: Machine, k: nat)
    requires 0 <= m.count && m.count + k <= |m.history|
    ensures Redos(m, k) == Machine(Redos(m, k).cur, m.history, m.count + k)
    ensures k < |m.history| - m.count ==> Redo(Redos(m, k)).0
  {
    if k > 0 {
      RedosAdvance(m, k - 1);
    }
  }

  /** Redo eventually runs out: after |history| - count redos the next one reports false. */
  lemma RedoExhausts(m: Machine)
    requires 0 <= m.count <= |m.history|
    ensures !Redo(Redos(m, |m.history| - m.count)).0
  {
    RedosAdvance(m, |m.history| - m.count);
  }

  // ---------------------------------------------------------------- call sequences

  /** A call on the engine. */
  datatype Call =
    | ChangeStateCall(state: string)
    | TriggerCall(event: string)
    | ResetCall
    | UndoCall
    | RedoCall
    | ClearHistoryCall

  /** One call; a call that throws leaves the machine as it was. */
  function Apply(c: Config, m: Machine, call: Call): (r: Machine)
    ensures CursorInRange(m) ==> CursorInRange(r)
  {
    match call
    case ChangeStateCall(state) => After(ChangeState(c, m, state), m)
    case TriggerCall(event) => After(Trigger(c, m, event), m)
    case ResetCall => Reset(c)
    case UndoCall => Undo(m).1
    case RedoCall => Redo(m).1
    case ClearHistoryCall => ClearHistory(m)
  }

  /** The calls in order. */
  function Run(c: Config, m: Machine, calls: seq<Call>): (r: Machine)
    decreases |calls|
  {
    if |calls| == 0 then m else Run(c, Apply(c, m, calls[0]), calls[1..])
  }

  /** Every sequence of calls keeps 0 <= count <= |history| + 1. */
  lemma {:induction false} RunKeepsCursorInRange(c: Config, m: Machine, calls: seq<Call>)
    requires CursorInRange(m)
    ensures CursorInRange(Run(c, m, calls))
    decreases |calls|
  {
    if |calls| > 0 {
      RunKeepsCursorInRange(c, Apply(c, m, calls[0]), calls[1..]);
    }
  }

  /** From construction, every sequence of calls keeps the cursor invariant. */
  lemma CursorInRangeFromStart(c: Config, calls: seq<Call>)
    ensures CursorInRange(Run(c, Start(c), calls))
  {
    RunKeepsCursorInRange(c, Start(c), calls);
  }

  /** Only undo can give redo something to replay. */
  lemma {:induction false} RedoNeedsUndo(c: Config, m: Machine, calls: seq<Call>)
    requires NothingToRedo(m)
    requires forall i :: 0 <= i < |calls| ==> !calls[i].UndoCall?
    ensures NothingToRedo(Run(c, m, calls))
    ensures Redo(Run(c, m, calls)) == (false, Run(c, m, calls))
    decreases |calls|
  {
    if |calls| > 0 {
      var m' := Apply(c, m, calls[0]);
      assert NothingToRedo(m');
      RedoNeedsUndo(c, m', calls[1..]);
    }
  }

  /** The name appears in the configuration: the initial state, a declared state or a transition target. */
  predicate Mentioned(c: Config, name: string) {
    || name == c.initial
    || (exists i :: 0 <= i < |c.states| && c.states[i].name == name)
    || (exists i, e :: 0 <= i < |c.states| && e in c.states[i].transitions
                       && c.states[i].transitions[e] == name)
  }

  predicate MentionedOrUndefined(c: Config, state: Option<string>) {
    state.None? || Mentioned(c, state.value)
  }

  /** The current state and every logged state are `undefined` or appear in the configuration. */
  predicate WithinConfiguration(c: Config, m: Machine) {
    && MentionedOrUndefined(c, m.cur)
    && forall j :: 0 <= j < |m.history| ==> MentionedOrUndefined(c, m.history[j])
  }

  lemma ApplyWithinConfiguration(c: Config, m: Machine, call: Call)
    requires WithinConfiguration(c, m)
    ensures WithinConfiguration(c, Apply(c, m, call))
  {
  }

  /** No sequence of calls brings in a name the configuration does not mention, other than `undefined`. */
  lemma {:induction false} RunWithinConfiguration(c: Config, m: Machine, calls: seq<Call>)
    requires WithinConfiguration(c, m)
    ensures WithinConfiguration(c, Run(c, m, calls))
    decreases |calls|
  {
    if |calls| > 0 {
      ApplyWithinConfiguration(c, m, calls[0]);
      RunWithinConfiguration(c, Apply(c, m, calls[0]), calls[1..]);
    }
  }

  /** The initial state and every transition target are declared states. */
  predicate Closed(c: Config) {
    && IsDeclared(c, c.initial)
    && forall i, e :: 0 <= i < |c.states| && e in c.states[i].transitions ==>
         IsDeclared(c, c.states[i].transitions[e])
  }

  /** In a closed configuration every name it mentions is declared. */
  lemma MentionedIsDeclared(c: Config, name: string)
    requires Closed(c) && Mentioned(c, name)
    ensures IsDeclared(c, name)
  {
  }

  /**
   * In a closed configuration, on any machine reached by calls from
   * construction, trigger can fail on a lookup of the current state only
   * when that state is `undefined`; otherwise it fails only with "Invalid event".
   */
  lemma TriggerErrorsInClosedConfig(c: Config, calls: seq<Call>, event: string)
    requires Closed(c)
    ensures var m := Run(c, Start(c), calls);
      Trigger(c, m, event) == Err(UndeclaredCurrentState) ==> m.cur.None?
  {
    var m := Run(c, Start(c), calls);
    RunWithinConfiguration(c, Start(c), calls);
    if m.cur.Some? {
      MentionedIsDeclared(c, m.cur.value);
    }
  }

  // ---------------------------------------------------------------- a two-state machine

  /** `idle --start--> running --stop--> idle`. */
  function Switch(): Config {
    Config("idle", [StateDesc("idle", map["start" := "running"]),
                    StateDesc("running", map["stop" := "idle"])])
  }

  lemma SwitchTriggers()
    ensures Trigger(Switch(), Start(Switch()), "start") ==
      Ok(Machine(Some("running"), [Some("idle")], 1))
    ensures Trigger(Switch(), Trigger(Switch(), Start(Switch()), "start").value, "stop") ==
      Ok(Machine(Some("idle"), [Some("idle"), Some("running")], 2))
    ensures Trigger(Switch(), Start(Switch()), "bogus") == Err(InvalidEvent)
  {
    SwitchLookups();
    assert [] + [Some("idle")] == [Some("idle")];
    assert [Some("idle")] + [Some("running")] == [Some("idle"), Some("running")];
  }

  lemma SwitchLookups()
    ensures Lookup(Switch().states, "idle") == Some(map["start" := "running"])
    ensures Lookup(Switch().states, "running") == Some(map["stop" := "idle"])
    ensures Lookup(Switch().states, "undefined") == None
  {
  }

  /** changeState then undo: back on "idle"; a redo then reads past the end, and trigger then fails. */
  lemma SwitchUndoRedo()
    ensures ChangeState(Switch(), Start(Switch()), "running") ==
      Ok(Machine(Some("running"), [Some("idle")], 1))
    ensures Undo(Machine(Some("running"), [Some("idle")], 1)) ==
      (true, Machine(Some("idle"), [Some("idle"), Some("running")], 1))
    ensures Redo(Machine(Some("idle"), [Some("idle"), Some("running")], 1)) ==
      (true, Machine(None, [Some("idle"), Some("running")], 2))
    ensures Trigger(Switch(), Machine(None, [Some("idle"), Some("running")], 2), "start") ==
      Err(UndeclaredCurrentState)
  {
    SwitchLookups();
    assert [] + [Some("idle")] == [Some("idle")];
    assert [Some("idle")] + [Some("running")] == [Some("idle"), Some("running")];
  }

  /** getStates: all states in order, the states with an event, none for an unused event. */
  lemma SwitchStates()
    ensures Names(Switch().states) == ["idle", "running"]
    ensures StatesWith(Switch().states, "stop") == ["running"]
    ensures StatesWith(Switch().states, "pause") == []
  {
  }
}
