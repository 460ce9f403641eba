/**
 * The engine's state as a value, and one function per operation giving the
 * state the operation leaves behind. The class in module Engine updates its
 * fields in place and is proved to agree with these functions; the lemmas in
 * module Properties are stated over them.
 */
module History {
  import opened Wrappers
  import opened Configuration

  /** The two errors the source throws, and the TypeError of a lookup on an undeclared current state. */
  datatype Error = InvalidState | InvalidEvent | UndeclaredCurrentState

  /**
   * `currState`, `fsmHistory` and `historyCount`. The current state and the
   * logged states are optional because a redo can read past the end of the
   * history and adopt `undefined`.
   */
  datatype Machine = Machine(cur: Option<string>, history: seq<Option<string>>, count: int)

  /** The cursor invariant: undo's read of the history is always in range under it. */
  predicate CursorInRange(m: Machine) {
    0 <= m.count <= |m.history| + 1
  }

  /** The cursor is at or past the end of the history, so redo has nothing to replay. */
  predicate NothingToRedo(m: Machine) {
    m.count >= |m.history|
  }

  /** The property key a current state is looked up under: `undefined` becomes "undefined". */
  function KeyOf(state: Option<string>): (key: string)
    ensures state == Some(key) || (state.None? && key == "undefined")
  {
    match state
    case Some(s) => s
    case None => "undefined"
  }

  /** An array read: past either end it yields `undefined`. */
  function Read(h: seq<Option<string>>, i: int): (r: Option<string>)
    ensures 0 <= i < |h| ==> r == h[i]
    ensures !(0 <= i < |h|) ==> r.None?
  {
    if 0 <= i < |h| then h[i] else None
  }

  /** The state a failing call leaves behind is the state it started from. */
  function After(r: Result<Machine, Error>, m: Machine): (m': Machine) {
    match r
    case Ok(m') => m'
    case Err(_) => m
  }

  function OutcomeOf(r: Result<Machine, Error>): (o: Outcome<Error>) {
    match r
    case Ok(_) => Pass
    case Err(e) => Fail(e)
  }

  /** A freshly constructed machine. */
  function Start(c: Config): (m: Machine)
    ensures CursorInRange(m) && NothingToRedo(m)
  {
    Machine(Some(c.initial), [], 0)
  }

  /** What changeState and trigger share: log the state being left, advance the cursor, enter `next`. */
  function Advance(m: Machine, next: Option<string>): (r: Machine)
    ensures CursorInRange(m) ==> CursorInRange(r)
    ensures NothingToRedo(m) ==> NothingToRedo(r)
  {
    Machine(next, m.history + [m.cur], m.count + 1)
  }

  function ChangeState(c: Config, m: Machine, state: string): (r: Result<Machine, Error>)
    ensures r.Ok? ==> r.value.cur == Some(state) && IsDeclared(c, state)
    ensures r.Ok? && CursorInRange(m) ==> CursorInRange(r.value)
  {
    if IsDeclared(c, state) then Ok(Advance(m, Some(state))) else Err(InvalidState)
  }

  function Trigger(c: Config, m: Machine, event: string): (r: Result<Machine, Error>)
    ensures r.Ok? && CursorInRange(m) ==> CursorInRange(r.value)
  {
    match Lookup(c.states, KeyOf(m.cur))
    case None => Err(UndeclaredCurrentState)
    case Some(transitions) =>
      if event in transitions then Ok(Advance(m, Some(transitions[event]))) else Err(InvalidEvent)
  }

  /** Whatever came before, reset leaves the initial state, no history and the cursor at 1. */
  function Reset(c: Config): (m: Machine)
    ensures CursorInRange(m) && NothingToRedo(m)
  {
    Machine(Some(c.initial), [], 1)
  }

  /**
   * Undo logs the current state, advances the cursor, reads two places
   * behind the new cursor and steps the cursor back: net, the cursor is
   * unchanged and the history one entry longer.
   */
  function Undo(m: Machine): (r: (bool, Machine))
    ensures r.0 <==> m.count > 0
    ensures CursorInRange(m) ==> CursorInRange(r.1)
  {
    if m.count > 0 then
      var logged := m.history + [m.cur];
      (true, Machine(Read(logged, m.count + 1 - 2), logged, m.count))
    else
      (false, m)
  }

  /** Redo reads one place past the cursor and advances it, while the cursor is before the end. */
  function Redo(m: Machine): (r: (bool, Machine))
    ensures r.0 <==> !NothingToRedo(m)
    ensures CursorInRange(m) ==> CursorInRange(r.1)
  {
    if m.count < |m.history| then
      (true, Machine(Read(m.history, m.count + 1), m.history, m.count + 1))
    else
      (false, m)
  }

  /** Empties the history and rewinds the cursor, keeping the current state. */
  function ClearHistory(m: Machine): (r: Machine)
    ensures CursorInRange(r) && NothingToRedo(r)
  {
    Machine(m.cur, [], 0)
  }
}
