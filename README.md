# Finite-state machine engine, modelled in Dafny

The repository is a single class, `FSM` (src/fsm.js). It is built over a
caller-supplied configuration. The configuration names an `initial` state
and lists `states`, each with a `transitions` object that maps event names
to target state names. The engine keeps three fields and updates them in
place:
- the current state (`currState`);
- a log of the states it has left (`fsmHistory`);
- an integer cursor into that log (`historyCount`).

Its operations are `changeState`, `trigger`, `reset`, `undo`, `redo` and
`clearHistory`, plus the queries `getState` and `getStates`.

The model has five modules:

- `Wrappers` (wrappers.dfy): `Option` (`None` is JavaScript's `undefined`), `Result`, `Outcome`.
- `Configuration` (configuration.dfy): the configuration as an immutable value. `states` is a
  sequence in key-enumeration order. The module also holds the key lookup and the
  specification of `getStates`.
- `History` (history.dfy): the three fields as one value `Machine`, and one function per
  operation that gives the state it leaves behind. Each function keeps the cursor invariant
  `0 <= count <= |history| + 1`.
- `Engine` (fsm.dfy): the class `Fsm`, with the three fields updated in place as the source
  does. Each mutator states its new fields, keeps `Valid()` (the cursor invariant) and is
  proved equal to the matching function of `History`. `GetStates` keeps the source's loops.
- `Properties` (properties.dfy): how the operations combine. It covers undo after a
  transition, after reset and after clearHistory; how far redo goes; invariants of any
  sequence of calls; and a two-state example.

The source's quirks are kept as written:
- `reset` sets the cursor to 1.
- `undo` pushes the current state and then reads `history[count - 2]`.
- `redo` reads `history[count + 1]`, which can be past the end. The current state is then
  `undefined`, and that value can later be logged.

Each mutator exists twice, by design. One copy is a method of `Engine.Fsm` that updates the
fields in place. The other is a function of `History` on the `Machine` value. Each method's
contract says its new fields equal what the function gives. The lemmas of `Properties` are
stated over the functions, so they hold of the class too.

Consequences of the indexing in undo (src/fsm.js:92-97), measured against its doc comment
"Goes back to previous state" (src/fsm.js:87):
- Undo right after reset does not read out of range. Undo pushes before it reads, so it
  reads the entry it just logged, the initial state (`Properties.UndoAfterReset`).
- A transition followed by undo returns to the state before the transition only while the
  cursor equals the history length. That is the case after construction, after transitions
  and after clearHistory (`Properties.ChangeStateThenUndo`). It fails after reset, where the
  undo stays on the state just entered (`Properties.UndoAfterResetAndChangeState`). It also
  fails after an earlier undo.
- While the cursor equals the history length, a redo right after a successful undo always
  reads past the end and enters `undefined` (`Properties.RedoAfterUndo`).

## Model

| member | source | states |
|---|---|---|
| Engine.Fsm.constructor | src/fsm.js:6-11 | keeps the configuration; current state is `initial`, history empty, cursor 0; cursor invariant holds |
| History.Start | src/fsm.js:6-11 | the constructed machine satisfies the cursor invariant and has nothing to redo |
| Engine.Fsm.GetState | src/fsm.js:17-19 | returns the active state; it reads only that field |
| Engine.Fsm.ChangeState | src/fsm.js:25-33 | passes exactly when the state is a key of `states`. On success it logs the old state, raises the cursor by 1 and enters the state. Otherwise it fails with InvalidState and changes nothing |
| History.ChangeState | src/fsm.js:25-33 | a successful change enters the requested state, which is declared, and keeps the cursor invariant |
| Configuration.IsDeclared | src/fsm.js:26 | `name in states` holds exactly when some entry of `states` has that name |
| Configuration.Names | src/fsm.js:79-81 | one name per entry of `states`, the entry's name, in enumeration order |
| Configuration.StatesWith | src/fsm.js:72-76 | the filtered list has at most as many names as there are states; its members and order are stated by the StatesWith lemmas |
| History.KeyOf | src/fsm.js:40 | the property key of the current state: its name, or "undefined" when it is `undefined` |
| History.Read | src/fsm.js:96 | an array read gives the entry in range and `undefined` outside it (also line 111) |
| History.Advance | src/fsm.js:27-29 | the push, increment and assign shared with trigger (lines 41-43) keep the cursor invariant and keep "nothing to redo" |
| Engine.IsFalsy | src/fsm.js:71 | a string argument is falsy exactly when it is `undefined` or "" |
| Configuration.Lookup | src/fsm.js:40 | `states[name].transitions` is the transitions of an entry named `name`; None exactly when no entry has that name |
| Engine.Fsm.Trigger | src/fsm.js:39-50 | fails with UndeclaredCurrentState when the current state is not a key (the source's TypeError). Otherwise passes exactly when the event is in its transitions and enters the mapped target without checking it. On success logs the old state and raises the cursor; on failure nothing changes |
| History.Trigger | src/fsm.js:39-50 | a successful trigger keeps the cursor invariant |
| Engine.Fsm.Reset | src/fsm.js:55-61 | whatever the prior history, current state is `initial`, history empty, cursor 1 |
| History.Reset | src/fsm.js:55-61 | the reset machine satisfies the cursor invariant and has nothing to redo |
| Engine.Fsm.GetStates | src/fsm.js:69-84 | with a falsy event (`undefined` or "") returns every declared state in configuration order. Otherwise returns the states whose transitions contain the event, in order |
| Configuration.StatesWithMembers | src/fsm.js:72-76 | a name is listed for an event exactly when some entry with that name has the event |
| Configuration.StatesWithDeclared | src/fsm.js:72-76 | with distinct keys, a name is listed exactly when it is declared and its own transitions contain the event |
| Configuration.StatesWithUnusedEvent | src/fsm.js:69-84 | an event no state declares gives the empty list |
| Configuration.StatesWithIsSubsequence | src/fsm.js:69-84 | the list for an event is a subsequence of the full list of states: same order, nothing added |
| Engine.Fsm.Undo | src/fsm.js:91-101 | true exactly when the cursor is positive. Then it logs the current state, keeps the cursor and enters the new history's entry at cursor - 1. Otherwise it changes nothing; its index is proved in range |
| History.Undo | src/fsm.js:91-101 | succeeds exactly when the cursor is positive and keeps the cursor invariant |
| Properties.UndoTarget | src/fsm.js:91-101 | under the cursor invariant undo enters the logged entry before the cursor, or stays put when the cursor is one past the end |
| Properties.ChangeStateThenUndo | src/fsm.js:25-33 | with the cursor at the end of the history, changeState then undo returns to the starting state |
| Properties.TriggerThenUndo | src/fsm.js:39-50 | with the cursor at the end of the history, a successful trigger then undo returns to the starting state |
| Properties.UndoAfterReset | src/fsm.js:55-61 | undo right after reset succeeds and stays on the initial state |
| Properties.UndoAfterResetAndChangeState | src/fsm.js:91-101 | after reset, changeState then undo stays on the entered state |
| Properties.UndoAfterClearHistory | src/fsm.js:121-125 | undo right after clearHistory returns false and changes nothing; clearHistory keeps the current state |
| Engine.Fsm.Redo | src/fsm.js:108-116 | true exactly when the cursor is before the end of the history. Then it enters the entry one past the cursor (`undefined` past the end) and advances the cursor. Otherwise it changes nothing |
| History.Redo | src/fsm.js:108-116 | succeeds exactly when there is something to redo and keeps the cursor invariant |
| Properties.RedoPastEnd | src/fsm.js:111 | with the cursor at the last index, redo enters `undefined` and moves the cursor to the end |
| Properties.RedoWithinHistory | src/fsm.js:111 | with at least two entries from the cursor on, redo enters the entry one past the cursor |
| Properties.RedoAfterUndo | src/fsm.js:108-116 | with the cursor at the end of the history, a redo right after a successful undo enters `undefined` |
| Properties.RedosAdvance | src/fsm.js:108-116 | each of the first length - cursor redos succeeds and moves the cursor one step, leaving the history alone |
| Properties.RedoExhausts | src/fsm.js:109 | after length - cursor redos the next redo returns false |
| Engine.Fsm.ClearHistory | src/fsm.js:121-125 | empties the history, sets the cursor to 0, keeps the current state |
| History.ClearHistory | src/fsm.js:121-125 | the cleared machine satisfies the cursor invariant and has nothing to redo |
| Properties.Apply | src/fsm.js:25-125 | any single call, with a throwing call leaving the machine as it was, keeps the cursor invariant |
| Properties.RunKeepsCursorInRange | src/fsm.js:25-125 | every sequence of calls keeps 0 <= cursor <= length + 1 |
| Properties.CursorInRangeFromStart | src/fsm.js:6-11 | every sequence of calls from construction keeps the cursor invariant |
| Properties.RedoNeedsUndo | src/fsm.js:108-116 | from a machine with nothing to redo, a sequence of calls without undo leaves nothing to redo, so redo returns false |
| Properties.ApplyWithinConfiguration | src/fsm.js:25-125 | a single call holds only names the configuration mentions, or `undefined` |
| Properties.RunWithinConfiguration | src/fsm.js:25-125 | no sequence of calls introduces a state name the configuration does not mention, other than `undefined` |
| Properties.MentionedIsDeclared | src/fsm.js:40 | in a configuration whose initial state and targets are all declared, every mentioned name is declared |
| Properties.TriggerErrorsInClosedConfig | src/fsm.js:40 | in such a configuration, after any calls from construction, trigger fails on the state lookup only when the current state is `undefined` |
| Properties.SwitchTriggers | src/fsm.js:39-50 | on idle/running: "start" enters running, "stop" returns to idle, "bogus" fails with InvalidEvent |
| Properties.SwitchUndoRedo | src/fsm.js:91-116 | on idle/running: changeState then undo lands on idle; redo then enters `undefined`; trigger then fails on the lookup |
| Properties.SwitchLookups | src/fsm.js:40 | the lookups of the example configuration, including `undefined` coerced to the key "undefined" |
| Properties.SwitchStates | src/fsm.js:69-84 | on idle/running: all states in order, "stop" lists running, an unused event lists none |

## Left out

- The `console.log` inside `undo` (src/fsm.js:95): output only, no effect on state.
- The JavaScript `in` operator also finds inherited keys such as "toString" (src/fsm.js:26, 40, 73). Membership here is plain key membership.
- JavaScript's key-enumeration rules, which list integer-like keys first. The order of `states` is taken as given.
- `return this` chaining and `module.exports`: they carry no behaviour. Mutators return only their outcome.
- Arguments that are not strings. `changeState` and `trigger` take strings. `getStates` takes an optional string, and its falsy values are `undefined` and "".
- A `states` entry whose `transitions` property is missing (another TypeError). Every entry here has a transitions map.
- Engine.Fsm.Trigger: the TypeError that JavaScript raises on an undeclared current state is returned as the error UndeclaredCurrentState. Its message text is not modelled. The current state `undefined` is looked up under the key "undefined", as JavaScript does.
- Configuration.StatesWithDeclared: assumes the keys of `states` are distinct, as they are in an object. Other members do not need this.
