/**
 * The caller-supplied configuration of a state machine: an `initial` state
 * name and `states`, whose keys are the declared states, each with a
 * `transitions` object from event name to target state name. The engine
 * only reads it.
 */
module Configuration {
  import opened Wrappers

  /** One key of `states` together with its `transitions` object. */
  datatype StateDesc = StateDesc(name: string, transitions: map<string, string>)

  /** `states` is kept in the order in which its keys are enumerated. */
  datatype Config = Config(initial: string, states: seq<StateDesc>)

  /** The keys of an object are pairwise distinct. */
  predicate DistinctNames(states: seq<StateDesc>) {
    forall i, j :: 0 <= i < j < |states| ==> states[i].name != states[j].name
  }

  /** `states[name].transitions`, or None when `name` is not a key of `states`. */
  function Lookup(states: seq<StateDesc>, name: string): (r: Option<map<string, string>>)
    ensures r.Some? ==>
      exists i :: 0 <= i < |states| && states[i].name == name && states[i].transitions == r.value
    ensures r.None? ==> forall i :: 0 <= i < |states| ==> states[i].name != name
  {
    if |states| == 0 then None
    else if states[0].name == name then Some(states[0].transitions)
    else
      var r := Lookup(states[1..], name);
      assert r.Some? ==> exists i :: 0 <= i < |states[1..]| && states[1..][i].name == name
                                      && states[1..][i].transitions == r.value;
      r
  }

  /** `name in config.states` */
  predicate IsDeclared(c: Config, name: string)
    ensures IsDeclared(c, name) <==> exists i :: 0 <= i < |c.states| && c.states[i].name == name
  {
    Lookup(c.states, name).Some?
  }

  /** Every key of `states`, in enumeration order. */
  function Names(states: seq<StateDesc>): (r: seq<string>)
    ensures |r| == |states|
    ensures forall i :: 0 <= i < |states| ==> r[i] == states[i].name
  {
    seq(|states|, i requires 0 <= i < |states| => states[i].name)
  }

  /** The keys of `states` whose transitions contain `event`, in enumeration order. */
  function StatesWith(states: seq<StateDesc>, event: string): (r: seq<string>)
    ensures |r| <= |states|
  {
    if |states| == 0 then []
    else
      var last := states[|states| - 1];
      StatesWith(states[..|states| - 1], event) + (if event in last.transitions then [last.name] else [])
  }

  /** `a` is `b` with some elements left out and the rest in the same order. */
  predicate IsSubsequence(a: seq<string>, b: seq<string>)
    decreases |b|
  {
    || |a| == 0
    || (&& |b| > 0
        && (|| (a[|a| - 1] == b[|b| - 1] && IsSubsequence(a[..|a| - 1], b[..|b| - 1]))
            || IsSubsequence(a, b[..|b| - 1])))
  }

  /** A state is listed for `event` exactly when one of its entries has that event. */
  lemma {:induction false} StatesWithMembers(states: seq<StateDesc>, event: string, x: string)
    ensures x in StatesWith(states, event) <==>
      exists i :: 0 <= i < |states| && states[i].name == x && event in states[i].transitions
  {
    if |states| > 0 {
      var n := |states| - 1;
      var front := states[..n];
      StatesWithMembers(front, event, x);
      if x in StatesWith(front, event) {
        var i :| 0 <= i < |front| && front[i].name == x && event in front[i].transitions;
        assert states[i] == front[i];
      }
      if exists i :: 0 <= i < |states| && states[i].name == x && event in states[i].transitions {
        var i :| 0 <= i < |states| && states[i].name == x && event in states[i].transitions;
        if i < n {
          assert front[i] == states[i];
        }
      }
    }
  }

  /** With distinct keys: listed exactly when the state's own transitions contain `event`. */
  lemma StatesWithDeclared(states: seq<StateDesc>, event: string, x: string)
    requires DistinctNames(states)
    ensures x in StatesWith(states, event) <==>
      (Lookup(states, x).Some? && event in Lookup(states, x).value)
  {
    StatesWithMembers(states, event, x);
  }

  /** An event that no state declares lists no state. */
  lemma StatesWithUnusedEvent(states: seq<StateDesc>, event: string)
    requires forall i :: 0 <= i < |states| ==> event !in states[i].transitions
    ensures StatesWith(states, event) == []
  {
    var r := StatesWith(states, event);
    if r != [] {
      StatesWithMembers(states, event, r[0]);
    }
  }

  /** The filtered list keeps the configuration order of the full list. */
  lemma {:induction false} StatesWithIsSubsequence(states: seq<StateDesc>, event: string)
    ensures IsSubsequence(StatesWith(states, event), Names(states))
  {
    if |states| > 0 {
      var n := |states| - 1;
      var front := states[..n];
      StatesWithIsSubsequence(front, event);
      assert Names(states)[..n] == Names(front);
      var r := StatesWith(states, event);
      if event in states[n].transitions {
        assert r[..|r| - 1] == StatesWith(front, event);
      } else {
        assert r == StatesWith(front, event);
      }
    }
  }
}
