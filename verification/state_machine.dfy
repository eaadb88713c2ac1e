/** The `toggle` state machine: two states, three events, a context holding
    `count`, and the script that starts an actor and sends TOGGLE, ten INC and
    END, printing the state value and the count after each step. */
module ToggleMachine {
  import opened Wrappers

  datatype StateValue = Inactive | Active

  datatype Event = Toggle | Inc | End

  datatype Context = Context(count: int)

  /** What the script prints: the state value and the context. */
  datatype Snapshot = Snapshot(value: StateValue, context: Context)

  /** One entry of the machine's `on` table: an optional target state and
      whether the `assign` action adding 1 to `count` runs. */
  datatype Transition = Transition(target: Option<StateValue>, increments: bool)

  /** `initial: "inactive"` with context `{ count: 0 }`. */
  const InitialSnapshot := Snapshot(Inactive, Context(0))

  /** The declared table: TOGGLE in inactive, INC and END in active. */
  function Lookup(state: StateValue, event: Event): Option<Transition> {
    match (state, event)
    case (Inactive, Toggle) => Some(Transition(Some(Active), false))
    case (Active, Inc) => Some(Transition(None, true))
    case (Active, End) => Some(Transition(Some(Inactive), false))
    case _ => None
  }

  /** One `send`: take the entry for the current state and event if there is
      one, run its action and move to its target; otherwise change nothing. */
  function Step(s: Snapshot, e: Event): (r: Snapshot)
    ensures Lookup(s.value, e).None? ==> r == s
    ensures r.context.count == s.context.count + (if s.value == Active && e == Inc then 1 else 0)
    ensures r.value == (if s.value == Inactive && e == Toggle then Active
                        else if s.value == Active && e == End then Inactive
                        else s.value)
  {
    match Lookup(s.value, e)
    case None => s
    case Some(t) =>
      var value := if t.target.Some? then t.target.value else s.value;
      var context := if t.increments then Context(s.context.count + 1) else s.context;
      Snapshot(value, context)
  }

  /** The events with no entry are exactly INC and END in inactive and TOGGLE
      in active, and each of them is ignored. */
  lemma UnhandledEventsIgnored(s: Snapshot, e: Event)
    ensures Lookup(s.value, e).None? <==>
      (s.value == Inactive && e != Toggle) || (s.value == Active && e == Toggle)
    ensures Lookup(s.value, e).None? ==> Step(s, e) == s
  {
  }

  /** Sending a sequence of events one after the other. */
  function Run(s: Snapshot, events: seq<Event>): (r: Snapshot)
    ensures r.context.count >= s.context.count
    ensures (forall i :: 0 <= i < |events| ==> events[i] != Inc) ==> r.context.count == s.context.count
    decreases |events|
  {
    if events == [] then s else Run(Step(s, events[0]), events[1..])
  }

  /** The number of INC events that arrive while the machine is active. */
  function AcceptedIncs(s: Snapshot, events: seq<Event>): nat
    decreases |events|
  {
    if events == [] then 0
    else (if s.value == Active && events[0] == Inc then 1 else 0)
         + AcceptedIncs(Step(s, events[0]), events[1..])
  }

  /** The count only grows, by exactly the number of accepted INC events. */
  lemma {:induction false} RunCount(s: Snapshot, events: seq<Event>)
    ensures Run(s, events).context.count == s.context.count + AcceptedIncs(s, events)
    ensures Run(s, events).context.count >= s.context.count
    decreases |events|
  {
    if events != [] {
      RunCount(Step(s, events[0]), events[1..]);
    }
  }

  /** Running `a` then `b` is running `a + b`. */
  lemma {:induction false} RunAppend(s: Snapshot, a: seq<Event>, b: seq<Event>)
    ensures Run(s, a + b) == Run(Run(s, a), b)
    decreases |a|
  {
    if a == [] {
      assert a + b == b;
    } else {
      assert (a + b)[1..] == a[1..] + b;
      RunAppend(Step(s, a[0]), a[1..], b);
    }
  }

  /** `n` INC events in the active state add `n` to the count. */
  lemma {:induction false} RunIncs(count: int, n: nat)
    decreases n
    ensures Run(Snapshot(Active, Context(count)), seq(n, _ => Inc)) == Snapshot(Active, Context(count + n))
  {
    if n > 0 {
      var incs := seq(n, _ => Inc);
      assert incs[1..] == seq(n - 1, _ => Inc);
      RunIncs(count + 1, n - 1);
    }
  }

  /** The script's events: TOGGLE, ten INC, END. */
  function ScriptEvents(): seq<Event> {
    [Toggle] + seq(10, _ => Inc) + [End]
  }

  /** The script ends inactive with count 10. */
  lemma ScriptOutcome()
    ensures Run(InitialSnapshot, ScriptEvents()) == Snapshot(Inactive, Context(10))
  {
    var incs := seq(10, _ => Inc);
    RunAppend(InitialSnapshot, [Toggle] + incs, [End]);
    RunAppend(InitialSnapshot, [Toggle], incs);
    RunIncs(0, 10);
  }

  /** An actor created from the machine and started: it holds the current
      snapshot, and `send` replaces it by the step's result. */
  class Actor {
    var snapshot: Snapshot

    constructor ()
      ensures snapshot == InitialSnapshot
    {
      snapshot := InitialSnapshot;
    }

    method Send(e: Event)
      modifies this
      ensures snapshot == Step(old(snapshot), e)
    {
      snapshot := Step(snapshot, e);
    }
  }

  /** The script itself: the values the printer receives, in order —
      `inactive 0`, `active 0`, `active 1` .. `active 10`, `inactive 10`. */
  method RunScript() returns (printed: seq<Snapshot>)
    ensures |printed| == 13
    ensures printed[0] == Snapshot(Inactive, Context(0))
    ensures printed[1] == Snapshot(Active, Context(0))
    ensures forall k :: 1 <= k <= 10 ==> printed[k + 1] == Snapshot(Active, Context(k))
    ensures printed[12] == Snapshot(Inactive, Context(10))
  {
    var actor := new Actor();
    printed := [actor.snapshot];
    actor.Send(Toggle);
    printed := printed + [actor.snapshot];
    for i := 0 to 10
      invariant actor.snapshot == Snapshot(Active, Context(i))
      invariant |printed| == i + 2
      invariant printed[0] == Snapshot(Inactive, Context(0))
      invariant printed[1] == Snapshot(Active, Context(0))
      invariant forall k :: 1 <= k <= i ==> printed[k + 1] == Snapshot(Active, Context(k))
    {
      actor.Send(Inc);
      printed := printed + [actor.snapshot];
    }
    actor.Send(End);
    printed := printed + [actor.snapshot];
  }
}
