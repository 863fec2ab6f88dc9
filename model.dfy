/**
  The change-notifying wrapper: every operation is forwarded to the current
  StateMachine and then announced once to the subscribed listeners.
  Listeners are identified by number; what they do when called is not part
  of this model, only the fact that they were called and with what.
*/
module Models {
  import opened Dfa
  import opened StateMachines

  type ListenerId = nat

  /** One invocation of the change event: the machine passed, its state at that moment, and who was called. */
  datatype Notification = Notification(machine: StateMachine, view: Snapshot, listeners: seq<ListenerId>)

  /** An invocation list without its last occurrence of `l`, or unchanged when `l` is absent. */
  function RemoveLast(s: seq<ListenerId>, l: ListenerId): (r: seq<ListenerId>)
    ensures l !in s ==> r == s
    ensures l in s ==> exists k :: 0 <= k < |s| && s[k] == l && l !in s[k + 1..] && r == s[..k] + s[k + 1..]
  {
    if s == [] then []
    else if s[|s| - 1] == l then
      assert l !in s[|s|..];
      s[..|s| - 1]
    else
      var front := s[..|s| - 1];
      var r := RemoveLast(front, l) + [s[|s| - 1]];
      assert s == front + [s[|s| - 1]];
      if l in front then
        var k :| 0 <= k < |front| && front[k] == l && l !in front[k + 1..] && RemoveLast(front, l) == front[..k] + front[k + 1..];
        assert s[k + 1..] == front[k + 1..] + [s[|s| - 1]];
        assert s[..k] == front[..k];
        assert r == s[..k] + s[k + 1..];
        r
      else
        r
  }

  /** Subscribing and then unsubscribing one listener restores the invocation list. */
  lemma SubscribeUnsubscribe(s: seq<ListenerId>, l: ListenerId)
    ensures RemoveLast(s + [l], l) == s
  {
    assert (s + [l])[..|s + [l]| - 1] == s;
  }

  class Model {
    var sm: StateMachine
    /** The event's invocation list, in subscription order. */
    var listeners: seq<ListenerId>
    /** Every invocation of the change event so far. */
    ghost var log: seq<Notification>

    /** What one `OnChange?.Invoke(sm)` adds to the log: nothing when nobody is subscribed. */
    ghost function Announcement(): seq<Notification>
      reads this, sm
    {
      if listeners == [] then [] else [Notification(sm, sm.View(), listeners)]
    }

    constructor ()
      ensures fresh(sm) && sm.View() == Snapshot.Initial()
      ensures listeners == [] && log == []
    {
      sm := new StateMachine();
      listeners := [];
      log := [];
    }

    /** The StateMachine property setter: swaps the whole machine, then announces the new one. */
    method SetStateMachine(m: StateMachine)
      modifies this`sm, this`log
      ensures sm == m
      ensures log == old(log) + Announcement()
    {
      sm := m;
      Notify();
    }

    /** OnChanged add. */
    method Subscribe(l: ListenerId)
      modifies this`listeners
      ensures listeners == old(listeners) + [l]
    {
      listeners := listeners + [l];
    }

    /** OnChanged remove. */
    method Unsubscribe(l: ListenerId)
      modifies this`listeners
      ensures listeners == RemoveLast(old(listeners), l)
    {
      listeners := RemoveLast(listeners, l);
    }

    /** `OnChange?.Invoke(sm)` */
    method Notify()
      modifies this`log
      ensures log == old(log) + Announcement()
    {
      if listeners != [] {
        log := log + [Notification(sm, sm.View(), listeners)];
      }
    }

    method AddRule(state: State, symbol: char, nextState: State)
      modifies sm`stateRules, this`log
      ensures sm.View() == old(sm.View()).AddRule(state, symbol, nextState)
      ensures log == old(log) + Announcement()
    {
      sm.AddRule(state, symbol, nextState);
      Notify();
    }

    method ClearRules()
      modifies sm`stateRules, this`log
      ensures sm.View() == old(sm.View()).ClearRules()
      ensures log == old(log) + Announcement()
    {
      sm.ClearRules();
      Notify();
    }

    method AddFinalState(state: State)
      modifies sm`finalStates, this`log
      ensures sm.View() == old(sm.View()).AddFinalState(state)
      ensures log == old(log) + Announcement()
    {
      sm.AddFinalState(state);
      Notify();
    }

    method ClearFinalStates()
      modifies sm`finalStates, this`log
      ensures sm.View() == old(sm.View()).ClearFinalStates()
      ensures log == old(log) + Announcement()
    {
      sm.ClearFinalStates();
      Notify();
    }

    /** Sets the start state unconditionally, empty or unknown labels included. */
    method ChangeStartState(state: State)
      modifies sm`startState, this`log
      ensures sm.View() == old(sm.View()).WithStartState(state)
      ensures log == old(log) + Announcement()
    {
      sm.SetStartState(state);
      Notify();
    }

    method CheckWord(word: string)
      modifies sm`result, sm`executionTrace, this`log
      ensures sm.View() == old(sm.View()).CheckWord(word)
      ensures log == old(log) + Announcement()
    {
      sm.CheckWord(word);
      Notify();
    }
  }

  /**
    The sample automaton driven through a Model with one listener: the
    listener, subscribed after the first rule, sees each later change once, and the three sample words give the
    traces and results the run lemmas predict.
  */
  method SampleSession() returns (traceAb: string, resultAb: Option<string>, resultA: Option<string>, traceAc: string, resultAc: Option<string>)
    ensures traceAb == "1) (q0, a) -> q1" + NewLine + "2) (q1, b) -> q0" + NewLine && resultAb == Some(ResultAllowable)
    ensures resultA == Some(ResultUnallowable)
    ensures traceAc == "1) (q0, a) -> q1" + NewLine + ErrorRuleNotExist && resultAc == Some(ResultUnallowable)
  {
    var model := new Model();
    model.AddRule("q0", 'a', "q1");
    model.Subscribe(0);
    model.AddRule("q1", 'b', "q0");
    model.ChangeStartState("q0");
    model.AddFinalState("q0");
    ghost var automaton := model.sm.View();
    assert automaton.stateRules == SampleRules() && automaton.startState == "q0" && automaton.finalStates == {"q0"};
    assert |model.log| == 3;
    SampleRuns();
    model.CheckWord("ab");
    traceAb, resultAb := model.sm.executionTrace, model.sm.result;
    model.CheckWord("a");
    resultA := model.sm.result;
    model.CheckWord("ac");
    traceAc, resultAc := model.sm.executionTrace, model.sm.result;
    assert |model.log| == 6 && model.log[5].view == automaton.CheckWord("ac");
  }
}
