/** The automaton object: a transition table, start and final states, and the output of the last check. */
module StateMachines {
  import opened Dfa

  class StateMachine {
    /** None until the first CheckWord (the property has no initializer). */
    var result: Option<string>
    var startState: State
    var finalStates: set<State>
    var executionTrace: string
    var stateRules: Rules

    /** The machine as a value. */
    function View(): Snapshot
      reads this
    {
      Snapshot(stateRules, startState, finalStates, executionTrace, result)
    }

    constructor ()
      ensures View() == Snapshot.Initial()
    {
      result := None;
      startState := "";
      finalStates := {};
      executionTrace := "";
      stateRules := map[];
    }

    /**
      Reads `word` one symbol at a time from the start state, appending one
      record per applied rule; at the first missing rule it appends the error
      marker, sets the result to unallowable and stops. Otherwise the result
      says whether the reached state is final.
    */
    method CheckWord(word: string)
      modifies this`result, this`executionTrace
      ensures executionTrace == Trace(stateRules, startState, word, 1)
      ensures result == Some(Verdict(stateRules, finalStates, startState, word))
      ensures View() == old(View()).CheckWord(word)
    {
      var state := startState;
      result := Some("");
      executionTrace := "";
      var i := 1;
      var pos := 0;
      while pos < |word|
        invariant pos <= |word| && i == pos + 1
        invariant Run(stateRules, startState, word[..pos]) == Some(state)
        invariant executionTrace == Trace(stateRules, startState, word[..pos], 1)
      {
        var symbol := word[pos];
        if state in stateRules && symbol in stateRules[state] {
          var next := stateRules[state][symbol];
          StepForward(stateRules, startState, word, pos, state, next);
          executionTrace := executionTrace + Record(i, state, symbol, next);
          i := i + 1;
          state := next;
        } else {
          StepStuck(stateRules, finalStates, startState, word, pos, state);
          executionTrace := executionTrace + ErrorRuleNotExist;
          result := Some(ResultUnallowable);
          return;
        }
        pos := pos + 1;
      }
      assert word[..pos] == word;
      result := Some(if state in finalStates then ResultAllowable else ResultUnallowable);
    }

    /** Inserts the rule (state, symbol) -> nextState, overwriting any rule for that pair. */
    method AddRule(state: State, symbol: char, nextState: State)
      modifies this`stateRules
      ensures stateRules == AddRuleTo(old(stateRules), state, symbol, nextState)
      ensures View() == old(View()).AddRule(state, symbol, nextState)
    {
      if state !in stateRules {
        stateRules := stateRules[state := map[]];
      }
      stateRules := stateRules[state := stateRules[state][symbol := nextState]];
    }

    method ClearRules()
      modifies this`stateRules
      ensures View() == old(View()).ClearRules()
    {
      stateRules := map[];
    }

    method AddFinalState(state: State)
      modifies this`finalStates
      ensures View() == old(View()).AddFinalState(state)
    {
      finalStates := finalStates + {state};
    }

    method ClearFinalStates()
      modifies this`finalStates
      ensures View() == old(View()).ClearFinalStates()
    {
      finalStates := {};
    }

    /** The StartState setter: any label, empty or unknown ones included. */
    method SetStartState(state: State)
      modifies this`startState
      ensures View() == old(View()).WithStartState(state)
    {
      startState := state;
    }
  }

  /** Two checks of one word with no mutation between them leave the same trace and result. */
  method CheckWordTwice(m: StateMachine, word: string)
    modifies m`result, m`executionTrace
    ensures m.View() == old(m.View()).CheckWord(word)
  {
    m.CheckWord(word);
    var firstTrace, firstResult := m.executionTrace, m.result;
    m.CheckWord(word);
    assert m.executionTrace == firstTrace && m.result == firstResult;
  }
}
