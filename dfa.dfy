/**
  The deterministic finite automaton as values: the two-level transition
  table, the run of a word over it, the textual trace of that run and the
  verdict, together with the value of a whole machine (`Snapshot`) and the
  effect of each machine operation on it.
*/
module Dfa {
  import Decimal

  datatype Option<T> = None | Some(value: T)

  /** A state is only a label; states are never declared. */
  type State = string

  /** state -> symbol -> next state */
  type Rules = map<State, map<char, State>>

  const ErrorRuleNotExist: string := "Не существует правила перехода."
  const ResultAllowable: string := "Цепочка допустима."
  const ResultUnallowable: string := "Цепочка недопустима."

  /** Environment.NewLine, fixed to its Windows value. */
  const NewLine: string := "\r\n"

  lemma ResultsDiffer()
    ensures ResultAllowable != ResultUnallowable
  {
    assert ResultAllowable[8] != ResultUnallowable[8];
  }

  /** The rule for (state, symbol), if the table has one. */
  function Lookup(rules: Rules, state: State, symbol: char): Option<State> {
    if state in rules && symbol in rules[state] then Some(rules[state][symbol]) else None
  }

  // ---------------------------------------------------------------------
  // Adding rules

  /** The table after inserting or overwriting the rule (state, symbol) -> next. */
  function AddRuleTo(rules: Rules, state: State, symbol: char, next: State): (r: Rules)
    ensures Lookup(r, state, symbol) == Some(next)
    ensures forall s, c :: s != state || c != symbol ==> Lookup(r, s, c) == Lookup(rules, s, c)
    ensures r.Keys == rules.Keys + {state}
  {
    var row := if state in rules then rules[state] else map[];
    rules[state := row[symbol := next]]
  }

  /** A table is determined by its keys and its lookups. */
  lemma {:induction false} RulesExtensional(r1: Rules, r2: Rules)
    requires r1.Keys == r2.Keys
    requires forall s, c :: Lookup(r1, s, c) == Lookup(r2, s, c)
    ensures r1 == r2
  {
    forall s | s in r1
      ensures r1[s] == r2[s]
    {
      forall c | c in r1[s] || c in r2[s]
        ensures c in r1[s] && c in r2[s] && r1[s][c] == r2[s][c]
      {
        assert Lookup(r1, s, c) == Lookup(r2, s, c);
      }
    }
  }

  /** Adding the same pair twice keeps only the second target. */
  lemma AddRuleOverwrites(rules: Rules, state: State, symbol: char, first: State, second: State)
    ensures AddRuleTo(AddRuleTo(rules, state, symbol, first), state, symbol, second)
         == AddRuleTo(rules, state, symbol, second)
  {
    RulesExtensional(AddRuleTo(AddRuleTo(rules, state, symbol, first), state, symbol, second),
                     AddRuleTo(rules, state, symbol, second));
  }

  /** Rules for two different pairs can be added in either order. */
  lemma AddRuleCommutes(rules: Rules, r1: Rule, r2: Rule)
    requires !r1.Targets(r2.state, r2.symbol)
    ensures AddRuleTo(AddRuleTo(rules, r1.state, r1.symbol, r1.next), r2.state, r2.symbol, r2.next)
         == AddRuleTo(AddRuleTo(rules, r2.state, r2.symbol, r2.next), r1.state, r1.symbol, r1.next)
  {
    RulesExtensional(
      AddRuleTo(AddRuleTo(rules, r1.state, r1.symbol, r1.next), r2.state, r2.symbol, r2.next),
      AddRuleTo(AddRuleTo(rules, r2.state, r2.symbol, r2.next), r1.state, r1.symbol, r1.next));
  }

  /** One AddRule call, as data. */
  datatype Rule = Rule(state: State, symbol: char, next: State) {
    predicate Targets(s: State, c: char) {
      state == s && symbol == c
    }
  }

  /** The table after a sequence of AddRule calls, oldest first. */
  function ApplyRules(rules: Rules, added: seq<Rule>): Rules
  {
    if added == [] then rules
    else
      var last := added[|added| - 1];
      AddRuleTo(ApplyRules(rules, added[..|added| - 1]), last.state, last.symbol, last.next)
  }

  /** Of several AddRule calls for one pair, the last one is the one kept. */
  lemma {:induction false} LastRuleWins(rules: Rules, added: seq<Rule>, j: nat, state: State, symbol: char)
    requires j < |added| && added[j].Targets(state, symbol)
    requires forall k :: j < k < |added| ==> !added[k].Targets(state, symbol)
    ensures Lookup(ApplyRules(rules, added), state, symbol) == Some(added[j].next)
  {
    if j < |added| - 1 {
      LastRuleWins(rules, added[..|added| - 1], j, state, symbol);
    }
  }

  /** A pair that no AddRule call names keeps its original rule (or lack of one). */
  lemma {:induction false} UntouchedRuleKept(rules: Rules, added: seq<Rule>, state: State, symbol: char)
    requires forall k :: 0 <= k < |added| ==> !added[k].Targets(state, symbol)
    ensures Lookup(ApplyRules(rules, added), state, symbol) == Lookup(rules, state, symbol)
  {
    if added != [] {
      UntouchedRuleKept(rules, added[..|added| - 1], state, symbol);
    }
  }

  // ---------------------------------------------------------------------
  // Running a word

  /** The state reached after reading the whole word, or None at the first missing rule. */
  function Run(rules: Rules, state: State, word: string): Option<State>
    decreases word
  {
    if word == [] then Some(state)
    else match Lookup(rules, state, word[0])
      case None => None
      case Some(next) => Run(rules, next, word[1..])
  }

  lemma {:induction false} RunAppend(rules: Rules, state: State, u: string, v: string)
    ensures Run(rules, state, u + v)
         == match Run(rules, state, u)
            case None => None
            case Some(q) => Run(rules, q, v)
    decreases u
  {
    if u == [] {
      assert u + v == v;
    } else {
      assert (u + v)[0] == u[0];
      assert (u + v)[1..] == u[1..] + v;
      match Lookup(rules, state, u[0])
      case None =>
      case Some(next) => RunAppend(rules, next, u[1..], v);
    }
  }

  /** `path` lists the states visited while reading `word` from `start`, one rule per symbol. */
  ghost predicate IsPath(rules: Rules, start: State, word: string, path: seq<State>) {
    && |path| == |word| + 1
    && path[0] == start
    && forall k :: 0 <= k < |word| ==> Lookup(rules, path[k], word[k]) == Some(path[k + 1])
  }

  lemma {:induction false} RunFollowsPath(rules: Rules, start: State, word: string, path: seq<State>)
    requires IsPath(rules, start, word, path)
    ensures Run(rules, start, word) == Some(path[|word|])
    decreases word
  {
    if word != [] {
      assert Lookup(rules, path[0], word[0]) == Some(path[1]);
      assert IsPath(rules, path[1], word[1..], path[1..]) by {
        forall k | 0 <= k < |word| - 1
          ensures Lookup(rules, path[1..][k], word[1..][k]) == Some(path[1..][k + 1])
        {
          assert Lookup(rules, path[k + 1], word[k + 1]) == Some(path[k + 2]);
        }
      }
      RunFollowsPath(rules, path[1], word[1..], path[1..]);
    }
  }

  lemma {:induction false} PathOfRun(rules: Rules, start: State, word: string)
    requires Run(rules, start, word).Some?
    ensures exists path :: IsPath(rules, start, word, path) && path[|word|] == Run(rules, start, word).value
    decreases word
  {
    if word == [] {
      assert IsPath(rules, start, word, [start]);
    } else {
      var next := Lookup(rules, start, word[0]).value;
      PathOfRun(rules, next, word[1..]);
      var tail :| IsPath(rules, next, word[1..], tail) && tail[|word| - 1] == Run(rules, next, word[1..]).value;
      var path := [start] + tail;
      assert IsPath(rules, start, word, path) by {
        forall k | 0 <= k < |word|
          ensures Lookup(rules, path[k], word[k]) == Some(path[k + 1])
        {
          if k > 0 {
            assert Lookup(rules, tail[k - 1], word[1..][k - 1]) == Some(tail[k]);
          }
        }
      }
      assert path[|word|] == Run(rules, start, word).value;
    }
  }

  /** The run reaches q exactly when some path for the word ends in q. */
  lemma RunIffPath(rules: Rules, start: State, word: string, q: State)
    ensures Run(rules, start, word) == Some(q) <==> exists path :: IsPath(rules, start, word, path) && path[|word|] == q
  {
    if Run(rules, start, word) == Some(q) {
      PathOfRun(rules, start, word);
    }
    if exists path :: IsPath(rules, start, word, path) && path[|word|] == q {
      var path :| IsPath(rules, start, word, path) && path[|word|] == q;
      RunFollowsPath(rules, start, word, path);
    }
  }

  /** The automaton is deterministic: a word has at most one path. */
  lemma {:induction false} PathUnique(rules: Rules, start: State, word: string, p1: seq<State>, p2: seq<State>)
    requires IsPath(rules, start, word, p1) && IsPath(rules, start, word, p2)
    ensures p1 == p2
  {
    var k := 0;
    while k < |word|
      invariant 0 <= k <= |word|
      invariant p1[..k + 1] == p2[..k + 1]
    {
      assert p1[k] == p2[k] by { assert p1[..k + 1][k] == p2[..k + 1][k]; }
      assert Lookup(rules, p1[k], word[k]) == Some(p1[k + 1]);
      assert Lookup(rules, p2[k], word[k]) == Some(p2[k + 1]);
      assert p1[..k + 2] == p1[..k + 1] + [p1[k + 1]];
      assert p2[..k + 2] == p2[..k + 1] + [p2[k + 1]];
      k := k + 1;
    }
    assert p1 == p1[..k + 1] && p2 == p2[..k + 1];
  }

  // ---------------------------------------------------------------------
  // Trace and verdict

  /** The trace line for step number `step`: "step) (state, symbol) -> next" and a line break. */
  function Record(step: nat, state: State, symbol: char, next: State): string {
    Decimal.NatToString(step) + ") (" + state + ", " + [symbol] + ") -> " + next + NewLine
  }

  /**
    The trace of reading `word` from `state`, numbering steps from `step`:
    one record per applied rule, then the error marker (without a line break)
    at the first missing rule, after which the rest of the word is not read.
  */
  function Trace(rules: Rules, state: State, word: string, step: nat): string
    decreases word
  {
    if word == [] then ""
    else match Lookup(rules, state, word[0])
      case None => ErrorRuleNotExist
      case Some(next) => Record(step, state, word[0], next) + Trace(rules, next, word[1..], step + 1)
  }

  /** The result of checking `word`: allowable iff every symbol had a rule and the reached state is final. */
  function Verdict(rules: Rules, finals: set<State>, start: State, word: string): string
  {
    match Run(rules, start, word)
    case None => ResultUnallowable
    case Some(q) => if q in finals then ResultAllowable else ResultUnallowable
  }

  /** Records step, step+1, ... for the steps along `path`. */
  function Records(word: string, path: seq<State>, step: nat): string
    requires |path| == |word| + 1
    decreases word
  {
    if word == [] then ""
    else Record(step, path[0], word[0], path[1]) + Records(word[1..], path[1..], step + 1)
  }

  lemma {:induction false} TraceAppend(rules: Rules, state: State, u: string, v: string, step: nat)
    requires Run(rules, state, u).Some?
    ensures Trace(rules, state, u + v, step)
         == Trace(rules, state, u, step) + Trace(rules, Run(rules, state, u).value, v, step + |u|)
    decreases u
  {
    if u == [] {
      assert u + v == v;
    } else {
      assert (u + v)[0] == u[0];
      assert (u + v)[1..] == u[1..] + v;
      var next := Lookup(rules, state, u[0]).value;
      TraceAppend(rules, next, u[1..], v, step + 1);
    }
  }

  /** Reading one more symbol that has a rule extends the run and appends one record to the trace. */
  lemma StepForward(rules: Rules, start: State, word: string, pos: nat, state: State, next: State)
    requires pos < |word| && Run(rules, start, word[..pos]) == Some(state)
    requires Lookup(rules, state, word[pos]) == Some(next)
    ensures Run(rules, start, word[..pos + 1]) == Some(next)
    ensures Trace(rules, start, word[..pos + 1], 1)
         == Trace(rules, start, word[..pos], 1) + Record(pos + 1, state, word[pos], next)
  {
    assert word[..pos + 1] == word[..pos] + [word[pos]];
    RunAppend(rules, start, word[..pos], [word[pos]]);
    TraceAppend(rules, start, word[..pos], [word[pos]], 1);
  }

  /** Meeting a missing rule after a successful prefix: the trace gets the error marker and the word is unallowable. */
  lemma StepStuck(rules: Rules, finals: set<State>, start: State, word: string, pos: nat, state: State)
    requires pos < |word| && Run(rules, start, word[..pos]) == Some(state)
    requires Lookup(rules, state, word[pos]) == None
    ensures Trace(rules, start, word, 1) == Trace(rules, start, word[..pos], 1) + ErrorRuleNotExist
    ensures Verdict(rules, finals, start, word) == ResultUnallowable
  {
    assert word == word[..pos] + word[pos..];
    assert word[pos..][0] == word[pos];
    RunAppend(rules, start, word[..pos], word[pos..]);
    TraceAppend(rules, start, word[..pos], word[pos..], 1);
  }

  /** Once a prefix has hit a missing rule, the rest of the word changes neither trace nor verdict. */
  lemma {:induction false} StuckIgnoresRest(rules: Rules, finals: set<State>, state: State, u: string, v: string, step: nat)
    requires Run(rules, state, u) == None
    ensures Trace(rules, state, u + v, step) == Trace(rules, state, u, step)
    ensures Verdict(rules, finals, state, u + v) == ResultUnallowable
    decreases u
  {
    assert u != [];
    assert (u + v)[0] == u[0];
    assert (u + v)[1..] == u[1..] + v;
    match Lookup(rules, state, u[0])
    case None =>
    case Some(next) => StuckIgnoresRest(rules, finals, next, u[1..], v, step + 1);
    RunAppend(rules, state, u, v);
  }

  lemma {:induction false} TraceAlongPath(rules: Rules, start: State, word: string, path: seq<State>, step: nat)
    requires IsPath(rules, start, word, path)
    ensures Trace(rules, start, word, step) == Records(word, path, step)
    decreases word
  {
    if word != [] {
      assert Lookup(rules, path[0], word[0]) == Some(path[1]);
      assert IsPath(rules, path[1], word[1..], path[1..]) by {
        forall k | 0 <= k < |word| - 1
          ensures Lookup(rules, path[1..][k], word[1..][k]) == Some(path[1..][k + 1])
        {
          assert Lookup(rules, path[k + 1], word[k + 1]) == Some(path[k + 2]);
        }
      }
      TraceAlongPath(rules, path[1], word[1..], path[1..], step + 1);
    }
  }

  /**
    Every symbol has a rule: the trace is the records 1..|word| of the path,
    and the word is allowable iff the path ends in a final state.
  */
  lemma CompletedRun(rules: Rules, finals: set<State>, start: State, word: string, path: seq<State>)
    requires IsPath(rules, start, word, path)
    ensures Trace(rules, start, word, 1) == Records(word, path, 1)
    ensures Verdict(rules, finals, start, word) == if path[|word|] in finals then ResultAllowable else ResultUnallowable
  {
    TraceAlongPath(rules, start, word, path, 1);
    RunFollowsPath(rules, start, word, path);
  }

  /**
    The first missing rule is at position k (1-based): the trace is the k-1
    records before it followed by the error marker, the word is unallowable,
    and the symbols after position k play no part.
  */
  lemma StuckRun(rules: Rules, finals: set<State>, start: State, word: string, path: seq<State>, k: nat)
    requires 1 <= k <= |word|
    requires IsPath(rules, start, word[..k - 1], path)
    requires Lookup(rules, path[k - 1], word[k - 1]) == None
    ensures Trace(rules, start, word, 1) == Records(word[..k - 1], path, 1) + ErrorRuleNotExist
    ensures Trace(rules, start, word, 1) == Trace(rules, start, word[..k], 1)
    ensures Verdict(rules, finals, start, word) == ResultUnallowable
  {
    var u, v := word[..k - 1], word[k - 1..];
    assert word == u + v;
    RunFollowsPath(rules, start, u, path);
    TraceAppend(rules, start, u, v, 1);
    TraceAlongPath(rules, start, u, path, 1);
    assert v[0] == word[k - 1];
    RunAppend(rules, start, u, v);
    assert word[..k] == u + [word[k - 1]];
    TraceAppend(rules, start, u, [word[k - 1]], 1);
  }

  /** The empty word: empty trace, allowable iff the start state is final. */
  lemma EmptyWord(rules: Rules, finals: set<State>, start: State)
    ensures Trace(rules, start, "", 1) == ""
    ensures Verdict(rules, finals, start, "") == ResultAllowable <==> start in finals
  {
    ResultsDiffer();
  }

  /** Acceptance in terms of paths alone: some path for the word ends in a final state. */
  lemma AllowableIffFinalPath(rules: Rules, finals: set<State>, start: State, word: string)
    ensures Verdict(rules, finals, start, word) == ResultAllowable
        <==> exists path :: IsPath(rules, start, word, path) && path[|word|] in finals
  {
    ResultsDiffer();
    if Run(rules, start, word).Some? {
      PathOfRun(rules, start, word);
    }
    if exists path :: IsPath(rules, start, word, path) && path[|word|] in finals {
      var path :| IsPath(rules, start, word, path) && path[|word|] in finals;
      RunFollowsPath(rules, start, word, path);
    }
  }

  // ---------------------------------------------------------------------
  // The value of a whole machine and the effect of each operation on it

  datatype Snapshot = Snapshot(
    stateRules: Rules,
    startState: State,
    finalStates: set<State>,
    executionTrace: string,
    result: Option<string>)
  {
    /** A new machine: no rules, no final states, empty start state and trace, result not yet set. */
    static function Initial(): Snapshot {
      Snapshot(map[], "", {}, "", None)
    }

    function AddRule(state: State, symbol: char, next: State): Snapshot {
      this.(stateRules := AddRuleTo(stateRules, state, symbol, next))
    }

    function ClearRules(): Snapshot {
      this.(stateRules := map[])
    }

    function AddFinalState(state: State): Snapshot {
      this.(finalStates := finalStates + {state})
    }

    function ClearFinalStates(): Snapshot {
      this.(finalStates := {})
    }

    function WithStartState(state: State): Snapshot {
      this.(startState := state)
    }

    /** CheckWord overwrites trace and result and nothing else. */
    function CheckWord(word: string): Snapshot {
      this.(executionTrace := Trace(stateRules, startState, word, 1),
            result := Some(Verdict(stateRules, finalStates, startState, word)))
    }

    /** The three parts that describe the automaton, as opposed to the last check's output. */
    predicate SameAutomaton(other: Snapshot) {
      stateRules == other.stateRules && startState == other.startState && finalStates == other.finalStates
    }
  }

  /** Checking a word does not depend on the previous trace or result, so checking twice gives the same output. */
  lemma CheckWordRepeatable(s: Snapshot, t: Snapshot, word: string)
    requires s.SameAutomaton(t)
    ensures s.CheckWord(word) == t.CheckWord(word)
    ensures s.CheckWord(word).CheckWord(word) == s.CheckWord(word)
    ensures s.CheckWord(word).SameAutomaton(s)
  {
  }

  /** After any check the result is one of the two verdicts. */
  lemma CheckWordSetsVerdict(s: Snapshot, word: string)
    ensures s.CheckWord(word).result == Some(ResultAllowable) || s.CheckWord(word).result == Some(ResultUnallowable)
  {
  }

  /** AddFinalState has set semantics. */
  lemma AddFinalStateIdempotent(s: Snapshot, state: State)
    ensures state in s.AddFinalState(state).finalStates
    ensures s.AddFinalState(state).AddFinalState(state) == s.AddFinalState(state)
  {
  }

  /** Clearing one part leaves the other parts alone. */
  lemma ClearingIsLocal(s: Snapshot)
    ensures s.ClearRules().stateRules == map[]
    ensures s.ClearRules() == s.(stateRules := map[])
    ensures s.ClearFinalStates().finalStates == {}
    ensures s.ClearFinalStates() == s.(finalStates := {})
  {
  }

  /** The sample automaton: (q0, a) -> q1, (q1, b) -> q0, final {q0}. */
  function SampleRules(): Rules {
    AddRuleTo(AddRuleTo(map[], "q0", 'a', "q1"), "q1", 'b', "q0")
  }

  lemma SampleLookups()
    ensures Lookup(SampleRules(), "q0", 'a') == Some("q1")
    ensures Lookup(SampleRules(), "q1", 'b') == Some("q0")
    ensures Lookup(SampleRules(), "q1", 'c') == None
  {
  }

  lemma SampleRecords()
    ensures Record(1, "q0", 'a', "q1") == "1) (q0, a) -> q1" + NewLine
    ensures Record(2, "q1", 'b', "q0") == "2) (q1, b) -> q0" + NewLine
  {
    assert Decimal.NatToString(1) == "1";
    assert Decimal.NatToString(2) == "2";
  }

  /** The word "ab" is allowable, "a" ends outside the final states, "ac" meets a missing rule. */
  lemma SampleRuns()
    ensures Trace(SampleRules(), "q0", "ab", 1) == "1) (q0, a) -> q1" + NewLine + "2) (q1, b) -> q0" + NewLine
    ensures Verdict(SampleRules(), {"q0"}, "q0", "ab") == ResultAllowable
    ensures Verdict(SampleRules(), {"q0"}, "q0", "a") == ResultUnallowable
    ensures Trace(SampleRules(), "q0", "ac", 1) == "1) (q0, a) -> q1" + NewLine + ErrorRuleNotExist
    ensures Verdict(SampleRules(), {"q0"}, "q0", "ac") == ResultUnallowable
  {
    var r := SampleRules();
    SampleLookups();
    SampleRecords();
    ResultsDiffer();
    CompletedRun(r, {"q0"}, "q0", "ab", ["q0", "q1", "q0"]);
    CompletedRun(r, {"q0"}, "q0", "a", ["q0", "q1"]);
    StuckRun(r, {"q0"}, "q0", "ac", ["q0", "q1"], 2);
    assert "ac"[..1] == "a";
    assert "ab"[1..] == "b";
  }
}
