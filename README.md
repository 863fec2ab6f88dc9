# Deterministic finite automaton editor: the automaton and its change-notifying model

This project models the core of a small DFA editor and simulator. It has two parts.

- `StateMachine` holds a two-level transition table (state → symbol → next state), a start state and a set of final states. It also keeps the output of the last word check: a result text and an execution trace. Its operations add or overwrite a rule, clear the rules, add a final state, clear the final states, set the start state and check a word.
- `Model` wraps the current `StateMachine`. It forwards each operation to the machine and then raises its change event once, passing the machine along. Its `StateMachine` property setter swaps the whole machine.

Files and modules:

- `decimal.dfy`, module `Decimal`: the decimal numeral used for step numbers (`int.ToString()` of a positive counter), with its reading function and the round trip between them.
- `dfa.dfy`, module `Dfa`: the automaton as values. It defines:
  - `Lookup` and `AddRuleTo` on the table, and `ApplyRules` for a sequence of `AddRule` calls;
  - `Run`, the extended transition function;
  - `IsPath`, an independent path-based description of a run;
  - `Trace`, the text `CheckWord` writes, and `Records`, the same text for a known path;
  - `Verdict`, the result text;
  - `Snapshot`, the value of a whole machine, with one function per operation.
  The lemmas here are the laws below.
- `state_machine.dfy`, module `StateMachines`: class `StateMachine`. Its fields are the source's. Each method is specified by the `Snapshot` function for that operation. `CheckWord` keeps the source's loop, with invariants that tie the trace built so far to `Trace` of the prefix already read.
- `model.dfy`, module `Models`: class `Model`. It holds a `StateMachine` reference and the event's invocation list. A ghost log records every invocation of the event: the machine passed, its state at that moment, and the listeners called. Every forwarding method is specified by the same `Snapshot` functions, plus "the log grows by exactly one `Announcement()` taken after the delegation".

Constants are the source's own. The three messages stay in their original Russian text. `Environment.NewLine` is fixed to `"\r\n"`. `Result` is an `Option<string>`, and `None` stands for the `null` it holds before the first check.

A trace record is `i) (state, symbol) -> next` followed by a line break (StateMachine/SMProject/StateMachine.cs:54-55); the error marker has no line break (StateMachine/SMProject/StateMachine.cs:60).

## Model

| member | source | states |
|---|---|---|
| `Decimal.NatToString` | StateMachine/SMProject/StateMachine.cs:54 | the step number is printed as a non-empty string of decimal digits with no leading zero |
| `Decimal.ValueOfNatToString` | StateMachine/SMProject/StateMachine.cs:54 | reading the printed step number back gives the number |
| `Decimal.NatToStringInjective` | StateMachine/SMProject/StateMachine.cs:54 | different step numbers print differently |
| `Dfa.ResultsDiffer` | StateMachine/SMProject/StateMachine.cs:15-16 | the allowable and unallowable messages are different texts |
| `Dfa.Lookup` | StateMachine/SMProject/StateMachine.cs:52 | the rule for (state, symbol) exists exactly when the state is a key of the table and the symbol a key of its inner table, and then it is the stored target |
| `Dfa.Run` | StateMachine/SMProject/StateMachine.cs:50-57 | the state the loop holds after reading the whole word, one rule per symbol from the start state, or none at the first symbol without a rule |
| `Dfa.Record` | StateMachine/SMProject/StateMachine.cs:54-55 | the text one applied rule appends: the step number, `) (`, the state, `, `, the symbol, `) -> `, the target and a line break |
| `Dfa.Trace` | StateMachine/SMProject/StateMachine.cs:50-63 | the whole trace of a check: one record per applied rule, numbered from the given step, then the error marker at the first missing rule and nothing for the rest of the word |
| `Dfa.Verdict` | StateMachine/SMProject/StateMachine.cs:61 | the result of a check: unallowable when a rule is missing, otherwise allowable exactly when the reached state is final (line 65) |
| `Dfa.AddRuleTo` | StateMachine/SMProject/StateMachine.cs:73-79 | after adding (s, c) -> n, the lookup of (s, c) is n and every other (state, symbol) lookup is unchanged; s becomes a key, with a new inner table if it was absent |
| `Dfa.RulesExtensional` | StateMachine/SMProject/StateMachine.cs:34-35 | two tables with the same states and the same lookups are equal |
| `Dfa.AddRuleOverwrites` | StateMachine/SMProject/StateMachine.cs:78 | adding a rule for a pair that already has one overwrites it: two adds leave the table the second add alone would |
| `Dfa.AddRuleCommutes` | StateMachine/SMProject/StateMachine.cs:73-79 | rules for different pairs do not interfere: their order of addition does not matter |
| `Dfa.LastRuleWins` | StateMachine/SMProject/StateMachine.cs:73-79 | after any sequence of AddRule calls, a pair named by some call maps to the target of the last call naming it |
| `Dfa.UntouchedRuleKept` | StateMachine/SMProject/StateMachine.cs:73-79 | after any sequence of AddRule calls, a pair no call names keeps its earlier rule or lack of one |
| `Dfa.RunAppend` | StateMachine/SMProject/StateMachine.cs:50-57 | running u then v is running u and continuing from the reached state; a run stuck in u stays stuck |
| `Dfa.RunFollowsPath` | StateMachine/SMProject/StateMachine.cs:50-57 | when every symbol has a rule along a path of states, the run ends in that path's last state |
| `Dfa.PathOfRun` | StateMachine/SMProject/StateMachine.cs:50-57 | a run that reads the whole word has a path of visited states ending where the run ends |
| `Dfa.RunIffPath` | StateMachine/SMProject/StateMachine.cs:50-57 | the run reaches q if and only if some path of rules for the word ends in q |
| `Dfa.PathUnique` | StateMachine/SMProject/StateMachine.cs:52-56 | the automaton is deterministic: a word has at most one path from a given start state |
| `Dfa.TraceAppend` | StateMachine/SMProject/StateMachine.cs:50-57 | the trace of u then v is the trace of u followed by the trace of v from the reached state, numbered on from \|u\|+1 |
| `Dfa.StepForward` | StateMachine/SMProject/StateMachine.cs:52-56 | a symbol with a rule from the current state moves the run to the rule's target and appends exactly one numbered record to the trace |
| `Dfa.StepStuck` | StateMachine/SMProject/StateMachine.cs:58-62 | a symbol with no rule from the current state makes the whole trace the trace so far plus the error marker, and the word unallowable |
| `Dfa.StuckIgnoresRest` | StateMachine/SMProject/StateMachine.cs:58-63 | after a prefix that met a missing rule, the rest of the word changes neither the trace nor the unallowable result |
| `Dfa.TraceAlongPath` | StateMachine/SMProject/StateMachine.cs:50-56 | along a path the trace is exactly the numbered records of the path's steps |
| `Dfa.CompletedRun` | StateMachine/SMProject/StateMachine.cs:50-56 | when every symbol has a rule, the trace is the records "i) (state, symbol) -> next" + NewLine for i = 1..\|word\|, and the result is allowable iff the last state is final, unallowable otherwise |
| `Dfa.StuckRun` | StateMachine/SMProject/StateMachine.cs:52-63 | when the first missing rule is at position k, the trace is the k-1 records then the error marker, it equals the trace of the first k symbols alone, and the result is unallowable |
| `Dfa.EmptyWord` | StateMachine/SMProject/StateMachine.cs:46-50 | for the empty word the trace is empty and the result is allowable iff the start state is final |
| `Dfa.AllowableIffFinalPath` | StateMachine/SMProject/StateMachine.cs:65 | a word is allowable if and only if some path of rules for it ends in a final state |
| `Dfa.CheckWordRepeatable` | StateMachine/SMProject/StateMachine.cs:44-48 | checking a word resets the trace and result: the output depends only on the table, start and final states, so checking twice gives identical output and the automaton is untouched |
| `Dfa.CheckWordSetsVerdict` | StateMachine/SMProject/StateMachine.cs:61 | after a check the result is either the allowable or the unallowable message |
| `Dfa.AddFinalStateIdempotent` | StateMachine/SMProject/StateMachine.cs:90 | the added state is final afterwards, and adding it twice is the same as adding it once |
| `Dfa.ClearingIsLocal` | StateMachine/SMProject/StateMachine.cs:84 | clearing the rules empties the table and changes nothing else; clearing the final states empties that set and changes nothing else |
| `Dfa.SampleLookups` | StateMachine/SMProject/StateMachine.cs:73-79 | the two rules (q0, a) -> q1 and (q1, b) -> q0 give those lookups and no rule for (q1, c) |
| `Dfa.SampleRecords` | StateMachine/SMProject/StateMachine.cs:54-55 | the exact text of the two sample trace records |
| `Dfa.SampleRuns` | StateMachine/SMProject/StateMachine.cs:44-66 | on the sample automaton "ab" is allowable with two records, "a" is unallowable, "ac" gives one record then the error marker and is unallowable |
| `StateMachines.StateMachine.constructor` | StateMachine/SMProject/StateMachine.cs:18-37 | a new machine has no rules, no final states, an empty start state and trace, and no result yet |
| `StateMachines.StateMachine.CheckWord` | StateMachine/SMProject/StateMachine.cs:44-66 | the trace is `Trace` of the word from the start state, the result is `Verdict`, and nothing but those two fields changes |
| `StateMachines.StateMachine.AddRule` | StateMachine/SMProject/StateMachine.cs:73-79 | the table becomes `AddRuleTo` of the old table, nothing else changes |
| `StateMachines.StateMachine.ClearRules` | StateMachine/SMProject/StateMachine.cs:84 | the table becomes empty, nothing else changes |
| `StateMachines.StateMachine.AddFinalState` | StateMachine/SMProject/StateMachine.cs:90 | the final states become the old set plus the state, nothing else changes |
| `StateMachines.StateMachine.ClearFinalStates` | StateMachine/SMProject/StateMachine.cs:95 | the final states become empty, nothing else changes |
| `StateMachines.StateMachine.SetStartState` | StateMachine/SMProject/StateMachine.cs:24-28 | the start state becomes the given label, whatever it is, and nothing else changes |
| `StateMachines.CheckWordTwice` | StateMachine/SMProject/StateMachine.cs:44-66 | two checks of one word in a row leave the same output as one |
| `Models.RemoveLast` | StateMachine/SMProject/Model.cs:27-31 | unsubscribing removes exactly the last occurrence of the listener from the invocation list, or nothing if it is absent |
| `Models.SubscribeUnsubscribe` | StateMachine/SMProject/Model.cs:27-31 | subscribing and then unsubscribing a listener restores the invocation list |
| `Models.Model.constructor` | StateMachine/SMProject/Model.cs:33-36 | a new model holds a fresh, empty machine, has no listeners and has announced nothing |
| `Models.Model.SetStateMachine` | StateMachine/SMProject/Model.cs:15-23 | the machine is replaced wholesale by the given one, and one notification carrying the new machine is logged if anyone listens |
| `Models.Model.Subscribe` | StateMachine/SMProject/Model.cs:29 | the listener is appended to the invocation list |
| `Models.Model.Unsubscribe` | StateMachine/SMProject/Model.cs:30 | the invocation list loses the last occurrence of the listener |
| `Models.Model.Notify` | StateMachine/SMProject/Model.cs:41 | `?.Invoke` logs one notification with the current machine and its state when there are listeners, and none otherwise |
| `Models.Model.AddRule` | StateMachine/SMProject/Model.cs:38-42 | the machine changes exactly as `StateMachine.AddRule` changes it, then one notification with the updated machine follows |
| `Models.Model.ClearRules` | StateMachine/SMProject/Model.cs:44-48 | the machine changes exactly as `StateMachine.ClearRules` changes it, then one notification follows |
| `Models.Model.AddFinalState` | StateMachine/SMProject/Model.cs:50-54 | the machine changes exactly as `StateMachine.AddFinalState` changes it, then one notification follows |
| `Models.Model.ClearFinalStates` | StateMachine/SMProject/Model.cs:56-60 | the machine changes exactly as `StateMachine.ClearFinalStates` changes it, then one notification follows |
| `Models.Model.ChangeStartState` | StateMachine/SMProject/Model.cs:62-66 | the start state is set to the label unconditionally, nothing else in the machine changes, then one notification follows |
| `Models.Model.CheckWord` | StateMachine/SMProject/Model.cs:68-72 | the machine's trace and result change exactly as `StateMachine.CheckWord` sets them, then one notification carrying them follows |
| `Models.SampleSession` | StateMachine/SMProject/Model.cs:38-72 | the sample automaton built through a model gives the three sample outcomes |

## Left out

- The WinForms view (`Form1.cs`) is not modelled: grid rows, text boxes, message boxes, and the single-character input check made before a rule reaches the model.
- Loading and saving through the JSON serializer and file streams is not modelled, because it is file I/O and reflection-based serialization. `Program.cs` only starts the application.
- What a listener does when it is called is not modelled. The log records only that the listeners were called, in which list order, and with which machine and state.
- The "exactly one notification per operation" law assumes listeners never call back into the model. The source's own listener can: it writes the start-state text box (StateMachine/SMProject/Form1.cs:30), whose TextChanged handler calls `ChangeStartState` (StateMachine/SMProject/Form1.cs:140-141). So choosing a start state whose text has surrounding spaces, which the button handler trims (StateMachine/SMProject/Form1.cs:111-112), produces a second, nested notification.
- .NET delegate details beyond the invocation list are not modelled: combining multicast delegates, and delegate equality (listeners are plain numbers).
- `Environment.NewLine` is fixed to `"\r\n"`. On another platform it would be `"\n"`.
- Dictionary and hash-set iteration order is not modelled. Tables and sets are unordered values, and nothing in the core depends on their order.
- `StateMachines.StateMachine.CheckWord`: the step counter is an unbounded number. The source's 32-bit `int` would overflow only on words longer than 2^31-1 symbols.
- `StateMachines.StateMachine.CheckWord`: the value `""` that `Result` holds while the loop runs is set, but no contract mentions it. Nothing can observe it, because no event fires inside the loop.
- A symbol is a Dafny `char`, a Unicode scalar value. C# iterates a string by UTF-16 code units, so a character outside the Basic Multilingual Plane would count as two symbols there.
- Null is not modelled. Dafny's `string` and `StateMachine` are non-null, while in the source a null string or a null machine can arrive. The one source of null is the load path (StateMachine/SMProject/Form1.cs:170): `ReadObject` may return null, and deserialization skips field initializers, so `ExecutionTrace` or `StartState` can be null there.
- The `StateRules` and `FinalStates` collections are public references in the source, so outside code could change them without going through the operations. The model has no such aliasing. Its tables and sets are values that only the operations replace.
