# Cloe: a verified model of the simulation engine's core

Cloe is a closed-loop simulation engine. This project models eight of its cores in Dafny and proves
properties of them for all inputs, all runs and all interleavings.

- `Environment.dfy`: template interpolation with `${KEY}`, `${KEY-ALT}` and `$$`. The index-driven
  scanner (`InterpolateLoop`, mutually recursive with `EvaluateCall`) is proved against a meaning in
  two phases (cut into pieces, evaluate the pieces), and that against the compositional meaning of
  templates. `Lookup.dfy`: which of the two environments gives a variable its value, and which
  exception a malformed string raises. `Necessity.dfy`: the conditions under which templates evaluate
  compositionally cannot be dropped.
- `Dependencies.dfy`, `Connect.dfy`: the worklists that configure the components of a vehicle and the
  vehicles of a simulation, proved against the least fixpoint of a dependency relation.
  `Wiring.dfy`: which component feeds which, and exactly when the order of configuring shows in it.
- `Machine.dfy`, `MachineTheorems.dfy`, `Interrupts.dfy`, `Requests.dfy`, `Endings.dfy`,
  `MachineProgram.dfy`: the simulation machine with its sixteen states and its mailbox of one
  interrupt. `Machine` is a transition system in which another thread may push an interrupt between
  any two steps and in which foreign code may throw anything. `MachineTheorems` proves what every
  reachable state keeps: control flow, outcome, time, triggers; `Interrupts` follows the mailbox and
  the pause flag, `Requests` the steps, the stored triggers and the history, `Endings` the exceptions.
  `MachineProgram` is the program in its own form, with classes, and refines the transition system.
- `Schedule.dfy`, `Triggers.dfy`: timed triggers. `Schedule` is the bookkeeping over a run that the
  machine uses, `Triggers` the priority queue with actions that insert triggers while it is drained,
  and the input queue in front of it; the queue refines the bookkeeping.
- `ConfErase.dfy`: erasing along a JSON pointer, with its cascade, against a description of the one
  subtree that is deleted.
- `Controllers.dfy`: stepping the controllers, with retries, deferred erasing and early exit.
- `Routes.dfy`: normal forms of routes, the muxer, and the registrar that answers from a buffer.
- `Rdb.dfy`: decoding RDB messages and the protocol of frames and restarts.

Exceptions are values (`Result`, `Ending`, `failed`). What code that is not part of this model does
(plugins, models, actions, handlers, other threads) is a parameter that the theorems quantify over.

## Main results

- Templates evaluate compositionally (`TemplateTheorem`), and a variable with any key and any
  alternative does so only if it is well-formed (`TemplateTheoremIff`); a variable comes out as the
  preferred environment says, then the other one, then the alternative (`VariableIs`,
  `AlternativeIs`); escaping round-trips (`EscapeRoundTrip`), and the scanner refines both phases of
  the meaning (`InterpolateLoop`).
- Resolution computes the least fixpoint in any order (`LeastFixpoint`, `Confluence`), is stuck exactly
  because of a dangling name or a cycle (`StuckIff`), and reports the truth (`ConfigureComponents`);
  every vehicle is the configured clone of the one it asks for (`ConnectVehicles`). Its order shows in the wiring exactly if someone asks for a hidden name without
  having to be there before it (`WiringIsUniqueIff`).
- For every interleaving and every exception: control flow (`NominalFlow`, `StepOrder`,
  `AfterAnException`, `StatesComeToTheirEnd`, `ProbeNeverSimulates`), pausing (`PausesWhileAsked`),
  the mailbox (`NoInterruptIsLost`), the reported outcome (`ResultIsOutcome`, `ResultIsLastDecision`),
  simulation time (`SimulationTime`), the temporary server (`TemporaryServer`) and timely triggers,
  from the request to the firing (`RequestsFireOnTime`); and the program refines that transition
  system, so they hold of it (`Run`).
- Draining the trigger queue refines the bookkeeping even with re-entrant inserts (`Trigger`,
  `FiresExactlyTheDue`, `FiresInOrder`, `DrainMayNotEnd`).
- Erasing deletes exactly one subtree, with its frame and its count (`EraseTheorem`).
- A round of controllers ends as the first one says that does not pass (`RoundEndsWith`,
  `FinishedRound`); routes are normalized by rules that leave exactly the normal forms alone
  (`NormalizeUp` to `NormalizeKeeps`, `NormalizeIsIdempotent`), and the response buffer is coherent
  (`RefreshThenServe`); encoded RDB messages decode to their entries (`WalkEncoded`), and a step does
  what the messages it received say, and receives no more than it needs (`StepMarked`, `StepEnds`).

## Where the code differs from what it says

- STOP is said to mark a run without another outcome as stopped
  (`engine/src/simulation_state_stop.cpp:30`). CONNECT has always set the outcome to "no start" before
  (`engine/src/simulation_state_connect.cpp:78`), so no run ever reports "stopped"
  (`NeverStopped`), and one that is stopped from outside reports that it has not started
  (`StoppedRunReportsNoStart`).
- RESET goes back to CONNECT, but CONNECT registers all events again, which throws. So a reset after a
  CONNECT that went through never leads to a second start (`StartsOnce`), and the theorems on time and
  triggers hold for all runs, not just for those without a reset.
- RESUME is run after a PAUSE that found the flag clear, but a PAUSE that is asked for in between does
  not hold it: the simulation goes on with a step (`ResumesThoughPaused`; `PausesWhileAsked` says
  exactly when).
- The callbacks that STOP, SUCCESS, FAIL and RESET tell exist only once CONNECT has registered them.
  Using one before is undefined in the program; the model ends the run with a fatal exception.
- A `$$` inside braces ends the text before it like one outside (`DollarInsideBraces`), and a dash
  inside a nested key separates the outer alternative (`NestedDashFails`). Such variables do not come
  out as they read in every environment (`TemplateTheoremIff`).
- A configured component may have the name of one that the prototype brought, as in
  `optional/vtd/tests/config_vtd_infinite.json:90-93`. Which of the two an input of this name is can
  then depend on the order of configuring (`HidingShowsTheOrder`); `WiringIsUniqueIff` says exactly
  when. A component that only replaces the one it is made from is harmless (`SelfHidingIsSettled`).
- Erasing a member that does not exist is documented to do nothing. If the pointer leads into an empty
  object that is a member itself, that object is erased (`EraseMissingMember` says exactly when, and
  `ErasingNothingErasesParent` shows it).
- The vehicle loop compares the size of a map with the length of a list. With a repeated name it ends
  only if a vehicle fails or vehicles wait for each other, and otherwise goes on for ever
  (`VehicleRounds`). It ends well only if names are distinct, which the configuration is checked for
  (`stack/src/cloe/stack.cpp:697-715`).

## Model

| member | source | states |
|---|---|---|
| Environment.InterpolateLoop | fable/src/fable/environment.cpp:105-161 | The one-pass scanner with its indices, depth and output ends on every string and returns exactly what cutting the string into pieces and evaluating them from left to right gives, including which exception is thrown |
| Environment.EvaluateCall | fable/src/fable/environment.cpp:79-103 | Evaluating a variable refines its meaning, on which `VariableIs` and `AlternativeIs` say what comes out; every nested call gets a shorter string |
| Environment.LexDollarAt | fable/src/fable/environment.cpp:115-137 | What the scanner does at a dollar, to its indices, depth and output, is one step of cutting the rest of the string |
| Environment.LexCloseAt | fable/src/fable/environment.cpp:138-147 | So is what it does at the brace that closes a variable, with its wrapped substring count |
| Environment.LexElseAt | fable/src/fable/environment.cpp:138-151 | So is what it does at every other character |
| Environment.Lex | fable/src/fable/environment.cpp:113-160 | Every variable body that the scanner cuts out is shorter than what it is cut from |
| Environment.FirstDash | fable/src/fable/environment.cpp:81-82 | The split is at the first dash, or there is none |
| Environment.TemplateTheorem | fable/src/fable/environment.cpp:79-161 | Interpolating a printed template gives its compositional meaning: values are never scanned again, an alternative counts only if its key is undefined, and the same variable is reported as undefined |
| Environment.LexVariable | fable/src/fable/environment.cpp:125-147 | A printed variable is cut out as one piece with its body whole, however deep its nesting |
| Environment.EvaluateBody | fable/src/fable/environment.cpp:81-92 | The first dash of a printed variable body separates the key from the alternative |
| Environment.EscapeRoundTrip | fable/src/fable/environment.cpp:113-160 | Doubling every `$` of any string, unmatched braces included, and interpolating gives the string back |
| Environment.TolerantAgrees | fable/src/fable/environment.cpp:93-102 | Interpolation that succeeds when undefined variables are errors gives the identical result when they are tolerated |
| Environment.OpenBraceFails | fable/src/fable/environment.cpp:154-156 | A string that leaves a brace open always fails |
| Environment.NestedDashFails | fable/src/fable/environment.cpp:81-83 | A variable whose first dash lies inside inner braces fails whatever is defined |
| Environment.DollarInsideBraces | fable/src/fable/environment.cpp:120-124 | After `$$` inside braces, whatever variables surround it there, what stood before it is output as text, one character is lost, and the rest of the body is taken as the variable |
| Environment.DollarInsideCuts | fable/src/fable/environment.cpp:120-124 | The text is cut there whatever comes behind the `$$` |
| Environment.DollarInsideBracesShows | fable/src/fable/environment.cpp:120-124 | So such a variable is never replaced by a value alone: a result starts with the brace, whatever comes behind the `$$` |
| Environment.LexNested | fable/src/fable/environment.cpp:125-147 | Inside braces a template without loose `$` and `}` is passed over whole |
| Environment.JoinMeaning | fable/src/fable/environment.cpp:105-161 | The induction behind the theorem: text passed so far, then the meaning |
| Lookup.VariableIs | fable/src/fable/environment.cpp:42-103 | A variable without a dash, whatever variables its body holds: the preferred environment gives the value if it has the key, the other one is the fallback, and with neither the variable is empty or reported as undefined, nested or not |
| Lookup.PlainVariableIs | fable/src/fable/environment.cpp:42-70 | The same for a plain key; the process environment is asked for the key up to its first NUL, the inserted one for all of it |
| Lookup.AlternativeIs | fable/src/fable/environment.cpp:81-92 | With an alternative: the value if either environment has one, and otherwise, tolerant or not, what the alternative comes out as |
| Lookup.LoneDollarIs | fable/src/fable/environment.cpp:115-118 | A dollar at the end of a string is reported as unterminated |
| Lookup.StrayDollarIs | fable/src/fable/environment.cpp:133-135 | A dollar before anything but a dollar or a brace is reported as unescaped |
| Lookup.OpenVariableIs | fable/src/fable/environment.cpp:154-156 | Braces that stay open are reported as an unterminated variable |
| Necessity.TemplateTheoremIff | fable/src/fable/environment.cpp:79-161 | If all items of a template but the last are well-formed and the last is anything, interpolating it gives its meaning in every environment if and only if it is well-formed; so no condition on a variable with arbitrary key and alternative can be dropped |
| Necessity.TellVariable | fable/src/fable/environment.cpp:79-161 | For every ill-formed variable there is an environment in which it does not come out as it should |
| Necessity.Scan | fable/src/fable/environment.cpp:113-152 | After an opening brace comes an error, text that a `$$` cuts off, or a variable whose body keeps its braces |
| Necessity.BodyIsHeld | fable/src/fable/environment.cpp:138-147 | Where all keys have the same value, a variable comes out right only if its body keeps its braces: no loose `}`, no `$$`, no loose `$` |
| Necessity.QuietEvaluate | fable/src/fable/environment.cpp:79-103 | Where only keys with a special character have a value, a body that keeps its braces comes out without any |
| Necessity.QuietIsSound | fable/src/fable/environment.cpp:79-103 | There, a meaning without special characters shows that there are none in the template and in no key's meaning |
| Necessity.SoundFails | fable/src/fable/environment.cpp:81-83 | Then, if the template is not well-formed, a dash stands inside inner braces of a key, and interpolation fails |
| Dependencies.LeastFixpoint | engine/src/simulation_state_connect.cpp:329-375 | A resolution that cannot go on holds exactly the names that can be derived |
| Dependencies.Confluence | engine/src/simulation_state_connect.cpp:337-348 | The final set does not depend on the order in which names are tried |
| Dependencies.StuckIff | engine/src/simulation_state_connect.cpp:352-372 | Some name cannot be resolved if and only if a name exists nowhere or names ask for each other in a cycle |
| Dependencies.CycleNotInDerivation | engine/src/simulation_state_connect.cpp:268-272 | No name on a cycle is ever resolved |
| Dependencies.DerivationStaysInside | engine/src/simulation_state_connect.cpp:337-348 | What is resolved lies in every set that is closed under resolving |
| Dependencies.DerivationAt | engine/src/simulation_state_connect.cpp:337-348 | A derivation is a topological order: each name is configured once and after all it is made from |
| Connect.Vehicle.Clone | runtime/src/cloe/vehicle.cpp:38-42 | A clone has the prototype's components |
| Connect.Vehicle.SetComponent | engine/src/simulation_state_connect.cpp:345 | The component is put under its name and nothing else changes |
| Connect.NewComponent | engine/src/simulation_state_connect.cpp:258-286 | A component is made if and only if all its inputs are there, from exactly these, in order |
| Connect.ConfigureComponents | engine/src/simulation_state_connect.cpp:329-375 | The loop ends; the order is a derivation over the prototype's names; it succeeds exactly if every component was configured, otherwise it reports the first component that is not and its first missing input; new_component is called at most n(n+1)/2 times |
| Connect.ReportUnresolved | engine/src/simulation_state_connect.cpp:355-373 | The name that is reported is truly unavailable |
| Connect.TriangleIs | engine/src/simulation_state_connect.cpp:332-335 | The bound on the number of attempts in closed form |
| Wiring.BuildIsConsistent | engine/src/simulation_state_connect.cpp:266-275 | In every resolution, names that hide a component of the prototype included, a component is fed by the final component under an input's name if that name was configured before it, and otherwise by the prototype's |
| Wiring.NeededComesBefore | engine/src/simulation_state_connect.cpp:268-272 | What a name needs comes before it in every resolution |
| Wiring.SettledInput | engine/src/simulation_state_connect.cpp:268-275 | In a settled configuration an input is the configured component exactly if the prototype has none of its name |
| Wiring.SettledIsUnique | engine/src/simulation_state_connect.cpp:329-348 | In a settled configuration two complete resolutions build the same vehicle, down to which component feeds which |
| Wiring.OrderShows | engine/src/simulation_state_connect.cpp:268-275 | If a name asks for a hidden one and need not be there before it, two complete resolutions build different vehicles |
| Wiring.WiringIsUniqueIff | engine/src/simulation_state_connect.cpp:329-348 | For every resolvable configuration, hidden names included, whose prototype brings no component made for this very vehicle, all complete resolutions build the same vehicle if and only if whoever asks for a hidden name, other than the hiding component itself, has to be there before it anyway |
| Wiring.SelfHidingIsSettled | engine/src/simulation_state_connect.cpp:337-348 | So the order does not show if only the hiding components themselves ask for what they hide |
| Wiring.HidingShowsTheOrder | engine/src/simulation_state_connect.cpp:268-272 | A configuration in which a hidden name makes the order show |
| Connect.NewVehicle | engine/src/simulation_state_connect.cpp:291-385 | What comes out is the configured clone of the vehicle asked for: the simulator's of that name or at that index, or the vehicle of that name; or the simulator is unknown, or has none, or the vehicle is not there yet, or a component cannot be derived, the first in order |
| Connect.ConnectVehicles | engine/src/simulation_state_connect.cpp:387-435 | The loop ends with all vehicles, or with an error that is true of the vehicle it names; every vehicle that is there is the configured clone of the one it asks for; and it ends well, or with vehicles that wait for each other, only if every simulator is known and has what is asked of it |
| Connect.ReportVehicle | engine/src/simulation_state_connect.cpp:420-433 | When the vehicles are stuck, an exception is always thrown, and it names a vehicle and a dependency that can never be derived |
| Connect.AllConfiguredEndsLoopIff | engine/src/simulation_state_connect.cpp:388-389 | Once all vehicles are configured the loop's guard ends it if and only if no name occurs twice |
| Connect.AnyRound | engine/src/simulation_state_connect.cpp:395-413 | A round over the vehicles that brings none leaves only vehicles that wait for another one |
| Connect.VehicleRounds | engine/src/simulation_state_connect.cpp:387-435 | For any configuration the loop ends well only if no name occurs twice; when it has gone on for more rounds than there are names, all are configured and a name does occur twice |
| Machine.RunConcat | engine/src/simulation_machine.hpp:138-182 | A run of the machine can be cut anywhere |
| MachineTheorems.StepKeepsInvariant | engine/src/simulation_machine.hpp:138-182 | Each step of the machine and each push of another thread keeps all invariants |
| MachineTheorems.ReachableInvariant | engine/src/simulation_machine.hpp:138-182 | All invariants hold in every reachable state, for every interleaving of interrupts and every exception |
| MachineTheorems.StatesEnd | engine/src/simulation_machine.hpp:255-274 | Every state returns exactly the successor that the configuration, the pause flag it was entered with and the answer to its question give, or throws what was thrown in it, or something fatal |
| MachineTheorems.NominalFlow | engine/src/simulation_machine.hpp:144-181 | A nominal state runs only if the state run immediately before returned it or ran out of time, and then it is ABORT; everything else is an interrupt that leaves nominal flow |
| MachineTheorems.AfterAnException | engine/src/simulation_machine.hpp:163-180 | A state that threw is never resumed: what runs next, if anything, is RESET, STOP or ABORT as the exception says, as an interrupt; after a fatal one nothing runs |
| MachineTheorems.EscapesOnlyThen | engine/src/simulation_machine.hpp:163-180 | An exception leaves the main loop only if it is fatal, or if another interrupt is pending when its own is pushed |
| MachineTheorems.WatchdogActs | engine/src/simulation_machine.hpp:192-231 | A nominal state runs out of time only under a watchdog that acts; if anything runs after it, the watchdog aborts, and nominal flow goes on with ABORT |
| MachineTheorems.WatchdogKills | engine/src/simulation_machine.hpp:219-225 | The program is killed if and only if the watchdog is told to and the last state ran out of time |
| MachineTheorems.StepOrder | engine/src/utility/state_machine.hpp:151-162 | STEP_CONTROLLERS directly follows STEP_SIMULATORS directly follows STEP_BEGIN; STEP_END follows STEP_CONTROLLERS; PAUSE only follows START, STEP_END or PAUSE; RESUME only follows PAUSE |
| MachineTheorems.ProbeNeverSimulates | engine/src/simulation_state_connect.cpp:679-682 | A probe run never reaches START, PAUSE, RESUME or any STEP state |
| MachineTheorems.StartsOnce | engine/src/coordinator.cpp:183-187 | After a CONNECT that went through every other CONNECT throws, and START runs at most once |
| MachineTheorems.ReturnsWithEmptyMailbox | engine/src/simulation_machine.hpp:144 | The machine returns only when no interrupt is pending |
| MachineTheorems.ResultIsOutcome | engine/src/simulation_state_disconnect.cpp:41-52 | When the machine has returned, DISCONNECT was the last state run, and the result's outcome is the context's, which is the fold of the trace |
| MachineTheorems.ImplOutcome | engine/src/simulation_state_abort.cpp:27-48 | What each state writes to the outcome, ABORT depending on the state before it |
| MachineTheorems.LastDecisionWins | engine/src/simulation_state_stop.cpp:30-33 | The fold in closed form: the last state that decides whatever went before wins |
| MachineTheorems.UndecidedOutcome | engine/src/simulation_state_stop.cpp:30-33 | Without one, the outcome is "stopped" if STOP was run and none otherwise |
| MachineTheorems.NeverStopped | engine/src/simulation_state_stop.cpp:30-33 | No run that returns reports "stopped" |
| MachineTheorems.ResultIsLastDecision | engine/src/simulation_state_disconnect.cpp:41-52 | What a run that returns reports is exactly what its last deciding state decided |
| MachineTheorems.StoppedRunReportsNoStart | engine/src/simulation_state_connect.cpp:78 | A run that connects, starts and is stopped from outside reports that it has not started |
| MachineTheorems.ImplClock | engine/src/simulation_sync.hpp:74-77 | Each state keeps step, time, temporary server and trigger schedule in the phase of the simulation that the next state expects |
| MachineTheorems.SimulationTime | engine/src/simulation_state_step_end.cpp:60-70 | In every run the n-th STEP_SIMULATORS has step n and time n times the step width |
| MachineTheorems.TemporaryServer | engine/src/simulation_state_pause.cpp:32-44 | The temporary server is never started while it runs nor stopped while it does not; during the simulation it runs exactly after a PAUSE |
| MachineTheorems.TriggersFireOnTime | engine/src/simulation_state_step_begin.cpp:62-64 | A trigger asked for at a time to come, or with an offset to come, fires, if at all, in the STEP_BEGIN of the first step that reaches that time, never early and less than a step width late; and it has fired once a STEP_BEGIN of that step or a later one has come to its end |
| MachineTheorems.HistoryIsOrdered | engine/src/coordinator.cpp:202-209 | The trigger history is nondecreasing in time |
| Interrupts.PausesWhileAsked | engine/src/simulation_state_pause.cpp:63-67 | START, STEP_END and PAUSE go on with PAUSE if and only if the flag was set when they were entered, and the flag is the last PAUSE or RESUME taken out of the mailbox; RESUME follows a PAUSE entered with the flag clear, and is itself entered with it set exactly if of the PAUSE and RESUME interrupts taken out in between the last one is a PAUSE |
| Interrupts.UninterruptedPause | engine/src/simulation_state_pause.cpp:63-67 | In a run without interrupts a simulation that is paused at the start takes no step, and one that is not never pauses |
| Interrupts.ResumesThoughPaused | engine/src/simulation_machine.hpp:245-248 | A run in which RESUME is entered with the flag set and goes on with a step |
| Interrupts.NoInterruptIsLost | engine/src/utility/state_machine.hpp:187-206 | The interrupts taken out, and the one in the mailbox, are exactly the accepted ones, in order |
| Interrupts.AllInterruptsAreTaken | engine/src/simulation_machine.hpp:144 | When the machine returns, all accepted interrupts have been taken out |
| Requests.RequestsAreStored | engine/src/simulation_state_step_end.cpp:60-65 | The i-th request that waits for a state is stored under the next free place with the time of the state, and for STEP_END with that of the next step |
| Requests.RequestsFireOnTime | engine/src/coordinator.cpp:233-260 | From the request to the firing: asked for a time or an offset to come, a trigger fires in the first step that reaches it, within one step width, and has fired once that step has come to its end |
| Requests.EveryTriggerWasAskedFor | engine/src/coordinator.cpp:233-260 | Every stored trigger is the request of one state of the run |
| Requests.HistoryIsExecuted | engine/src/coordinator.cpp:202-209 | The history of a run is what was executed in its states, in order, each with the time of its state |
| Requests.StepsAreCounted | engine/src/simulation_sync.hpp:74-77 | Every state is entered with the number of steps that START and STEP_END have counted before, and with their time |
| Endings.StatesComeToTheirEnd | engine/src/simulation_state_stop.cpp:27-54 | A state ends with an exception if and only if something was thrown in it that it does not keep to itself, or it is a CONNECT after the events were registered, or a SUCCESS, FAIL, STOP or RESET before that |
| MachineProgram.ReachablePlay | engine/src/simulation_machine.hpp:138-182 | Whatever the program's loop does is a run of the transition system |
| MachineProgram.RoundIsRun | engine/src/simulation_machine.hpp:144-181 | A round of the loop is a run of the transition system over these events: pushes, looking into the mailbox, pushes, the state or the flag, and what the handler pushes |
| MachineProgram.RoundEnds | engine/src/simulation_machine.hpp:144-181 | A round comes back to the top of the loop, or leaves it |
| MachineProgram.PlaySnoc | engine/src/simulation_machine.hpp:144 | The loop takes another round exactly if it is at its top |
| MachineProgram.SimulationContext.constructor | engine/src/simulation_context.hpp:130-157 | The context a run begins with |
| MachineProgram.SimulationContext.IncrementStep | engine/src/simulation_sync.hpp:74-77 | Step and time advance together |
| MachineProgram.SimulationContext.ProcessTriggers | engine/src/coordinator.cpp:233-245 | Emptying the input queue stores its triggers in order |
| MachineProgram.SimulationContext.Start | engine/src/simulation_state_pause.cpp:40-43 | Starting the server, and whether it was running already |
| MachineProgram.SimulationContext.Stop | engine/src/simulation_state_resume.cpp:33-36 | Stopping the server, and whether it was running |
| MachineProgram.SimulationMachine.constructor | engine/src/simulation_machine.hpp:105-124 | The machine a run begins with |
| MachineProgram.SimulationMachine.Connect | engine/src/simulation_state_connect.cpp:74-683 | CONNECT refines its transition: outcome, registration of events, returned state |
| MachineProgram.SimulationMachine.Start | engine/src/simulation_state_start.cpp:56-82 | START refines its transition: first increment, PAUSE or STEP_BEGIN |
| MachineProgram.SimulationMachine.StepBegin | engine/src/simulation_state_step_begin.cpp:62-74 | STEP_BEGIN refines its transition: drain, then STEP_SIMULATORS or STOP |
| MachineProgram.SimulationMachine.StepEnd | engine/src/simulation_state_step_end.cpp:60-70 | STEP_END refines its transition: increment, take in triggers, PAUSE or STEP_BEGIN |
| MachineProgram.SimulationMachine.Pause | engine/src/simulation_state_pause.cpp:31-68 | PAUSE refines its transition: the temporary server starts on coming from another state, and PAUSE is repeated while the flag is set (`PausesWhileAsked`) |
| MachineProgram.SimulationMachine.Resume | engine/src/simulation_state_resume.cpp:28-39 | RESUME refines its transition: the temporary server stops |
| MachineProgram.SimulationMachine.Abort | engine/src/simulation_state_abort.cpp:27-48 | ABORT refines its transition: what it writes depends on the state run before |
| MachineProgram.SimulationMachine.Stop | engine/src/simulation_state_stop.cpp:27-54 | STOP refines its transition: it writes the outcome only while unset |
| MachineProgram.SimulationMachine.Disconnect | engine/src/simulation_state_disconnect.cpp:33-53 | DISCONNECT refines its transition: it captures the result and ends nominal flow |
| MachineProgram.SimulationMachine.PushInterrupt | engine/src/utility/state_machine.hpp:187-195 | An interrupt is accepted only into an empty mailbox; otherwise the pusher is told so and nothing changes |
| MachineProgram.SimulationMachine.PopInterrupt | engine/src/utility/state_machine.hpp:197-206 | The mailbox is emptied |
| MachineProgram.SimulationMachine.RunState | engine/src/utility/state_machine.hpp:151-162 | A state is run and noted as the previous one whether it returns or throws, under the watchdog or not |
| MachineProgram.SimulationMachine.HandleInterrupt | engine/src/simulation_machine.hpp:240-255 | PAUSE and RESUME set a flag and keep nominal flow; other interrupts run their state |
| MachineProgram.SimulationMachine.RunRound | engine/src/simulation_machine.hpp:144-181 | One round of the main loop, pushes of other threads included, is what the transition system does |
| MachineProgram.SimulationMachine.RunMachine | engine/src/simulation_machine.hpp:138-182 | The main loop, for as long as its environment is described, is a run of the transition system |
| MachineProgram.SimulationMachine.Run | engine/src/simulation_machine.hpp:132 | Of the machine as an object, from its construction: when it has returned, DISCONNECT was last, the result is the decided outcome and is not "stopped"; the states came in order, the simulation was held in PAUSE exactly as asked, the n-th STEP_SIMULATORS had step n and its time, a probe simulated nothing, no interrupt was lost, and the server was never misused |
| MachineProgram.SimulationMachine.SetPause | engine/src/simulation_machine.hpp:245-248 | PAUSE and RESUME only set the flag |
| Schedule.FiringStep | engine/src/simulation_events.hpp:142-149 | The step in which a trigger fires is never step 0, whose queue is not drained |
| Schedule.DrainOnTime | engine/src/simulation_events.hpp:142-149 | Draining the queue of a step fires what is due in it and keeps every trigger on time |
| Schedule.StoreAllOnTime | engine/src/coordinator.cpp:233-260 | Storing triggers, at absolute times or relative to now, keeps every trigger on time |
| Schedule.StoreAllIs | engine/src/simulation_events.hpp:118-133 | All requests are stored behind the others, in order, each with its time, or its offset from now |
| Schedule.OnTimeMeans | engine/src/simulation_events.hpp:118-149 | A trigger asked for a time after it was stored, or with a positive offset from then: fired in step ceil(time/width), within one step width, and fired once that step is drained |
| Triggers.TimeCallback.Emplace | engine/src/simulation_events.hpp:118-133 | The queue gets one more trigger, under the next number, with the time asked for or the offset from now; and it holds what waits |
| Triggers.TimeCallback.Top | engine/src/simulation_events.hpp:144 | The top of the queue is a trigger of least time; equal times carry no order |
| Triggers.TimeCallback.FireNext | engine/src/simulation_events.hpp:144-148 | One round of a drain takes out a least due trigger and lets its action insert others, or finds that nothing is due |
| Triggers.TimeCallback.Trigger | engine/src/simulation_events.hpp:142-149 | Draining, with actions that insert triggers meanwhile and may throw, fires a sequence of least due triggers until nothing due waits or one throws, and leaves exactly the schedule drained of all that is due, or of what was fired; it ends whenever drains of that queue are bounded in length |
| Triggers.FiresOnce | engine/src/simulation_events.hpp:144-148 | No trigger fires twice in a drain |
| Triggers.DrainEnds | engine/src/simulation_events.hpp:142-149 | If actions insert only what is due later, a drain takes at most as many rounds as there are triggers |
| Triggers.FiresInOrder | engine/src/simulation_events.hpp:162-163 | Then triggers fire in nondecreasing order of time |
| Triggers.FiresExactlyTheDue | engine/src/simulation_events.hpp:142-149 | Then a drain that has come to its end has fired exactly the waiting triggers that were asked for a time, or an offset from their storing, at most now, each once |
| Triggers.FiresIffDue | engine/src/simulation_events.hpp:142-149 | Then a waiting trigger has fired if and only if it was asked for by now |
| Triggers.LeavesTheRest | engine/src/simulation_events.hpp:142-149 | Then it leaves exactly the other ones and the inserted ones |
| Triggers.DrainMayNotEnd | engine/src/coordinator.cpp:218-220 | An action that inserts a trigger due at once keeps the drain going for any number of rounds |
| Triggers.Coordinator.QueueTrigger | engine/src/coordinator.cpp:372-379 | A trigger is appended to the input queue, an absent one is ignored |
| Triggers.Coordinator.ProcessPendingWebTriggers | engine/src/coordinator.cpp:233-245 | The input queue is stored first come, first served, nothing is lost, and the count is right |
| ConfErase.IndexIsUnique | fable/src/fable/conf.cpp:66-72 | Different reference tokens never name the same array element |
| ConfErase.DecimalIsIndex | fable/src/fable/conf.cpp:66-72 | The decimal text of a number is an index token with this value |
| ConfErase.PointerNamesMember | fable/src/fable/conf.cpp:66-72 | In an object a reference token is a key |
| ConfErase.PointerNamesItem | fable/src/fable/conf.cpp:66-72 | In an array the decimal text of i names the item at i, if there is one |
| ConfErase.PointerNamesNothing | fable/src/fable/conf.cpp:66-72 | No other token names an item, and below any other value nothing resolves |
| ConfErase.AtReplace | fable/src/fable/conf.cpp:66-72 | Replacing what a pointer names changes exactly what is found at and below it |
| ConfErase.Conf.Erase | fable/src/fable/conf.cpp:77-91 | The recursive program on the document in place computes the erasure and its count |
| ConfErase.EraseDeletesVictim | fable/src/fable/conf.cpp:77-91 | Erasing changes nothing and returns 0, or deletes the one subtree reached by going up from members to objects that they leave empty; with the count |
| ConfErase.EraseTheorem | fable/src/fable/conf.cpp:77-91 | Exactly the pointers at and below the deleted place stop resolving, all pointers beside it resolve to what they did, the root stays, and the count is the number of prefixes that resolved before and no longer do |
| ConfErase.EraseLeavesNoEmptyObjects | fable/src/fable/conf.cpp:83-85 | In a document without empty objects, erasing leaves one behind if and only if the deleted place was the only member of an object below the root (an array's element, or empty objects are preserved) |
| ConfErase.CascadeLeavesNoEmptyObjects | fable/src/fable/conf.cpp:83-85 | With cascading, along a path through objects only, none is left behind |
| ConfErase.EraseMissingMember | fable/src/fable/conf.cpp:77-91 | Erasing what does not exist changes the document if and only if the pointer leads into an empty object that is a member itself and empty objects are not preserved |
| ConfErase.ErasingNothingErasesParent | fable/src/fable/conf.cpp:77-91 | Erasing `/a/b` from `{"a": {}}` erases `/a` |
| Controllers.EndsIff | engine/src/simulation_state_step_controllers.cpp:56-79 | The retry loop ends unless the limit is negative and the controller stays behind for ever |
| Controllers.CallsAreBounded | engine/src/simulation_state_step_controllers.cpp:56-79 | A controller is called at least once and at most once more than the retry limit; each call but the last returns a time before now, the last one only if the limit is used up, and that is a failure; otherwise it is the verdict |
| Controllers.Process | engine/src/simulation_state_step_controllers.cpp:53-79 | The retry loop calls the controller until it has caught up, throws, or has used up its retries |
| Controllers.StepContext.StepController | engine/src/simulation_state_step_controllers.cpp:46-117 | How each exception is handled: interrupts, aborting, continuing without the controller, fatal errors |
| Controllers.StepContext.StepSlot | engine/src/simulation_context.cpp:180-185 | One step of the round |
| Controllers.StepContext.ForEachController | engine/src/simulation_context.cpp:179-187 | The round over the controllers, with its early exit |
| Controllers.StepContext.StepControllers | engine/src/simulation_state_step_controllers.cpp:32-125 | The whole state: controllers, erasures, mailbox and ending |
| Controllers.VisitsAt | engine/src/simulation_state_step_controllers.cpp:46-117 | Exactly the controllers that the round comes to are handled, the others stay as they were |
| Controllers.VisitsFailed | engine/src/simulation_state_step_controllers.cpp:95-99 | Exactly those are to be erased that the round came to and that failed non-fatally |
| Controllers.FinishedRound | engine/src/simulation_state_step_controllers.cpp:119-124 | When a round ends without interrupt or fatal exception, the remaining controllers are exactly those that did not fail, and each one with a vehicle has reached the current time |
| Controllers.RoundEndsWith | engine/src/simulation_state_step_controllers.cpp:81-117 | The first controller that neither has caught up nor failed tolerably ends the round: with RESET, STOP or ABORT in an empty mailbox, with a fatal exception if another interrupt is pending, or with the exception that is not caught; without one the round finishes |
| Controllers.RoundCalls | engine/src/simulation_context.cpp:179-187 | Every controller with a vehicle up to that one has been called, and no other one |
| Controllers.WithoutInOrder | engine/src/simulation_state_step_controllers.cpp:119-124 | Erasing leaves the others in order |
| Controllers.DivertedRound | engine/src/simulation_state_step_controllers.cpp:81-94 | Once a controller diverts the simulation no later one is called or erased, and the interrupt is the one it asked for |
| Routes.NormalizeIs | oak/include/oak/route_muxer.hpp:75-87 | A normal form consists of names none of which is empty, `.` or `..`, ending in no trimmed character |
| Routes.NormalizeIsIdempotent | oak/include/oak/route_muxer.hpp:75-87 | Normalizing twice is normalizing once, for every route |
| Routes.SameNormalForm | oak/include/oak/route_muxer.hpp:75-87 | Two absolute routes have the same normal form if and only if they lead to the same names |
| Routes.NormalizeUp | oak/include/oak/route_muxer.hpp:75-87 | A name and a `..` behind it cancel, wherever they stand in a route |
| Routes.NormalizeUpAtRoot | oak/include/oak/route_muxer.hpp:75-87 | A `..` at the root stays there |
| Routes.NormalizeStay | oak/include/oak/route_muxer.hpp:75-87 | A `.` and an empty piece, wherever they stand, change nothing |
| Routes.NormalizeCuts | oak/include/oak/route_muxer.hpp:75-87 | A trailing dot or white space behind the last name is cut off |
| Routes.NormalizeNoQuery | oak/include/oak/route_muxer.hpp:75-87 | Everything from a question mark on is cut off |
| Routes.NormalizeRelative | oak/include/oak/route_muxer.hpp:75-87 | A route that does not start with a slash has no normal form |
| Routes.NormalizeKeeps | oak/include/oak/route_muxer.hpp:75-87 | What these rules leave alone is its own normal form |
| Routes.NearestIsLongest | oak/include/oak/route_muxer.hpp:117-124 | Going up to the parent finds the longest registered prefix, or none |
| Routes.ResolvedIs | oak/include/oak/route_muxer.hpp:108-126 | Resolving depends only on the names a route leads to |
| Routes.Muxer.Resolve | oak/include/oak/route_muxer.hpp:108-126 | The loop over parent paths ends with the resolved route |
| Routes.Muxer.SetBacktrack | oak/include/oak/route_muxer.hpp:131-134 | Whether to backtrack |
| Routes.Muxer.SetDefault | oak/include/oak/route_muxer.hpp:139 | The default is kept under the empty key |
| Routes.Muxer.Has | oak/include/oak/route_muxer.hpp:153-157 | A route is there if its normal form is a key |
| Routes.Muxer.Add | oak/include/oak/route_muxer.hpp:159-166 | A route is added unless its normal form is a key already; then nothing changes |
| Routes.Muxer.Set | oak/include/oak/route_muxer.hpp:168-172 | The value of the normal form is set |
| Routes.Muxer.Get | oak/include/oak/route_muxer.hpp:180-185 | The value of the resolved route, or out of range |
| Routes.Muxer.SetUnsafe | oak/include/oak/route_muxer.hpp:187-190 | The value of the key as it is given is set |
| Routes.Muxer.GetUnsafe | oak/include/oak/route_muxer.hpp:192-196 | The value of the key as it is given, or out of range |
| Routes.BufferRegistrar.RegisterHandler | oak/src/oak/registrar.cpp:107-127 | The handler, wrapped by the middleware if there is one, is kept under the normal form of prefix and route and answers at once; a route that is there is refused and nothing changes |
| Routes.BufferRegistrar.RefreshRoute | oak/src/oak/registrar.cpp:138-144 | One key is refreshed; the lookup of its handler hits |
| Routes.BufferRegistrar.RefreshBuffer | oak/src/oak/registrar.cpp:129-136 | Afterwards every registered route answers for the state of the refresh |
| Routes.BufferRegistrar.Answer | oak/src/oak/registrar.cpp:121-126 | Every buffered lookup hits and gives what the handler said in the state in which the key was refreshed last |
| Routes.BufferRegistrar.RefreshThenServe | oak/src/oak/registrar.cpp:129-136 | Until the next refresh, whatever is registered meanwhile, a route answers exactly what its handler said at the last one |
| Rdb.RdbCodec.ProcessEntry | optional/vtd/src/rdb_codec.cpp:32-59 | Refines one entry of the walk; what that is, `EntryIs` says |
| Rdb.EntryIs | optional/vtd/src/rdb_codec.cpp:32-59 | A start marker opens a frame and is announced as its start, an end marker closes it and is announced as its end; elements are handed on one by one, a refused one throws before any, and anything else is unimplemented |
| Rdb.RdbCodec.ProcessElements | optional/vtd/src/rdb_codec.cpp:61-246 | The elements of an entry are handed on one by one as the data pointer advances |
| Rdb.RdbCodec.ProcessMessage | optional/vtd/src/rdb_codec.cpp:249-288 | The walk with its 32-bit counter over a message, its frame number, and the end of a restart |
| Rdb.RdbCodec.Step | optional/vtd/src/rdb_codec.cpp:290-302 | Batches are received and processed until the frame is complete |
| Rdb.ElementCallsAt | optional/vtd/src/rdb_codec.cpp:61-66 | Each element is handed on exactly once, in order, with the place where it lies |
| Rdb.ElementInside | optional/vtd/src/rdb_codec.cpp:244-246 | That place is inside its entry |
| Rdb.EncodedEntries | optional/vtd/src/rdb_codec.cpp:275-287 | An encoded sequence of entries is decoded to these entries, each at its place, to the last byte |
| Rdb.WalkIs | optional/vtd/src/rdb_codec.cpp:275-287 | Walking over a message makes the calls of its entries up to the first refused one, in order, and leaves a frame open exactly if the last marker among them was a start |
| Rdb.WalkEncoded | optional/vtd/src/rdb_codec.cpp:275-287 | Decoding an encoded sequence handles each entry once, in order, at its place, up to the first refused one |
| Rdb.WalkRefused | optional/vtd/src/rdb_codec.cpp:135-137 | Decoding throws if and only if there is an entry of a refused type with an element, after exactly the entries before the first such one |
| Rdb.StepMarked | optional/vtd/src/rdb_codec.cpp:249-302 | What a step has done is told by the messages it received: calls and open frame by the entries of those that are not empty and not discarded by a restart, the frame by the last one that is not empty, the time by the last one heeded |
| Rdb.AllIs | optional/vtd/src/rdb_codec.cpp:249-288 | The same for any messages one after the other |
| Rdb.StepEnds | optional/vtd/src/rdb_codec.cpp:290-302 | When a step has come to its end, the last marker received was no start, the frame of the last message is the requested one or a later one, and no restart is pending |
| Rdb.StepGoesOn | optional/vtd/src/rdb_codec.cpp:290-302 | A step takes in no batch that it does not need: before each one it received, a frame was open, or the requested one not reached, or a restart pending |
| Rdb.RestartDiscards | optional/vtd/src/rdb_codec.cpp:290-298 | After a restart request a step, however many batches it receives, handles nothing until a message of frame 0, and does not end before |
| Rdb.RestartPendsIff | optional/vtd/src/rdb_codec.cpp:290-298 | After a step a restart is pending if and only if it was before and no message of frame 0 with content was received in the step |
| Rdb.OvershootGoesOn | optional/vtd/src/rdb_codec.cpp:279-287 | An entry larger than what remains of the message makes the counter wrap around and grow, so the walk goes on past the message |

## Left out

- Logging, JSON rendering of results, statistics, timers, sleeps, progress and the padding of a step to wall-clock time have no effect on the state modelled here.
- Lua, the data broker, plugin loading, the HTTP server and the network transports are foreign code; what they can do to the machine is a free choice in each step.
- Integer widths: steps, times, counts and sizes are unbounded, except for the 32-bit counter in `Rdb` and the wrapped substring count in `Environment`.
- The environment variables of the process are a map that does not change during an interpolation.
- Vehicles among each other are values: components that a clone shares with its prototype are not modelled as shared objects, and neither is what connecting, enrolling or making a component does beyond its inputs.
- Connect.NewVehicle: exceptions thrown while a component is made, connected or enrolled are not modelled, because they come from foreign code; they leave CONNECT as the machine's free choice of an exception.
- Environment.TemplateTheorem: that its conditions are necessary is proved (`TemplateTheoremIff`) where the item that violates them is the last one of the template; for an ill-formed item that others follow it is not.
- MachineProgram.SimulationMachine.RunMachine: the loop is followed for as long as its environment is described, because KEEP_ALIVE and PAUSE need not end.
- What a watchdog thread sees while it waits: a state that runs out of time is modelled as run to its end before ABORT follows, since the future is waited for.
- Triggers of loop, start, stop and other non-timed events are modelled by how many are executed, not by which.
- Controllers.StepContext.StepControllers: with a negative limit, a controller that stays behind for ever makes the program loop; the method requires that this is not so, and `EndsIff` says when.
- Controllers are modelled by a table of what their n-th call does; what aborting and disconnecting one throws is not modelled.
- Routes.Muxer.Resolve: backtracking from a route that is not absolute, without a default, does not end in the program and is excluded.
- Routes.BufferRegistrar.RegisterHandler: handlers depend only on the state they report on, and the server's own table of routes is not part of this model.
- Rdb.RdbCodec.ProcessMessage: messages whose entries do not add up to their size are excluded. The program does not notice them: the assertion behind its loop can never fail, and the counter wraps around instead (`OvershootGoesOn`); what then lies in memory is not modelled.
- Rdb.RdbCodec.Step: the closing assertion that the frame is exactly the requested one is not modelled; the step is followed for as long as what is received is described.
- Prefix composition of registrars, the command line launcher, process execution, signal handling and the user interface.
