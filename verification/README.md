# Verified model of the native launcher's core logic

A Dafny model of the parts of the launcher where several functions have to agree, with their
properties proved for every input, every run or every interleaving:

- **Plugin installation.** `Resolver.dfy` is the dependency resolver, `Transactional.dfy` the executor
  with its reverse rollback, and the proof that the two compose: a resolved plan keeps every
  intermediate set of installed packages dependency-closed. `ResolverOrder.dfy` is about the order of a plan.
- **The agent.** `AgentContract.dfy` (proposals, edited plans, risk classes), `AgentPipeline.dfy`,
  `Approval.dfy`, `AgentSession.dfy`, `AgentLoop.dfy` (one run with its single re-walk) and
  `BoundedAgent.dfy` (the second loop, under four budgets), with `AgentLog.dfy` on what its log shows.
- **The calculators.** `CalculatorGrammar.dfy` has the language: trees, their text, their meaning, a
  shortest printer. `CalculatorValues.dfy` says when a tree has a value, which, and what the errors
  mean. `CalculatorPlugin.dfy` and `CalculatorPlus.dfy` are the two recursive-descent
  evaluators over a mutable cursor.
- **Kernels.** `CivilDate.dfy` with `Decimal.dfy` (Hinnant's civil-from-days against a calendar that
  counts), `Foundation.dfy` with `Word32.dfy` (SHA-256 against FIPS 180-4, on words whose bitwise
  operations are given bit by bit), `Base64.dfy` (section 4 of RFC 4648).
- **Concurrent search.** `SearchRouting.dfy` and `SearchCoordinator.dfy` are the bounded fan-out, its
  workers as interleaved atomic steps; `SearchSession.dfy` is query supersession in the user interface.
- **The search cache.** `SearchCache.dfy` is the cache with its budgets, `SearchCore.dfy` the search
  that uses it, proved equal to the search without it, and `QueryText.dfy` how its query is normalized.

`Wrappers.dfy` and `Domain.dfy` hold the types the modules share, `Text.dfy` what a string's white space and
length are, `Primes.dfy` a sieve for the constants of SHA-256. Code that changes state in place is
modelled by classes, methods and loops, each tied by its contract to a function of its inputs or its
old state; the theorems are about those functions. What lies outside, such as the installer behind its
trait, the step executor, the model, the host's approvals, the cancel flag, clocks and store failures,
is an arbitrary function of how often it was asked, or a parameter.

`dafny verify dfyconfig.toml` checks the project.

## Where the code and its description part

The model follows the code. Each of these is a proved lemma or a contract:

- Requested packages need not come last in a plan. They do, in every order of the requests, exactly when
  each package needed besides them is needed by all of them (`RequestedComeLastExactly`).
- A rollback leaves the system as if the installation had never started exactly when nothing it
  removed had been active before (`RollbackRestoresExactlyFreshPlans`, `RollbackLosesAPackage`).
- The check of an edited plan is not the proposal's check (`RulesDiffer`).
- After a failure the agent does not run the pipeline again: it walks the same plan once more. Every
  arm of the outer loop returns, so the model has no outer loop. With a budget of one turn a run that
  completes in its first pass leaves the session in Planning (`RunAgent`, `OneTurnStaysInPlanning`).
- The bounded agent's planner sees the failed pairs of the whole run, not of the last turn, and a run
  out of turns ends as Failed, not BudgetExhausted (`RunBoundedAgent`). Completed counts success records:
  it means that everything was executed for every host that reports at most one clean success an execution
  (`DoneMeansAllExecuted`), and for no other (`SurplusCompletes`). The host in the repository
  (`crates/launcher-core/src/agent_host.rs`, lines 37 to 82) returns exactly one record a proposal.
- The coordinator's result table is as long as the selection but indexed by registration position
  (`CrashesExactly`, `RoutedSubsetCrashes`), and its in-flight maximum is that of all searches so far
  (`PeakIsReported`).
- `last_query`, which becomes the parent query of a plugin scope, is older than the results on the screen
  exactly when the last search to take the lock was dropped under it (`RememberedQueryExactly`).
- The cache is described as least-recently-used; it evicts in insertion order, which is the same exactly
  when every hit is on the entry stored last (`LeastRecentExactly`, `JustReadIsEvicted`). Its key leaves out
  the limit (`SearchTwice`, `LimitsAgreeExactly`), and a rewound application generation brings back old
  answers (`SearchAfterRewind`, `SearchOnceReached`).
- Toggling a favorite when 256 exist reports success and adds nothing (`ToggleTellsTheTruth`).
- Both calculators drop white space before reading, so "1 2" is 12 (`SpacesJoinNumbers`).

## Model

| member | source | states |
|---|---|---|
| CalculatorGrammar.EvaluateIff | demo2/native-launcher/apps/calculator-plugin/src/main.rs:13-97 | evaluation yields v if and only if v is finite and the text, white space dropped, is the text of some precedence-respecting syntax tree that means v |
| CalculatorGrammar.EvaluatesTree | demo2/native-launcher/apps/calculator-plugin/src/main.rs:13-97 | for every tree, evaluating its text consumes all of it and yields the tree's meaning, or the error of its first failing operation, or the not-finite error |
| CalculatorGrammar.EvaluateInvertsPrint | demo2/native-launcher/apps/calculator-plugin/src/main.rs:26-97 | printing any operator structure with parentheses only where precedence and associativity need them, and evaluating, yields the structure's own meaning |
| CalculatorGrammar.PrintIsShortest | demo2/native-launcher/apps/calculator-plugin/src/main.rs:26-97 | no text with the same structure is shorter than the printed one |
| CalculatorGrammar.Unambiguous | demo2/native-launcher/apps/calculator-plugin/src/main.rs:26-97 | one text has one structure: left-associative + - * / %, right-associative ^, unary minus binding tighter than ^ |
| CalculatorGrammar.ParseExpr | demo2/native-launcher/apps/calculator-plugin/src/main.rs:26-39 | a successful parse strictly advances and stays within the buffer, which is why the mutual recursion ends |
| CalculatorGrammar.DialectsDifferOnlyOnZeroRemainder | demo2/native-launcher/apps/calculator-plus/src/main.rs:43-57 | a tree means v to calculator-plus exactly when it means v to calculator-plugin and no % in it has a zero right operand |
| CalculatorGrammar.PlusRefinesPlugin | demo2/native-launcher/apps/calculator-plus/src/main.rs:12-98 | for every input, calculator-plus yields v exactly when calculator-plugin does and a tree of the text takes no remainder by zero |
| CalculatorGrammar.SpacesJoinNumbers | demo2/native-launcher/apps/calculator-plugin/src/main.rs:14 | white space does not separate: two numbers with only a space between them are read as one |
| CalculatorGrammar.OnlyPluginAnswers | demo2/native-launcher/apps/calculator-plugin/src/main.rs:41-55 | where NaN ^ 0 is finite, "(1%0)^0" is answered by calculator-plugin and refused by calculator-plus |
| CalculatorPlugin.Expr | demo2/native-launcher/apps/calculator-plugin/src/main.rs:26-39 | the + and - loop leaves the cursor and the value where the left-associative reading of the buffer says, errors included |
| CalculatorPlugin.Term | demo2/native-launcher/apps/calculator-plugin/src/main.rs:41-55 | the * / % loop likewise; / by zero is an error, % by zero is not |
| CalculatorPlugin.Factor | demo2/native-launcher/apps/calculator-plugin/src/main.rs:57-65 | right-associative ^ |
| CalculatorPlugin.Unary | demo2/native-launcher/apps/calculator-plugin/src/main.rs:67-73 | nested unary minus |
| CalculatorPlugin.Atom | demo2/native-launcher/apps/calculator-plugin/src/main.rs:75-97 | a parenthesised expression or the longest run of digits and dots, with its three errors |
| CalculatorPlugin.EvaluateText | demo2/native-launcher/apps/calculator-plugin/src/main.rs:13-24 | the whole evaluator answers v exactly for the texts of trees whose numerals can be read, no / of which has a zero right operand, and whose operations give the finite v; an error names a fault the text really has |
| CalculatorPlugin.Operate | demo2/native-launcher/apps/calculator-plugin/src/main.rs:45-52 | one step of the * / % loop: the product, the quotient unless the right operand is zero, the remainder |
| CalculatorValues.MeaningExactly | demo2/native-launcher/apps/calculator-plugin/src/main.rs:26-97 | a tree means something if and only if its numerals can be read and no refusing operator has a zero right operand; then it means what the operations alone give |
| CalculatorValues.FaultIsThere | demo2/native-launcher/apps/calculator-plugin/src/main.rs:26-97 | the error of a tree names a fault in it: DivisionByZero only where some / has a zero right operand, and so on |
| CalculatorValues.EvaluateExactly | demo2/native-launcher/apps/calculator-plugin/src/main.rs:13-97 | in both dialects, an input evaluates to v if and only if it is the text of a readable, divisible tree worth the finite v |
| CalculatorValues.ErrorsAreTrue | demo2/native-launcher/apps/calculator-plugin/src/main.rs:13-97 | every refusal of an input is for a reason that is true of its text, position included |
| CalculatorValues.ThreeOperands | demo2/native-launcher/apps/calculator-plugin/src/main.rs:26-65 | how any two operators group three numerals: by rank, and among equals to the left, except for ^ |
| CalculatorValues.MinusTakesOne | demo2/native-launcher/apps/calculator-plugin/src/main.rs:67-73 | a minus in front takes the numeral alone, before any operator, even ^ |
| CalculatorPlus.ParseExprPlus | demo2/native-launcher/apps/calculator-plus/src/main.rs:28-41 | the second implementation's + and - loop reads as the grammar's reading function does |
| CalculatorPlus.ParseTermPlus | demo2/native-launcher/apps/calculator-plus/src/main.rs:43-57 | its * / % loop, refusing zero on the right of both / and % |
| CalculatorPlus.ParseFactorPlus | demo2/native-launcher/apps/calculator-plus/src/main.rs:59-66 | its ^ |
| CalculatorPlus.ParseUnaryPlus | demo2/native-launcher/apps/calculator-plus/src/main.rs:68-74 | its unary minus |
| CalculatorPlus.ParseAtomPlus | demo2/native-launcher/apps/calculator-plus/src/main.rs:76-98 | its atoms, every failure being the same error |
| CalculatorPlus.EvaluateText | demo2/native-launcher/apps/calculator-plus/src/main.rs:12-26 | answers v exactly for the texts of trees whose numerals can be read, no / or % of which has a zero right operand, and whose operations give the finite v |
| CivilDate.CivilInvertsDayCount | demo2/native-launcher/crates/launcher-core/src/lib.rs:792-802 | for every day since the epoch the closed form yields a valid Gregorian date whose day count, summed year by year and month by month, is that day |
| CivilDate.FieldsAreRight | demo2/native-launcher/crates/launcher-core/src/lib.rs:791-804 | for every ms > 0 the fields are a date and time of day in range that recompose to ms / 1000 |
| CivilDate.FieldsOrder | demo2/native-launcher/crates/launcher-core/src/lib.rs:786-806 | fields are ordered, and equal, exactly as the seconds are |
| CivilDate.RenderingSeparatesSeconds | demo2/native-launcher/crates/launcher-core/src/lib.rs:786-806 | two positive times render to the same text exactly when they fall in the same second, years beyond four digits included |
| CivilDate.TextIsInjective | demo2/native-launcher/crates/launcher-core/src/lib.rs:805 | the text determines all six fields |
| CivilDate.FormatExactly | demo2/native-launcher/crates/launcher-core/src/lib.rs:786-806 | a time not after the epoch has no text; any other has the date and time of day of its second, each field as digits in its columns, between dashes, a space and colons |
| Decimal.NumeralValue | demo2/native-launcher/crates/launcher-core/src/lib.rs:805 | a zero-padded numeral reads back as its number |
| Resolver.OkExactlyWhenSound | demo2/native-launcher/apps/launcher-plugin-cli/src/resolver.rs:52-101 | resolution succeeds if and only if no missing id is reachable from the requests and no reachable path closes a cycle; then the plan is the reachable part in order, otherwise the error is a true witness |
| Resolver.PlanIsTheReachablePart | demo2/native-launcher/apps/launcher-plugin-cli/src/resolver.rs:63-100 | the plan holds exactly the packages reachable from the requests, each once, as indexed, after everything it depends on |
| Resolver.EmitIsSound | demo2/native-launcher/apps/launcher-plugin-cli/src/resolver.rs:68-95 | what one recursive emission keeps: the plan stays ordered, reachable and only grows, packages on the visiting stack are not placed, errors are witnesses |
| Resolver.WitnessRefutes | demo2/native-launcher/apps/launcher-plugin-cli/src/resolver.rs:31-34 | an error that is a witness means a reachable missing id or a reachable cycle |
| Resolver.OrderedPlanHasNoCycle | demo2/native-launcher/apps/launcher-plugin-cli/src/resolver.rs:78-82 | no dependency path from the requests of an ordered plan closes a cycle |
| Resolver.Deeper | demo2/native-launcher/apps/launcher-plugin-cli/src/resolver.rs:87-91 | the recursion ends: known ids minus the visiting stack shrinks |
| Resolver.IndexOrderIsIrrelevant | demo2/native-launcher/apps/launcher-plugin-cli/src/resolver.rs:53-54 | permuting, or repeating entries of, an index whose entries agree on their ids changes nothing |
| Resolver.Lookup | demo2/native-launcher/apps/launcher-plugin-cli/src/resolver.rs:53-54 | the map holds exactly the index's ids, each with an entry of the index |
| Resolver.LastEntryWins | demo2/native-launcher/apps/launcher-plugin-cli/src/resolver.rs:53-54 | for a repeated id the last entry is the one that counts |
| Resolver.FirstUnknownIsFirst | demo2/native-launcher/apps/launcher-plugin-cli/src/resolver.rs:55-62 | the error about a request is about the first request that the index does not have |
| ResolverOrder.DependenciesKeepTheirOrder | demo2/native-launcher/apps/launcher-plugin-cli/src/resolver.rs:68-95 | the dependencies of a package are placed as declared; a later one comes before an earlier one only if it was placed before the package was reached or something declared up to there needs it |
| ResolverOrder.RequestsKeepTheirOrder | demo2/native-launcher/apps/launcher-plugin-cli/src/resolver.rs:97-100 | requests are placed as listed, but for those that requests listed before need |
| Resolver.LastStepIsRequested | demo2/native-launcher/apps/launcher-plugin-cli/src/resolver.rs:97-100 | the last step of a plan is a requested package |
| Resolver.RequestedComeLastExactly | demo2/native-launcher/apps/launcher-plugin-cli/src/resolver.rs:24-26 | the requested packages come last, in whatever order they are requested, exactly when each package needed without being requested is needed by every one of them |
| Resolver.SingleRequestComesLast | demo2/native-launcher/apps/launcher-plugin-cli/src/resolver.rs:24-26 | a single requested package always comes last |
| Resolver.SharedMeansLast | demo2/native-launcher/apps/launcher-plugin-cli/src/resolver.rs:97-100 | an ordered plan in which every unrequested package is needed by each request has no unrequested step after a requested one |
| Resolver.LastMeansNeededByFirst | demo2/native-launcher/apps/launcher-plugin-cli/src/resolver.rs:97-100 | if the requests come last, every unrequested package is needed by the request emitted first |
| Resolver.RequestedNeedNotComeLast | demo2/native-launcher/apps/launcher-plugin-cli/src/resolver.rs:24-26 | an instance on the other side of that condition: app and lib are requested, and mid, which only app needs, is placed after lib |
| Resolver.Emission.EmitPackage | demo2/native-launcher/apps/launcher-plugin-cli/src/resolver.rs:68-95 | the recursion over plan, placed set and visiting stack in place computes `Emit` and restores the stack on success |
| Resolver.ResolvePlan | demo2/native-launcher/apps/launcher-plugin-cli/src/resolver.rs:52-101 | the whole procedure computes `Resolve`, with the if-and-only-if and the plan or witness stated in terms of dependency paths alone |
| Transactional.ExecutePlan | demo2/native-launcher/apps/launcher-plugin-cli/src/transactional.rs:28-55 | it succeeds exactly when no call fails, and then exactly the plan is added; on the first failing call, which is the cause, the calls are the steps before it, the attempt, then removes in reverse order, the log has their answers, and what is left over is exactly what could not be removed; every intermediate active set is the start plus a prefix of the plan unless a remove failed |
| Transactional.GiveUp | demo2/native-launcher/apps/launcher-plugin-cli/src/transactional.rs:35-51 | the failing branch of the loop, with the failure it reports |
| Transactional.RollBack | demo2/native-launcher/apps/launcher-plugin-cli/src/transactional.rs:36-42 | the reverse loop: one log entry per activated package, newest first, and the active set minus what was removed |
| Transactional.RollbackStep | demo2/native-launcher/apps/launcher-plugin-cli/src/transactional.rs:37-42 | one remove keeps: start plus the packages not yet undone plus the ones logged as stuck |
| Transactional.StageThenActivate | demo2/native-launcher/apps/launcher-plugin-cli/src/transactional.rs:35-52 | staging changes nothing active, activation adds the package or nothing |
| Transactional.CallsInOrder | demo2/native-launcher/apps/launcher-plugin-cli/src/transactional.rs:33-42 | call by call: each package is staged, then activated, before the next, and the undo removes them backwards |
| Transactional.StagesAreClosed | demo2/native-launcher/apps/launcher-plugin-cli/src/resolver.rs:87-93 | every prefix of an ordered plan on top of a dependency-closed set is dependency-closed |
| Transactional.RollbackRestoresExactlyFreshPlans | demo2/native-launcher/apps/launcher-plugin-cli/src/transactional.rs:24-27 | a rollback without failing removes restores the start exactly when nothing it removed had been active before |
| Transactional.RollbackLosesAPackage | demo2/native-launcher/apps/launcher-plugin-cli/src/transactional.rs:24-27 | such a run: the first package was active before, the second fails, and the rollback removes the first |
| Transactional.InstallRequested | demo2/native-launcher/apps/launcher-plugin-cli/src/transactional.rs:28-55 | resolving and executing from a dependency-closed set disjoint from the plan keeps every intermediate set dependency-closed, both ways, unless a remove fails; the end is start plus plan, or start plus what the log names as stuck |
| AgentContract.ValidateProposal | demo2/native-launcher/crates/launcher-ai/src/agent_contract.rs:78-113 | the loop accepts exactly the valid proposals, and of any other names the first fault: of its own parts in order, then of its first bad step |
| AgentContract.StepFaultIff | demo2/native-launcher/crates/launcher-ai/src/plan.rs:84-104 | the seen-set walk finds no fault exactly when ids are pairwise distinct, new, and every step is well formed |
| AgentContract.DocumentFault | demo2/native-launcher/crates/launcher-ai/src/plan.rs:62-106 | a document has no fault exactly when it satisfies the declarative rules |
| AgentContract.FirstFaultIsNamed | demo2/native-launcher/crates/launcher-ai/src/plan.rs:62-106 | the fault of a document is the first of its own parts in order, then of its first bad step |
| AgentContract.ValidateDocument | demo2/native-launcher/crates/launcher-ai/src/plan.rs:62-106 | the validation loop returns the first fault, and none exactly for valid documents |
| AgentContract.RulesDiffer | demo2/native-launcher/crates/launcher-ai/src/plan.rs:59-62 | the document check does not apply the proposal's rules, as documented: exactly when each accepts what the other does |
| AgentContract.UnknownVocabularyNeedsApproval | demo2/native-launcher/crates/launcher-ai/src/risk_classifier.rs:9-35 | approval is waived exactly for references with one of six known prefixes |
| AgentContract.ClassesExactly | demo2/native-launcher/crates/launcher-ai/src/risk_classifier.rs:9-35 | which prefixes have which of the five classes; what has none of them is as sensitive as the privileged ones |
| AgentContract.ContainsExactly | demo2/native-launcher/crates/launcher-ai/src/risk_classifier.rs:14-20 | the word that makes opening a file or application a copy may stand anywhere in the reference |
| AgentPipeline.Flagged | demo2/native-launcher/crates/launcher-ai/src/pipeline.rs:79-84 | a step needs approval afterwards if and only if it asked for it or its class does, and nothing else of it changes |
| AgentPipeline.ValidateModelOutput | demo2/native-launcher/crates/launcher-ai/src/pipeline.rs:63-65 | unreadable or invalid model output is an error; valid output is returned unchanged |
| AgentPipeline.RunPipeline | demo2/native-launcher/crates/launcher-ai/src/pipeline.rs:37-87 | clarification precedes the model call; otherwise the valid proposal with the parser's intent and raised flags, and each error case |
| AgentPipeline.FlagsAreNotPartOfTheContract | demo2/native-launcher/crates/launcher-ai/src/pipeline.rs:85 | the second validation cannot fail |
| Approval.ApprovalGate.RequestApproval | demo2/native-launcher/crates/launcher-ai/src/approval.rs:97-120 | minting in place: new id, expiry, superseding any earlier request |
| Approval.ApprovalGate.DecideRequest | demo2/native-launcher/crates/launcher-ai/src/approval.rs:125-154 | deciding in place, with every error case; the request is spent whatever the decision |
| Approval.ApprovalGate.CancelRequest | demo2/native-launcher/crates/launcher-ai/src/approval.rs:158-163 | cancelling drops the pending request even when another id is named |
| Approval.ApprovalGate.PendingRequest | demo2/native-launcher/crates/launcher-ai/src/approval.rs:166-171 | the reported request is exactly the one a decision at that time would still reach |
| Approval.MintedIdsAreDistinct | demo2/native-launcher/crates/launcher-ai/src/approval.rs:97-120 | no two requests of any run of the gate carry the same id |
| Approval.RequestIdsDiffer | demo2/native-launcher/crates/launcher-ai/src/approval.rs:111 | ids with different counters differ whatever the session ids contain |
| Approval.LiveRequestOrigin | demo2/native-launcher/crates/launcher-ai/src/approval.rs:97-163 | an undecided pending request was minted earlier in the run, and nothing since replaced, cancelled or decided it |
| Approval.GrantsAreAuthorized | demo2/native-launcher/crates/launcher-ai/src/approval.rs:125-154 | in every run, a plan is handed out only for a request minted earlier, unexpired and undisturbed since: the requested steps for Approve, the edited ones of a valid document for ApproveEdited |
| Approval.RequestsCarryTheCall | demo2/native-launcher/crates/launcher-ai/src/approval.rs:97-120 | a request is minted exactly when some step requires approval, and it carries the steps, goal, session and times of its call |
| Approval.DecisionsAreHonoured | demo2/native-launcher/crates/launcher-ai/src/approval.rs:125-154 | deciding an undisturbed request in time is answered with the requested steps for Approve, with the edited ones if and only if their document is valid, with none for Reject; later, it is expired |
| Approval.AnsweredExactlyWhenLive | demo2/native-launcher/crates/launcher-ai/src/approval.rs:125-154 | a decision is answered with a plan, be it empty, exactly when an undisturbed request of its id is in time and an edited plan is valid |
| Approval.GrantsAreSingleUse | demo2/native-launcher/crates/launcher-ai/src/approval.rs:125-154 | in every run, one request id yields at most one plan |
| AgentSession.TerminalMeansStuck | demo2/native-launcher/crates/launcher-ai/src/agent_session.rs:14-48 | the terminal states are exactly those the whitelist never leaves |
| AgentSession.EnteredFrom | demo2/native-launcher/crates/launcher-ai/src/agent_session.rs:14-48 | from which states each state can be entered |
| AgentSession.NothingBeforeThePlan | demo2/native-launcher/crates/launcher-ai/src/agent_session.rs:14-48 | in every session, before Planning there is no execution, no question, no completion and no failure |
| AgentSession.TrailsEndOnce | demo2/native-launcher/crates/launcher-ai/src/agent_session.rs:14-48 | in every session a terminal state is the last one, and Completed directly follows Executing |
| AgentSession.Session.Transition | demo2/native-launcher/crates/launcher-ai/src/agent_session.rs:83-102 | a transition happens exactly when whitelisted and within the turn budget; every state history is a chain of whitelisted steps and turns never exceed the budget |
| AgentLoop.RunAgent | demo2/native-launcher/crates/launcher-ai/src/agent_loop.rs:84-295 | the whole run: nothing executes unless the budget allows, the flag is down and a plan was admitted, and then that plan is walked as `IsRun` says, the flag read before every step and the run cancelled exactly when it was up; from a fresh session the final state agrees with the outcome, except exactly in the one-turn, first-pass-completion case |
| AgentLoop.Open | demo2/native-launcher/crates/launcher-ai/src/agent_loop.rs:99-107 | the first transitions; the run stops here exactly when the turn budget is spent |
| AgentLoop.ExecuteSteps | demo2/native-launcher/crates/launcher-ai/src/agent_loop.rs:198-285 | the inner loop is a run of one or two passes over the plan, and the session state it leaves although transition errors are discarded |
| AgentLoop.WalkPlan | demo2/native-launcher/crates/launcher-ai/src/agent_loop.rs:203-248 | one pass: the flag is read before each step, settled steps are skipped, the others are called in order until a cancel, a failure or the end |
| AgentLoop.TryStep | demo2/native-launcher/crates/launcher-ai/src/agent_loop.rs:225-247 | one call, and how it is recorded |
| AgentLoop.Replan | demo2/native-launcher/crates/launcher-ai/src/agent_loop.rs:276-282 | from Executing or Planning the three discarded transitions end in Executing |
| AgentLoop.Close | demo2/native-launcher/crates/launcher-ai/src/agent_loop.rs:249-275 | the last discarded transition agrees with the outcome from Executing, and from Planning except for completion |
| AgentLoop.RunsAreSafe | demo2/native-launcher/crates/launcher-ai/src/agent_loop.rs:198-285 | for every executor and cancel behaviour: at most plan length + 1 calls, nothing after an unsettled effect, completion exactly when the whole plan succeeded |
| AgentLoop.AtMostOneExtraCall | demo2/native-launcher/crates/launcher-ai/src/agent_loop.rs:269-283 | a walk makes at most one call more than the plan has steps |
| AgentLoop.SuccessesAreAPrefix | demo2/native-launcher/crates/launcher-ai/src/agent_loop.rs:210-232 | the successful calls are steps 0, 1, 2, ... of the plan in order |
| AgentLoop.NothingIsRepeatedAfterSuccess | demo2/native-launcher/crates/launcher-ai/src/agent_loop.rs:210-222 | after a step succeeded only later steps are called |
| AgentLoop.SeekApproval | demo2/native-launcher/crates/launcher-ai/src/agent_loop.rs:150-191 | asking the host grants a plan exactly for an answer to the minted id, in time, that approves |
| AgentLoop.Admit | demo2/native-launcher/crates/launcher-ai/src/agent_loop.rs:109-191 | how a plan is admitted, and how the run ends when none is |
| AgentLoop.GoodRunsComplete | demo2/native-launcher/crates/launcher-ai/src/agent_loop.rs:198-254 | if no call fails and the flag is never up, the run completes in its first pass |
| AgentLoop.OneTurnStaysInPlanning | demo2/native-launcher/crates/launcher-ai/src/agent_loop.rs:192-254 | such a run with a budget of one turn and any admitted plan: Completed is returned and the session is in Planning |
| AgentLoop.NothingRiskyIsAdmittedUnapproved | demo2/native-launcher/crates/launcher-ai/src/agent_loop.rs:150-191 | an admitted plan has no step whose class needs approval, or the host answered the minted request in time with Approve for exactly the proposed steps or with a valid edited plan |
| AgentLoop.AdmittedExactly | demo2/native-launcher/crates/launcher-ai/src/agent_loop.rs:109-191 | a plan is admitted if and only if a valid proposal has it, all steps harmless, or the host answered the minted request in time with Approve for exactly the flagged steps or with this valid edited plan |
| AgentLoop.AdmittedPlansHaveUniqueIds | demo2/native-launcher/crates/launcher-ai/src/plan.rs:84-97 | proposed, approved and edited plans all have distinct step ids |
| BoundedAgent.RunBoundedAgent | demo2/native-launcher/crates/launcher-ai/src/agent.rs:270-389 | for every host and planner the log of calls is one the loop may make: proposals asked about and executed in order while the budgets allow, each replan told exactly the failed pairs so far; every reported count and the final status are exactly what the log shows, each within its limit, with turns at most replans + 1 |
| BoundedAgent.Round | demo2/native-launcher/crates/launcher-ai/src/agent.rs:284-375 | the body of the loop: it goes on exactly when the turn is over, not held, not done and a replan is left |
| BoundedAgent.RunTurn | demo2/native-launcher/crates/launcher-ai/src/agent.rs:285-362 | one turn runs until all is executed, something must be confirmed or the execution budget is spent, and how it ended |
| BoundedAgent.ExecuteProposals | demo2/native-launcher/crates/launcher-ai/src/agent.rs:314-339 | the inner loop takes the proposals in order, stops at the first that must be confirmed or is beyond the budget, and its tallies are the log's |
| BoundedAgent.ExecuteOne | demo2/native-launcher/crates/launcher-ai/src/agent.rs:317-339 | one proposal: asked about, then executed unless held or out of budget |
| BoundedAgent.ContinuesWith | demo2/native-launcher/crates/launcher-ai/src/agent.rs:316-339 | one more host call keeps the tallies and the planner's view exact |
| BoundedAgent.Tally | demo2/native-launcher/crates/launcher-ai/src/agent.rs:327-338 | successes and failed pairs of one host call |
| BoundedAgent.DoneMeansAllExecuted | demo2/native-launcher/crates/launcher-ai/src/agent.rs:358-363 | with a host whose clean executions report at most one success each, Completed means that every proposal of the turn was executed |
| BoundedAgent.DoneButUnfinished | demo2/native-launcher/crates/launcher-ai/src/agent.rs:358-363 | in any run, a turn that counts as done executed everything exactly when its successes do not outnumber its executions |
| BoundedAgent.AllExecutedMeansDone | demo2/native-launcher/crates/launcher-ai/src/agent.rs:358-363 | with exactly one record each, everything executed without a failure counts as done |
| BoundedAgent.SurplusCompletes | demo2/native-launcher/crates/launcher-ai/src/agent.rs:358-363 | the bound is needed: for any two or more clean records of one execution there is a run that is Completed with proposals never executed |
| AgentLog.ExecutesThePlannersFirst | demo2/native-launcher/crates/launcher-ai/src/agent.rs:285-301 | in every log the loop may make, whatever a turn has executed by any moment is the beginning of the planner's answer to that turn, and no more than max_proposals_per_turn |
| AgentLog.AsksAboutTheNext | demo2/native-launcher/crates/launcher-ai/src/agent.rs:317-325 | every question is about the first proposal of the answer not yet executed, and what is executed was just asked about and not held |
| AgentLog.FailuresByRecord | demo2/native-launcher/crates/launcher-ai/src/agent.rs:327-338 | an execution yields its own command and action once for every record that is not ok, and nothing else |
| AgentLog.PlannerIsToldTheFailures | demo2/native-launcher/crates/launcher-ai/src/agent.rs:285-299 | a later turn's planner is told, event by event in order, exactly what has failed in the run so far |
| AgentLog.ExecutedWithinBudget | demo2/native-launcher/crates/launcher-ai/src/agent.rs:321-325 | nothing is executed once the executions, or the turns with a failure before this one, have reached their limit |
| AgentLog.TurnOverExactly | demo2/native-launcher/crates/launcher-ai/src/agent.rs:316-345 | a turn is over exactly when something must be confirmed, when a spent budget stands in the way of what was just asked about, or when everything wanted is executed |
| AgentLog.CompletedExactly | demo2/native-launcher/crates/launcher-ai/src/agent.rs:356-363 | a run that stops there is Completed exactly when the turn has no bad record and as many good ones as proposals were wanted |
| Foundation.PadMessage | demo2/native-launcher/apps/launcher-plugin-cli/src/foundation.rs:79-84 | the push loop computes the padding of section 5.1.1 of FIPS 180-4, with the bit length modulo 2^64 |
| Foundation.PaddingIsShortest | demo2/native-launcher/apps/launcher-plugin-cli/src/foundation.rs:80-84 | no shorter multiple of 64 bytes has room for message, marker and length |
| Foundation.PaddingIsInjective | demo2/native-launcher/apps/launcher-plugin-cli/src/foundation.rs:79-84 | different messages under 2^61 bytes pad differently |
| Foundation.LengthIsStored | demo2/native-launcher/apps/launcher-plugin-cli/src/foundation.rs:79-84 | the last eight bytes are the message's length in bits |
| Foundation.FillSchedule | demo2/native-launcher/apps/launcher-plugin-cli/src/foundation.rs:87-98 | the in-place schedule array holds W_0 to W_63 |
| Foundation.RunRounds | demo2/native-launcher/apps/launcher-plugin-cli/src/foundation.rs:99-123 | the register rotation computes the 64 rounds of section 6.2.2 |
| Foundation.ProcessBlock | demo2/native-launcher/apps/launcher-plugin-cli/src/foundation.rs:86-132 | one block updates the hash array to the compression of its old value |
| Foundation.HashAll | demo2/native-launcher/apps/launcher-plugin-cli/src/foundation.rs:86-132 | the block loop computes the hash value of the whole padded message |
| Foundation.Sha256 | demo2/native-launcher/apps/launcher-plugin-cli/src/foundation.rs:59-135 | the procedure equals the functional specification for every input |
| Foundation.StandardOrder | demo2/native-launcher/apps/launcher-plugin-cli/src/foundation.rs:89-96 | where addition is associative and commutative, the schedule's terms, added in the opposite order to the standard's, give the same word |
| Foundation.RealAddsInAnyOrder | demo2/native-launcher/apps/launcher-plugin-cli/src/foundation.rs:92-95 | 32-bit wrapping addition is associative and commutative |
| Foundation.ChAndMajByBits | demo2/native-launcher/apps/launcher-plugin-cli/src/foundation.rs:101-108 | bit by bit, Ch chooses between its second and third word by the first, and Maj takes the bit that two of three have |
| Foundation.BlocksAreTheMessage | demo2/native-launcher/apps/launcher-plugin-cli/src/foundation.rs:84 | the blocks, put together, are the padded message |
| Foundation.WordsAreBigEndian | demo2/native-launcher/apps/launcher-plugin-cli/src/foundation.rs:85-88 | a word is loaded from the number its four bytes spell, and stored in four bytes that spell it |
| Word32.RotationTurns | demo2/native-launcher/apps/launcher-plugin-cli/src/foundation.rs:90-91 | rotating by one place more halves the word and brings the bit that falls out in at the top |
| Word32.ShiftHalves | demo2/native-launcher/apps/launcher-plugin-cli/src/foundation.rs:90-91 | shifting by one place more halves the word |
| Word32.NotIsComplement | demo2/native-launcher/apps/launcher-plugin-cli/src/foundation.rs:101 | a word and its complement add up to 2^32 - 1 |
| Word32.AndXorShareASum | demo2/native-launcher/apps/launcher-plugin-cli/src/foundation.rs:101-108 | the sum of two words is their xor and twice their and |
| Foundation.ConstantTables | demo2/native-launcher/apps/launcher-plugin-cli/src/foundation.rs:60-78 | 64 and 8 constants, each the leading 32 fractional bits of the cube or square root of a prime, the primes increasing and the first eight shared |
| Foundation.Sha256Hex | demo2/native-launcher/apps/launcher-plugin-cli/src/foundation.rs:50-57 | lower-case hexadecimal of the digest |
| Foundation.HexIsInjective | demo2/native-launcher/apps/launcher-plugin-cli/src/foundation.rs:50-57 | different digests have different texts |
| Foundation.HexSpellsTheBytes | demo2/native-launcher/apps/launcher-plugin-cli/src/foundation.rs:50-57 | every character is one of 0 to 9 and a to f, and in base 16 they spell the number the bytes spell |
| Foundation.DigestTextSpellsTheWords | demo2/native-launcher/apps/launcher-plugin-cli/src/foundation.rs:50-135 | the text of a digest, read in base 16, is the number that the eight words of the hash spell in base 2^32 |
| Foundation.AcceptedExactly | demo2/native-launcher/apps/launcher-plugin-cli/src/foundation.rs:137-148 | accepted are the digest's own text and what becomes of it when any of its letters are capitals, and nothing else |
| Foundation.VerifyIntegrity | demo2/native-launcher/apps/launcher-plugin-cli/src/foundation.rs:137-148 | accepts exactly when the expected text, upper case ignored, is the digest's text; how many bytes it compares depends on the length of that text alone |
| Foundation.SameText | demo2/native-launcher/apps/launcher-plugin-cli/src/foundation.rs:139-147 | the OR-accumulated comparison is zero exactly for equal texts, and always reads all pairs |
| Foundation.OneTextOneDigest | demo2/native-launcher/apps/launcher-plugin-cli/src/foundation.rs:137-148 | two contents pass against one expected text only with equal digests |
| Base64.EncodeBytes | demo2/native-launcher/apps/launcher-plugin-cli/src/lib.rs:218-234 | the chunk loop computes the chunkwise encoding |
| Base64.EncodeThree | demo2/native-launcher/apps/launcher-plugin-cli/src/lib.rs:221-231 | the four characters of one chunk |
| Base64.DecodeText | demo2/native-launcher/apps/launcher-plugin-cli/src/lib.rs:236-264 | the chunk loop computes the decoding, stopping at the first character outside the alphabet |
| Base64.DecodeFour | demo2/native-launcher/apps/launcher-plugin-cli/src/lib.rs:251-262 | the bytes of one chunk |
| Base64.DecodeInvertsEncode | demo2/native-launcher/apps/launcher-plugin-cli/src/lib.rs:218-264 | decoding undoes encoding for every byte string |
| Base64.EncodeIsInjective | demo2/native-launcher/apps/launcher-plugin-cli/src/lib.rs:218-234 | different bytes have different texts |
| Base64.EncodedShape | demo2/native-launcher/apps/launcher-plugin-cli/src/lib.rs:218-234 | 4 * ceil(n / 3) characters, letters of the alphabet followed only by the padding the length calls for |
| Base64.EncodingSpellsTheBytes | demo2/native-launcher/apps/launcher-plugin-cli/src/lib.rs:226-231 | read in base 64 the letters spell the number the bytes spell in base 256, shifted by the filling bits |
| Base64.DecodeAccepts | demo2/native-launcher/apps/launcher-plugin-cli/src/lib.rs:236-249 | text is accepted exactly when everything besides white space and = is in the alphabet |
| Base64.TableMatchesRanges | demo2/native-launcher/apps/launcher-plugin-cli/src/lib.rs:219-247 | the encoder's table is the alphabet of section 4 of RFC 4648, and the decoder's ranges are its inverse |
| Base64.WordsDoNotOverlap | demo2/native-launcher/apps/launcher-plugin-cli/src/lib.rs:227-254 | on 32-bit words the shifted pieces do not overlap, so OR is addition |
| SearchRouting.Selected | demo2/native-launcher/crates/launcher-core/src/search_coordinator.rs:115-122 | exactly the providers the strategy routes to, in registration order |
| SearchRouting.KindsThatReach | demo2/native-launcher/crates/launcher-core/src/search_coordinator.rs:33-49 | by which kinds of filter a provider is reached, from the start of its id; an id of no such start is reached by none |
| SearchRouting.AllSelectsEverything | demo2/native-launcher/crates/launcher-core/src/search_coordinator.rs:51-56 | strategy All selects every provider |
| SearchRouting.FitsExactlyWhenInitial | demo2/native-launcher/crates/launcher-core/src/search_coordinator.rs:132-133 | every selected provider has a place in the result table exactly when the selection has no gaps |
| SearchRouting.BuildGroups | demo2/native-launcher/crates/launcher-core/src/search_coordinator.rs:124-130 | the round-robin loop deals the selection into at most max_parallelism groups |
| SearchRouting.DealingPartitions | demo2/native-launcher/crates/launcher-core/src/search_coordinator.rs:126-130 | dealing puts every selected provider in exactly one place of one group |
| SearchRouting.DealtInTurn | demo2/native-launcher/crates/launcher-core/src/search_coordinator.rs:126-130 | the p-th selected provider is in group p modulo the number of groups, and each group is in registration order |
| SearchCoordinator.StepKeepsInv | demo2/native-launcher/crates/launcher-core/src/search_coordinator.rs:145-184 | every atomic step of every worker keeps the agreement between its progress and the shared variables |
| SearchCoordinator.CancelledExactlyWhenSeen | demo2/native-launcher/crates/launcher-core/src/search_coordinator.rs:147-152 | in every run the cancelled flag is set exactly when some worker read the cancel flag as set |
| SearchCoordinator.InFlightIsBounded | demo2/native-launcher/crates/launcher-core/src/search_coordinator.rs:154-164 | in every state of every run the in-flight count is between 0 and the number of workers, and it is 0 at the end |
| SearchCoordinator.PeakIsReported | demo2/native-launcher/crates/launcher-core/src/search_coordinator.rs:155-156 | the reported maximum is the true peak of the run, or an earlier search's if that was larger |
| SearchCoordinator.AskedAtMostOnce | demo2/native-launcher/crates/launcher-core/src/search_coordinator.rs:146-163 | in every run no provider is queried twice and none outside the selection at all |
| SearchCoordinator.CrashesExactly | demo2/native-launcher/crates/launcher-core/src/search_coordinator.rs:132-167 | an uncancelled run ends in an index panic exactly when a selected provider that answers is registered past the selection's length |
| SearchCoordinator.InitialNeverCrashes | demo2/native-launcher/crates/launcher-core/src/search_coordinator.rs:132-167 | a selection without gaps never crashes, in any state of any run |
| SearchCoordinator.RoutedSubsetCrashes | demo2/native-launcher/crates/launcher-core/src/search_coordinator.rs:115-167 | with an application provider before it, a plugin-only search ends in the panic in every run |
| SearchCoordinator.MergeIsInRegistrationOrder | demo2/native-launcher/crates/launcher-core/src/search_coordinator.rs:188-194 | cancelled or not, the merge of a finished run is the registration-order concatenation over the providers that were queried and answered |
| SearchCoordinator.Merge | demo2/native-launcher/crates/launcher-core/src/search_coordinator.rs:188-194 | the merge loop concatenates the filled slots in order |
| SearchCoordinator.AgreesWithSequential | demo2/native-launcher/crates/launcher-core/src/search_coordinator.rs:110-210 | strategy All, no cancellation seen: each provider queried once, merged commands equal the sequential fan-out, the errors are the failing providers' once each, complete exactly when there are none |
| SearchCoordinator.ConclusionExactly | demo2/native-launcher/crates/launcher-core/src/search_coordinator.rs:188-210 | a finished search is cancelled if and only if a worker saw the flag, and otherwise partial if and only if a selected provider failed |
| SearchCoordinator.CommandsAreInOrder | demo2/native-launcher/crates/launcher-core/src/search_coordinator.rs:188-194 | in both searches, what earlier providers answered precedes what a later one did |
| SearchCoordinator.SequentialSearch | demo2/native-launcher/crates/launcher-core/src/lib.rs:388-395 | the sequential loop of `Core::search`: commands and error texts in registration order, unless a provider panics |
| SearchCoordinator.SearchesAreBounded | demo2/native-launcher/crates/launcher-core/src/search_coordinator.rs:137-186 | however scheduled, the workers take a bounded number of steps |
| SearchSession.SearchSession.Begin | demo2/native-launcher/crates/launcher-core/src/lib.rs:99-105 | the new id is current and no other is |
| SearchSession.PublicationsIncrease | demo2/native-launcher/apps/launcher-app/src/main.rs:696-702 | over every interleaving the ids that publish results strictly increase |
| SearchSession.RenderIsNotOlder | demo2/native-launcher/apps/launcher-app/src/main.rs:719-734 | a query's render step shows its own results or newer ones |
| SearchSession.ScreenNeverGoesBack | demo2/native-launcher/apps/launcher-app/src/main.rs:661-749 | what is shown, and what is published, never goes back to an older query |
| SearchSession.NewestQueryWins | demo2/native-launcher/apps/launcher-app/src/main.rs:661-749 | once all searches are over the newest query's results are published and shown |
| SearchSession.SomethingCanMove | demo2/native-launcher/apps/launcher-app/src/main.rs:675-734 | the state lock never leaves the searches stuck |
| SearchSession.StepKeepsInv | demo2/native-launcher/apps/launcher-app/src/main.rs:661-749 | every step keeps the lock, id and ordering invariant |
| SearchSession.RememberedQueryExactly | demo2/native-launcher/apps/launcher-app/src/main.rs:693-699 | once all searches are over, `last_query` is the query shown exactly when the last search to take the lock was the newest, that is, was not dropped under the lock |
| SearchSession.RememberedIsLastLock | demo2/native-launcher/apps/launcher-app/src/main.rs:693 | `last_query` is always that of the last search to take the lock |
| SearchSession.RememberedQueryCanBeStale | demo2/native-launcher/apps/launcher-app/src/main.rs:693-699 | a run on the other side of that condition, ending with an older query remembered than shown |
| SearchSession.RunStep | demo2/native-launcher/apps/launcher-app/src/main.rs:661-749 | each step, carried out with `begin` and `is_current` of the shared session, is the step of the model |
| SearchCache.SearchCache.Get | demo2/native-launcher/crates/launcher-search/src/cache.rs:123-141 | a live entry is returned and nothing moves; an expired one is removed |
| SearchCache.SearchCache.Put | demo2/native-launcher/crates/launcher-search/src/cache.rs:151-177 | an entry over a quarter of the byte budget is refused; otherwise it is last in line, and just enough of the oldest are gone |
| SearchCache.SearchCache.MakeRoom | demo2/native-launcher/crates/launcher-search/src/cache.rs:157-164 | the eviction loop ends with room, having dropped the oldest `Evicted` entries and nothing else |
| SearchCache.SearchCache.Remove | demo2/native-launcher/crates/launcher-search/src/cache.rs:143-148 | one entry goes, with its bytes and its place in line |
| SearchCache.EvictionIsMinimal | demo2/native-launcher/crates/launcher-search/src/cache.rs:157-164 | no fewer evictions of the oldest would have made room |
| SearchCache.InsertionKeeps | demo2/native-launcher/crates/launcher-search/src/cache.rs:165-175 | insertion neither invents nor alters another entry |
| SearchCache.WithoutClosesTheGap | demo2/native-launcher/crates/launcher-search/src/cache.rs:143-148 | removing one key keeps the order of the others |
| SearchCache.ChargedOneByOne | demo2/native-launcher/crates/launcher-search/src/cache.rs:74-80 | the charge for an answer is 24 bytes and, for each result, 64 and the bytes of its texts |
| SearchCache.LifetimesExactly | demo2/native-launcher/crates/launcher-search/src/cache.rs:53-64 | an entry can be read for 60 seconds after it was stored, an empty result for 5 |
| SearchCache.LeastRecentExactly | demo2/native-launcher/crates/launcher-search/src/cache.rs:123-177 | the line from whose front entries are evicted is in order of last use throughout a run exactly when every hit of the run was on the entry last in line |
| SearchCache.JustReadIsEvicted | demo2/native-launcher/crates/launcher-search/src/cache.rs:123-177 | in a cache for two entries, the entry just read is the one evicted for the next |
| SearchCache.Play | demo2/native-launcher/crates/launcher-search/src/cache.rs:123-177 | the methods carry out the calls of that theorem's runs |
| SearchCore.RunAll | demo2/native-launcher/crates/launcher-core/src/lib.rs:346-433 | for every sequence of operations at one limit, every clock reading and every eviction, the answers are those of the uncached search |
| SearchCore.Perform | demo2/native-launcher/crates/launcher-core/src/lib.rs:181-433 | one operation keeps the cache coherent, changes the launcher as the uncached one would, and answers afresh |
| SearchCore.Core.Search | demo2/native-launcher/crates/launcher-core/src/lib.rs:346-433 | a live entry is returned as it is, otherwise the result is fresh and kept; a coherent cache stays coherent and answers with a fresh result at one of the limits in use |
| SearchCore.Core.AskAndStore | demo2/native-launcher/crates/launcher-core/src/lib.rs:388-426 | the miss: fan out, rank, cut, store with the time to live of its kind |
| SearchCore.Core.RecordUse | demo2/native-launcher/crates/launcher-core/src/lib.rs:186-197 | a use moves the user generation, so no stored ranking is reached again |
| SearchCore.Core.ToggleFavorite | demo2/native-launcher/crates/launcher-core/src/lib.rs:259-275 | a toggle moves the user generation exactly when the store accepted it, and reports the intended state |
| SearchCore.Core.SetSearchContext | demo2/native-launcher/crates/launcher-core/src/lib.rs:285-307 | the context generation moves exactly when the semantic context changes, which is enough |
| SearchCore.Core.BumpApplicationGeneration | demo2/native-launcher/crates/launcher-core/src/lib.rs:316-319 | a bump keeps the cache coherent |
| SearchCore.Core.SetApplicationGeneration | demo2/native-launcher/crates/launcher-core/src/lib.rs:325-328 | adopting a number keeps the cache coherent if no entry is stored under it or a larger one with all else as now, in particular if it is larger than the present one |
| SearchCore.SearchOnceReached | demo2/native-launcher/crates/launcher-core/src/lib.rs:325-328 | that guard is needed: such an entry is served again once bumps reach it, whatever the catalog is by then |
| SearchCore.SearchAfterRewind | demo2/native-launcher/crates/launcher-core/src/lib.rs:325-328 | after a rewind the answer of the earlier catalog comes back |
| SearchCore.SearchTwice | demo2/native-launcher/crates/launcher-core/src/lib.rs:353-374 | a second search at another limit gets the first one's answer |
| SearchCore.LimitsAgreeExactly | demo2/native-launcher/crates/launcher-core/src/lib.rs:353-374 | that answer is right exactly when both limits cut the ranking alike |
| SearchCore.AsciiFolds | demo2/native-launcher/crates/launcher-domain/src/lib.rs:356-361 | lower-casing twice is lower-casing once, for ASCII; `Engine` assumes no more of `to_lowercase` |
| QueryText.SqueezedJoinsTheWords | demo2/native-launcher/crates/launcher-domain/src/lib.rs:356-361 | normalizing white space gives the maximal runs of other characters, as a splitter from the front finds them, with one space between each and the next |
| QueryText.SqueezedAlikeExactly | demo2/native-launcher/crates/launcher-domain/src/lib.rs:356-361 | it keeps the words, and two texts are normalized to the same exactly when their words are the same |
| QueryText.SqueezedHasNoStraySpace | demo2/native-launcher/crates/launcher-domain/src/lib.rs:356-361 | no white space at either end, and inside only single spaces |
| SearchCore.SameWordsSameQuery | demo2/native-launcher/crates/launcher-core/src/lib.rs:351-353 | texts with the same words in their first 512 characters are one query, for the providers and for the cache |
| SearchCore.SameContextExactly | demo2/native-launcher/crates/launcher-core/src/lib.rs:285-303 | two contexts count as the same exactly when application and folder identity are |
| SearchCore.ToggleTellsTheTruth | demo2/native-launcher/crates/launcher-core/src/lib.rs:259-275 | what a toggle reports is true exactly when there was something to remove or room to add |
| SearchCore.ToggleTwice | demo2/native-launcher/crates/launcher-core/src/lib.rs:259-275 | toggling twice restores the favorites and drops the pin |

## Left out

- The desktop shell: user interface, tray, hotkeys, windows, clipboard, snapshots, processes, MCP and
  model transport, JSON, the file system and SQLite, beyond the answers the modelled code gets from them.
- Floating point: the calculators' numbers are any type with any operations and any partial parser; what
  `f64` computes, and how results are printed, is not modelled. A proposal's confidence is a real number, or
  none; its rounding to a float is not modelled.
- SearchCore.AsciiFolds: shows ASCII folding idempotent; that Unicode's is too is an assumption of `Engine`,
  the only one made of the folding.
- Error texts are values with the same information; their wording is not modelled.
- Machine integers are unbounded except where the code wraps on purpose (SHA-256 and its bit length).
  Overflow of counters, of `now + ttl` or of `max_turns` is not modelled.
- SHA-256 works on numbers below 2^32, with and, xor, rotation and shift given on their bits; Base64
  writes its shifts and masks as multiplication, division and remainder, and its OR as a sum, which
  WordsDoNotOverlap justifies.
- Foundation.ConstantTables: says that the numbers are primes in increasing order, not that none is left out
  between them.
- Foundation.VerifyIntegrity: counts the bytes compared; how long a machine takes over each is not modelled.
- Telemetry, latencies and the records of the bounded agent's turns.
- AgentLoop.TurnExecutor.Run: the effect state is part of the answer to a failing call instead of a second query.
- BoundedAgent.RunBoundedAgent: the wall-clock check is an arbitrary answer per turn; the catalog given to the
  planner is not modelled.
- Transactional.Installer: staging is never visible and activation is atomic, as the trait promises; what
  staged files a failed activation leaves behind is not modelled.
- SearchCoordinator.Step: reading the cancel flag and recording it is one step, as is storing an answer;
  nothing else reads those variables before the workers have joined. One search at a time uses the in-flight
  counter. How the query text determines the strategy is not modelled.
- SearchSession.Step: the searches of `spawn_search` only; `spawn_recent` does not take part in the protocol,
  and the other writers of the shown results are left out. Events may run in any order, which includes the
  event loop's. Results are known by the query that computed them.
- SearchCore.Core: providers answer as functions of the normalized query, the file index and the application
  catalog, and ranking is a function of these, the usage table, the favorites and the semantic context:
  the 24-hour and 7-day recency steps of the usage boost, which follow the clock, are not modelled. A history
  store is attached and its reads succeed. Favorites are attached before the first search. Search errors,
  which a hit drops, and the plugin-scoped search are not modelled.
- SearchCore.RunAll: is about one limit and the bumping operation; see SearchTwice and SearchAfterRewind for
  what happens otherwise.
- `trust.rs`, plugin lifecycle transitions, `memory.rs`, `audit.rs`, `tool_catalog.rs`, `human_size` and the
  release scripts: tables and plumbing that would only add easy members.
