# Two agent simulations, modelled and verified in Dafny

The repository holds two small C++ console simulations, each one class hierarchy in a single file.

**LW_A_1 is a multi-server queue driven by discrete events.**
- `n` service agents serve `m` clients.
- The system first generates every client's arrival, each one a random interval after the previous one, and pushes all of them into a min-priority queue of events.
- It then pops the earliest event, for as long as events remain and fewer than `m` clients are served:
  - An arrival gives the client a random difficulty from 1 to 10 and queues it at the agent with the least load. That agent starts serving at once if it is free.
  - A completion releases the agent's client, counts it as served and starts the next queued client.
- An agent's load is its next-free time while it serves a client, plus the difficulties of its queued clients.
- The final report lists the agents by clients served (most first), breaking ties by total work time (least first).

**LW_A_2 is a patent-exchange negotiation.**
- Each of `numAgents` agents has a target set of `targetSize` patents, named `Patent_A<agent>_P<number>`.
- The pool of patents is all targets plus `numAgents * targetSize / 2` extra ones, named `Extra_P<number>`. The pool is shuffled and dealt out:
  - first in consecutive blocks of `initialSetSize`, or of an even share when the pool is too small;
  - then the remainder, round-robin.
- The negotiation runs in rounds, at most 10000. Each round shuffles the agents, and every agent that is not complete tries to exchange with every other agent. In each exchange:
  - a complete agent gives away a patent the other needs;
  - an incomplete agent takes a needed patent for free from a complete agent, or swaps it for one the other needs.
- Set iteration follows `std::string` order, so every "first" above is the lexicographically least candidate.

## How the model is organised

LW_A_1:
- `ServiceEvents`: events, the arrival schedule, pops in time order.
- `ServiceAccounting`: the simulation's bookkeeping, stated on value snapshots of the agents.
- `ServiceAgent`: the agent, as a class.
- `ServiceReport`: the report order.
- `ServiceSystem`: the simulation controller, as a class.

LW_A_2:
- `PatentOrder`: `std::string` order and ascending set iteration.
- `PatentIds`: patent names.
- `PatentAgent`: the agent and its exchange rule.
- `PatentDealing`: targets, pool and dealing, as values.
- `PatentRounds`: the negotiation on values. One agent negotiating with the others, one round and the whole run are traced as holdings plus a log of exchange results.
- `PatentExchange`: the simulation, as a class.

**Agents are classes in both programs.** Each C++ method that updates fields becomes a method with a `modifies` clause. Its postcondition gives the new state exactly, or ties it to a specification function on values:
- `StartView`/`FinishView`/`EnqueueView` for the queue agent. An `AgentView` holds every field but the cached load, and the load is tied to its definition by the agent's invariant.
- `Rule` and `Exchange` for one exchange.
- `NegotiationFrom`, `RoundFrom` and `SimulationFrom` for the negotiation loops.
- `Dealt` for the initial deal.

**The queue simulation's invariant relates the events to the agents.**
- An agent serves a client exactly when one completion event for it is pending.
- Agents queue clients only while they are serving one.
- The served counters add up to the clients served plus those in service.

From this, `Run` proves that the loop terminates and that events are popped in time order. By the end, exactly `2m` events have been popped, every one of the `m` clients is served, the agents' served counters add up to `m` and no event is pending. The two halves of the loop condition, `!events.empty()` and `clients_served < m`, become false together.

**The negotiation's invariant is that the patents held by all agents together never change.** Exchanges only move them, and every completion flag stays accurate.

**The negotiation follows its value model step by step.** `RunSimulation` ends with the agents holding what `SimulationFrom` computes from their initial holdings and the supplied shuffles. Its round count is that function's, and so is its log of exchange results. The system's counter is the number of successes in that log.

## Model

| member | source | states |
|---|---|---|
| ServiceEvents.EarliestExists | LW_A_1/ConsoleApplication1/ConsoleApplication1.cpp:180-182 | a non-empty event queue has an event of least time, so `events.top()` (order of `Event::operator>`) is defined |
| ServiceEvents.RemoveAtMultiset | LW_A_1/ConsoleApplication1/ConsoleApplication1.cpp:181-182 | popping takes exactly one copy of the top event out of the queue and leaves the rest |
| ServiceEvents.ChronologicalPop | LW_A_1/ConsoleApplication1/ConsoleApplication1.cpp:180-182 | popping an earliest event keeps the popped events in non-decreasing time, with nothing pending earlier than the last pop |
| ServiceEvents.ChronologicalExtend | LW_A_1/ConsoleApplication1/ConsoleApplication1.cpp:98 | pushing events no earlier than the last pop keeps that order |
| ServiceEvents.ArrivalEvents | LW_A_1/ConsoleApplication1/ConsoleApplication1.cpp:198-218 | the arrivals the client generator pushes from a start time: one per interval drawn, the k-th for client `firstId + k`, each an arrival with agent id -1 |
| ServiceEvents.ArrivalEventAt | LW_A_1/ConsoleApplication1/ConsoleApplication1.cpp:198-218 | the k-th generated arrival is client `firstId + k`, at the start time plus the sum of the first k+1 intervals |
| ServiceEvents.ArrivalEventsCount | LW_A_1/ConsoleApplication1/ConsoleApplication1.cpp:198-218 | the generator pushes exactly one arrival per interval drawn and no completion event |
| ServiceEvents.ArrivalTimesAbove | LW_A_1/ConsoleApplication1/ConsoleApplication1.cpp:203-204 | with non-negative intervals every arrival is at or after the start time (after it, for positive intervals) |
| ServiceEvents.ArrivalTimesOrdered | LW_A_1/ConsoleApplication1/ConsoleApplication1.cpp:203-216 | arrival times are non-decreasing for non-negative intervals and strictly increasing for positive ones |
| ServiceEvents.CountWhereRemove | LW_A_1/ConsoleApplication1/ConsoleApplication1.cpp:181-182 | removing one event lowers the count of events of a kind by one exactly when the removed event is of that kind |
| ServiceAccounting.FinishView | LW_A_1/ConsoleApplication1/ConsoleApplication1.cpp:105-109 | finishing releases the client in service and changes nothing else: queue, served counter, next-free time and work time stay |
| ServiceAccounting.StartView | LW_A_1/ConsoleApplication1/ConsoleApplication1.cpp:84-102 | an agent is serving afterwards exactly when it was serving or had a queue; starting moves the queue head into service and raises the served counter by one, otherwise nothing changes; either way the clients queued or in service are as many as before |
| ServiceAccounting.EnqueueView | LW_A_1/ConsoleApplication1/ConsoleApplication1.cpp:78-81 | the client joins the back of the queue, behind the clients already there, and nothing else changes |
| ServiceAccounting.AccountingPop | LW_A_1/ConsoleApplication1/ConsoleApplication1.cpp:181-182 | the bookkeeping does not depend on where in the queue the popped event sat |
| ServiceAccounting.DepartureStep | LW_A_1/ConsoleApplication1/ConsoleApplication1.cpp:253-264 | a popped completion names an agent that is serving; finishing it, counting it served and restarting the agent keeps the bookkeeping, lowers the outstanding clients by one, keeps the pending arrivals and pushes nothing earlier than the event |
| ServiceAccounting.ArrivalStep | LW_A_1/ConsoleApplication1/ConsoleApplication1.cpp:238-249 | queuing the arriving client at an agent and starting it if idle keeps the bookkeeping, raises the outstanding clients by one and pushes nothing earlier than the event |
| ServiceAccounting.DropArrival | LW_A_1/ConsoleApplication1/ConsoleApplication1.cpp:222-224 | an arrival ignored after m clients are served leaves the bookkeeping intact |
| ServiceAccounting.PrimedAccounting | LW_A_1/ConsoleApplication1/ConsoleApplication1.cpp:177 | adding only arrivals to an idle system keeps the bookkeeping |
| ServiceAccounting.DrainedStep | LW_A_1/ConsoleApplication1/ConsoleApplication1.cpp:180 | with no event pending no agent is serving and no client is outstanding |
| ServiceAccounting.QuietPending | LW_A_1/ConsoleApplication1/ConsoleApplication1.cpp:180 | with no client outstanding and no arrival pending, no event at all is pending |
| ServiceAccounting.SumOfZeroTerms | LW_A_1/ConsoleApplication1/ConsoleApplication1.cpp:156 | a zero total of per-agent counts that are never negative means every agent's count is zero |
| ServiceAccounting.SumOfUpdate | LW_A_1/ConsoleApplication1/ConsoleApplication1.cpp:156 | changing one agent changes a total over all agents by exactly that agent's difference |
| ServiceAgent.QueuedWork | LW_A_1/ConsoleApplication1/ConsoleApplication1.cpp:121-125 | the difficulties of the queued clients summed; with difficulties of at least 1 it is at least the number of queued clients |
| ServiceAgent.Load | LW_A_1/ConsoleApplication1/ConsoleApplication1.cpp:112-126 | the load `updateLoad` computes; with difficulties of at least 1 it is at least the next-free time (while serving) plus the number of queued clients |
| ServiceAgent.QueuedWorkFront | LW_A_1/ConsoleApplication1/ConsoleApplication1.cpp:121-125 | the queued work is the head's difficulty plus the work behind it |
| ServiceAgent.QueuedWorkNonnegative | LW_A_1/ConsoleApplication1/ConsoleApplication1.cpp:121-125 | queued work is never negative when no difficulty is |
| ServiceAgent.LoadAfterStart | LW_A_1/ConsoleApplication1/ConsoleApplication1.cpp:93-117 | starting service at time t turns an idle agent's load from its queued work into t plus that work, because the load counts the absolute next-free time |
| ServiceAgent.Agent.constructor | LW_A_1/ConsoleApplication1/ConsoleApplication1.cpp:73-75 | a new agent is idle, with an empty queue, zero counters and zero load |
| ServiceAgent.Agent.AddClient | LW_A_1/ConsoleApplication1/ConsoleApplication1.cpp:78-81 | the client joins the back of the queue, nothing else changes, and the load rises by its difficulty |
| ServiceAgent.Agent.StartNextService | LW_A_1/ConsoleApplication1/ConsoleApplication1.cpp:84-102 | it starts exactly when the queue is non-empty and no client is in service; then the head goes into service until `t + difficulty`, both counters rise, one completion event is pushed and the load is recomputed; otherwise nothing changes |
| ServiceAgent.Agent.FinishService | LW_A_1/ConsoleApplication1/ConsoleApplication1.cpp:105-109 | the client in service is released and the load recomputed; queue and counters are unchanged |
| ServiceAgent.Agent.UpdateLoad | LW_A_1/ConsoleApplication1/ConsoleApplication1.cpp:112-126 | the cached load equals next-free time (while serving) plus the difficulties of all queued clients |
| ServiceAgent.Agent.GetCurrentLoad | LW_A_1/ConsoleApplication1/ConsoleApplication1.cpp:129-131 | the load read by the dispatcher is that definition |
| ServiceReport.ReportBefore | LW_A_1/ConsoleApplication1/ConsoleApplication1.cpp:284-289 | the comparator puts the agent that served more clients first, and of two that served as many the one with less total work time |
| ServiceReport.ReportBeforeStrictOrder | LW_A_1/ConsoleApplication1/ConsoleApplication1.cpp:284-289 | the report comparator is a strict weak order, as `std::sort` requires |
| ServiceReport.SortedMeansOrdered | LW_A_1/ConsoleApplication1/ConsoleApplication1.cpp:283-289 | in the sorted report served counts never increase, and equal counts have non-decreasing work times |
| ServiceReport.InsertEntry | LW_A_1/ConsoleApplication1/ConsoleApplication1.cpp:284-289 | inserting an entry into a sorted report keeps it sorted and adds exactly that entry |
| ServiceReport.SortReport | LW_A_1/ConsoleApplication1/ConsoleApplication1.cpp:284-289 | the result is sorted by the comparator and a permutation of the entries |
| ServiceSystem.LeastLoaded | LW_A_1/ConsoleApplication1/ConsoleApplication1.cpp:227-236 | the selected agent has the least load, and every agent before it has a strictly larger load (the lowest index among the minima) |
| ServiceSystem.System.constructor | LW_A_1/ConsoleApplication1/ConsoleApplication1.cpp:164-172 | n fresh idle agents with ids 0..n-1, no events, no clients |
| ServiceSystem.System.CreateNextClient | LW_A_1/ConsoleApplication1/ConsoleApplication1.cpp:198-218 | below m clients it creates all remaining clients, drawing one interval and one discarded difficulty each, and appends their arrival schedule; otherwise nothing changes |
| ServiceSystem.System.HandleArrival | LW_A_1/ConsoleApplication1/ConsoleApplication1.cpp:221-250 | after m served nothing changes. Otherwise one difficulty is drawn and the client is queued at the least-loaded agent (lowest index on ties), which then tries to start. That agent's new state (queue, client in service, counters, next-free time, work time) and the pushed completion are exactly those of queuing then starting at the event time, no other agent changes, the invariant holds and one more client is outstanding |
| ServiceSystem.System.Admit | LW_A_1/ConsoleApplication1/ConsoleApplication1.cpp:243-249 | the chosen agent queues the client and starts it if idle; its new state and the pushed completion are exactly those of `EnqueueView` then `StartView`, and no other agent changes |
| ServiceSystem.System.HandleDeparture | LW_A_1/ConsoleApplication1/ConsoleApplication1.cpp:253-264 | the completion names an agent that is serving. That agent's new state and the pushed completion are exactly those of finishing then starting at the event time, and no other agent changes. The served total rises by one, one fewer client is outstanding, the invariant holds and no pushed event is earlier than the completion |
| ServiceSystem.System.Release | LW_A_1/ConsoleApplication1/ConsoleApplication1.cpp:257-263 | the agent finishes its client and starts its queue head if any; its new state and the pushed completion are exactly those of `FinishView` then `StartView`, and no other agent changes |
| ServiceSystem.System.PopEarliest | LW_A_1/ConsoleApplication1/ConsoleApplication1.cpp:181-182 | the popped event has the least time of the queue, which loses exactly that event |
| ServiceSystem.System.Step | LW_A_1/ConsoleApplication1/ConsoleApplication1.cpp:180-190 | one loop turn pops an event of least time among those pending and appends it to the popped events; it keeps the invariant and the time order, and moves one client forward (clients served minus pending arrivals rises by one) |
| ServiceSystem.System.Dispatch | LW_A_1/ConsoleApplication1/ConsoleApplication1.cpp:184-189 | an arrival adds one outstanding client and draws one difficulty; a completion serves one; either way the pending arrivals are unchanged and nothing earlier than the event is pushed |
| ServiceSystem.System.Drained | LW_A_1/ConsoleApplication1/ConsoleApplication1.cpp:180 | when the loop stops, every client is served and no event is pending, and the agents' served counters add up to m |
| ServiceSystem.System.Prime | LW_A_1/ConsoleApplication1/ConsoleApplication1.cpp:177 | run starts by generating the whole arrival schedule from time 0: exactly m arrivals pending, m difficulties drawn, nothing popped, no client outstanding |
| ServiceSystem.System.PrimedFacts | LW_A_1/ConsoleApplication1/ConsoleApplication1.cpp:177 | after the initial generation exactly m arrivals and nothing else are pending |
| ServiceSystem.System.Run | LW_A_1/ConsoleApplication1/ConsoleApplication1.cpp:175-194 | the loop ends with exactly m clients served, the agents' served counters adding up to m, no event pending and 2m events popped in non-decreasing time order, and a report that is the agents' entries sorted |
| ServiceSystem.System.BuildReport | LW_A_1/ConsoleApplication1/ConsoleApplication1.cpp:278-289 | the report is a sorted permutation of one entry per agent |
| PatentOrder.Below | LW_A_2/ConsoleApplication1/ConsoleApplication1.cpp:16-17 | `std::string` `<`: a proper prefix comes first, and a smaller first character decides |
| PatentOrder.BelowIrreflexive | LW_A_2/ConsoleApplication1/ConsoleApplication1.cpp:16-17 | no string is before itself in `std::string` order |
| PatentOrder.BelowTransitive | LW_A_2/ConsoleApplication1/ConsoleApplication1.cpp:16-17 | `std::string` order is transitive |
| PatentOrder.BelowTotal | LW_A_2/ConsoleApplication1/ConsoleApplication1.cpp:16-17 | any two different strings are ordered one way or the other |
| PatentOrder.LeastExists | LW_A_2/ConsoleApplication1/ConsoleApplication1.cpp:37 | every non-empty set of patents has a first element |
| PatentOrder.LeastUnique | LW_A_2/ConsoleApplication1/ConsoleApplication1.cpp:37 | that first element is unique |
| PatentOrder.Ascending | LW_A_2/ConsoleApplication1/ConsoleApplication1.cpp:37 | iterating a `std::set<string>` lists its elements, each once, strictly ascending |
| PatentOrder.FirstMatchIsLeast | LW_A_2/ConsoleApplication1/ConsoleApplication1.cpp:65-66 | the first element of an ascending listing that lies in another set is the least common element |
| PatentOrder.NoMatchDisjoint | LW_A_2/ConsoleApplication1/ConsoleApplication1.cpp:65-73 | a scan that finds no match means the two sets are disjoint |
| PatentIds.Dec | LW_A_2/ConsoleApplication1/ConsoleApplication1.cpp:139 | `to_string` of a non-negative number is a non-empty run of digits without a leading zero |
| PatentIds.DecInjective | LW_A_2/ConsoleApplication1/ConsoleApplication1.cpp:139 | different numbers have different renderings |
| PatentIds.PatentId | LW_A_2/ConsoleApplication1/ConsoleApplication1.cpp:138-140 | `generatePatentId`: the name starts with "Patent_A" and a digit of the agent id, and ends with a digit of the patent number |
| PatentIds.ExtraId | LW_A_2/ConsoleApplication1/ConsoleApplication1.cpp:163 | an extra patent is named "Extra_P" followed by the digits of its number |
| PatentIds.PatentIdInjective | LW_A_2/ConsoleApplication1/ConsoleApplication1.cpp:138-140 | different (agent, number) pairs give different patent ids |
| PatentIds.ExtraIdInjective | LW_A_2/ConsoleApplication1/ConsoleApplication1.cpp:163 | different numbers give different extra patents |
| PatentIds.ExtraIsNotTarget | LW_A_2/ConsoleApplication1/ConsoleApplication1.cpp:161-164 | no extra patent is a target patent |
| PatentAgent.Rule | LW_A_2/ConsoleApplication1/ConsoleApplication1.cpp:57-113 | the exchange decision: a gift to the other agent only from a completed caller, a gift to the caller only from a completed other agent, a swap only between two incomplete agents, and each patent chosen is the first in `std::set` order of the patents that qualify |
| PatentAgent.RuleTransfersNeededPatents | LW_A_2/ConsoleApplication1/ConsoleApplication1.cpp:57-113 | every transfer chosen moves a patent the receiver needs and lacks from an agent that holds it, a swap moves two different patents, and no exchange happens exactly when no such patent exists |
| PatentAgent.Exchange | LW_A_2/ConsoleApplication1/ConsoleApplication1.cpp:57-113 | one exchange on two agents' holdings: targets are kept, what the two hold together is kept, and it reports success exactly when the rule picks a transfer |
| PatentAgent.SwapConserves | LW_A_2/ConsoleApplication1/ConsoleApplication1.cpp:94-98 | a swap keeps both agents' holding sizes and what the two hold together |
| PatentAgent.Agent.constructor | LW_A_2/ConsoleApplication1/ConsoleApplication1.cpp:23-26 | a new agent holds nothing, has zero counters and is not marked complete |
| PatentAgent.Agent.AddInitialPatents | LW_A_2/ConsoleApplication1/ConsoleApplication1.cpp:29-32 | the patents are added to the holdings and the completion flag is brought up to date |
| PatentAgent.Agent.CheckTargetCompletion | LW_A_2/ConsoleApplication1/ConsoleApplication1.cpp:35-43 | the flag is set exactly when every target patent is held |
| PatentAgent.Agent.GetNeededPatents | LW_A_2/ConsoleApplication1/ConsoleApplication1.cpp:46-54 | the result is exactly the target patents not held, strictly ascending |
| PatentAgent.Agent.ExchangeWith | LW_A_2/ConsoleApplication1/ConsoleApplication1.cpp:57-113 | both round counters rise; the result is true exactly when the rule picks a transfer; the holdings, flags and success counters change exactly as that transfer says; the two agents together hold the same patents; and accurate flags stay accurate |
| PatentDealing.PermuteKeeps | LW_A_2/ConsoleApplication1/ConsoleApplication1.cpp:173 | shuffling by a permutation keeps the length, the members and distinctness |
| PatentDealing.TargetsDisjoint | LW_A_2/ConsoleApplication1/ConsoleApplication1.cpp:146-152 | different agents' target sets share no patent |
| PatentDealing.TargetsStep | LW_A_2/ConsoleApplication1/ConsoleApplication1.cpp:155-158 | adding agent i's target to the union of the earlier ones adds new patents only |
| PatentDealing.ExtraStep | LW_A_2/ConsoleApplication1/ConsoleApplication1.cpp:161-164 | each extra patent is new to the pool |
| PatentDealing.PatentsPerAgent | LW_A_2/ConsoleApplication1/ConsoleApplication1.cpp:177-178 | the first round's block size never exceeds initialSetSize, and is exactly that when the pool holds numAgents blocks of it |
| PatentDealing.OwnedBy | LW_A_2/ConsoleApplication1/ConsoleApplication1.cpp:176-192 | the dealing order: a position dealt to an agent is dealt to one of the numAgents agents |
| PatentDealing.OwnerUnique | LW_A_2/ConsoleApplication1/ConsoleApplication1.cpp:176-192 | every position of the shuffled pool is dealt to at most one agent |
| PatentDealing.OwnerExists | LW_A_2/ConsoleApplication1/ConsoleApplication1.cpp:176-192 | with at least one agent every position is dealt to some agent |
| PatentDealing.FirstRoundFits | LW_A_2/ConsoleApplication1/ConsoleApplication1.cpp:176-178 | the first round's blocks fit in the pool |
| PatentDealing.BlockDealt | LW_A_2/ConsoleApplication1/ConsoleApplication1.cpp:180-186 | handing out agent a's block gives exactly that block to agent a and nothing to the others |
| PatentDealing.DealTo | LW_A_2/ConsoleApplication1/ConsoleApplication1.cpp:189-192 | handing out one position adds that patent to its owner's set only |
| PatentDealing.DealtDisjoint | LW_A_2/ConsoleApplication1/ConsoleApplication1.cpp:176-192 | no patent of a duplicate-free pool is dealt to two agents |
| PatentDealing.DealtCovers | LW_A_2/ConsoleApplication1/ConsoleApplication1.cpp:176-192 | every patent of the pool is dealt to some agent |
| PatentDealing.DealingPartitions | LW_A_2/ConsoleApplication1/ConsoleApplication1.cpp:143-192 | targets are pairwise disjoint, dealt sets are pairwise disjoint, and a patent is in the pool exactly when some agent was dealt it |
| PatentRounds.SuccessesAppend | LW_A_2/ConsoleApplication1/ConsoleApplication1.cpp:223-225 | successful attempts of two stretches of attempts add up |
| PatentRounds.NegotiationFrom | LW_A_2/ConsoleApplication1/ConsoleApplication1.cpp:218-226 | agent i meeting agents j, j + 1, ... in turn, each exchange on the holdings the previous one left: the number of agents and every target are kept |
| PatentRounds.NegotiationLog | LW_A_2/ConsoleApplication1/ConsoleApplication1.cpp:218-226 | a negotiation only appends to the log, one result per other agent met, so from j = 0 agent i logs `n - 1` results |
| PatentRounds.RoundFrom | LW_A_2/ConsoleApplication1/ConsoleApplication1.cpp:215-227 | one round, skipping the agents already complete: the number of agents and every target are kept |
| PatentRounds.RoundLog | LW_A_2/ConsoleApplication1/ConsoleApplication1.cpp:215-227 | a round only appends to the log |
| PatentRounds.AllDone | LW_A_2/ConsoleApplication1/ConsoleApplication1.cpp:196-203 | `isSimulationComplete` on holdings: when it holds, every agent holds all of its target |
| PatentRounds.SimulationFrom | LW_A_2/ConsoleApplication1/ConsoleApplication1.cpp:210-228 | the run from round r: at most 10000 rounds are played, and stopping earlier means every agent holds its target |
| PatentRounds.SimulationLog | LW_A_2/ConsoleApplication1/ConsoleApplication1.cpp:210-228 | the run only appends to the log |
| PatentExchange.Shuffle | LW_A_2/ConsoleApplication1/ConsoleApplication1.cpp:172-173 | the shuffled vector holds every pool patent exactly once, and position i holds a smaller patent than a later position j exactly when the permutation fills i from further forward than j |
| PatentExchange.PermutedOrder | LW_A_2/ConsoleApplication1/ConsoleApplication1.cpp:172-173 | reordering the ascending listing by a permutation: of two positions, the one the permutation fills from further forward holds the smaller patent |
| PatentExchange.HeldBySameMembers | LW_A_2/ConsoleApplication1/ConsoleApplication1.cpp:212 | reordering the agents does not change the patents held |
| PatentExchange.MakeTargets | LW_A_2/ConsoleApplication1/ConsoleApplication1.cpp:146-152 | agent a's target is its first targetSize patent ids, targetSize of them |
| PatentExchange.UniteTargets | LW_A_2/ConsoleApplication1/ConsoleApplication1.cpp:155-158 | the union of the targets has numAgents * targetSize patents |
| PatentExchange.AddExtraPatents | LW_A_2/ConsoleApplication1/ConsoleApplication1.cpp:161-164 | the pool is the targets plus numAgents * targetSize / 2 extra patents, all distinct |
| PatentExchange.PatentSystem.constructor | LW_A_2/ConsoleApplication1/ConsoleApplication1.cpp:133-135 | no agents, counter zero |
| PatentExchange.PatentSystem.GenerateInitialConditions | LW_A_2/ConsoleApplication1/ConsoleApplication1.cpp:143-193 | numAgents fresh agents with ids 0.. and their targets; the shuffled pool holds each patent once, ordered as the permutation reorders the pool's ascending listing; agent a holds exactly the positions dealt to it (block a, then round-robin); targets and holdings are pairwise disjoint, the holdings together are the whole pool, and completion flags are accurate |
| PatentExchange.PatentSystem.CreateAgents | LW_A_2/ConsoleApplication1/ConsoleApplication1.cpp:167-169 | one fresh agent per target set, with id equal to its index, holding nothing |
| PatentExchange.PatentSystem.DealPatents | LW_A_2/ConsoleApplication1/ConsoleApplication1.cpp:176-192 | every agent holds exactly what the dealing order gives it and its flag is accurate |
| PatentExchange.PatentSystem.DealBlocks | LW_A_2/ConsoleApplication1/ConsoleApplication1.cpp:180-186 | after the first round agent b holds exactly its block and the index is past all blocks |
| PatentExchange.PatentSystem.TakeBlock | LW_A_2/ConsoleApplication1/ConsoleApplication1.cpp:181-184 | the block taken is the next perAgent positions and the index moves past them |
| PatentExchange.PatentSystem.DealRemainder | LW_A_2/ConsoleApplication1/ConsoleApplication1.cpp:189-192 | the remaining positions go round-robin by index modulo numAgents |
| PatentExchange.PatentSystem.IsSimulationComplete | LW_A_2/ConsoleApplication1/ConsoleApplication1.cpp:196-203 | true exactly when every agent is marked complete |
| PatentExchange.PatentSystem.ShuffleAgents | LW_A_2/ConsoleApplication1/ConsoleApplication1.cpp:212 | the agents are reordered by the permutation, and so are their holdings; the same agents hold the same patents |
| PatentExchange.PatentSystem.Attempt | LW_A_2/ConsoleApplication1/ConsoleApplication1.cpp:222 | agents i and j end holding what `Exchange` gives for their holdings, every other agent is unchanged, and the result is `Exchange`'s success flag; the patents held by all agents together and every flag stay as they were |
| PatentExchange.PatentSystem.Turn | LW_A_2/ConsoleApplication1/ConsoleApplication1.cpp:219-225 | one pass of the inner loop moves `NegotiationFrom` one agent on, logging the attempt's result; the counter rises exactly when the attempt succeeded |
| PatentExchange.PatentSystem.Negotiate | LW_A_2/ConsoleApplication1/ConsoleApplication1.cpp:218-226 | an agent tries every other agent once, and the agents end as `NegotiationFrom` says with its log; the counter rises by the successes in that log, and the patents held stay the same |
| PatentExchange.PatentSystem.Round | LW_A_2/ConsoleApplication1/ConsoleApplication1.cpp:215-227 | the agents end as `RoundFrom` says with its log; the counter rises by the round's successes; the patents held stay the same and flags accurate |
| PatentExchange.PatentSystem.PlayRound | LW_A_2/ConsoleApplication1/ConsoleApplication1.cpp:212-227 | shuffling and playing round r moves `SimulationFrom` from round r to round r + 1 |
| PatentExchange.PatentSystem.PlayRounds | LW_A_2/ConsoleApplication1/ConsoleApplication1.cpp:208-228 | the loop ends with the agents, the round count and the log exactly as `SimulationFrom` gives them from the initial holdings; the safeguard counter ends at or below zero exactly when 10000 rounds ran |
| PatentExchange.PatentSystem.RunSimulation | LW_A_2/ConsoleApplication1/ConsoleApplication1.cpp:206-233 | the agents end holding what `SimulationFrom` computes, after its number of rounds (at most 10000) and with its log. Stopping earlier means every agent holds its target. The warning is raised exactly when 10000 rounds ran, even if the last one completed the simulation. The patents held, the set of agents and flag accuracy are preserved, and the counter equals the successes in the log |

## Left out

- Random number generation: the intervals, difficulties and shuffles come from supplied streams and permutations instead of `mt19937`. The uniform distributions are not modelled; only the difficulty range 1..10 is assumed.
- Console output: the report printing in `printReport`, the warning message and the result and statistics printing of LW_A_2 are left out. The report's content and order are modelled (`BuildReport`).
- `main` and the parameter input in both programs.
- Pointers and memory: `new`/`delete` of the client in service becomes an `Option` value.
- C++ copy semantics: the agents, which the C++ keeps by value in a vector, are modelled as references. The model proves that they are distinct objects, so no aliasing arises.
- Fixed-width integers: `int` overflow and `size_t` conversions are not modelled. Counts and parameters are `nat`, so negative parameters are out of scope.
- `double` is modelled as exact `real`. Rounding, and the resulting ties or near-ties between loads and event times, are not modelled.
- Plain field reads are not modelled. This covers `getNextFreeTime`, `getCurrentPatents`, `getTargetPatents`, `getId`, `getCommunicationRounds`, `getSuccessfulExchanges` and `getTargetSize`. `isTargetCompleted`, `isFree` and `getQueueSize` appear as one-line functions without contracts.
- ServiceSystem.System.HandleArrival: requires `n > 0` while fewer than m clients are served. The C++ reads `agents[0]` unguarded, which is undefined for `n == 0`.
- ServiceSystem.System.Run: requires enough supplied draws (m intervals, 2m difficulties) and requires `n > 0` when `m > 0`. With no agents, the C++ indexes an empty vector.
- ServiceSystem.System.HandleDeparture: the served counter is raised before the agent finishes its client. The C++ raises it after; the two steps touch disjoint state.
- ServiceSystem.System.PopEarliest: among events of equal time, which one `std::priority_queue` pops is left open. The model proves its properties for every choice.
- PatentExchange.PatentSystem.RunSimulation: requires at least 10000 supplied shuffles. The value model of an agent is its target and its holdings. So the agents' own counters (`communicationRounds`, `successfulExchanges`) at the end are not stated, only the system's counter.
- PatentExchange.PatentSystem.GenerateInitialConditions: does not state the agents' counters and does not say that the system's counter is untouched. The frame is limited to the agent list, so the counter cannot change.
- PatentExchange.PatentSystem.Attempt: states the two agents' holdings and the result through `Exchange`, but not their counters. Those are stated, for one exchange, by `PatentAgent.Agent.ExchangeWith`. The same holds for `Turn`, `Negotiate`, `Round` and `PlayRound`.
- Termination of the negotiation before 10000 rounds is not proved. The source does not promise it either: it keeps the 10000-round safeguard.
