# FishSim3 simulation kernel in Dafny

This project models the deterministic kernel of the FishSim3 aquarium engine and proves what that kernel promises.

## What is modelled

- **The entity-component world.** `Ecs.World` models `engine/ecs/world.py`:
  - a monotonic id counter;
  - one store per component kind;
  - a cache of views keyed by the ordered tuple of kinds;
  - a FIFO command queue.
- **Store order.** A store is a map plus the sequence of its keys in insertion order (`Stores.Store`). Python dict order decides the order of every view and the "first tank hit", so the model keeps it.
- **Views.** `Ecs.View` keeps the pass in progress as the entity ids still to walk; components are read when each item is yielded. `Stores.ViewIds` is the value one full pass yields.
- **Whole-operation functions.** `ApplyCreate` and `Flush` describe `_apply_create_entity` and `flush_commands` as whole state transitions. The methods are proved equal to them, and `EcsFacts` proves what they do.
- **Scheduler** (`Scheduling`): systems are ids; `update` and `render` return the trace of the calls they make.
- **Resource registry and event bus** (`Resources`, `Events`): callbacks are ids, and `publish` returns the callbacks it invokes, in order.
- **Fish state machine** (`Fsm`, `FsmSystem`):
  - idle and cruise as a closed datatype;
  - the driver's weighted start pick, initialisation, timing and exit/reset/enter protocol.
  
  The random stream is a parameter (`Rand.Rng`): `unit(i)` is draw `i` in [0, 1), and `dir(i)` is the direction a draw turned into an angle gives, a unit vector.
- **Movement and falling** (`Movement`, `MoveRows`, `Gravity`), one entity at a time over the view:
  - movement: intent overwrite, bobbing term, choice of bounds, Euler step, clamp-and-bounce, stop-on-floor;
  - falling: gravity with a sign-aware terminal-velocity clamp.
- **Population, placement and factories** (`Population`, `Placement`, `Factories`):
  - the per-tank fish cap;
  - the click hit test with the pellet clamp;
  - the exact component bundles the factories attach.
- **The dump script's path logic** (`Dump`):
  - `is_in_skip_content_dir` and `should_dump_content`;
  - the `build_tree` closure and sort;
  - the filtering loop of `main`.

### How the model is built

- **Imperative and pure code.** Code that updates objects in place is written as classes, with `modifies` clauses and loops. These are the world, the view, the scheduler, the registry, the bus and the placement system. System `update` loops become methods. Each method is proved equal to a function of the old state, and the lemmas beside it state what that function promises.
- **Component fields.** A system assigning a field of a component it holds is `Ecs.World.Replace`: the entry is overwritten in place, keeps its place in the store order, and no view is dropped.
- **Unused ids.** `Ecs.Fresh` says that no store holds an entry at or past the counter. A new world has this property, and every create, add to an allocated id, flush and spawn keeps it. The population lemmas that count a spawned fish rely on it.
- **The cached count view.** The spawn rules take, as a ghost parameter, the `Ecs.View` object that a first `world.view(Fish, InTank)` caches. Which object it is changes no entry and no count.
- **Numbers.** Floating point is modelled by `real`, with no rounding.
- **Trigonometry.** The bobbing term `amplitude * sin(...)` is a function parameter (`Movement.MoveEnv.bobTerm`). The cruise heading `(cos a, sin a)` is `Rand.DrawDir`.

## Model

| member | source | states |
|---|---|---|
| Ecs.World.constructor | engine/ecs/world.py:26-34 | a new world has counter 1, no stores, no cached views and an empty queue; no id from the counter on is used |
| Ecs.World.CreateEntity | engine/ecs/world.py:39-42 | returns the counter's value and advances it by one, so ids start at 1 and are never handed out twice; in a world whose unallocated ids are unused, the returned id has no entries and unallocated ids stay unused |
| Ecs.World.DestroyEntity | engine/ecs/world.py:44-47 | the stores become `DestroyIn(old stores, eid)`; the counter and the view cache are not modified |
| Stores.DestroyIn | engine/ecs/world.py:44-47 | the entity has no entry under any kind afterwards; every other entity's entries and the set of kinds are unchanged |
| Stores.DestroyInValid | engine/ecs/world.py:44-47 | destroying keeps every store well formed (order lists each key once, values have the store's kind) |
| Ecs.World.AddComponent | engine/ecs/world.py:52-56 | the stores become `AddTo(old, eid, c)` and the cache `Invalidated(old, kind of c)` |
| Stores.AddTo | engine/ecs/world.py:52-55 | afterwards (kind of c, e) holds c, overwriting any earlier value; every other (kind, entity) entry is unchanged |
| Stores.Put | engine/ecs/world.py:55 | overwriting keeps the key's place in the insertion order; a new key goes last |
| Stores.AddToValid | engine/ecs/world.py:52-55 | adding keeps every store well formed |
| Stores.PutWellFormed | engine/ecs/world.py:55 | a store stays duplicate-free and kind-consistent after an insertion |
| Stores.LookupKind | engine/ecs/world.py:55 | a value found under a kind in well-formed stores has that kind |
| Stores.AddExistingKeepsKeys | engine/ecs/world.py:55 | overwriting an existing entry adds and removes no entry |
| Ecs.Invalidated | engine/ecs/world.py:88-95 | exactly the cached views whose key contains the kind are dropped; all others survive as the same objects |
| Ecs.World.InvalidateViewsInvolving | engine/ecs/world.py:88-95 | the cache after the deletion loop equals `Invalidated(old cache, k)` |
| Ecs.World.RemoveComponent | engine/ecs/world.py:58-62 | an absent entry changes nothing and invalidates nothing; a present one is removed alone and the dependent views are dropped |
| Stores.RemoveFrom | engine/ecs/world.py:58-62 | after removal (k, e) has no entry; every other entry is unchanged; an absent entry leaves the stores equal |
| Stores.Del | engine/ecs/world.py:61 | `pop` removes the key from both the map and the order |
| Stores.Without | engine/ecs/world.py:61 | the order without the key keeps every other key, stays duplicate-free, and is unchanged when the key was absent |
| Stores.DelWellFormed | engine/ecs/world.py:61 | removing keeps a store well formed |
| Stores.RemoveFromValid | engine/ecs/world.py:58-62 | removing keeps every store well formed |
| Ecs.World.GetComponents | engine/ecs/world.py:64-66 | an unseen kind gets an empty store, which is returned; a seen kind's store is returned unchanged; no entry changes |
| Ecs.World.View | engine/ecs/world.py:71-86 | the same ordered tuple returns the same cached object; a new tuple gets a fresh view with no pass, cached under exactly that tuple |
| Ecs.World.Replace | engine/game/systems/falling_system.py:34-41 | a system's in-place field assignment overwrites the entry, keeps the store order and drops no view |
| Ecs.World.QueueCommand | engine/ecs/world.py:100-102 | the command is appended to the back of the queue |
| Ecs.ApplyCreate | engine/ecs/world.py:120-130 | `_apply_create_entity` on the kernel state; no contract of its own: ApplyCreateSpec, ApplyCreateFrame, ApplyCreateOutside and ApplyCreateCounts state it |
| Ecs.World.ApplyCreateEntity | engine/ecs/world.py:120-130 | one id (the old counter) is allocated and every bundle value is added to it in order: the new state is `ApplyCreate(old, bundle)` |
| Ecs.Flush | engine/ecs/world.py:104-118 | `flush_commands` on the kernel state, with `cmd.entity` read for a destroy; no contract of its own: FlushOutcome, FlushCounts, FlushDestroy and FlushOneCreate state it |
| Ecs.World.FlushCommands | engine/ecs/world.py:104-118 | the queue is drained front to back: the final state, remaining queue and outcome are `Flush(old state, old queue)` |
| EcsFacts.FlushOutcome | engine/ecs/world.py:104-118 | a flush passes iff no command is unknown, and then leaves the queue empty; otherwise it raises TypeError with exactly the commands after the first unknown one left |
| EcsFacts.FlushCounts | engine/ecs/world.py:110-118 | the counter rises by one per create applied, and the stores stay well formed |
| EcsFacts.FlushOneCreate | engine/ecs/world.py:110-113 | flushing a lone create command applies it and passes |
| EcsFacts.FlushKeepsFresh | engine/ecs/world.py:110-118 | a flush keeps unallocated ids unused |
| EcsFacts.FirstUnknown | engine/ecs/world.py:117-118 | the position of the first unknown command, with no unknown command before it, or none at all |
| EcsFacts.ApplyCreateSpec | engine/ecs/world.py:120-130 | a create takes exactly one fresh id; that entity holds, per kind, the last bundle value of that kind; other entities are unchanged; the surviving views are those no bundle kind touches |
| EcsFacts.ApplyCreateFrame | engine/ecs/world.py:120-130 | a create takes one id and changes no entry of any other entity |
| EcsFacts.ApplyCreateKeepsValid | engine/ecs/world.py:120-130 | a create keeps every store well formed |
| EcsFacts.ApplyCreateOutside | engine/ecs/world.py:127-129 | on the new entity, every kind outside the bundle's kinds keeps its entry |
| EcsFacts.ApplyCreateKeepsFresh | engine/ecs/world.py:127-129 | a create keeps unallocated ids unused |
| EcsFacts.AddStepKeepsFresh | engine/ecs/world.py:52-56 | adding a component to an allocated id keeps unallocated ids unused |
| EcsFacts.ApplyCreateCounts | engine/ecs/world.py:120-130 | a create raises the counter by exactly one and keeps the stores well formed |
| EcsFacts.AddAllSpec | engine/ecs/world.py:127-130 | adding a bundle to one entity changes only that entity, leaving per kind the last value of that kind, and drops exactly the views a bundle kind touches |
| EcsFacts.LastOfKind | engine/ecs/world.py:127-130 | the value `add_component` leaves for a kind is a bundle value of that kind, and there is none iff no bundle value has that kind |
| EcsFacts.LastOfKindCons | engine/ecs/world.py:127-130 | read from the front, a later value of the kind wins over the head |
| EcsFacts.ApplyCreateDistinct | engine/ecs/world.py:120-130 | with distinct kinds, every bundle value ends up on the new entity |
| EcsFacts.ApplyCreateAt | engine/ecs/world.py:120-130 | one value of a distinct-kind bundle is then found on the new entity |
| EcsFacts.LastOfDistinct | engine/ecs/world.py:127-130 | with distinct kinds, the last value of an item's kind is that item's value |
| EcsFacts.FlushDestroy | engine/ecs/world.py:116 | a flushed destroy command removes the entity from every store and leaves every other entity and the counter unchanged |
| Ecs.DestroyTargetAsWrittenFails | engine/ecs/world.py:116 | the attribute read as written (`entity_id`) does not exist on a destroy command, which only has `entity` |
| Ecs.FlushAsWritten | engine/ecs/world.py:110-118 | `flush_commands` exactly as written: it passes iff every queued command is a create, and then leaves the queue empty |
| EcsFacts.FlushAsWrittenAgrees | engine/ecs/world.py:110-118 | on a queue with no destroy command the flush as written equals the intended `Flush` |
| EcsFacts.FlushAsWrittenStops | engine/ecs/world.py:110-116 | as written, the first destroy command raises AttributeError("entity_id"): the creates before it are applied, the destroy is popped and lost, and every later command stays queued |
| EcsFacts.FlushAsWrittenDiffers | engine/ecs/world.py:110-118 | on a lone destroy command the flush as written fails and leaves the stores as they were, while the intended flush passes and removes the entity |
| Ecs.View.constructor | engine/ecs/view.py:20-23 | a view remembers its world and ordered kinds and has no pass in progress |
| Ecs.View.Iter | engine/ecs/view.py:28-34 | `iter` always starts a fresh pass over the first kind's store order |
| Ecs.View.Next | engine/ecs/view.py:36-44 | `next` starts a pass if none is in progress, then yields the next walked entity holding every kind, with its components read now; a finished pass stays finished |
| Ecs.NextMatch | engine/ecs/view.py:59-80 | the yielded item is the first entity the pass still owes and the ids left owe exactly the rest; nothing is yielded iff nothing is owed |
| Stores.Filter | engine/ecs/view.py:67-80 | the walked ids holding every kind, in walk order, with no duplicates added |
| Stores.RowOf | engine/ecs/view.py:70-78 | the yielded components are one per listed kind, in the listed order, each the current store value |
| Stores.ViewIds | engine/ecs/view.py:55-80 | the ids one pass yields; no contract of its own: ViewIdsSpec and FilterIsSubseq state it |
| Stores.ViewIdsSpec | engine/ecs/view.py:55-80 | a pass over no kinds yields nothing; otherwise it yields exactly the entities holding every kind, each once, as a subsequence of the first kind's store order |
| Stores.FilterIsSubseq | engine/ecs/view.py:64-80 | a pass yields its ids in the first kind's order |
| Stores.SubseqSkip | engine/ecs/view.py:64-67 | a subsequence of the tail is a subsequence of the whole |
| Stores.SubseqTail | engine/ecs/view.py:64-67 | dropping the first element keeps a subsequence |
| Scheduling.Scheduler.constructor | engine/scheduling/scheduler.py:20-26 | a new scheduler has exactly the four phases, each with no systems |
| Scheduling.EmptyTableComplete | engine/scheduling/scheduler.py:21-26 | the initial table has an entry for every phase |
| Scheduling.ParsePhase | engine/scheduling/scheduler.py:34-35 | a name is accepted iff it is one of the four phase names |
| Scheduling.ChosenPhase | engine/scheduling/scheduler.py:33 | a non-empty argument wins, else the system's own phase attribute, else "logic" |
| Scheduling.Scheduler.AddSystem | engine/scheduling/scheduler.py:28-36 | an unknown phase raises ValueError and registers nothing; a known one appends the system to that phase only |
| Scheduling.Scheduler.Update | engine/scheduling/scheduler.py:41-49 | the call trace is `UpdateTrace` of the table |
| Scheduling.Scheduler.Render | engine/scheduling/scheduler.py:51-53 | the call trace is `RenderTrace` of the table |
| Scheduling.UpdateTrace | engine/scheduling/scheduler.py:41-49 | the call trace of one `update`; no contract of its own: UpdateTraceSpec and DoneUpdate state it |
| Scheduling.UpdateTraceSpec | engine/scheduling/scheduler.py:41-49 | update runs each update phase's systems in registration order, phases never interleave, never a render system, and ends with the only flush |
| Scheduling.RenderTrace | engine/scheduling/scheduler.py:51-53 | the call trace of one `render`; no contract of its own: RenderTraceSpec states it |
| Scheduling.RenderTraceSpec | engine/scheduling/scheduler.py:51-53 | render runs exactly the render systems in order and never flushes |
| Scheduling.Runs | engine/scheduling/scheduler.py:44-45 | running a phase produces one step per system, in order |
| Scheduling.DoneSnoc | engine/scheduling/scheduler.py:43-49 | running one more phase appends that phase's steps (and the flush after post_update) |
| Scheduling.DoneUpdate | engine/scheduling/scheduler.py:41-49 | the three update phases in order give the update trace |
| Scheduling.RunsInAppend | engine/scheduling/scheduler.py:43-45 | the systems run in a phase distribute over concatenated traces |
| Scheduling.RunsInRuns | engine/scheduling/scheduler.py:44-45 | one phase's steps run exactly its systems in that phase and nothing in any other |
| Resources.ResourceStore.constructor | engine/resources/store.py:19-20 | a new registry is empty |
| Resources.Registered | engine/resources/store.py:22-25 | `register` on the item map; no contract of its own: RegisterSpec states it |
| Resources.ResourceStore.Register | engine/resources/store.py:22-25 | the new map and outcome are `Registered(old, key, value)` |
| Resources.RegisterSpec | engine/resources/store.py:22-25 | register succeeds iff the key is fresh, then holds the value; on a taken key it raises KeyError and the map is unchanged; no other key changes |
| Resources.ResourceStore.Set | engine/resources/store.py:27-29 | set puts the value under the key and changes no other key |
| Resources.SetThenGet | engine/resources/store.py:27-32 | get after set returns the value set; other keys read as before |
| Resources.Get | engine/resources/store.py:31-32 | `get` on the item map; no contract of its own: GetAgreesWithTryGet and SetThenGet state it |
| Resources.ResourceStore.Lookup | engine/resources/store.py:31-32 | get returns the stored value, or KeyError for an absent key |
| Resources.TryGet | engine/resources/store.py:34-35 | `try_get` on the item map; no contract of its own: GetAgreesWithTryGet states it |
| Resources.ResourceStore.TryLookup | engine/resources/store.py:34-35 | try_get returns the stored value, else the default |
| Resources.GetAgreesWithTryGet | engine/resources/store.py:31-35 | get raises exactly on absent keys, and try_get falls back to the default exactly then |
| Events.EventBus.constructor | engine/events/bus.py:16-18 | a new bus has no subscriptions |
| Events.EventBus.Subscribe | engine/events/bus.py:20-21 | the subscriptions become `Subscribed(old, t, cb)` |
| Events.Subscribers | engine/events/bus.py:24 | `_subs.get(type, [])`; no contract of its own: Subscribed, SubscribeTwice and NoSubscribers state it |
| Events.Subscribed | engine/events/bus.py:20-21 | the callback is appended to that exact type's list; every other type's list is unchanged |
| Events.EventBus.Publish | engine/events/bus.py:23-26 | it invokes exactly the subscribers of the event's type, in subscription order |
| Events.SubscribeTwice | engine/events/bus.py:20-26 | a callback subscribed twice is invoked twice more per publish; other types are unaffected |
| Events.NoSubscribers | engine/events/bus.py:24 | publishing a type nobody subscribed to invokes nothing |
| Events.OccurrencesSnoc | engine/events/bus.py:21 | appending a callback adds one occurrence of it and none of any other |
| Fsm.StateNamed | engine/game/systems/fish_fsm_system.py:133-136 | a name resolves to a state iff it is "idle" or "cruise", and to the state of that name |
| Fsm.IdleEnter | engine/game/fsm/idle_state.py:24-36 | entering idle restarts the timer, arms the configured duration and zeroes the intent, leaving the state name alone |
| Fsm.EnterIdle | engine/game/fsm/idle_state.py:33-36 | entering idle draws nothing, stops the fish and arms the configured duration |
| Fsm.StateUpdate | engine/game/fsm/idle_state.py:49-51 | idle asks for cruise (and cruise for idle, cruise_state.py:78-80) iff the timer has reached the duration |
| Fsm.PickSpeed | engine/game/fsm/cruise_state.py:34-47 | `_pick_speed`; no contract of its own: CruiseEnterSpec states it |
| Fsm.CruiseEnter | engine/game/fsm/cruise_state.py:49-66 | `CruiseState.on_enter`; no contract of its own: CruiseEnterSpec states it |
| Fsm.CruiseEnterSpec | engine/game/fsm/cruise_state.py:49-66 | entering cruise restarts the timer with a duration in the configured range; the speed is the default unless the species has a two-element range, and then lies in it; the intent's squared length is the squared speed |
| Fsm.OnEnter | engine/game/systems/fish_fsm_system.py:153-157 | `on_enter` dispatched to the idle or cruise state; no contract of its own: TickInitialised states it, and EnterIdle and CruiseEnterSpec state the idle and cruise branches it reaches through `Enter` |
| Fsm.OnExit | engine/game/fsm/cruise_state.py:82-92 | `on_exit`, which neither state gives any effect (idle_state.py:53-63 too); no contract of its own: TickInitialised states the exit step through it |
| Fsm.Enter | engine/game/systems/fish_fsm_system.py:89-103 | entering runs the named state's `on_enter`; an unknown name is replaced by "idle"; the timer is 0 afterwards |
| Fsm.FirstReaching | engine/game/systems/fish_fsm_system.py:117-121 | the first position whose running sum reaches the draw, with no earlier one reaching it, or none |
| Fsm.PickStart | engine/game/systems/fish_fsm_system.py:105-122 | `_pick_start_state`; no contract of its own: PickStartSpec, PickExamples and the method PickStartState state it |
| Fsm.PickStartState | engine/game/systems/fish_fsm_system.py:105-122 | the summing and accumulating loops compute `PickStart(weights, stream)` |
| Fsm.PickStartSpec | engine/game/systems/fish_fsm_system.py:105-122 | "idle" for no weights and the first name when the total is at most 0, both without a draw; otherwise one draw in [0, total] picks the first name whose running sum reaches it, else the last; the result is always a configured name |
| Fsm.PickExamples | engine/game/systems/fish_fsm_system.py:116-121 | with {idle: 1, cruise: 0} the pick is "idle"; with {idle: 0, cruise: 1} it is "cruise" exactly when the draw is positive |
| Fsm.Tick | engine/game/systems/fish_fsm_system.py:124-157 | one fish's turn in the driver's loop; no contract of its own: TickKnownState, TickInitialised and TickUnknownState state it |
| Fsm.TickKnownState | engine/game/systems/fish_fsm_system.py:124-157 | after a tick the brain is initialised and names a registered state |
| Fsm.TickInitialised | engine/game/systems/fish_fsm_system.py:131-157 | the timer advances by exactly dt; staying changes nothing else and draws nothing; leaving switches to the other state, exits (a no-op), zeroes the timers and enters the new state |
| Fsm.TickUnknownState | engine/game/systems/fish_fsm_system.py:133-136 | an unregistered state name is treated as idle from this tick on |
| FsmSystem.TickAll | engine/game/systems/fish_fsm_system.py:124-157 | the driver's loop over a list of entities; no contract of its own: TickAllSpec and the method Update state it |
| FsmSystem.Update | engine/game/systems/fish_fsm_system.py:124-157 | the driver's loop writes back, for each fish of the view in order, the ticked brain and intent: the result is `TickAll` over the view |
| FsmSystem.TickAllSpec | engine/game/systems/fish_fsm_system.py:124-157 | every listed fish's new mind is one `Tick` of its own old mind (for the random stream at its turn), so it ends initialised in a registered state, with its Fish kept; nothing outside the list and no kind besides Brain and MovementIntent changes; no entry is added or removed |
| FsmSystem.UpdateInitialisesEveryFish | engine/game/systems/fish_fsm_system.py:125-129 | after one update every fish the view yields is initialised and in a registered state |
| FsmSystem.ViewMindPresent | engine/game/systems/fish_fsm_system.py:125 | every entity the (Fish, Brain, MovementIntent) view yields has all three records |
| FsmSystem.MindPresent | engine/game/systems/fish_fsm_system.py:125 | an entity with all three entries has a fish and a mind |
| FsmSystem.StoreMindSpec | engine/game/systems/fish_fsm_system.py:126-157 | writing the mind back overwrites only that entity's Brain and MovementIntent and keeps its Fish |
| Movement.LogicalSize | engine/game/systems/movement_system.py:40-43 | logical_size, else screen_size, else (800, 600) |
| Movement.AreaFor | engine/game/systems/movement_system.py:76-92 | when the entity's InTank names a tank that has TankBounds, the area is that tank's rectangle; in every other case it is [0, W] x [0, H] |
| Movement.Drive | engine/game/systems/movement_system.py:63-71 | an intent's target overwrites the velocity; with bobbing the clock advances by dt and the term is added to vy |
| Movement.Bounce | engine/game/systems/movement_system.py:110-115 | inside the range nothing changes; an overshoot is clamped to the edge crossed and the speed negated; with lo <= hi the result is in range |
| Movement.Floor | engine/game/systems/movement_system.py:118-128 | the top edge bounces; the floor stops and grounds a stop-on-floor entity with both speeds zeroed and bounces any other |
| Movement.Step | engine/game/systems/movement_system.py:52-128 | one entity's turn in the movement loop; no contract of its own: StepFrozen, StepMoving, StepContained and StepKeepsParts state it |
| Movement.StepFrozen | engine/game/systems/movement_system.py:53-58 | a grounded stop-on-floor entity only has its velocity zeroed |
| Movement.StepMoving | engine/game/systems/movement_system.py:63-128 | the driven velocity is integrated over dt before any clamp; an axis in range keeps the integrated coordinate; with no bound hit the velocity is the driven one; the floor stop grounds |
| Movement.StepContained | engine/game/systems/movement_system.py:95-128 | when the area fits the sprite, the new position lies in [min_x, max_x] x [min_y, max_y] |
| Movement.StepKeepsParts | engine/game/systems/movement_system.py:53-128 | a step never adds or drops a Falling or Bobbing record |
| Movement.MoveAll | engine/game/systems/movement_system.py:52-128 | the movement loop over a list of entities; no contract of its own: MoveAllSpec, UpdateKeepsTankBodiesInside and the method Update state it |
| Movement.Update | engine/game/systems/movement_system.py:33-128 | the loop moves every entity of the (Position, Velocity, RectSprite) view in order, with the fallback area sized by `LogicalSize` of the logical_size and screen_size resources: the result is `MoveAll` over the view |
| Movement.MoveEntity | engine/game/systems/movement_system.py:53-128 | one yielded entity's entries become `MoveOne` of the old stores |
| Movement.MoveAllSpec | engine/game/systems/movement_system.py:52-128 | each listed entity moves once by `Step` on its own original row, intent and bounds; unlisted entities and unwritten kinds are unchanged |
| Movement.SameRowSameBody | engine/game/systems/movement_system.py:63-92 | stores agreeing on an entity and on all tank bounds give it the same body, intent and bounds |
| Movement.UpdateKeepsTankBodiesInside | engine/game/systems/movement_system.py:52-128 | after an update, every view entity that was not landed and is in a tank whose TankBounds fit its sprite lies within that tank's rectangle |
| MoveRows.WriteBodySpec | engine/game/systems/movement_system.py:103-128 | writing a step's result back changes only the entity's Position, Velocity, Falling and Bobbing, and reading them gives the new body |
| MoveRows.WriteBodyLookup | engine/game/systems/movement_system.py:103-128 | every entry after the write-back is given in closed form |
| MoveRows.WriteBodyValid | engine/game/systems/movement_system.py:103-128 | the write-back keeps the stores well formed |
| MoveRows.BodyAfterWrite | engine/game/systems/movement_system.py:103-128 | stores holding the written entries give back the new body and the old sprite |
| MoveRows.WriteMotionLookup | engine/game/systems/movement_system.py:103-115 | writing position and velocity changes exactly those two entries |
| MoveRows.WriteFallingLookup | engine/game/systems/movement_system.py:124-127 | writing the Falling record changes that entry alone |
| MoveRows.WriteBobLookup | engine/game/systems/movement_system.py:68-71 | writing the Bobbing record changes that entry alone |
| MoveRows.ComposeWritten | engine/game/systems/movement_system.py:103-128 | the three writes compose to the closed form |
| Gravity.DefaultsOf | engine/game/systems/falling_system.py:18-20 | absent configuration keys fall back to gravity 0, terminal velocity 0 and stop-on-floor true |
| Gravity.Clamp | engine/game/systems/falling_system.py:37-41 | under downward gravity vy is capped at term, under upward gravity floored at -term; a non-positive term disables the clamp |
| Gravity.Fall | engine/game/systems/falling_system.py:25-41 | one entity's turn in the falling loop; no contract of its own: FallSpec and FallTerminalExample state it |
| Gravity.FallSpec | engine/game/systems/falling_system.py:25-41 | a landed stop-on-floor entity is left alone; otherwise vx is kept, vy gets g*dt with overrides winning over defaults, then the clamp, and stop-on-floor is no longer None |
| Gravity.FallTerminalExample | engine/game/systems/falling_system.py:37-39 | gravity 10 and terminal velocity 5 over one second from rest give vy = 5 |
| Gravity.FallAll | engine/game/systems/falling_system.py:23-41 | the falling loop over a list of entities; no contract of its own: FallAllSpec, UpdateCapsDownwardSpeed and the method Update state it |
| Gravity.Update | engine/game/systems/falling_system.py:23-41 | the loop steps every entity of the (Velocity, Falling) view in order: the result is `FallAll` over the view |
| Gravity.FallEntity | engine/game/systems/falling_system.py:25-41 | one yielded entity's entries become `FallOne` of the old stores |
| Gravity.WriteFallSpec | engine/game/systems/falling_system.py:34-41 | writing back changes only that entity's Velocity and Falling |
| Gravity.FallAllSpec | engine/game/systems/falling_system.py:23-41 | each listed entity is stepped once from its own original values; every other entity and kind is unchanged |
| Gravity.UpdateCapsDownwardSpeed | engine/game/systems/falling_system.py:37-39 | after an update no stepped entity under downward gravity with a positive terminal velocity falls faster than it |
| Population.FishCount | engine/game/rules/population.py:10-18 | what `count_fish_in_tank` returns; no contract of its own: CountSpec and the method CountFishInTank state it |
| Population.CountFishInTank | engine/game/rules/population.py:10-18 | the `for` pass over the (Fish, InTank) view, driven through `Iter` and `Next`, computes `FishCount`, the linked entities of the view; no entry changes; the view cache gains the (Fish, InTank) view when none was cached (engine/ecs/world.py:81-85); that view's pass ends exhausted and no other cached view's pass changes |
| Population.CountSpec | engine/game/rules/population.py:10-18 | the count is the number of entities holding Fish whose InTank names the tank |
| Population.CountLinkedSet | engine/game/rules/population.py:14-18 | counting over a duplicate-free list counts the set of linked entities |
| Population.TouchSpec | engine/game/rules/population.py:26 | touching the Tank store changes no entry and no count |
| Population.CanSpawnFishInTank | engine/game/rules/population.py:20-32 | no Tank record means no cap; otherwise the answer is count < max_fish; the Tank store is touched, and only a tank with a record also caches the count's view, whose pass ends exhausted |
| Population.Spawn | engine/game/rules/population.py:34-58 | `spawn_fish_in_tank_if_allowed` on the kernel state; no contract of its own: SpawnDisallowed, SpawnAllowed, SpawnElsewhere and SpawnKeepsCap state it |
| Population.SpawnFishInTankIfAllowed | engine/game/rules/population.py:34-58 | the new state and result are `Spawn` of the old state |
| Population.SpawnDisallowed | engine/game/rules/population.py:50-51 | a disallowed spawn returns None and changes no entry and no id; the view cache gains only the (Fish, InTank) view the count requested |
| Population.SpawnAllowed | engine/game/rules/population.py:53-58 | an allowed spawn returns the new id, links it to the tank, and the count rises by exactly one |
| Population.TankFishGains | engine/game/rules/population.py:53-58 | a fish created and linked at a fresh id enlarges the tank's fish set by exactly that id |
| Population.SpawnedEntity | engine/game/rules/population.py:53-58 | the spawned fish is linked, no other entity changes, the stores stay well formed, and unallocated ids stay unused |
| Population.SpawnedTanks | engine/game/rules/population.py:53-58 | an allowed spawn changes no Tank record |
| Population.TankFishAtMost | engine/game/rules/population.py:53-58 | when only the new id changes and it is linked to one tank, no other tank gains a fish and that tank gains at most the new id |
| Population.TankFishOther | engine/game/rules/population.py:53-58 | when the new id had no entries and is linked to one tank, every other tank keeps exactly its fish |
| Population.SpawnElsewhere | engine/game/rules/population.py:34-58 | a spawn attempt into one tank leaves every other tank's fish set and count unchanged |
| Population.SameEntriesSameFish | engine/game/rules/population.py:10-18 | stores with the same entries give every tank the same fish |
| Population.LinkNewEntity | engine/game/rules/population.py:57 | the link touches only the new entity's InTank entry and keeps unallocated ids unused |
| Population.SpawnKeepsCap | engine/game/rules/population.py:31-32 | if every capped tank is at or below max_fish, one spawn attempt into any tank keeps every capped tank there, changes no Tank record, keeps the stores well formed and keeps unallocated ids unused |
| Population.SameTankEntriesSameCaps | engine/game/rules/population.py:26-27 | stores with the same Tank entries give every tank the same cap |
| Population.LinkKeepsCaps | engine/game/rules/population.py:31-32 | linking one new fish to a tank that is under its cap keeps every capped tank at or below its cap |
| Population.SameEntriesKeepCaps | engine/game/rules/population.py:50-51 | a step that changes no entry keeps every cap and keeps every capped tank at or below it |
| Population.SpawnAllKeepsCap | engine/game/rules/population.py:50-51 | any sequence of spawns, each into its own tank, keeps every capped tank at or below max_fish and changes no cap |
| Placement.FirstHit | engine/game/systems/placement_system.py:24-28 | the first entity in view order whose closed rectangle contains the point, with its bounds, or none when no rectangle does |
| Placement.PlacementSystem.FindTankAt | engine/game/systems/placement_system.py:24-28 | the loop returns `FirstHit` over the (Tank, TankBounds) view |
| Placement.ClampInto | engine/game/systems/placement_system.py:42-44 | when the tank is at least pellet-sized the result lies in [lo, lo + span - size]; a value already in range is unchanged |
| Placement.PlacementSystem.constructor | engine/game/systems/placement_system.py:15-19 | nothing is buffered and the click callback is subscribed to ClickWorld |
| Placement.PlacementSystem.OnClick | engine/game/systems/placement_system.py:21-22 | the click is appended to the buffer |
| Placement.QueuedFor | engine/game/systems/placement_system.py:38-47 | the commands one click queues; no contract of its own: QueuedSnoc, OneClick (a one-click list) and the method HandleClick state it |
| Placement.PlacementSystem.HandleClick | engine/game/systems/placement_system.py:37-47 | one click appends its queued commands to the world's queue |
| Placement.Queued | engine/game/systems/placement_system.py:37-47 | the commands a list of clicks queues, in order; no contract of its own: QueuedArePellets, QueuedAppend and the method Update state it |
| Placement.PlacementSystem.Update | engine/game/systems/placement_system.py:30-47 | the buffer is emptied and the queue gains `Queued` of the buffered clicks, in click order; nothing is applied |
| Placement.QueuedSnoc | engine/game/systems/placement_system.py:37-47 | one more click appends that click's commands |
| Placement.QueuedAppend | engine/game/systems/placement_system.py:37-47 | clicks are handled one by one, in order |
| Placement.OneClick | engine/game/systems/placement_system.py:38-47 | a miss queues nothing; a hit queues one pellet for that tank at the clamped point, inside the tank when it fits, at the click when that fits |
| Placement.QueuedArePellets | engine/game/systems/placement_system.py:46-47 | every queued command creates a pellet, at most one per click |
| Factories.CreatePelletCmd | engine/game/factories/pellet_factory.py:12-26 | a create command whose bundle holds exactly Position, RectSprite, InTank and Pellet, each once under its own kind |
| Factories.PelletFlushSpec | engine/game/factories/pellet_factory.py:12-26 | flushing it allocates one id holding Position (x, y), a size-by-size sprite, InTank(tank) and Pellet(size); every other kind on that id and every other entity are unchanged |
| Factories.PelletBundleSpec | engine/game/factories/pellet_factory.py:12-26 | applying the pellet bundle puts those four components on the new id |
| Factories.PelletBundleFrame | engine/game/factories/pellet_factory.py:12-26 | applying the pellet bundle takes one id and changes no other kind on it and no other entity |
| Factories.FishSprite | engine/game/factories/fish_factory.py:52-56 | an unknown species or an entry lacking width, height or color is a KeyError; otherwise the sprite comes from the entry |
| Factories.CreateFish | engine/game/factories/fish_factory.py:33-67 | a failed lookup raises before any id is taken; otherwise one id is allocated and the six components are added |
| Factories.FishBundleSpec | engine/game/factories/fish_factory.py:58-67 | the new fish holds Position (x, y), zero Velocity, the species sprite, Fish(species), the default Brain and a zero MovementIntent; every other kind on that id and every other entity are unchanged |
| Factories.FishBundleDistinct | engine/game/factories/fish_factory.py:59-65 | the six components have six different kinds |
| Factories.FishBundleBody | engine/game/factories/fish_factory.py:59-62 | the new fish holds the given position, zero velocity and the sprite |
| Factories.FishBundleMind | engine/game/factories/fish_factory.py:63-65 | the new fish holds Fish(species), Brain("idle", 0, 0, not initialised) and a zero intent |
| Factories.CreateTank | engine/game/factories/tank_factory.py:39-58 | one id is allocated and the Tank and TankBounds are added to it |
| Factories.TankBundleSpec | engine/game/factories/tank_factory.py:55-58 | the new tank holds exactly Tank(tank_id, max_fish) and TankBounds(x, y, width, height); no other entity or kind changes |
| Dump.AnyPrefix | export_llm.py:131-135 | true iff the path equals a prefix or starts with that prefix and "/" |
| Dump.SkipIsDirectoryTest | export_llm.py:131-135 | the tests directory and everything under it is skipped; "engine/testsX" is not |
| Dump.NotSkipped | export_llm.py:131-135 | a path not starting like the tests directory is never skipped |
| Dump.LastDot | export_llm.py:149 | the last dot of the name, or -1 |
| Dump.Suffix | export_llm.py:149 | the suffix is non-empty exactly when the name has a last dot that neither starts nor ends it; it is then the name from that dot on, with no other dot |
| Dump.Lower | export_llm.py:149 | lowercasing maps each character and keeps the length |
| Dump.ShouldDumpContent | export_llm.py:138-158 | `should_dump_content`; no contract of its own: ShouldDumpSpec, TestsReadmeNotDumped, UpperMediaNotDumped and UpperTextDumped state it |
| Dump.ShouldDumpSpec | export_llm.py:138-158 | nothing under the skipped directory is dumped; outside it always-included names are dumped; any other file is dumped iff its lowercased suffix is a text suffix |
| Dump.SuffixSetsDisjoint | export_llm.py:36-74 | no text suffix is also a media or an ignored suffix |
| Dump.UpperMediaSuffix | export_llm.py:149 | "IMG.PNG" has lowercased suffix ".png" |
| Dump.UpperMediaNotDumped | export_llm.py:149-151 | an upper-case media name is not dumped |
| Dump.UpperTextDumped | export_llm.py:149-155 | an upper-case text name is dumped |
| Dump.TestsReadmeNotDumped | export_llm.py:141-147 | an always-included name under the tests directory is not dumped |
| Dump.LessIrreflexive | export_llm.py:188 | string order is irreflexive |
| Dump.LessTransitive | export_llm.py:188 | string order is transitive |
| Dump.LessTotal | export_llm.py:188 | any two different strings are ordered |
| Dump.Insert | export_llm.py:188 | insertion keeps the list strictly sorted and adds exactly the new element |
| Dump.SortEntries | export_llm.py:188 | `sorted` of a set is strictly increasing and holds exactly the set's elements |
| Dump.SortedUnique | export_llm.py:188 | a set has exactly one strictly sorted listing |
| Dump.BuildTree | export_llm.py:161-188 | the lines start with "TREE" and then list exactly the collected entries, sorted and without duplicates |
| Dump.CollectedSpec | export_llm.py:176-186 | the entries are ".", every file path and every proper directory prefix of a file, and nothing else |
| Dump.Walked | export_llm.py:198-205 | the three ignore tests of the main loop; no contract of its own: SelectTreeSpec states it |
| Dump.Select | export_llm.py:197-208 | the tree and content lists the main loop builds; no contract of its own: SelectTreeSpec, SelectContentSpec, SelectSpec and the method SelectFiles state it |
| Dump.SelectFiles | export_llm.py:197-208 | the filtering loop computes `Select` of the file list |
| Dump.SelectTreeSpec | export_llm.py:197-206 | the tree files are exactly the listed files with no ignored name, directory part or suffix |
| Dump.SelectContentSpec | export_llm.py:206-208 | the content files are the tree files that pass the content test, in the same order |
| Dump.DumpedOfSpec | export_llm.py:207-208 | a file's content is listed iff it is listed and passes the content test |
| Dump.SelectSpec | export_llm.py:197-208 | the content list holds exactly the walked files that pass the content test, so it is within the tree list |
| Rand.Uniform | engine/game/systems/fish_fsm_system.py:116 | `uniform(a, b)` with a valid stream takes one draw and lies between the bounds, in either order |
| Rand.Between | engine/game/fsm/cruise_state.py:58-60 | `a + (b - a) * u` with u in [0, 1] lies between a and b |
| Rand.ScaleBounds | engine/game/fsm/cruise_state.py:58-60 | scaling by u in [0, 1] stays between 0 and the scaled value |
| Rand.DrawDir | engine/game/fsm/cruise_state.py:62-64 | the heading takes one draw and, with a valid stream, is a unit vector |
| Rand.ValidAdvance | engine/game/fsm/cruise_state.py:58-66 | a valid stream stays valid after draws |

## Left out

- **FSM construction.** The constructor of the FSM driver is not modelled (fish_fsm_system.py:12-86).
  - It passes keyword arguments that the shown states do not accept (idle_state.py:21, cruise_state.py:24-29).
  - It imports constants missing from engine/app/constants.py.
  - It parses configuration and seeds its RNG.
  
  The states are instead configured by `Fsm.FsmConfig`: start weights, idle duration, cruise range, species table and default speed.
- **Transition weights and cruise retargeting** appear only in that constructor's arguments. They are not modelled.
- **Falling configuration.** Parsing the falling-config dict is not modelled, including the `float()`/`bool()` conversions and their errors. `Gravity.DefaultsOf` takes the already-converted values.
- **A stored `None` counts as missing** in a view pass (view.py:72-75). This is not modelled, because stores here only hold component values.
- **View-cache side effects inside systems.** The FSM driver (`FsmSystem.Update`, fish_fsm_system.py:125), the movement system (`Movement.Update`), the falling system (`Gravity.Update`) and the placement search (`Placement.PlacementSystem.FindTankAt`) iterate `Stores.ViewIds` directly. Two effects of their `world.view(...)` calls are not modelled: the cache entry the call creates, and the pass state the `for` loop leaves on the cached view (view.py:28-44). A full loop leaves the view's pass exhausted. `_find_tank_at`'s early return (placement_system.py:25) leaves it part-way. A later `next()` on that view without `iter()` would continue that pass. The population rules do model both effects: `Population.CountFishInTank` caches the (Fish, InTank) view and runs its pass to the end through `Ecs.View.Iter` and `Ecs.View.Next`. None of these loops adds or removes a store entry during a pass.
- Ecs.View.Next: walks the first store's key order as it stood when the pass started. Python iterates the live dict and raises RuntimeError when that dict changes size during the pass; that error is not modelled.
- Movement.Update: `get_components` for InTank, TankBounds, MovementIntent, Falling and Bobbing (movement_system.py:46-50) also creates empty stores for kinds never seen. That changes no entry and is not modelled.
- Stores.ViewIds: a pass also creates empty stores for kinds never touched, through `get_components` (view.py:64, 71). That changes no entry and is not modelled.
- **Aliasing.** Two references to the same component object are not modelled. A field assignment is a store overwrite (`Ecs.World.Replace` or a direct stores write).
- **Trigonometry.** The bobbing `sin` term is the opaque parameter `Movement.MoveEnv.bobTerm`. The cruise heading's `cos`/`sin` of a uniform angle is the uninterpreted unit vector `Rand.Rng.dir`.
- **Python floats** are `real`s: no rounding, overflow or NaN.
- **`create_fish`'s `rng` parameter** is unused by the source and is not a parameter here.
- **Type conversions.** The `float()`/`tuple()` conversions of the species entry are not modelled. They could fail on a badly typed value; entries are typed here. A color of the wrong length is not modelled.
- **The `PlacementSystem` constructor's bus lookup.** It fetches the bus with `resources.get("events")`; here the bus is passed in and the callback is an id.
- **Re-entrant callbacks.** `EventBus.publish` returns the dispatch list; callbacks that subscribe during a publish are not modelled.
- **Dump script I/O.** `list_files`, file reading and writing, the initial sort of `main` by path, and the output text after the TREE section are left out (I/O).
- Dump.Lower: lowercases ASCII letters only, while Python's `str.lower` also folds other letters.
- Dump.Suffix: follows the `pathlib` suffix rule in which a name ending in a dot has no suffix.
- Resources.ResourceStore.Register: the KeyError message quotes the key in single quotes; `{key!r}` (store.py:24) switches to double quotes, or escapes characters, for some keys, and that is not modelled.
- Scheduling.Scheduler.AddSystem: the ValueError message quotes the name in single quotes; `repr`'s switch to double quotes for a name containing a single quote is not modelled.
- Fsm.CruiseEnterSpec: covers the two duration forms the source unpacks (a scalar, or a two-element range); a duration list of another length, which raises in the source, is not modelled.
- Rand.DrawDir: the angle itself is not modelled, only the unit direction it yields.
- **Concurrency, rendering, input, UI, debug systems, asset loading and configuration loading** are outside the kernel and not modelled.

## Findings

| source | as written | input that shows it | evidently intended | confidence | as-written member | corrected member |
|---|---|---|---|---|---|---|
| engine/ecs/world.py:116 | `flush_commands` (modelled as `Ecs.FlushAsWritten`) pops the command and then reads `cmd.entity_id` from a `DestroyEntityCmd` | a queue holding `DestroyEntityCmd(entity=5)`: as written the read raises AttributeError, since the dataclass has only `entity` (engine/ecs/commands.py:17); the entity is not destroyed and every later command stays queued (`EcsFacts.FlushAsWrittenStops`) | flushing a destroy command destroys `cmd.entity` | not executed | EcsFacts.FlushAsWrittenDiffers | EcsFacts.FlushDestroy |
