# Resource pool session tracking

A model of `ResourcePool`, the session-tracking engine of `shared-resource`. The pool follows the lifecycle signals of the asynchronous runtime (`init`, `before`, `after`, `destroy`). It keeps three pieces of state:

- `sessions`: maps the async id of a registered resource to that resource and its `refs`. The refs are the child ids created while the session was active.
- `subsessions`: maps a child async id to the id of the session that owns it.
- `activeSessionId`: the cursor that `getCurrentResource` reads.

The project has two modules:

- `PoolModel` (`pool_model.dfy`) holds the state as a value (`Pool`) and one step function per operation. It defines the invariant `Valid`: every link `k -> s` is non-zero, `s` is a live session, and `k` is in `s`'s refs. It also holds the lemmas about the operations.
- `ResourcePools` (`resource_pool.dfy`) holds the class `ResourcePool`. Its fields are the source's three fields. Its methods update them in place. Each method's postcondition equates the new `State()` with the step function applied to the old state. `Destroy` keeps the source's loop that deletes one ref's link at a time. `AsyncHooksScenario` replays the hook sequence from the pool's own test.

Modelling choices:

- Async ids are `nat`. The cursor is an `Option<nat>`, where `None` stands for `null`.
- The source tests ids by truthiness in two places: the cursor in `init` and the link value in `before`. There the id 0 is falsy, exactly as in JavaScript (`Truthy`).
- Session lookups always find a truthy object when the key exists, so those tests are plain key membership.
- `init` raises a TypeError when the cursor is truthy but names no session. `Init` reports this as `threw`. The link assignment comes before the failing read, so that assignment remains in the resulting state.
- `_register(resource)` takes the resource and its `asyncId()` value as two parameters.

What the code does that callers might not expect:

- An id can be a key of both maps. A resource whose own id was created inside another session's window is linked to that session and then registered; `before` then prefers its own session (`NestedRegistrationUsesBothMaps`).
- `init` raises when the cursor names a destroyed session (`StaleCursorInitThrows`). `destroy` keeps the cursor live unless it destroys the active session itself (`DestroyPreservesValid`).
- `destroy` removes the links keyed by the session's refs, and refs are never pruned. If an id is reused after being destroyed, destroying its old session also removes the new link it holds to another live session (`StaleRefRemovesForeignLink`). Under `Valid`, every link that points at the destroyed session goes (`DestroySessionCascades`).

## Model

| member | source | states |
|---|---|---|
| `PoolModel.EmptyPoolValid` | resource-pool.js:4-9 | the freshly constructed pool satisfies the map invariant, has a live (null) cursor and no current resource |
| `PoolModel.RegisterOverwrites` | resource-pool.js:43-48 | registering binds the id to exactly the new resource with empty refs, replacing any old entry; other sessions, the links and the cursor are unchanged |
| `PoolModel.RegisterPreservesValid` | resource-pool.js:43-48 | registering an id that is not yet a session keeps the map invariant and cursor liveness |
| `PoolModel.RegisterOverwriteBreaksValid` | resource-pool.js:43-48 | re-registering a session that owns a linked child drops the child from its refs and breaks the invariant |
| `PoolModel.InitInactiveIsNoOp` | resource-pool.js:14-19 | with a null or zero cursor, init neither throws nor changes the state |
| `PoolModel.InitLinksToActive` | resource-pool.js:14-19 | with a live active session s, init links the child to s and adds it to s's refs; all else is unchanged |
| `PoolModel.InitPreservesValid` | resource-pool.js:14-19 | under the invariant and a live cursor, init does not throw and keeps both |
| `PoolModel.StaleCursorInitThrows` | resource-pool.js:14-38 | once the active session is destroyed, the next init throws, with the link to the dead session already written |
| `PoolModel.BeforeResolvesOwner` | resource-pool.js:20-26 | before never touches the maps; a session id, or else a truthily linked id, moves the cursor to its owner, whose resource is current when the invariant holds; an untracked id leaves cursor and current resource as they were |
| `PoolModel.BeforeTruthinessIsMembership` | resource-pool.js:20-26 | under the invariant, before's truthiness test finds an owner exactly when the id is a session or a link key |
| `PoolModel.BeforePreservesValid` | resource-pool.js:20-26 | before keeps the map invariant and cursor liveness |
| `PoolModel.AfterClearsCurrent` | resource-pool.js:27-29 | after, whatever its id, clears the cursor so no resource is current, and leaves both maps and the invariant as they were |
| `PoolModel.CreatedChildResolvesToCreator` | resource-pool.js:14-29 | a child created in session s's window makes s's resource current when it later runs, after that window has closed |
| `PoolModel.DescendantInheritsOwner` | resource-pool.js:14-26 | ids created while a linked child runs are linked directly to the child's owner and recorded in its refs; the invariant holds |
| `PoolModel.DestroySessionCascades` | resource-pool.js:30-38 | destroying a session removes it and every link pointing at it; other sessions and links outside its refs are untouched |
| `PoolModel.DestroyChildRemovesOwnLink` | resource-pool.js:30-38 | destroying a non-session id removes only the link keyed by that id |
| `PoolModel.DestroyPreservesValid` | resource-pool.js:30-38 | destroy keeps the map invariant, and keeps the cursor live unless the destroyed id is the active session |
| `PoolModel.DestroyShrinks` | resource-pool.js:30-38 | destroy only removes keys, and always removes the destroyed id from both maps |
| `PoolModel.DestroyAllShrinks` | resource-pool.js:30-38 | after a sequence of destroys, only old keys not in the sequence remain |
| `PoolModel.DestroyAllEmpties` | resource-pool.js:30-38 | destroying, in any order, ids that cover every key leaves both maps empty |
| `PoolModel.StaleRefRemovesForeignLink` | resource-pool.js:14-38 | a destroyed child's stale ref lets destroying its old session remove the reused id's link to another live session |
| `PoolModel.NestedRegistrationUsesBothMaps` | resource-pool.js:14-48 | an id created in a session's window and then registered is a key of both maps, and before prefers its own session |
| `ResourcePools.ResourcePool.constructor` | resource-pool.js:4-9 | the pool starts with both maps empty and a null cursor |
| `ResourcePools.ResourcePool.Register` | resource-pool.js:43-48 | the new state is the register step of the old one |
| `ResourcePools.ResourcePool.Init` | resource-pool.js:14-19 | the new state is the init step, and `threw` is true exactly when the cursor is truthy but names no session |
| `ResourcePools.ResourcePool.Before` | resource-pool.js:20-26 | the new state is the before step of the old one |
| `ResourcePools.ResourcePool.After` | resource-pool.js:27-29 | the new state is the after step of the old one |
| `ResourcePools.ResourcePool.Destroy` | resource-pool.js:30-38 | the loop over refs followed by the deletions yields the destroy step of the old state |
| `ResourcePools.ResourcePool.GetCurrentResource` | resource-pool.js:50-55 | returns the cursor's session's resource exactly when the cursor is non-null and names a live session, and null otherwise |
| `ResourcePools.AsyncHooksScenario` | __tests__/resource-pool.js:40-62 | the test's hook sequence makes the resource current after before(1) and before(3), none after after(1) and before(4), leaves both maps empty, and no init call throws |

## Left out

- Installing the hooks through `async_hooks.createHook(...).enable()` is not modelled. It belongs to the host runtime. The four handlers are called directly as methods.
- `index.js` (`Resource`: `run`, `addTask`, `make`, `wrap`, `now`, `id`) is not part of this model. It schedules promise chains, and its uuids and `AsyncResource` signals come from the runtime. So run ordering, detached-task awaiting and error propagation are not stated.
- JavaScript's coercion of object keys to strings is not modelled. Ids are numbers, and the `null` cursor is never a key.
- Concurrency: the hook callbacks are taken to run one at a time, as the single-threaded runtime guarantees.
