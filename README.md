# vmpooler `POST /vm` checkout — a Dafny model

vmpooler keeps pools of pre-provisioned virtual machines and hands them out
on request. A caller posts a JSON object that maps pool tokens to counts,
such as `{"pool1":"1","pool2":"1"}`. A token is a pool name or an alias of
one. The pooler answers `{ok: true, pool1: {hostname: ...}, ...}` with status
200, or `{ok: false}` with status 404 when a token names no configured pool.

The state is an inventory store with three parts:

- per pool, its ready set of machine ids;
- per machine, its attribute record;
- per token, its `{user, created}` record.

When auth is enabled and the caller presents a stored token, every machine
checked out gets the configured `vm_lifetime_auth` as its `lifetime`. When
auth is off, or no token is presented, `lifetime` stays unset. In this model
a presented token that is not stored counts as no token; see "## Left out".

The model has these modules:

- `PoolConfig`: the immutable configuration, token resolution and request
  validation. These are pure functions.
- `Inventory`: the store's contents as values. It also holds the
  specification functions that say what a checkout removes and writes
  (`TakeAll`, `Stamp`), the lifetime policy (`LifetimeFor`) and the lemmas
  about them.
- `Checkout`: the store as a class, `Store`, whose map fields are updated in
  place by the fixture operations (`create_token`, `create_vm`, `clear_pool`,
  `flushdb`) and by the checkout. In this model the checkout works in two
  phases. Phase 1 resolves every token, and one unknown token rejects the
  whole request. Phase 2 pops machines, one at a time, from a working copy of
  the ready sets, then commits that copy and writes lifetimes only if every
  claim was met. So a refused request changes nothing. The rejection of a
  mixed request, the removal of handed-out machines from their ready sets
  and the handling of shortfall are this model's choices; see
  "## Left out".
- `VmSpec`: the seven `POST /vm` examples. Each is a method that builds a
  fresh store and states the answer it must get, and, where the example
  reads it back, the machine's lifetime.

The code that implements the endpoint is not part of this model; the
behaviour is fixed by the examples in `spec/vmpooler/api/v1/vm_spec.rb`. An
answer is keyed by the canonical pool name, also when the caller used an
alias (`{"poolone":"1"}` answers under `pool1`, vm_spec.rb:94-101).

## Model

| member | source | states |
|---|---|---|
| `PoolConfig.Resolve` | spec/vmpooler/api/v1/vm_spec.rb:53-57 | a token that is a pool name resolves to itself; a resolved name is always a configured pool; an alias resolves only to a configured pool (a design choice; see "## Left out") |
| `PoolConfig.AliasResolvesToTarget` | spec/vmpooler/api/v1/vm_spec.rb:90-104 | an alias that is not a pool name resolves to the pool it targets, the same as that pool's own name |
| `PoolConfig.UnknownTokenUnresolved` | spec/vmpooler/api/v1/vm_spec.rb:107-112 | a token that is neither a pool name nor an alias of one resolves to nothing |
| `PoolConfig.ResolveAll` | spec/vmpooler/api/v1/vm_spec.rb:107-132 | the request is rejected exactly when some token is unresolvable; otherwise one claim per request pair, in request order, with the pair's count and the token's pool (rejecting a request that mixes valid and unknown tokens is a design choice; see "## Left out") |
| `Requests.Status` | spec/vmpooler/api/v1/vm_spec.rb:78-111 | status is 200 exactly when `ok` is true and 404 exactly when it is false |
| `Inventory.LifetimeDecisionTable` | spec/vmpooler/api/v1/vm_spec.rb:135-201 | lifetime is unset when auth is off, unset when auth is on and no token is presented, and `vm_lifetime_auth` when auth is on and a stored token is presented (a presented token that is not stored counts as none, a design choice; see "## Left out") |
| `Inventory.StampAllEffect` | spec/vmpooler/api/v1/vm_spec.rb:160-181 | writing the lifetime sets it on every machine handed out and leaves every other record unchanged |
| `Inventory.TakeHostsEffect` | spec/vmpooler/api/v1/vm_spec.rb:74-87 | popping machines from a pool removes exactly those machines from that pool and leaves other pools alone (removal from the ready set is a design choice; see "## Left out") |
| `Inventory.TakeAllEffect` | spec/vmpooler/api/v1/vm_spec.rb:114-132 | after a checkout, each pool's ready set is its old set less exactly the machines the answer lists under that pool (removal from the ready set is a design choice; see "## Left out") |
| `Inventory.CheckoutConserves` | spec/vmpooler/api/v1/vm_spec.rb:114-132 | no machine is lost: a pool's new ready set and the machines handed out under it partition its old ready set (removal from the ready set is a design choice; see "## Left out") |
| `Inventory.HostsOfReady` | spec/vmpooler/api/v1/vm_spec.rb:114-132 | every machine an answer lists under a pool was ready in that pool before the call |
| `Inventory.TakeAllKeepsDisjoint` | spec/vmpooler/api/v1/vm_spec.rb:114-132 | a checkout keeps every machine ready in at most one pool |
| `Inventory.SingleClaimsFit` | spec/vmpooler/api/v1/vm_spec.rb:114-132 | for a request of one machine from each of several distinct pools, the request can be met exactly when every requested pool has a ready machine |
| `Checkout.Store.constructor` | spec/vmpooler/api/v1/vm_spec.rb:63-64 | a flushed store holds no ready sets, no machine records and no tokens |
| `Checkout.Store.CreateToken` | spec/vmpooler/api/v1/vm_spec.rb:18-21 | the token's record becomes `{user, created}`; nothing else changes |
| `Checkout.Store.CreateVm` | spec/vmpooler/api/v1/vm_spec.rb:23-25 | adds the id to the pool's ready set and changes no other pool; keeps ids unique across pools when the id is ready in no other pool |
| `Checkout.Store.ClearPool` | spec/vmpooler/api/v1/vm_spec.rb:31-35 | deletes the pool's ready set and changes no other pool |
| `Checkout.Store.FetchVm` | spec/vmpooler/api/v1/vm_spec.rb:27-29 | a machine never written reads back with no attributes, so its lifetime is unset |
| `Checkout.Store.WriteLifetime` | spec/vmpooler/api/v1/vm_spec.rb:160-181 | the machine records become the old ones with the lifetime written on each machine handed out |
| `Checkout.Store.Checkout` | spec/vmpooler/api/v1/vm_spec.rb:72-203 | an unresolvable token gives `UnknownPool` and changes nothing; otherwise the request succeeds exactly when every pool holds enough ready machines. On failure nothing changes. On success, one entry per claim in request order, keyed by the canonical pool, each machine ready in that pool before the call; no machine is listed twice under one pool, and none twice at all when no machine was ready in two pools; the ready sets lose exactly those machines; the machine records get the lifetime policy's verdict |
| `Checkout.TakeFromPool` | spec/vmpooler/api/v1/vm_spec.rb:74-87 | succeeds exactly when the pool holds at least `count` ready machines; then returns that many distinct machines of that pool and the ready sets without them |
| `Checkout.Reserve` | spec/vmpooler/api/v1/vm_spec.rb:114-132 | succeeds exactly when every pool holds what the claims ask of it; then answers each claim from its own pool, never lists a machine twice under one pool, and returns the ready sets without the machines handed out |
| `VmSpec.TestConfigResolves` | spec/vmpooler/api/v1/vm_spec.rb:47-59 | under the examples' configuration, `pool1` and `pool2` are pools, `poolone` resolves to `pool1`, and `poolpoolpool` resolves to nothing |
| `VmSpec.CheckoutPool1` | spec/vmpooler/api/v1/vm_spec.rb:135-201 | checking out `pool1` (by name or alias) from a pool holding one machine returns that machine, and its lifetime is the policy's verdict for the auth flag and header |
| `VmSpec.ReturnsSingleVm` | spec/vmpooler/api/v1/vm_spec.rb:73-88 | `{"pool1":"1"}` answers ok, 200, `pool1: {hostname: abcdefghijklmnop}` |
| `VmSpec.ReturnsSingleVmForAlias` | spec/vmpooler/api/v1/vm_spec.rb:90-105 | `{"poolone":"1"}` answers ok, 200, keyed by `pool1`, with the machine of `pool1` |
| `VmSpec.FailsOnNonexistentPools` | spec/vmpooler/api/v1/vm_spec.rb:107-112 | `{"poolpoolpool":"1"}` answers not ok, 404, and leaves the ready sets as they were |
| `VmSpec.ReturnsMultipleVms` | spec/vmpooler/api/v1/vm_spec.rb:114-133 | `{"pool1":"1","pool2":"1"}` answers ok, 200, `pool1` then `pool2`, each with its own pool's machine |
| `VmSpec.AuthOffKeepsLifetime` | spec/vmpooler/api/v1/vm_spec.rb:135-157 | with auth off and a stored token presented, the checkout succeeds and the machine's lifetime stays unset |
| `VmSpec.AuthOnExtendsLifetime` | spec/vmpooler/api/v1/vm_spec.rb:160-182 | with auth on and a stored token presented, the checkout succeeds and the machine's lifetime is 2 |
| `VmSpec.AuthOnNoTokenKeepsLifetime` | spec/vmpooler/api/v1/vm_spec.rb:184-202 | with auth on and no token presented, the checkout succeeds and the machine's lifetime stays unset |

## Left out

- The HTTP routing and the JSON body. A request is a sequence of
  (token, count) pairs whose count is already a number, and an answer is the
  `Response` datatype. The `JSON.pretty_generate` wire format is not modelled.
- Two tokens that resolve to the same pool (`{"pool1":"1","poolone":"1"}`)
  give two entries under `pool1`. How the JSON object merges them is not
  modelled.
- Counts other than 1 are handled by popping that many machines, but no
  example exercises them, so this is a design choice.
- A pool with too few ready machines (shortfall) refuses the whole request
  with `ok: false` and status 404, and nothing is consumed. No example
  exercises this, so it is a design choice: the model commits nothing until
  every claim is met, which gives the same result as rolling back.
- The Redis client, its key prefixes and string-valued hashes. The store is
  structured maps and sets, and `flushdb` is the `Store` constructor.
- The merge semantics of the framework's settings. The configuration is one
  immutable value, and `auth` is a field of it.
- The `authenticate` username/password helper (lines 7-9). It is a test
  double for external authentication and is not on the token checkout path.
- Wall-clock timestamps (`Time.now`). A token's `created` time is a
  parameter of the example methods.
- Concurrency and the atomicity of the store's pop. Checkout is sequential,
  and which ready machine is popped is an arbitrary choice (`:|`).
- Machine attributes other than `lifetime`, such as the checkout time, a
  running set, and the token and user recorded on the machine. No example
  reads them, and the code that writes them is not part of this model.
- `Checkout.Store.Checkout`: machines listed under different pools are
  distinct only when no machine is ready in two pools at once before the
  call. `create_vm` can break that condition, so that part is stated under
  it. Machines listed under one pool are always distinct.
- A request that mixes a valid token with an unknown one is rejected as a
  whole, and nothing is consumed from the valid pool. The only failing
  example sends one unknown token, so this is a design choice.
- A machine handed out is removed from its pool's ready set (`TakeAll`,
  `TakeHostsEffect`, `TakeAllEffect`, `CheckoutConserves`). No example reads
  a ready set after the checkout, so this is a design choice.
- `Inventory.LifetimeFor`: with auth enabled, a presented token that is not
  stored counts as no token; the checkout succeeds and `lifetime` stays
  unset. Every example that presents a token presents the stored one, so
  this is a design choice.
- An alias whose target is not a configured pool resolves to nothing
  (`PoolConfig.Resolve`). The examples' only alias targets a configured
  pool, so this is a design choice.
