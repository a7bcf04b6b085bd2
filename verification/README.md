# CUPP in Dafny

CUPP is a strongSwan plugin that gives each VPN user a virtual IP address: a fixed one when the policy
file names the user, else the least free one of a pool.  This project models its C code in Dafny and
proves what the code promises: that four pieces of mutable state (a bitmap, a table of leases with two
indices, the leases themselves, a reloadable policy) always agree, in every sequence of calls and in
every interleaving of threads.

## How the project is laid out

| file | what it models |
|---|---|
| `Hosts.dfy` | IPv4 hosts and their conversion to host-order integers on either byte order |
| `DynamicPool.dfy` | bitwise operators, the packed bitmap and its counter |
| `Naming.dfy` | the name under which an SA holds its lease |
| `Sessions.dfy` | heap leases and the table with two indices |
| `YamlLoader.dfy`, `PolicyDocuments.dfy` | the fixed table, the parser's event loop, and policy files as trees |
| `PolicyEngine.dfy` | snapshots of the policy and their replacement |
| `AllocatorSpec.dfy`, `AllocatorRuns.dfy`, `AddressClashes.dfy` | the simple specification: one map of leases and one policy; properties of its runs, and exactly when addresses clash |
| `OperationMeanings.dfy` | what each operation of the specification answers and leaves behind, without the functions it is made of |
| `IpAllocator.dfy`, `Charon.dfy` | the allocator over all of the above, proved to answer what the specification answers |
| `Interleaving.dfy`, `InterleavedRuns.dfy`, `InterleavedAddresses.dfy`, `InterleavedClashes.dfy`, `InterleavedRelease.dfy` | any number of threads inside acquire and release, one step per critical section |
| `WorldMirror.dfy` | the tables and the bits of the interleaved model are those of the classes |
| `Atomicity.dfy`, `CallEffects.dfy`, `ReturningAddress.dfy` | interleaved calls as atomic effects, one per call, and the one way in which they differ from calls in a row |
| `PluginLifecycle.dfy`, `Plugin.dfy` | reference count, `terminating` flag and sweep job |
| `Counting.dfy` | counting what is true |

The sequential part is layered.  Classes with mutable fields follow the C code statement by statement.
Each has a validity predicate and a ghost function to its abstract value, and each method states the new
abstract value exactly.  `Charon.Serve` closes the argument: whatever charon and the operator call, in
whatever order, bitmap, counter, indices, leases and snapshot together answer what one map and one policy
would answer, as long as no uid is taken away from another user.  Properties of runs are then proved about that map.

The concurrent part is a transition system on values.  `lock` covers an acquire from lookup to the clone
of the result, but of a release only the unbinding: the bit is cleared, and the lease destroyed, after it.
`WorldMirror` ties it back to the classes: each critical section of table and pool, run on the objects, moves
the model as its step function says.  The inductive invariant says who holds each set bit: a live lease, an acquire that has not bound yet, or a
release that has not given back yet.
`Atomicity.RunIsItsEffects` then shows that every interleaving is a run of the simple allocator to which one
thing is added, the set of addresses on their way back; `CallEffects.EffectsAreCalls` shows that each call has
exactly one effect.  `Atomicity.TakeIsAcquire` says exactly when that effect is the sequential operation, and
`ReturningAddress.LastAddressOnItsWayBack` is a run in which it is not.

## What the environment is assumed to do

* No acquire takes a uid away from the lease of another user.  `Charon.Handle` needs no such assumption: it
  answers what the specification answers in any case, and the allocator stays valid exactly when no uid is
  taken away.  `Charon.Serve` asks it of each call of a run.  `AllocatorSpec.NamedIsUndisplaced` shows that it
  holds when a uid belongs to one SA, whose effective name is a function of the uid; the interleaved model
  supposes such a naming.
* The pool interval has at most 2^32 - 8 addresses.  `DynamicPools.BitmapCoversInterval` shows that the
  32-bit arithmetic of the constructor is right exactly then.
* The clock, the set of live SAs during a sweep, the outcome of cloning a result, the events of the YAML
  parser and the reading of an address from text are parameters.

## Where code and documentation differ

* README.md:30 and README.md:150 promise that nobody else can occupy a fixed address.  The code does not
  check it.  `AddressClashes.ReservedExactly` says when it is kept: from an empty allocator, over all runs,
  it is kept if and only if the policies that can be in force give no address to two users and none of the
  pool to anyone (README.deploy.md:688 asks for the latter).  `AddressClashes.NeverClashExactly` says the same
  of two live leases never sharing an address.
* Sections called `users` or `pool` are honoured at any depth under unknown keys, not only at the top
  level.  `PolicyDocuments.FileShape` therefore describes files with sections at any depth.
* A mapping inside the entry of a user is not skipped: what is in it is read one scalar off, what follows in the
  entry is not read, and the key of the next section is lost with its section.  `PolicyDocuments.BrokenEntryIsRead`
  says exactly what is read instead.

## Model

| member | source | states |
|---|---|---|
| Hosts.AddressReads | plugin/src/dynamic_pool.c:26-35 | on either byte order the first octet is the most significant one of four; what follows them does not count, and a shorter address reads as 0 |
| Hosts.AddressWrites | plugin/src/dynamic_pool.c:37-41 | on either byte order a number is written as its four octets, the most significant first, in an IPv4 host |
| Hosts.ConversionsInvert | plugin/src/dynamic_pool.c:26-41 | the two conversions undo each other on every 32-bit value and every four-octet IPv4 host, on either byte order |
| Bits.OneBitChanges | plugin/src/dynamic_pool.c:56-84 | the or-mask and and-not-mask on a byte change the addressed bit and no other |
| Bits.MaskTests | plugin/src/dynamic_pool.c:54-80 | the and-mask is non-zero exactly when the addressed bit is set |
| DynamicPools.BitmapCoversInterval | plugin/src/dynamic_pool.c:142-157 | every address of the interval falls on an allocated byte if and only if the size is at most 2^32 - 8; then nothing wraps and less than one byte is padding |
| DynamicPools.MarkOne | plugin/src/dynamic_pool.c:52-84 | writing bit i adds or removes exactly the address start + i from the taken addresses |
| DynamicPools.RoomLeft | plugin/src/dynamic_pool.c:48-62 | a count below the capacity leaves an address free, so the scan finds a bit whenever `used < capacity` |
| DynamicPools.BusyDeterminesBitmap | plugin/src/dynamic_pool.c:43-92 | with padding bits clear, the taken addresses determine the bitmap byte for byte |
| DynamicPools.DynamicPool.constructor | plugin/src/dynamic_pool.c:142-158 | a fresh pool is valid if and only if its size is representable, and then has nothing taken |
| DynamicPools.DynamicPool.Create | plugin/src/dynamic_pool.c:123-170 | refuses exactly missing, non-IPv4 and reversed end points |
| DynamicPools.DynamicPool.TestBit | plugin/src/dynamic_pool.c:52-58 | the tested bit is set exactly when that address is taken |
| DynamicPools.DynamicPool.Acquire | plugin/src/dynamic_pool.c:43-65 | hands out the least free address, as the four octets of its number with the most significant first, and marks just that one; fails exactly when all are taken, and then changes no byte |
| DynamicPools.DynamicPool.Release | plugin/src/dynamic_pool.c:67-92 | clears exactly the bit of the given address; for any other argument, or a second time, changes no byte; the counter stays the number of set bits |
| DynamicPools.DynamicPool.IsInPool | plugin/src/dynamic_pool.c:94-105 | true exactly for the IPv4 hosts for which the pool has a bit; true of every host it has handed out, and a host it denies is taken by nobody, so that releasing it changes no byte |
| Naming.DecimalInjective | plugin/src/ip_allocator.c:138-149 | printing a uid with `%u` is injective |
| Naming.DecimalReads | plugin/src/ip_allocator.c:138-149 | what `%u` prints are decimal digits without a leading zero, and they read as the uid |
| Naming.NameIs | plugin/src/ip_allocator.c:134-149 | an SA asks under its identity as it stands, or under `anon-` and the digits of its uid |
| Naming.AnonIs | plugin/src/ip_allocator.c:168-168 | a name counts as a placeholder exactly when its first five characters are `anon-` |
| Naming.PlaceholderFits | plugin/src/ip_allocator.c:138-168 | the placeholder is never cut by its 32-byte buffer and always passes the test for the prefix |
| Naming.NamesCollide | plugin/src/ip_allocator.c:134-149 | exactly when two SAs share a name: two anonymous ones never unless they are one SA, an identified one with an anonymous one only when it calls itself by that placeholder |
| Sessions.Lease.Destroy | plugin/src/session_manager.c:70-82 | a lease can be destroyed once only |
| Sessions.SessionManager.LookupByUser | plugin/src/session_manager.c:152-165 | nothing exactly when the table has no lease for the name; else a live lease under that name that says what the table says |
| Sessions.SessionManager.Evict | plugin/src/session_manager.c:102-110 | the overwrite branch takes one lease out of both indices, destroys it and touches no other |
| Sessions.SessionManager.BindLease | plugin/src/session_manager.c:85-127 | both indices and the table after a bind; an older lease of the user is destroyed; coherence survives exactly when the uid is not held under another name |
| Sessions.SessionManager.Migrate | plugin/src/session_manager.c:129-150 | moves one lease to its new uid and time, leaves all others, keeps coherence exactly when no other user holds the uid |
| Sessions.SessionManager.Unbind | plugin/src/session_manager.c:167-180 | removes the lease of the uid from both indices, hands over a live lease nobody can reach any more; nothing happens the second time |
| Sessions.SessionManager.Overdues | plugin/src/session_manager.c:188-210 | the snapshot holds exactly the live leases with `now - acquired > timeout`, each once |
| Sessions.SessionManager.Count | plugin/src/session_manager.c:226-243 | the number of entries of the uid index, which is the number of users when the indices are coherent |
| Sessions.SessionManager.SameSize | plugin/src/session_manager.c:226-243 | coherent indices have the same number of entries |
| Sessions.SessionManager.Shutdown | plugin/src/session_manager.c:268-286 | enumerating only the uid index destroys each of its leases once, and leaves no lease behind exactly when the indices are coherent |
| FixedPools.FixedPool.Add | plugin/src/fixed_pool.c:46-69 | last write wins; the counter is the number of names, not of calls |
| YamlLoader.LoadPolicy | plugin/src/yaml_loader.c:29-171 | rc is 0 exactly when the file can be opened and its stream ends before any error; the event loop leaves in the table and the end points what the parser's step function computes over the events, also when it gives up half way |
| YamlParser.LoadSucceedsExactly | plugin/src/yaml_loader.c:44-65 | a policy is loaded exactly when the file can be opened and some event ends the stream with no error before it |
| PolicyDocuments.ParserUndoesPrinter | plugin/src/yaml_loader.c:58-161 | parsing the events of any policy tree ends at the top level with nothing pending and yields exactly the last usable address per name, of which the first 255 bytes count, and the last value of each end point |
| PolicyDocuments.SmallestFile | plugin/src/yaml_loader.c:58-161 | the file with one user and a pool, event by event: the user gets the address, under the name or its first 255 bytes, and the pool both ends |
| PolicyDocuments.UnknownKeysAreIgnored | plugin/src/yaml_loader.c:73-153 | mappings of any depth under an unknown key leave every variable of the loop as it was, if none inside is called `users` or `pool` |
| PolicyDocuments.NestedSectionsAreHonoured | plugin/src/yaml_loader.c:73-112 | the condition of the row above is needed: wrapping a whole file in an unknown key does not change what is read |
| PolicyDocuments.NestedUserEntryIsLost | plugin/src/yaml_loader.c:73-151 | the simplest such file: one user whose entry begins with a mapping, then a pool; both the address and the pool are lost |
| PolicyDocuments.FeedBrokenEntry | plugin/src/yaml_loader.c:88-151 | exactly what the entry of a user with a mapping in it does: the lines before the mapping are read, those inside one scalar off, those after not at all; the parser has left the user and holds the scalar left over |
| PolicyDocuments.BrokenEntryIsRead | plugin/src/yaml_loader.c:58-161 | a whole file with such an entry at the end of its `users` section: what is read in all, with the key of the following section swallowed and everything after it read as usual |
| PolicyDocuments.PoolIsLost | plugin/src/yaml_loader.c:75-87 | a `pool` section that follows such an entry sets neither end point |
| PolicyDocuments.FeedTop | plugin/src/yaml_loader.c:66-158 | entries at the top level, or nested under unknown keys, bring the parser back to where it was, with their lines applied |
| PolicyDocuments.FeedUsersSection | plugin/src/yaml_loader.c:88-137 | a `users` section applies the lines of its users in order and returns to the section |
| PolicyDocuments.ApplyReads | plugin/src/yaml_loader.c:114-152 | applying lines in order is the same as looking up the last one that counts |
| PolicyEngines.SnapshotLoad | plugin/src/policy_engine.c:63-101 | a fresh snapshot that says what the file says, or nothing exactly when the file cannot be opened or does not come to its end without an error |
| PolicyEngines.PolicyEngine.Create | plugin/src/policy_engine.c:155-184 | no usable file, no engine |
| PolicyEngines.PolicyEngine.LookupFixed | plugin/src/policy_engine.c:103-112 | the fixed address in the policy in force |
| PolicyEngines.PolicyEngine.GetPool | plugin/src/policy_engine.c:114-131 | both end points of the policy in force, or neither |
| PolicyEngines.PolicyEngine.Reload | plugin/src/policy_engine.c:133-153 | all or nothing: replaces the whole policy and destroys the old snapshot when the file is read to its end without an error, else leaves everything as it was |
| AllocatorSpec.FirstFreeIs | plugin/src/dynamic_pool.c:50-62 | the least address that is not taken, or none exactly when all are taken |
| AllocatorSpec.ChoiceIsFree | plugin/src/ip_allocator.c:166-184 | a new dynamic lease gets an address of the pool that no dynamic lease holds |
| AllocatorSpec.ApplyKeepsWf | plugin/src/ip_allocator.c:90-289 | every operation keeps dynamic leases on different addresses of the pool |
| AllocatorSpec.ApplyKeepsNamed | plugin/src/ip_allocator.c:153-206 | every operation keeps each lease under the name of its uid, also when it migrates |
| AllocatorSpec.RunKeepsInvariants | plugin/src/ip_allocator.c:90-289 | both, over every run |
| AllocatorSpec.NamedIsUndisplaced | plugin/src/ip_allocator.c:134-149 | when the name of an SA is a function of its uid, no acquire of any run takes a uid away from another user |
| OperationMeanings.OtherPoolsAreIgnored | plugin/src/ip_allocator.c:120-124 | a pool list in which no entry is the pool of the plugin, or a missing SA: no answer and no change |
| OperationMeanings.AcquireReuses | plugin/src/ip_allocator.c:151-165 | a user with a lease gets its address again; the lease moves to the uid that asks and its clock starts anew, nothing else changes |
| OperationMeanings.AcquireFixed | plugin/src/ip_allocator.c:166-223 | a user without a lease whom the policy gives an address, and whose name does not begin with `anon-`, gets it in a new fixed lease; when the result cannot be cloned nothing changes |
| OperationMeanings.AcquireDynamic | plugin/src/ip_allocator.c:181-223 | any other user without a lease gets the least address of the pool that no dynamic lease holds, in a new dynamic lease; when the result cannot be cloned nothing changes |
| OperationMeanings.AcquireFindsNothing | plugin/src/ip_allocator.c:186-194 | without a pool, or with none of its addresses free, such a user gets nothing and nothing changes |
| OperationMeanings.ReleaseTakesAway | plugin/src/ip_allocator.c:226-241 | a release takes away exactly the lease held under the uid and answers whether there was one; without an SA it answers no |
| OperationMeanings.UpdownKeepsListening | plugin/src/event_listener.c:21-30 | the answer is always yes; only an SA that goes down takes its lease with it |
| OperationMeanings.SweepKeeps | plugin/src/session_manager.c:204-206 | a lease is kept, as it is, exactly when `now - acquired <= timeout` or its SA is alive |
| OperationMeanings.ReloadIsAllOrNothing | plugin/src/policy_engine.c:133-153 | a file that is read to its end without an error replaces the policy, keeps the leases and answers yes; any other changes nothing and answers no |
| OperationMeanings.RunsInOrder | plugin/src/ip_allocator.c:90-289 | a run is its operations in their order, each from the state that those before it have left |
| PoolCoupling.BusyCountsLeases | plugin/src/ip_allocator.c:64-86 | as many bits are set as there are live dynamic leases |
| PoolCoupling.LeastIsFirstFree | plugin/src/ip_allocator.c:181-184 | the bit the scan finds is the address the specification chooses |
| PoolCoupling.SoundAfterRemoval | plugin/src/ip_allocator.c:64-86 | removing a lease and clearing its bit, if it is dynamic, keeps bitmap and leases in agreement |
| PoolCoupling.SoundAfterMigration | plugin/src/ip_allocator.c:153-165 | migration keeps bitmap and leases in agreement |
| IpAllocators.IpAllocator.Create | plugin/src/ip_allocator.c:293-335 | the pool is built from the policy at construction, with the defaults of the source; the allocator is valid exactly when the pool is absent or representable |
| IpAllocators.IpAllocator.PoolsInclude | plugin/src/ip_allocator.c:37-57 | true exactly when some entry of the list is the claimed pool |
| IpAllocators.IpAllocator.ReleaseByUidImpl | plugin/src/ip_allocator.c:64-86 | removes the lease of the uid from both indices, clears exactly its bit if it is dynamic, destroys it; without a lease changes nothing |
| IpAllocators.IpAllocator.ChooseAddress | plugin/src/ip_allocator.c:166-184 | fixed address unless the name looks like a placeholder, else the least free one of the pool, as the specification chooses |
| IpAllocators.IpAllocator.BindNew | plugin/src/ip_allocator.c:197-206 | the new lease joins both indices; no lease is destroyed; the indices stay coherent exactly when the uid was free |
| IpAllocators.IpAllocator.RollBack | plugin/src/ip_allocator.c:209-217 | releasing the lease just bound restores the leases, the taken addresses and the user index |
| IpAllocators.IpAllocator.OrphanedByDisplacement | plugin/src/session_manager.c:122-123 | a lease whose uid another lease has taken over and given up stays in the user index only: the indices are no longer coherent |
| IpAllocators.IpAllocator.AcquireNew | plugin/src/ip_allocator.c:166-223 | the path for a user without a lease; without an address, or when the result cannot be cloned, leases, user index and taken addresses are as before; the allocator stays valid exactly when nothing is bound or the uid was free |
| IpAllocators.IpAllocator.AcquireAgain | plugin/src/ip_allocator.c:151-165 | the path for a user with a lease: same address, new uid, no other lease touched; the allocator stays valid exactly when no other user holds the uid |
| IpAllocators.IpAllocator.AcquireAddress | plugin/src/ip_allocator.c:90-224 | answer and new state are those of the specification, for every SA; a list without the claimed pool gets no answer and changes nothing; no live lease is destroyed; a call that changes no lease changes no byte of the bitmap and no counter; the allocator stays valid exactly when no uid is taken away from another user |
| IpAllocators.IpAllocator.ClashIsHeld | plugin/src/session_manager.c:122-145 | a put under the uid displaces a lease exactly when another user in the table holds the uid |
| IpAllocators.IpAllocator.ReleaseAddress | plugin/src/ip_allocator.c:226-241 | answer and new state are those of the specification; an SA is needed |
| IpAllocators.IpAllocator.SweepCb | plugin/src/ip_allocator.c:265-281 | releases and destroys the lease exactly when its SA is gone |
| IpAllocators.IpAllocator.SweepAll | plugin/src/session_manager.c:212-219 | each lease of the snapshot is still live when its turn comes; exactly those without an SA are gone and destroyed afterwards |
| IpAllocators.IpAllocator.Sweep | plugin/src/ip_allocator.c:265-289 | keeps a lease, as it was, exactly when `now - acquired <= timeout` or its SA is alive; destroys every other and frees exactly their pool addresses |
| IpAllocators.IpAllocator.ReloadPolicy | plugin/src/policy_engine.c:133-153 | a reload changes the policy only: leases and pool stay |
| IpAllocators.IpAllocator.UsedCountsLeases | plugin/src/dynamic_pool.c:43-92 | `used` is the number of live dynamic leases and never exceeds the capacity |
| IpAllocators.IpAllocator.BusyDeterminesPool | plugin/src/dynamic_pool.c:43-92 | when the same addresses are taken, bitmap and counter are the same |
| IpAllocators.IpAllocator.Destroy | plugin/src/ip_allocator.c:338-354 | every remaining lease is destroyed, each once |
| Charon.EventListener.IkeUpdown | plugin/src/event_listener.c:21-30 | going down releases the lease of the SA; the answer is always TRUE, so that the listener stays |
| Charon.Handle | plugin/src/ip_allocator.c:90-289 | each event, from any valid allocator, answers and changes what the specification says; the allocator stays valid exactly when no uid is taken away from another user |
| Charon.Serve | plugin/src/ip_allocator.c:90-289 | every sequence of acquire, release, updown, sweep and reload in which no uid is taken away from another user returns the answers of the specification and ends in its state |
| AllocatorRuns.AcquireFailsExactly | plugin/src/ip_allocator.c:153-194 | a claimed acquire gets nothing exactly when the user has no lease, is not served by the fixed table, and every address of the pool belongs to a live dynamic lease |
| AllocatorRuns.AddressIsStable | README.deploy.md:512 | as long as nothing releases the uid a user holds, every acquire of the user answers the same address, across reloads, sweeps, migrations and all other users |
| AllocatorRuns.EndedIsGone | plugin/src/ip_allocator.c:153-165 | release, updown, a sweep that finds it orphaned, and migration of its user each end a uid |
| AllocatorRuns.GoneStaysGone | plugin/src/session_manager.c:167-180 | a uid that is gone stays gone until it acquires again |
| AllocatorRuns.SecondReleaseIsHarmless | README.md:217 | once a uid has ended, in whatever way, a later release of it changes nothing and says so, whoever holds its address by then |
| AllocatorRuns.PolicyIsLastLoaded | plugin/src/policy_engine.c:133-153 | the policy in force is that of the last file that could be loaded |
| AllocatorRuns.AddressesNeverClash | README.deploy.md:688 | if across the policies of a run no fixed address is shared or in the pool, all live leases have different addresses at every point, also those from older policies |
| AllocatorRuns.FixedAddressIsReserved | README.md:30 | under the same condition no acquire answers an address that any of the policies fixes for another user, connected or not |
| AddressClashes.NeverClashExactly | README.deploy.md:688 | from an empty allocator, all live leases have different addresses after every run if and only if no fixed address of the policies is shared or in the pool |
| AddressClashes.ReservedExactly | README.md:30 | over every run, no acquire answers an address that a policy fixes for another user if and only if the same condition holds |
| AddressClashes.SharedFixedAddressClashes | plugin/src/ip_allocator.c:166-180 | for any two policies that give one address to two users there is a run, from an empty allocator and under a naming of uids, that ends with both holding it |
| AddressClashes.FixedAddressInPoolClashes | plugin/src/ip_allocator.c:166-184 | for any fixed address anywhere in the pool there is a run, from an empty allocator and under a naming of uids, that ends with the pool giving it to another user |
| AddressClashes.AnonymousFill | plugin/src/dynamic_pool.c:50-62 | anonymous SAs, one after the other, get the addresses of the pool in ascending order |
| Interleaving.InitInv | plugin/src/ip_allocator.c:293-335 | an empty allocator with no thread inside satisfies the invariant |
| Interleaving.MovesKeepInv | plugin/src/ip_allocator.c:64-224 | taking or leaving `lock`, looking up and consulting the policy keep the invariant |
| Interleaving.MigrateKeepsInv | plugin/src/session_manager.c:129-150 | migration keeps it; in particular each lease stays under the name of its uid |
| Interleaving.PoolKeepsInv | plugin/src/ip_allocator.c:181-184 | taking an address from the pool keeps it: the thread becomes the one holder of a bit nobody held |
| Interleaving.BindKeepsInv | plugin/src/session_manager.c:85-127 | binding keeps it: the bit passes from the acquire to the lease |
| Interleaving.UnbindKeepsInv | plugin/src/session_manager.c:167-180 | unbinding keeps it: the bit passes from the lease to the release that carries it |
| Interleaving.RecycleKeepsInv | plugin/src/ip_allocator.c:76-80 | clearing the bit outside `lock` keeps it |
| Interleaving.DestroyKeepsInv | plugin/src/ip_allocator.c:84-84 | destroying the carried lease keeps it: no table and no other thread knows it |
| Interleaving.InterleavingKeepsInv | plugin/src/ip_allocator.c:64-224 | the invariant holds after every interleaving of any threads, with reloads anywhere |
| InterleavedRuns.BitsAreHeldOnce | plugin/src/ip_allocator.c:64-224 | at every point the set bits are the disjoint union of live dynamic leases, the acquire in flight and the releases in flight; no address is held twice, no two pending releases carry the same one |
| InterleavedRuns.NothingLeaks | plugin/src/ip_allocator.c:64-86 | when no thread is inside, the set bits are the addresses of the leases in the table, and no lease is lost |
| InterleavedRuns.LeasesHaveOneOwner | plugin/src/session_manager.c:54-82 | no lease is touched or destroyed after its destruction; each is in the table or carried by exactly one thread; what an acquire has in hand is live and in the table |
| InterleavedRuns.TablesAgree | plugin/src/session_manager.c:85-180 | both indices hold the same leases, each under its own uid and name, at every point |
| InterleavedRuns.BindNeverOverwrites | plugin/src/session_manager.c:102-110 | the overwrite branch is never taken, and the uid is free, in every interleaving |
| InterleavedRuns.MigrateDisplacesNobody | plugin/src/session_manager.c:140-147 | the put of a migration never displaces another lease |
| InterleavedRuns.PoolFailsExactly | plugin/src/ip_allocator.c:181-194 | in an interleaving the pool has nothing exactly when each of its addresses is live or on its way back |
| InterleavedAddresses.InterleavedAddressesNeverClash | README.deploy.md:688 | under the condition on the policies, any two leases in the table have different addresses in every interleaving |
| InterleavedAddresses.InterleavedFixedAddressIsReserved | README.md:30 | under the same condition, in every interleaving no lease in the table has, and no acquire is about to bind, an address that a policy fixes for another user |
| InterleavedClashes.InterleavedNeverClashExactly | README.deploy.md:688 | from an empty allocator, all leases in the table have different addresses in every interleaving if and only if no fixed address of the policies is shared or in the pool |
| InterleavedClashes.InterleavedReservedExactly | README.md:30 | in every interleaving no lease has an address that a policy fixes for another user if and only if the same condition holds |
| InterleavedClashes.ConflictMeets | plugin/src/ip_allocator.c:151-206 | each conflict among the policies is reached by one thread that makes its calls one after the other |
| InterleavedRelease.InterleavedAddressIsStable | README.deploy.md:512 | in every interleaving in which no release takes effect under the uid a user holds, the user keeps the address, and each acquire of the user that is about to answer answers it |
| InterleavedRelease.InterleavedReleaseIsHarmless | README.md:217 | in every interleaving, a release of a uid that no lease has and no acquire takes any more finds nothing and changes nothing |
| InterleavedRelease.SecondInterleavedRelease | README.md:217 | in particular the second of two releases of a uid, whatever any thread does in between except acquire under it |
| WorldMirror.Bind | plugin/src/session_manager.c:85-127 | `bind_lease` on the objects moves the tables of the interleaved model as its bind step does, the overwrite branch included |
| WorldMirror.Migrate | plugin/src/session_manager.c:129-150 | the same for `migrate` |
| WorldMirror.Unbind | plugin/src/session_manager.c:167-180 | the same for `unbind`; the object found holds what the lease found in the model holds |
| WorldMirror.Lookup | plugin/src/session_manager.c:152-165 | the object found by name holds what the lease found in the model holds |
| WorldMirror.TakeAddress | plugin/src/dynamic_pool.c:43-65 | `acquire` on the bitmap answers the choice of the model and sets the bit that the model sets |
| WorldMirror.GiveAddress | plugin/src/dynamic_pool.c:67-92 | `release` on the bitmap clears the bit that the model clears |
| WorldMirror.BindMovesView | plugin/src/session_manager.c:85-127 | what the bind step of the model does to users and uids |
| WorldMirror.ReachableIsKeyed | plugin/src/session_manager.c:85-180 | what these ask of the model holds in every state it reaches |
| WorldMirror.EmptyMirrors | plugin/src/session_manager.c:246-266 | objects and model begin alike |
| Atomicity.PoolIsTake | plugin/src/ip_allocator.c:181-184 | an acquire of a pool address takes effect at the step of the pool, with live and returning addresses both taken |
| Atomicity.UnbindIsLeave | plugin/src/ip_allocator.c:68-70 | a release takes effect when it unbinds; a dynamic address is then on its way back |
| Atomicity.RecycleIsGiveBack | plugin/src/ip_allocator.c:76-80 | the address is back when its bit is clear |
| Atomicity.RunIsItsEffects | plugin/src/ip_allocator.c:64-224 | every interleaving ends in the state the simple allocator reaches when the effects happen one after the other |
| Atomicity.AnswerIsRecorded | plugin/src/ip_allocator.c:153-223 | the address a thread is about to answer is the one recorded for its user, under its uid |
| Atomicity.TakeIsAcquire | plugin/src/ip_allocator.c:151-206 | the effect of an acquire is the acquire of the sequential specification if and only if the user has a lease, or a fixed address, or the address the pool would give is not on its way back |
| Atomicity.LimboMatters | plugin/src/dynamic_pool.c:50-62 | addresses on their way back change the choice of the pool exactly when one of them is the choice |
| Atomicity.LeaveIsRelease | plugin/src/ip_allocator.c:64-86 | the effect of a release on the leases is that of the sequential specification |
| ReturningAddress.LastAddressOnItsWayBack | plugin/src/ip_allocator.c:68-80 | two threads, from an empty allocator with one address: a run after which no lease is left and no acquire has the address, and yet an acquire gets nothing; one step of the other thread later it gets it |
| ReturningAddress.ThreadsMeet | plugin/src/ip_allocator.c:64-197 | the state that run leads to, step by step |
| CallEffects.EffectsAreCalls | plugin/src/ip_allocator.c:64-224 | conservation over every interleaving, for each thread and uid: the effects it had, and the one it may still owe, are the calls it began |
| CallEffects.OneTakePerAcquire | plugin/src/ip_allocator.c:151-223 | between an acquire and its return there is exactly one Take by its thread under its uid |
| CallEffects.OneLeavePerRelease | plugin/src/ip_allocator.c:64-86 | between a release and its return there is exactly one Leave by its thread under its uid |
| CallEffects.NothingIsAnsweredExactly | plugin/src/ip_allocator.c:186-194 | an acquire goes on to answer nothing exactly when its Take has left its user without a lease |
| PluginLifecycle.StepKeepsInv | plugin/src/plugin.c:56-134 | every step of loader and job keeps the invariant of the protocol |
| PluginLifecycle.DestroyedOnceAndLast | plugin/src/plugin.c:31-98 | in every interleaving the count is the number of references; the internal destruction runs once, only after both are gone, and nothing is touched after it |
| PluginLifecycle.NoSweepAfterMark | plugin/src/plugin.c:102-121 | no sweep body runs while `terminating` is set or being set, or after the destruction |
| PluginLifecycle.NoLateReschedule | plugin/src/plugin.c:106-120 | a callback that begins after `terminating` is set neither sweeps nor reschedules; the one in flight reschedules at most once |
| PluginLifecycle.JobEnds | plugin/src/plugin.c:102-134 | once `terminating` is set the job comes to its end in a bounded number of its own steps, from wherever it was |
| PluginLifecycle.EverythingIsFreed | plugin/src/plugin.c:216-221 | after unregistering, every continuation with six steps of the job and two of the loader, in any order, ends with both gone and the object destroyed, once |
| Plugins.UserPolicyPlugin.constructor | plugin/src/plugin.c:246-256 | a new plugin has one reference, its own, and is known to nobody |
| Plugins.UserPolicyPlugin.Create | plugin/src/plugin.c:242-299 | no plugin exactly when the policy cannot be loaded or allocator or listener cannot be created; else an allocator without leases under that policy, with the configured pool name and timeout and the end points of the policy, valid exactly when its pool is absent or representable |
| Plugins.UserPolicyPlugin.Unref | plugin/src/plugin.c:84-98 | the last reference destroys the allocator and with it every lease; before that nothing is touched |
| Plugins.UserPolicyPlugin.Register | plugin/src/plugin.c:157-180 | provider and listener are registered; the job has a reference exactly when it could be created; the steps of the protocol run in a row |
| Plugins.UserPolicyPlugin.Unregister | plugin/src/plugin.c:182-190 | provider and listener are removed and `terminating` is set, as the steps of the protocol do, with those of the worker for whose sweep it waits |
| Plugins.WorkerUnlocks | plugin/src/plugin.c:110-115 | that wait ends, and changes neither the references nor the flag |
| Plugins.UserPolicyPlugin.SweepCb | plugin/src/plugin.c:102-121 | sweeps and asks to be called again exactly when the plugin is not terminating; equals the steps of the protocol without interruption |
| Plugins.UserPolicyPlugin.SweepCleanup | plugin/src/plugin.c:129-134 | drops the reference of the job; destroys everything exactly when the plugin's own is gone |
| Plugins.UserPolicyPlugin.Destroy | plugin/src/plugin.c:216-221 | drops the plugin's own reference; destroys everything exactly when the job has none |
| Plugins.Uninterrupted | plugin/src/plugin.c:102-121 | the callback run without interruption, step by step |

## Left out

- Charon.Serve: requires that no acquire of the run takes a uid away from another user, because that leaves the lease of that user in one index only (`IpAllocator.OrphanedByDisplacement`), and nothing is claimed about the calls that follow.
- PolicyDocuments.ParserUndoesPrinter: says nothing about a user entry or a `pool` section that itself contains mappings; `PolicyDocuments.BrokenEntryIsRead` says what is read from a user entry with one mapping.
- AddressClashes.NeverClashExactly: supposes that the pool is representable and that each policy is the content of some file, as the allocator cannot be run otherwise.
- Plugins.UserPolicyPlugin.SweepCb: requires that the loader is not between taking sweep_lock and setting the flag, because the callback would then see the flag change while it waits; `PluginLifecycle` has those steps.
- Plugins.UserPolicyPlugin.Create: reading the settings is left out; the pool name and the timeout are parameters, as is whether allocator and listener can be created.
- strongSwan itself (bus, attribute manager, processor, SA manager): it appears only as calls, a set of live uids during a sweep, and a processor that runs, requeues, drops and cleans up one job.
- libyaml, file access and `host_create_from_string`: parsing starts from an event sequence, and addresses are read by an arbitrary partial function.
- YAML sequences, aliases and nested mappings inside one user's entry or inside `pool`: the event loop runs on any events (`YamlLoader.LoadPolicy`), but `PolicyDocuments` prints scalars and mappings only, and the entries of one user and of `pool` with scalar values only.
- Memory exhaustion, except where the result of a new lease cannot be cloned: allocation, `strdup` and the clone for the lease succeed, so a failing `bind_lease`, which would keep the pool bit, does not occur.
- Ownership of `host_t` and of strings: addresses and names are values, so the clones in the source are copies; leases and snapshots are the objects whose single destruction is proved.
- FixedPools.FixedPool.Lookup: a read of the map, used through `PolicyEngine.LookupFixed`.
- NULL arguments that no caller passes (NULL names in the session manager, NULL end points in the parser, a NULL policy in the constructor).
- Hash functions and bucket layout: a hashtable is a map, and its enumeration visits the keys in any order.
- Bitwise operators of C: defined on numbers digit by binary digit and proved to act on single bits, not taken from a bit-vector theory.
- Interleavings of sweep and reload: both are atomic where they appear. A sweep in a concurrent run is covered as releases of arbitrary uids; a reload replaces the policy between two steps. The snapshot a sweep walks and the snapshot a reader has in hand are not protected against concurrent steps by the source, so nothing is claimed about them.
- The inner mutexes of pool and table: each call under one of them is one step.
- Lease times in the interleaved model: only a sweep reads them.
- Whole interleavings of calls on the objects: the interleaved model is on values; `WorldMirror` ties one critical section at a time to the classes.
- The overwrite branch of `bind_lease` in `IpAllocator`: reached only through `SessionManager.BindLease`, because the allocator looks the user up under the same lock.
- The reference count's own mutex: a decrement and its test are one step; the mutex destroyed with the object is not tracked while it is being unlocked.
- Loading, unloading and loading again of one plugin object: the loader registers at most once.
- The interval of the sweep job in milliseconds, and `sweep_cancel`: a callback that is to be repeated is queued again at some time, and a queued job may be dropped at any time.
- `identity_manager.c`: which string an SA is identified by; logging, settings, the empty attribute enumerator, and the capacity and used getters.
