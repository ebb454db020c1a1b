# clusterbook, modelled and verified

clusterbook hands out IP addresses to clusters. It keeps one ledger (network key, host part, status,
holder, lease), writes it to a YAML file or to a Kubernetes custom resource, keeps DNS records in step
with it, takes expired leases back, and is driven by a Crossplane controller. This project models that
behaviour in Dafny and proves what it keeps.

| file | what it models |
|---|---|
| `Text.dfy`, `Decimal.dfy` | the string and number functions of Go's standard library that the program uses |
| `Address.dfy` | network keys, host parts and how an address is told apart |
| `Ledgers.dfy` | the ledger and its entries |
| `CrCodec.dfy` | the text format of the custom resource |
| `Names.dfy` | the names that stay inside that format, and that every operation keeps them |
| `Cidr.dfy` | expansion of a prefix: wrapping enumeration, grouping, in-place exchange sort, flat list |
| `Dnsmasq.dfy`, `Router.dfy`, `RouterLimits.dfy`, `RouterRecords.dfy` | the dnsmasq table as text, the router's command interpreter, the client that edits it |
| `Allocate.dfy`, `Pools.dfy`, `Reclaimer.dfy` | offering and counting free addresses; the list of pools; expiring leases |
| `Operations.dfy`, `Handlers.dfy` | what each request decides over the loaded ledger; the handlers that do it in place |
| `Decisions.dfy` | when each request commits and how it is refused otherwise; what is listed and held afterwards |
| `Effects.dfy` | what a committed request means for each address: holder, record, lease, and nothing else |
| `Store.dfy`, `LedgerWriting.dfy`, `Serving.dfy`, `Refinement.dfy` | the conditional write, the locked load-change-save, one request from end to end, and that it is a path of the protocol |
| `Protocol.dfy`, `Handout.dfy`, `History.dfy` | any number of replicas and outside writers; no lost update; no address handed out twice |
| `Records.dfy`, `Process.dfy`, `Agreement.dfy` | one process's interleavings; records agree with the ledger |
| `Assignment.dfy`, `Listings.dfy`, `Reserving.dfy`, `Reconciling.dfy`, `Updating.dfy`, `FixedPoint.dfy`, `Heartbeat.dfy` | the controller: Observe, Create, Update, retries, lease renewal |

How the pieces are tied together:

- Each request is a value of `Operations.Op`, and `Operations.Apply` says what it decides over a ledger:
  refuse, nothing to do, or commit a new ledger with records to withdraw and publish. The methods of
  `Handlers.Handler` update the ledger in place, with the loops of the source, and are proved against
  it. The protocol, history, agreement and controller theorems are about the same function.
- `Decisions` says of every request, in terms of the request and the ledger alone, when it commits and how it is
  refused otherwise, which addresses are listed afterwards and what they hold.
- The allocator's choice (map order, `rng.Perm`) is a value inside the request, restricted by
  `Operations.Possible` to what the allocator can return. Maps are walked with `:|` from a shrinking set,
  so every result holds for every order.
- The choice a save makes on the object its Get returned (`Store.Checked`) and the server's answer to
  the write (`Store.Perform`) are one definition each, used by the imperative
  `LedgerWriting.CreateOrUpdateNetworkConfig` and by the state machine of `Protocol`. Other writers may
  act between the two; a reply may be lost.
- Time, failures, lost replies and other writers are parameters: functions from a call's number to what
  happens around it in the imperative code, step arguments in the state machines.

- The two forms meet: `Refinement.RequestIsPath` shows that what `Serving.Server.Handle` promises of a
  committed request is a path of `Protocol`, and `RouterRecords.CallIsStep` that a record call through the
  router's interpreter is a step of `Process`.

Where a natural claim does not hold, the code is kept as it is and the exact condition is proved:

- the text format keeps a ledger if and only if every entry is in its domain (`CrCodec.LedgerRoundTrip`);
- after any request, ledger and records agree again if and only if the request gave no cluster a second
  marked address and, where it edits no record, moved no mark (`Records.OperationAgrees`): a network
  deletion keeps agreement exactly when no address of the network is marked, a gRPC cluster update exactly
  when every address it names is already marked, or not, as its status and cluster say, a batch exactly
  when it overwrites no marked entry. How each fails: `Records.DeleteLeavesRecord`,
  `Records.UpdateLeavesRecord`, `Records.SecondLeavesMark`;
- what a batch is offered, and which free address a reserve takes, the allocator picks at random. Before the
  call: every possible batch from a network keeps agreement if and only if none of its free host parts reads
  back as a marked one (`Records.PoolAgreesExactly`); for a reserve the pick makes no difference
  (`Records.PickFollowsExactly`);
- a /0 prefix, and only that, never leaves the enumeration loop (`Cidr.LoopEnds`);
- a table is stored as it is if and only if it has no `&&` (`RouterLimits.StoredExactly`);
- a batch leaves every address it answers with to the requester if and only if none of their host parts has
  a dot (`Handout.BatchHoldsExactly`); every batch from a network does so if and only if no free host part
  has a dot, but for those too short to be read back (`Handout.PoolSafeExactly`). One address is read back
  as it was offered if and only if its host part has no dot and its key three segments or more
  (`Handout.WrittenWhereOffered`). Where the only free host part is `a.b`, the next batch of one overwrites
  the entry of `b` (`Handout.DottedHostPartOverwrites`);
- every possible batch from a network lowers its free count by the size of the batch if and only if the
  network's free host parts read back as free ones, no two as the same; for a key of three segments or more,
  if and only if none of them has a dot (`Handout.PoolLowersExactly`). Of one offer:
  `Handout.BatchLowersExactly`;
- Update writes the host parts that the recorded addresses read back as. It leaves every recorded address
  refreshed, from every ledger, if and only if each reads back as its own host part
  (`Updating.AlwaysRefreshesExactly`): no dot in it, and three segments or more in the key
  (`Updating.InNetworkExactly`). The same condition is exact for the next Observe to find nothing to do
  (`FixedPoint.FixedPointExactly`) and for the heartbeat to keep every lease (`Heartbeat.LeaseKeptExactly`).
  With a host part `a.b`, Update takes `b` from whoever holds it and `a.b` expires
  (`Updating.DottedNeverRenewed`); behind a short key it does nothing (`Updating.ShortKeyNeverRenewed`);
- Observe calls an address it just updated up to date if and only if the wanted status is not empty and not
  already DNS-marked in the way the server strips (`FixedPoint.SettlesExactly`).

Run `dafny verify dfyconfig.toml` to check everything.

## Model

The main results come first, then what leads to them; from `Text.JoinSplit` on, the rows tie the code as it runs, and the
helpers of its language, to the specifications the results are about.

| member | source | states |
|---|---|---|
| Protocol.NoLostUpdate | internal/save.go:90-159 | for any replicas, interleaving, outside edits, deletes and re-creates, and with writes that land after they were given up, the history is the committed operations one at a time, each decided over what it replaced |
| Protocol.SavesAreHonest | internal/save.go:128-158 | over any run, nil means applied and conflict means not, and the history has one operation per applied save, in the order they took effect |
| Refinement.RequestIsPath | internal/ledger.go:40-80 | what Handle promises of a committed request in cr mode is a path Begin, Load, Get, write, End of the protocol, with others acting in between |
| History.NotHandedOutTwice | internal/generate.go:35-75 | over any run on any replicas, with names the text format keeps: between two hand-outs of one address lies a committed step that freed it, if the first recorded it, as every reserve does and every batch without a dot |
| History.HandedOutAgainOnlyAfterExpiry | internal/reclaimer.go:80-100 | with only reserves, renewals and the reclaimer in between, that step is a reclaim that found the lease expired |
| Records.OperationAgrees | internal/web.go:651-885 | after any request of any kind, agreement holds if and only if its records follow: no second marked address for a cluster, and no mark moved where no record is edited |
| Agreement.RecordsAgree | internal/web.go:651-688 | over any run of one process with effective record calls and requests whose records follow, records are exactly {cluster -> marked address} whenever no write is open |
| Agreement.RouterAnswersLedger | internal/ddwrt.go:256-291 | the same through the router's own text: a lookup gives the ledger's marked address, or nothing |
| Process.NoLostRecord | internal/ddwrt.go:63-122 | in any interleaving the table is the completed edits one after another, though each is a read, a merge and a write |
| Process.EditsFollowOwnSave | internal/web.go:1721-1734 | every record edit comes after its own writer's save and before its end, with nobody in between |
| Reconciling.External.Create | provider/internal/controller/ipassignment/ipassignment.go:205-272 | however it ends, never more is held than was held or wanted, but one address for each earlier call of its own that took effect late; success records exactly the wanted number of distinct held addresses. With nobody else writing, only free addresses are taken, each with the status, mark and lease asked for; with every call served, it succeeds exactly when the network is listed and what is held and free makes up the wanted number, and otherwise takes nothing |
| Reconciling.External.Retry | provider/internal/controller/ipassignment/ipassignment.go:221-260 | the same bound over any number of attempts, each cut off at any call, with others writing in between; undisturbed, it succeeds exactly when a single attempt would |
| FixedPoint.UpdateThenObserve | provider/internal/controller/ipassignment/ipassignment.go:274-314 | the two calls in sequence, with any recorded addresses: what Observe then finds of each, and where each reads back as its own, present, and up to date exactly for the settling statuses |
| FixedPoint.FixedPointExactly | provider/internal/controller/ipassignment/ipassignment.go:274-314 | that fixed point is reached from every ledger if and only if each recorded address reads back as its own host part |
| Heartbeat.LeaseKeptExactly | provider/internal/controller/ipassignment/ipassignment.go:274-314 | with completed reconciles less than half a lease apart, whatever rounds hang or are given up: in every such run every tick leaves every recorded address as it is, if and only if each reads back as its own host part |
| Heartbeat.HeartbeatKeepsLease | internal/reclaimer.go:28-33 | where each does, a tick of such a run finds none of them expired, and all still the cluster's |
| Updating.AlwaysRefreshesExactly | provider/internal/controller/ipassignment/ipassignment.go:281-304 | a successful Update leaves every recorded address held with the written status and freshly leased, from every ledger, if and only if each reads back as its own host part |
| CrCodec.LedgerRoundTrip | internal/transform.go:39-104 | for every map order, what is read back is the ledger without its empty networks if and only if every entry is in the domain |
| Cidr.CIDRToIPList | internal/cidr.go:102-118 | the flat list is exactly the usable addresses in ascending 32-bit order |
| Address.HostDigitExact | internal/web.go:155-173 | the handler accepts exactly the decimal text of 0..255, alone or behind the key of a three-segment network, and returns it |
| Protocol.AcceptedReplacesSeen | internal/save.go:120-158 | with versions never reused, an accepted write replaces exactly the object its writer last loaded or saved, also when the writer has given it up |
| Protocol.StepKeeps | internal/ledger.go:40-80 | every step of every replica and of the outside world keeps versions, locks, history and answers consistent |
| Protocol.OneOpenWrite | internal/ledger.go:40-43 | a replica never has two open writes |
| Protocol.EndFreesOnlyOwn | internal/ledger.go:46-52 | an End never frees another writer's lock, and repeated Ends do nothing |
| Refinement.SaveIsPath | internal/save.go:120-158 | one conditional save, each call served, dropped or unheard, is a path of the protocol with the same object and answer |
| Store.AppliedExactly | internal/save.go:120-158 | the write takes effect exactly when the Get and the server both find the expected version, whatever happened in between |
| Store.AnswersExactly | internal/save.go:128-158 | one write: it takes effect exactly where the version is still found; heard, nil exactly then, a conflict exactly where the object has another version, an error where it is gone |
| LedgerWriting.SavesExactly | internal/save.go:120-158 | what a conditional save leaves and answers, in every case of what others do before each call and of what becomes of the call |
| LedgerWriting.ServedSave | internal/save.go:120-158 | with both calls served: nil if and only if both find the expected version, a conflict if and only if the Get finds another or the write finds an object with another, an error if and only if the object is gone in between |
| Serving.Server.Handle | internal/web.go:705-836 | Begin, Load, decide, Save, DNS, End: loads exactly when it can, decides over what it loaded, saves once over that object, and leaves the object alone otherwise |
| Decisions.ReserveAskedExactly | internal/web.go:730-782 | a reserve of an address commits if and only if the cluster is named, the network exists, and the address is one of its own that is free or is to be added; each other case has its refusal |
| Decisions.ReserveAnyExactly | internal/web.go:783-797 | a reserve of any address commits if and only if the cluster is named, the network exists and some address is free ("" aside) |
| Decisions.BatchExactly | main.go:161-206 | a batch commits if and only if cluster, count and status are right, that many addresses are free, and each offered one can be read back; each other case has its refusal |
| Decisions.AssignExactly | internal/web.go:623-650 | an assign commits if and only if cluster and address are given, the network exists and the address is one of its own, whoever holds it |
| Decisions.ReleaseExactly | internal/web.go:846-863 | a release commits if and only if the network exists and the address has four segments or more |
| Decisions.RenewExactly | internal/web.go:906-931 | a renewal commits if and only if the duration is positive and the address read back is listed and held |
| Decisions.EditExactly | internal/web.go:1228-1265 | an edit commits if and only if cluster and status are given and the address is listed, alone or in full |
| Decisions.DeleteExactly | internal/web.go:1180-1203 | a delete commits if and only if the address is listed, alone or in full |
| Decisions.SetClusterExactly | main.go:113-134 | a cluster update commits if and only if every address has four segments and a configured network |
| Decisions.SetClusterRefuses | main.go:113-134 | otherwise the first that has not decides the refusal |
| Decisions.PoolChangesExactly | internal/web.go:988-1162 | when networks are created, extended, deleted and reclaimed, and how the rest is refused |
| Decisions.NetworksAfter | internal/web.go:988-1120 | the networks of the ledger change only by creating and deleting them |
| Decisions.ListedAfter | internal/web.go:1206 | after any request an address is listed if and only if it was and is not deleted, or is added, or is named by a request that writes it; an added one is blank |
| Decisions.StatusAfter | internal/web.go:802-815 | a given address has the status asked for, with a mark exactly when a record is |
| Decisions.BlankAfter | internal/web.go:866-876 | what is released, deleted or reclaimed is blank in every field, and nothing else is |
| History.HandOutClaims | internal/web.go:747-819 | a committed hand-out found the stored entry free, and left it with the requester exactly when it was recorded |
| History.WhoFreed | internal/web.go:864-876 | in the history of any run, an operation freed an address exactly when it is one of those |
| Handout.HandOutTakesFree | internal/web.go:747-819 | a reserve or batch answers with addresses that were free, or absent when adding was asked for; the requester holds them afterwards exactly unless a batch answered with a dotted host part |
| Handout.WrittenWhereOffered | internal/transform.go:27-35 | an offered address is written at its own host part exactly when that has no dot and the key has three segments |
| Handout.DottedHostPartOverwrites | main.go:195-201 | where the only free host part is a.b, a batch of one overwrites the entry of b, which is held if it is listed |
| Handout.FreedExactly | internal/web.go:839-885 | a held address becomes free exactly by release, delete, reclaim of its expired lease, network deletion, or a cluster update to the empty status |
| Handout.BatchHoldsExactly | main.go:187-206 | a batch leaves every address it answers with to the requester if and only if none of their host parts has a dot |
| Handout.PoolSafeExactly | internal/generate.go:39-75 | every batch from a network does so if and only if no free host part has a dot, but for those whose address is too short to be read back |
| Handout.PoolLowersExactly | internal/generate.go:39-75 | every batch from a network lowers its free count by its size if and only if the free host parts read back as free ones, no two as the same; from three segments in the key on, if and only if none has a dot |
| Handout.BatchLowersExactly | main.go:187-206 | of one offer over any pool: the free count drops by n if and only if it writes n host parts that were all free |
| Handout.FreeAfterBatch | main.go:195-201 | over any pool, what stays free is what was free and is not written |
| Records.SetAgrees | internal/web.go:678-688 | one entry changed and its stale record withdrawn, its due one published: agreement holds exactly when no other address was marked for the cluster |
| Records.ReclaimAgrees | internal/reclaimer.go:45-74 | a reclaimer pass keeps records and ledger in agreement |
| Records.AgreeUnique | internal/web.go:802-824 | agreement determines the record table |
| Records.DeleteNetworkAgrees | internal/web.go:1106-1120 | deleting a network keeps agreement exactly when none of its addresses is marked |
| Records.SetClusterAgrees | main.go:113-141 | a cluster update keeps agreement exactly when every address it names is already marked, or not, as its status and cluster say |
| Records.PoolAgreesExactly | main.go:187-201 | every batch from a network keeps agreement if and only if none of its free host parts reads back as a marked one, as where none has a dot |
| Records.PickFollowsExactly | internal/web.go:784-824 | whatever free address a reserve takes, its records follow exactly when it asks for none or its cluster has no marked address |
| Records.BatchAgrees | main.go:195-201 | one offered batch keeps agreement exactly when it overwrites no marked entry |
| Records.DeleteLeavesRecord | internal/web.go:1106-1120 | deleting a network with one marked address leaves that record behind |
| Records.UpdateLeavesRecord | main.go:113-141 | a cluster update without the mark, of a marked address, leaves its record behind |
| Records.SecondLeavesMark | internal/web.go:784-824 | a reserve with a record for a cluster that has one moves the record to the new address and leaves the first one marked |
| Agreement.TodoEdits | internal/web.go:60-75 | the calls of an operation, in any order of withdrawals, amount to its record change |
| Process.LockDiscipline | internal/ledger.go:40-52 | at most one write is open, it holds the lock, and marks come as begin, save, edit, end |
| Process.EndIsHarmless | internal/ledger.go:46-52 | an End by anyone but the lock's holder changes nothing |
| RouterRecords.CallEdits | internal/ddwrt.go:63-122 | a record call through the router's interpreter stores exactly the edit of the table the router held, or changes nothing; without an error it stored it |
| RouterRecords.CallIsStep | internal/ddwrt.go:63-122 | so a call by the lock holder is one step of the interleaved process |
| Reconciling.Clusterbook.ReserveIP | provider/internal/client/clusterbook.go:131-150 | exactly what a reserve of any address does over the ledger others left, unless dropped; an address exactly when it was served, and no error exactly when its record was made as well |
| Reconciling.Clusterbook.EditIP | provider/internal/client/clusterbook.go:184-212 | no error exactly when the edit was served and committed; the ledger is what it then decides, or untouched |
| Reconciling.Clusterbook.RenewLease | provider/internal/client/clusterbook.go:168-173 | the same for a renewal |
| Reserving.ReserveFills | internal/web.go:784-815 | one reserve takes the pick, with the status, mark and lease asked for, and nothing else |
| Reserving.NewlyHeld | provider/internal/controller/ipassignment/ipassignment.go:244-260 | each address Create adds was free and carries what was asked for |
| Listings.ListedFree | internal/web.go:340-357 | a listing has as many entries without a status as the network has free addresses |
| Reconciling.External.Update | provider/internal/controller/ipassignment/ipassignment.go:274-314 | with nobody else writing, success leaves every host part that a recorded address reads back as listed, held with the written status and freshly leased, and no other entry changed; with no time passing it is the loop of `Updating.UpdateAll`, and with every call served succeeds exactly when that does; the recorded lease moves only on success |
| Updating.UpdateAllEntry | provider/internal/controller/ipassignment/ipassignment.go:281-304 | the loop writes exactly the listed host parts the addresses read back as, and no other entry, recorded or not |
| Updating.UpdateSucceedsExactly | provider/internal/controller/ipassignment/ipassignment.go:281-304 | it succeeds exactly when the server lists every host part it writes, and the cluster is named |
| Updating.OwnWrittenExactly | provider/internal/controller/ipassignment/ipassignment.go:281-285 | every recorded host part is written if and only if every recorded address reads back as its own |
| Updating.InNetworkExactly | internal/transform.go:27-35 | which it does exactly without a dot and behind a key of three segments or more |
| Updating.RefreshedExactly | provider/internal/controller/ipassignment/ipassignment.go:281-304 | of one address over one ledger: refreshed afterwards exactly when its host part is written, or it was so before |
| Updating.DottedNeverRenewed | provider/internal/controller/ipassignment/ipassignment.go:281-304 | for a host part a.b, Update takes b, leaves a.b as it was, and once its lease has run out the reclaimer clears it |
| Updating.ShortKeyNeverRenewed | provider/internal/controller/ipassignment/ipassignment.go:281-285 | behind a key of fewer than three segments, Update of host parts without dots succeeds and does nothing |
| FixedPoint.PresentExactly | provider/internal/controller/ipassignment/ipassignment.go:113-131 | recorded addresses count as present exactly while every one is listed as the cluster's |
| FixedPoint.SettlesExactly | internal/web.go:1272-1283 | what Update writes is what Observe expects exactly for a non-empty status without the mark the server strips |
| FixedPoint.ObserveAfterUpdate | provider/internal/controller/ipassignment/ipassignment.go:113-164 | through the text format and within half a lease, with any recorded addresses: present, and up to date, exactly when each address that is not written was so before, and those written settle |
| FixedPoint.CreatedPresent | provider/internal/controller/ipassignment/ipassignment.go:113-131 | what a successful Create records is what the next Observe finds, with nobody writing in between |
| FixedPoint.FollowsInNetwork | provider/internal/controller/ipassignment/ipassignment.go:113-164 | where each reads back as its own, that is: present, and up to date exactly for those statuses |
| Heartbeat.StepKeeps | provider/internal/controller/ipassignment/ipassignment.go:274-304 | every event, the loop's own skip, edit and renewal included, keeps each renewed address leased for half a lease past the reconcile |
| Heartbeat.PaceIsTight | provider/internal/controller/ipassignment/ipassignment.go:150-161 | continued by half a lease without a reconcile, the next tick of that run clears the address (leases of four seconds or more) |
| Heartbeat.KeptUntilHalf | provider/internal/controller/ipassignment/ipassignment.go:150-161 | such a run exists in which the last Observe finds the address up to date exactly half a lease before it runs out |
| Assignment.ObservePanicsExactly | provider/internal/controller/ipassignment/ipassignment.go:92-99 | Observe crashes exactly when it would adopt for a count that is not positive |
| Assignment.AdoptsExactly | provider/internal/controller/ipassignment/ipassignment.go:80-110 | without recorded addresses and a positive count: present if and only if at least that many entries are the cluster's, up to date if and only if present and no record is wanted; present, it records the first of them and the fields read off them, otherwise nothing |
| Assignment.ObservesNothing | provider/internal/controller/ipassignment/ipassignment.go:84-110 | a failed listing, or a count that is not positive: nothing is recorded, and the answer in each case |
| Assignment.RefreshesExactly | provider/internal/controller/ipassignment/ipassignment.go:127-148 | with recorded addresses: present, name and lease are read off their entries and the rest is kept; otherwise nothing changes |
| Assignment.UpToDateExactly | provider/internal/controller/ipassignment/ipassignment.go:138-161 | an entry is up to date exactly with the wanted status, marked if a record is wanted, for the cluster, with at least half of the lease left |
| Assignment.FindIs | provider/internal/controller/ipassignment/ipassignment.go:119-126 | of entries with one address the last counts |
| CrCodec.EntryRoundTrip | internal/transform.go:39-104 | one entry is read back as written if and only if it is in the format's domain, for any 64-bit lease |
| CrCodec.EntryText | internal/transform.go:45-57 | an entry is its fields joined by colons: host part, status and holder where both are set, and `exp=` with the lease where there is one |
| CrCodec.EntryReads | internal/transform.go:84-100 | what is read of an entry of one, two, three, four or more fields |
| CrCodec.LeaseReads | internal/transform.go:70-83 | a last field `exp=t` is taken off and is the lease where it spells a 64-bit number; alone it cannot be read |
| CrCodec.NetworkRoundTrip | internal/transform.go:39-104 | a network's entries, in any order, read back whole if and only if each is in the domain |
| Names.SavedReadsBack | internal/transform.go:39-104 | a ledger with names in the domain is written and read back whole, but for its empty networks |
| Names.OperationsKeepNames | internal/web.go:602-947 | a request whose names are in the domain keeps every name of the ledger there |
| Names.PlainStatusGranted | internal/web.go:121-129 | a status with no colon but one DNS mark stays in the domain through every suffix rule |
| Cidr.BlockIsInterval | internal/cidr.go:36-45 | the addresses with a masked prefix are one interval of 2^h addresses |
| Cidr.CounterInBlock | internal/cidr.go:52-53 | the wrapping counter visits the block once, in order, and is outside it right after |
| Cidr.LoopEnds | internal/cidr.go:52-53 | the loop ends if and only if the prefix has at least one bit |
| Cidr.CIDRToNetworks | internal/cidr.go:47-84 | the loop groups exactly the usable addresses by /24 key, in order, and errs when there are none |
| Cidr.UsablesExact | internal/cidr.go:47-77 | usable means in the block, not an end of it when there are two host bits or more, last octet not reserved; strictly ascending |
| Cidr.DottedExactly | internal/cidr.go:55-66 | an address is written as its four octets, highest first |
| Cidr.BlockCount | internal/cidr.go:47-77 | with nothing reserved: 2^h - 2 addresses, two in a /31, one in a /32 (section 2.1 of RFC 3021) |
| Cidr.KeysCompare | internal/cidr.go:157-168 | the octet-wise comparison of /24 keys orders them as 24-bit numbers |
| Cidr.ExchangeSort | internal/cidr.go:141-155 | the nested loops leave a permutation of the keys in ascending order |
| Cidr.SortedKeys | internal/cidr.go:141-155 | the keys of the map once each, ascending, whatever order the map is walked in |
| Cidr.FlattenAscending | internal/cidr.go:109-115 | regrouping an ascending list by ascending prefixes and concatenating gives the list back |
| Dnsmasq.RemoveShows | internal/ddwrt.go:281-291 | for any text, the trimmed non-blank lines not mentioning the name survive in order, and nothing else |
| Dnsmasq.MergeShows | internal/ddwrt.go:256-266 | the same, with the new entry behind them |
| Dnsmasq.RemoveAfterMerge | internal/ddwrt.go:256-291 | removing after merging the name equals removing from the original, exactly when every shown line of the entry mentions the name |
| Dnsmasq.MergeTwice | internal/ddwrt.go:256-266 | merge is idempotent under the same exact condition |
| Dnsmasq.EntryEdits | internal/ddwrt.go:63-82 | every entry the client prints meets that condition |
| Dnsmasq.RemoveTwice | internal/ddwrt.go:281-291 | remove is idempotent |
| Dnsmasq.RemovesCommute | internal/ddwrt.go:281-291 | removals of two names commute, for any text |
| Dnsmasq.LookupMerged | internal/ddwrt.go:256-279 | lookup after merge gives the new address |
| Dnsmasq.LookupRemoved | internal/ddwrt.go:270-291 | lookup after remove finds nothing, for any text |
| Dnsmasq.MergeIsUpdate | internal/ddwrt.go:256-279 | on any table in which no line mentions two names, other dnsmasq options included, merge is a map update seen through every lookup |
| Dnsmasq.RemoveIsDelete | internal/ddwrt.go:270-291 | on such a table, remove is a map removal seen through every lookup |
| Dnsmasq.TwoNamesLost | internal/ddwrt.go:281-291 | a line that mentions two names is lost to both when one is removed |
| Dnsmasq.TrimmedTextShows | internal/ddwrt.go:242-266 | trimming the printed table changes none of its visible lines |
| Router.SetIsOneCommand | internal/ddwrt.go:174-180 | the printed store command splits exactly when the table has `&&` |
| Router.ParseSetOptions | internal/fakeddwrt.go:222-268 | quoting and parsing the store command gives the table back |
| Router.WriteOutcome | internal/ddwrt.go:174-206 | for every set of unresolvable commands and any table without `&&`: which step fails, what is stored, whether a reload followed |
| Router.CreateReported | internal/ddwrt.go:63-92 | creating a record, for every set of commands the router cannot do: the error is that of the first step that fails, the merged table is stored unless that is the read or the store, and a reload followed exactly without an error |
| Router.DeleteReported | internal/ddwrt.go:95-122 | the same for deleting a record |
| Router.PairCommand | internal/fakeddwrt.go:197-220 | stop-and-start counts as a reload only when both halves resolve |
| Router.CommandTexts | internal/ddwrt.go:76-206 | the commands as they are sent |
| RouterRecords.RecordLine | internal/ddwrt.go:63-66 | the line of a record |
| RouterRecords.ListedName | internal/web.go:144-150 | a listing shows a marked address under the wildcard of its record's name |
| RouterLimits.StoredExactly | internal/ddwrt.go:174-180 | the router ends up holding exactly the table if and only if the table has no `&&` |
| Allocate.GenerateIPs | internal/generate.go:39-75 | n distinct free addresses when n are available, an error when fewer, none when none, a panic on a negative count |
| Pools.GetPoolInfos | internal/web.go:315-337 | one pool for each network and no other, in the order of the keys, whose available addresses are exactly the free ones |
| Pools.BeforeExactly | internal/web.go:333-336 | the order of the pools is that of their keys' bytes: a proper beginning first, otherwise the smaller character where they first differ |
| Reclaimer.ReclaimExpiredLeases | internal/reclaimer.go:49-59 | the in-place loop clears exactly the expired entries |
| Reclaimer.ReclaimComposes | internal/reclaimer.go:24-59 | reclaiming at two times is reclaiming once at the later |
| Reclaimer.SecondPassFinds | internal/reclaimer.go:24-59 | a second pass finds exactly what the first left unexpired and has expired since |
| Reclaimer.ReclaimFrees | internal/reclaimer.go:49-59 | the free count grows by the number of reclaimed entries that were busy |
| Text.JoinSplit | internal/transform.go:16-23 | joining what was split on a separator gives the text back |
| Text.SplitJoin | internal/ddwrt.go:256-266 | splitting what was joined gives the parts back, when none holds the separator |
| Text.SplitConcat | internal/transform.go:16-35 | splitting a concatenation around a separator is the concatenation of the splits |
| Decimal.ParseItoa | internal/web.go:169-171 | a printed 64-bit integer parses back to itself |
| Decimal.ParseIntExactly | internal/transform.go:74-77 | exactly the texts of a sign or none, zeros and decimal digits are parsed, as the 64-bit number they spell |
| Text.TrimSpaceExactly | internal/ddwrt.go:256-266 | trimming takes white space off both ends and nothing else |
| Text.IndexExactly | internal/ddwrt.go:270-279 | the first place a text stands in another, or none |
| Decimal.Wrap64 | internal/web.go:810-814 | a lease sum wraps into 64 bits: in range, unchanged when it fits, congruent modulo 2^64 |
| Address.LastDigitOfFull | internal/transform.go:27-35 | an address with a dot-free host part reads back as that host part exactly when its key has three segments or more |
| Address.FourSegments | internal/transform.go:15-25 | an address accepted under a key has that key's three segments and its own last one |
| Address.FullInjective | internal/generate.go:53-58 | two host parts of one network never share an address |
| CrCodec.ConvertToCRFormat | internal/transform.go:39-61 | the nested loops write one text per address of every non-empty network, in some order |
| CrCodec.ConvertFromCRFormat | internal/transform.go:63-104 | the parsing loops give the decoded ledger, or the index panic on an entry that is only a lease |
| CrCodec.ReadEntry | internal/transform.go:70-100 | the reslicing of one entry's parts is its decoding |
| Cidr.CompareAndSwap | internal/cidr.go:147-151 | one step of the exchange sort, in place |
| Dnsmasq.MergeDNSEntry | internal/ddwrt.go:256-266 | the line loop is the merge the laws below are about |
| Dnsmasq.RemoveDNSEntry | internal/ddwrt.go:281-291 | the line loop is the removal the laws below are about |
| Dnsmasq.LookupDNSEntry | internal/ddwrt.go:270-279 | the early return is the lookup the laws below are about |
| Router.Server.ExecuteOne | internal/fakeddwrt.go:222-268 | one command's effect on nvram and the reload count |
| Router.Server.ExecuteCompound | internal/fakeddwrt.go:197-220 | the parts run in order and stop at the first failure |
| Router.Client.CreateRecord | internal/ddwrt.go:63-92 | read, merge, write back, step by step |
| Router.Client.DeleteRecord | internal/ddwrt.go:95-122 | read, remove, write back, step by step |
| Router.Client.WriteDNSOptions | internal/ddwrt.go:174-190 | set, commit, reload, each with its own error |
| Router.Client.ReloadDnsmasq | internal/ddwrt.go:193-206 | the first of the reload commands that works, or an error after all |
| Allocate.PickRandomValues | internal/generate.go:77-93 | a random choice without repetition of the asked size |
| Allocate.WriteReserved | main.go:195-201 | the writing loop of a batch, or its error |
| Reclaimer.FindExpiredLeases | internal/reclaimer.go:24-43 | each expired entry once, with its holder and DNS flag, and nothing else |
| Handlers.Handler.Reserve | internal/web.go:730-824 | the reserve handler decides as the operation, for whatever free host part the loop meets first |
| Handlers.Handler.FindAsked | internal/web.go:756-782 | the host part of an address asked for, or the refusal: malformed, not in the pool, not free |
| Handlers.Handler.FindFree | internal/web.go:784-797 | the loop stops at a free host part, or there is none |
| Handlers.Handler.ReserveBatch | main.go:161-201 | the gRPC reserve decides as the operation, for whatever is offered |
| Handlers.Handler.Assign | internal/web.go:623-688 | the assign handler decides as the operation |
| Handlers.Handler.Release | internal/web.go:859-885 | the release handler decides as the operation |
| Handlers.Handler.RenewLease | internal/web.go:906-941 | the renew handler decides as the operation |
| Handlers.Handler.EditIP | internal/web.go:1222-1298 | the edit handler decides as the operation |
| Handlers.Handler.DeleteIP | internal/web.go:1174-1214 | the delete handler decides as the operation |
| Handlers.Handler.ReclaimOnce | internal/reclaimer.go:80-100 | a reclaimer cycle saves nothing when nothing expired, and otherwise what the operation says |
| Handlers.Handler.SetClusterInfo | main.go:113-141 | the loop over the addresses sets all of them or refuses at the first bad one |
| Handlers.Handler.CreateNetwork | internal/web.go:1015-1029 | a new network of blank addresses, or a conflict |
| Handlers.Handler.AddNetworks | internal/web.go:988-1001 | the networks of a prefix are all added or, when one exists, none |
| Handlers.Handler.AddIPs | internal/web.go:1150-1162 | new host parts are added blank, known ones keep their entry |
| Handlers.Handler.DeleteNetwork | internal/web.go:1110-1115 | the network goes, records stay |
| Handlers.RemoveReclaimedDNS | internal/reclaimer.go:62-74 | the records to remove are those of reclaimed entries that had one and a holder |
| LedgerWriting.CreateOrUpdateNetworkConfig | internal/save.go:90-159 | Get, compare, Create or Update with others acting before each call, exactly as specified |
| LedgerWriting.LedgerWrite.constructor | internal/ledger.go:40-43 | begin takes the free lock and starts unloaded |
| LedgerWriting.LedgerWrite.End | internal/ledger.go:46-52 | the lock is released the first time and never touched again |
| LedgerWriting.LedgerWrite.Load | internal/load.go:55-86 | exactly when the read is served and decodable, the ledger and the version to save over; a missing object is an empty ledger with version "" |
| LedgerWriting.LedgerWrite.Save | internal/ledger.go:66-80 | refused after End and without Load; in cr mode one conditional save of some text of the ledger over the version last seen; the version moves only on success |
| Serving.EditRecords | internal/web.go:60-75 | one round over all providers for every withdrawal and then the publication, no failure stopping the rest; every provider that no call failed to reach holds exactly the edited records, and the answer is good exactly when every call was |
| Serving.MalformedIsRefused | internal/web.go:623-630 | what is refused before the write begins is refused over every ledger |
| Serving.Decide | internal/web.go:602-947 | every handler decides as its operation |
| Serving.Server.Finish | internal/web.go:1721-1734 | no record moves unless the save returned nil; the save is one conditional save, answered as it ended; the lock is free at the end |
| Handout.SetAllEntry | main.go:113-141 | a cluster update sets holder and status of the named addresses, keeps their leases, and touches nothing else |
| Effects.OthersUntouched | internal/web.go:602-943 | every address a request does not name keeps its entry, reclaim and network deletion aside |
| Effects.HolderAfter | internal/web.go:802-815 | the requesting cluster holds the address, marked exactly when a record was asked for by flag or status |
| Effects.PublishesTarget | internal/web.go:821-824 | a record is published exactly when asked for, for the requesting cluster and an address the request names |
| Effects.LeaseRunsOut | internal/reclaimer.go:28-33 | a reserve, assign or renew is expired exactly from its duration on, and never without one |
| Effects.LeaseKeptOrGone | internal/web.go:1272-1283 | edit and cluster update keep the lease; batch, release and delete leave none |
| Assignment.HeldBy | provider/internal/controller/ipassignment/ipassignment.go:169-177 | the loop keeps the cluster's entries in order |
| Assignment.HeldMember | provider/internal/controller/ipassignment/ipassignment.go:169-177 | exactly the entries with that cluster and a status |
| Assignment.CountFree | provider/internal/controller/ipassignment/ipassignment.go:180-188 | the number of entries without a status |
| Assignment.MinLeaseExpiresAt | provider/internal/controller/ipassignment/ipassignment.go:192-203 | the earliest lease, 0 when some entry has none |
| Assignment.IPAssignment.Observe | provider/internal/controller/ipassignment/ipassignment.go:76-164 | adoption, the check of every recorded address, and the status fields that are refreshed |
| Reserving.ReserveGrows | internal/web.go:784-815 | a reserve adds exactly the picked host part to the cluster's holdings |
| Listings.ListedHoldings | internal/web.go:340-357 | the held entries of a listing are the cluster's holdings, each once |
| Handout.WriteAllEntry | main.go:195-201 | the batch loop writes exactly the host parts its addresses read back as |
| Effects.RenewKeepsHolder | internal/web.go:931-941 | a renewal is granted to a held address only, and changes nothing but its lease |
| Address.ReadsBack | internal/transform.go:27-35 | an address that reads back at all reads back as the last segment of its host part |
| Allocate.GetPoolInfo | internal/web.go:317-332 | the counting loop; assigned, pending and available together never exceed the total |
| Serving.Providers.Create | internal/web.go:60-66 | every enabled provider is called whatever the others answered |
| Serving.Providers.Remove | internal/web.go:69-75 | every enabled provider is called whatever the others answered |

## Left out

- HTML pages, HTMX handlers, base paths, JSON, routing, the version banner: requests enter as decoded values. HTMX assign and release keep a lease and, for assign, leave the previous holder's record; they are not among the operations.
- Agreement.RecordsAgree: the code does not maintain agreement through every network deletion, gRPC cluster update or second marked address; a run may hold any of them whose records follow, and `Records.OperationAgrees` says exactly which those are.
- Agreement.RouterAnswersLedger: names and zones with slashes or white space do not fit the router's `address=/name/ip` lines and are excluded, and so are tables with a line that mentions two names, which an edit of one takes from the other (`Dnsmasq.TwoNamesLost`).
- History.NotHandedOutTwice: names the text format does not keep are excluded; what it does to those is `CrCodec.LedgerRoundTrip`. A batch that answers with a dotted host part records another one, so only the later hand-out is then known to have found it free.
- Heartbeat.PaceIsTight: for leases of two and three seconds less than half a lease is no time at all on a clock of seconds. The run shown has a status controller and server agree on; for any other, every reconcile renews.
- Heartbeat.LeaseKeptExactly: leases are of two seconds or more and the cluster is named; others leave the recorded entries alone; an operator who releases or shortens one ends its lease whatever the controller does.
- FixedPoint.UpdateThenObserve: nobody else writes between the two calls.
- Reconciling.External.Create: a call given up on may take effect before any later call; how many do is a parameter, and each is taken to give the cluster at most one address.
- DNS agreement across replicas, after a crash between save and record edit, or when a record call had no effect: not maintained by the code; a run with such a step is marked `dropped` and nothing is claimed about its records.
- Cidr.CIDRToNetworks: starts from a 32-bit address and a prefix length of at least one; parsing the CIDR text is library behaviour, and a /0 prefix never returns (`Cidr.LoopEnds`). Bit masks are written as arithmetic on the same 32-bit values.
- Listings.GetIPEntries: the order in which the server sorts the entries is not modelled; the results hold for any order.
- YAML and protobuf encoding, file system calls, SSH, HTTP and the Kubernetes client: an atomic file write, a command interpreter, and a versioned object with compare-and-set stand for them. Conversion of objects to and from their unstructured form is taken as the identity.
- LedgerWriting.LedgerWrite.constructor: waiting for the lock is a precondition that it is free; in the state machines a begin is a step that is enabled only then.
- Serving.Server.Handle: a malformed request is refused after the load instead of before it; `Serving.MalformedIsRefused` shows the answer is the same for every ledger.
- The metadata of the stored object (labels, owners) is not modelled; only the version matters to the write.
- The PowerDNS client is a map whose edits may fail with or without effect.
- The wall clock and the random generator: time is a parameter that never goes back, a random permutation is any permutation.
- Disk mode with several processes: the code has no check there, so the multi-replica protocol is about the custom resource only.
- The Network controller, the REST client's encoding, the read-only endpoints, KCL and deployment files: they would add only easy members.
- Delete of an IPAssignment: a loop of releases, covered by the release operation.
