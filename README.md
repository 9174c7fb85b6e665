# ping-exporter in Dafny

ping-exporter runs one pod per Kubernetes node. Each pod pings every other
pod of its DaemonSet and exports round-trip times and packet loss as
Prometheus gauges. This project models the two sequential cores of the
exporter and proves properties of them:

- **The pod-reconciliation controller** (`controller/controller.go`). It keeps
  the local pod `me` and the peers seen so far (`saved`, by pod name). It turns
  the informer's add, update and delete callbacks into `AddTargetDelayed` and
  `RemoveTarget` calls on the go-ping monitor.
  - A probe target is named by `targetName(me, dst)`: eight identity fields
    joined by single spaces.
  - `Controller.Controller` is a class with the source's fields. Its methods
    are the callbacks, with the source's `for … range ctl.saved` loops written
    as loops over the map's keys.
  - Each method is proved to reach exactly the state given by a pure
    transition (`AfterAdd`, `AfterUpdate`, `AfterDelete`) of the controller
    state together with the monitor's target table.
  - `ProbeMonitor.Monitor` is the monitor's target table: a set of names. A
    duplicate add is refused with an error, and a remove is idempotent.
- **Scrape-time rendering** (`collector/rttscale.go`).
  `Collector.PingCollector.Collect` keeps the last non-empty statistics
  snapshot the monitor exported. For each retained target it sends:
  - the four RTT gauges, when `PacketsSent > PacketsLost`;
  - one loss gauge, always.

  Every gauge is labelled with `strings.SplitN(target, " ", 8)`. The channel
  becomes the returned sequence of samples. The map's iteration order is not
  fixed, so the contracts speak of the multiset of samples.

Module `GoStrings` holds the pieces of Go that both cores rely on:
`strings.Index`, `strings.SplitN` and `strings.Join` for a one-character
separator, and Go's byte-wise string order `<` / `>=`.

Module `Reconciliation` proves what the callbacks achieve together.
- **The invariant.** After any admissible sequence of callbacks, the monitor
  probes exactly one target per *saved* peer whose address resolves, keyed on
  the current local pod. It probes nothing while the local pod has no
  address (`RunKeepsConsistent`). The invariant is relative to `saved`: a
  peer the controller never saved is not covered.
- **"Admissible".** The callbacks as written need the following of each
  event:
  - identity fields without spaces;
  - an update's two objects belong to the same pod;
  - an event's object carries the same key fields as the object last saved
    under its name;
  - the local pod, when added again, keeps its key.
- **The informer does not guarantee the third clause.** An update's old
  object is the informer's previous view of the pod, and a delete carries the
  pod's last state as the watch reported it. Either can differ from the
  object the controller saved, after any update the controller dropped. On
  those runs the source leaves a stale target behind (see "## Findings").
- **Corrected transitions.** `FixedUpdate` and `FixedDelete` work from the
  saved object instead. They keep the invariant on every run whose adds agree
  with the saved peers (`FixedRunKeepsConsistent`).

The modules also hold scenario lemmas, one per branch of each callback.

Behaviour of the code that the lemmas pin down:
- **The version guard compares resource versions as strings.** It compares
  the update's old and new objects; nothing in the controller records
  versions. An update from version "9" to "10" is taken as stale and dropped
  (`Reconciliation.NumericallyNewerDropped`).
- **Collect does not check the target key's shape.** It passes whatever
  `SplitN` returns as label values: `Collector.Gauge` labels with the raw
  pieces, and `Collector.SamplesAreRetainedGauges` bounds them only by eight.
  A key that gives fewer than eight labels makes the metrics library's
  `MustNewConstMetric` panic. That panic is left out.
- **An update of the local pod can fall into the peer branch.** This happens
  when the update keeps the local pod's current address but the old object
  carried a different one. The local pod is then saved as a peer of itself
  and probed under its own name
  (`Reconciliation.SelfUpdateFallsThroughToPeer`).

## Model

| member | source | states |
|---|---|---|
| GoStrings.SplitN | collector/rttscale.go:65 | no pieces for n = 0, otherwise between 1 and n pieces; no piece but the last holds the separator, and the last holds none when there are fewer than n pieces |
| GoStrings.JoinSplitN | collector/rttscale.go:65 | joining the pieces of SplitN with the separator gives back the split string |
| GoStrings.SplitNJoin | collector/rttscale.go:65 | splitting a join of at most n pieces gives back the pieces when no piece but a last n-th one holds the separator |
| GoStrings.Less | controller/controller.go:144 | Go's `a < b` on strings, lexicographic with a proper prefix first; a string is never before itself |
| GoStrings.AtLeast | controller/controller.go:144 | Go's `a >= b` on strings, the negation of `<`; it holds of equal strings |
| GoStrings.AtLeastIffNotAfter | controller/controller.go:144 | `a >= b` on strings holds exactly when a equals b or b sorts strictly before a |
| GoStrings.StringOrderNotNumeric | controller/controller.go:144 | string order is not numeric order: "9" >= "10" holds and "100" >= "99" does not |
| ProbeMonitor.Monitor.AddTargetDelayed | controller/controller.go:87 | the monitor refuses a name it already holds with an error; afterwards the table holds the name and nothing else changed |
| ProbeMonitor.Monitor.RemoveTarget | controller/controller.go:96 | the name is no longer in the table and nothing else changed; an absent name is ignored |
| Controller.TargetName | controller/controller.go:66-77 | the Sprintf of the eight identity fields: their lengths plus seven separators; field order and round trip are in the next rows |
| Controller.TargetNameFields | controller/controller.go:66-77 | the target name is src name, node, pod IP, host IP, then the same four of dst, joined by single spaces in that order |
| Controller.SplitTargetName | controller/controller.go:66-77 | with space-free fields, SplitN(targetName, " ", 8) gives back the eight identity fields |
| Controller.TargetNameInjective | controller/controller.go:66-77 | with space-free fields, equal target names come from pods with equal name, node, pod IP and host IP |
| Controller.AddTargetTo | controller/controller.go:79-92 | the target table gains targetName(me, dst) exactly when the address resolves; a duplicate leaves it as it was |
| Controller.AfterAdd | controller/controller.go:99-130 | addFunc as a transition: it never removes a target, saves at most the added pod's name, and adopts the pod as me exactly when it has an IP and me's name |
| Controller.AfterUpdate | controller/controller.go:132-180 | updateFunc as a transition: a stale update or one without an IP changes nothing, at most the new object's name is saved, and me stays or becomes the new object |
| Controller.AfterDelete | controller/controller.go:182-190 | deleteFunc as a transition: me stays, the name leaves saved and the target keyed on me and the delete's object leaves the table, nothing is added |
| Controller.Controller.constructor | controller/controller.go:43-49 | a new controller holds the given local pod and monitor and no saved peer |
| Controller.Controller.AddTarget | controller/controller.go:79-92 | the monitor's table becomes AddTargetTo of the old table, keyed on the current local pod, whatever the random delay |
| Controller.Controller.RemoveTarget | controller/controller.go:94-97 | the monitor's table loses exactly targetName(me, dst) |
| Controller.Controller.AddSavedTargets | controller/controller.go:115-117 | after the loop the table gained the targets keyed on `me` of every saved peer whose address resolves, in any iteration order |
| Controller.Controller.RemoveSavedTargets | controller/controller.go:155-157 | after the loop the table lost the targets keyed on `me` of every saved peer |
| Controller.Controller.AddFunc | controller/controller.go:99-130 | the new controller state and table are AfterAdd of the old ones: the no-IP, local-pod, deferred-peer and probed-peer branches |
| Controller.Controller.UpdateFunc | controller/controller.go:132-180 | the new state and table are AfterUpdate of the old ones: the stale, no-IP, local-readdress, deferred-peer, peer-readdress and unchanged branches |
| Controller.Controller.DeleteFunc | controller/controller.go:182-190 | the pod is forgotten and its target keyed on `me` is removed |
| Reconciliation.InitialConsistent | controller/controller.go:43-49 | a new controller is consistent: no target, nothing saved |
| Reconciliation.AddKeepsConsistent | controller/controller.go:99-130 | addFunc keeps "table == one target per resolvable saved peer keyed on me, none while me has no IP" |
| Reconciliation.UpdateKeepsConsistent | controller/controller.go:132-180 | updateFunc keeps the same invariant when the update's old object agrees with the saved one; LeakAfterDroppedUpdate shows the invariant fails without that premise |
| Reconciliation.DeleteKeepsConsistent | controller/controller.go:182-190 | deleteFunc keeps the same invariant when the delete's object agrees with the saved one; LeakOnDeleteAfterDroppedUpdate shows the invariant fails without that premise |
| Reconciliation.RunKeepsConsistent | controller/controller.go:99-190 | after any admissible sequence of callbacks the table is exactly the desired target set of the saved peers |
| Reconciliation.LeakAfterDroppedUpdate | controller/controller.go:175-178 | run (a): a probed peer loses its address (dropped), then gets a new one; the first target stays beside the new one and the table is inconsistent |
| Reconciliation.LeakOnDeleteAfterDroppedUpdate | controller/controller.go:188-189 | run (b): a probed peer's update is dropped by the version guard, then it is deleted; saved is empty but its target stays |
| Reconciliation.PeerNeverProbedAfterDroppedUpdate | controller/controller.go:144-179 | run (c): a peer's address-giving update is dropped and a later one keeps the address; the run is admissible and consistent, yet the peer is never saved or probed |
| Reconciliation.FixedUpdate | controller/controller.go:132-180 | corrected updateFunc: a stale or address-less update changes nothing, at most the new object's name is saved, the local pod's name stays, and the local pod is never saved as a peer when it was not already |
| Reconciliation.FixedSelfSameAddressIgnored | controller/controller.go:154-175 | under the corrected update, an update of the local pod that keeps its address leaves the whole state unchanged (as written, SelfUpdateFallsThroughToPeer can save and probe it) |
| Reconciliation.FixedRunNeverSavesSelf | controller/controller.go:99-190 | with the corrected update, a controller that has not saved the local pod never saves it, over any run of callbacks |
| Reconciliation.FixedDelete | controller/controller.go:182-190 | corrected deleteFunc: the name leaves saved, nothing is added to the table |
| Reconciliation.FixedUpdateKeepsConsistent | controller/controller.go:175-178 | the corrected updateFunc keeps the invariant whatever the update's old object is |
| Reconciliation.FixedDeleteKeepsConsistent | controller/controller.go:188-189 | the corrected deleteFunc keeps the invariant whatever object the delete carries |
| Reconciliation.FixedRunKeepsConsistent | controller/controller.go:99-190 | with the corrected update and delete, the invariant holds after every run whose adds agree with the saved peers, however many updates were dropped |
| Reconciliation.FixedNoLeakAfterDroppedUpdate | controller/controller.go:175-178 | run (a) under the corrected transitions leaves exactly the target keyed on the new address |
| Reconciliation.FixedProbesAfterDroppedUpdate | controller/controller.go:175 | run (c) under the corrected transitions saves the peer and probes it |
| Reconciliation.AddWithoutAddressIgnored | controller/controller.go:106-110 | adding a pod without an IP changes neither me, saved nor the table |
| Reconciliation.AddSelfReplays | controller/controller.go:112-119 | adding the local pod sets me, keeps saved, adds the target keyed on the new me of every resolvable saved peer and no other target |
| Reconciliation.AddPeerDeferred | controller/controller.go:121-126 | a peer added while me has no IP is saved and creates no target |
| Reconciliation.AddPeerProbed | controller/controller.go:128-129 | a peer added once me has an IP is saved and adds only targetName(me, pod), present afterwards iff it resolves or was already there |
| Reconciliation.DeferredPeerReplayed | controller/controller.go:112-126 | a peer deferred while me had no IP is probed once the local pod's add arrives with an IP |
| Reconciliation.StaleUpdateIgnored | controller/controller.go:144-146 | an update whose new version is equal to or sorts before the old one changes nothing |
| Reconciliation.NumericallyNewerDropped | controller/controller.go:144-146 | the update from version "9" to "10" changes nothing |
| Reconciliation.UpdateWithoutAddressIgnored | controller/controller.go:148-151 | an update whose new object has no IP changes nothing |
| Reconciliation.SelfReaddressed | controller/controller.go:153-166 | when me's IP changes, me becomes the new object, saved is kept, no target keyed on the old me survives, and the table is exactly the targets keyed on the new me of the resolvable saved peers |
| Reconciliation.SelfUpdateFallsThroughToPeer | controller/controller.go:153-179 | an update of me that keeps me's IP but not the old object's IP saves me as a peer and probes targetName(me, new) |
| Reconciliation.UpdatePeerSwaps | controller/controller.go:175-179 | a peer whose IP changed is re-saved, its old target goes, its new one is in the table exactly when it resolves or was already in the table and is not the old target, and no other target changes |
| Reconciliation.UpdatePeerSameAddressIgnored | controller/controller.go:175-179 | a peer update that keeps the IP changes nothing once me has an IP |
| Reconciliation.DeleteIdempotent | controller/controller.go:182-190 | deleting the same pod twice gives the state of deleting it once |
| Reconciliation.AddTargetFailureKeepsTable | controller/controller.go:79-92 | a failed resolution or a name the monitor already holds leaves the table as it was |
| Collector.DescNamesDistinct | collector/rttscale.go:33-37 | every per-target gauge name starts with "ping_" and the five names are distinct |
| Collector.Gauge | collector/rttscale.go:65-74 | a gauge of the given kind for the target, labelled with SplitN(target, " ", 8): one to eight labels |
| Collector.Samples | collector/rttscale.go:65-74 | one iteration's samples: five when sent > lost, the loss gauge alone otherwise |
| Collector.SamplesMembers | collector/rttscale.go:64-75 | a target's samples are its loss gauge and, exactly when sent > lost, its four RTT gauges |
| Collector.SamplesOnce | collector/rttscale.go:66-74 | no gauge is sent twice for a target |
| Collector.ExpectedCount | collector/rttscale.go:64-75 | a scrape sends a sample once if it is a gauge its retained target's statistics call for, never otherwise |
| Collector.ExpectedInsert | collector/rttscale.go:64-75 | one more retained target adds exactly that target's samples to a scrape |
| Collector.ExpectedSize | collector/rttscale.go:64-75 | a scrape sends 4 × (targets with sent > lost) + (retained targets) samples |
| Collector.GaugesOfTarget | collector/rttscale.go:66-74 | each RTT gauge of a retained target is sent once iff sent > lost; its loss gauge is sent exactly once |
| Collector.SamplesAreRetainedGauges | collector/rttscale.go:64-75 | every sample is a gauge of a retained target, labelled with SplitN(target, " ", 8): between one and eight labels |
| Collector.LabelNamesFollowFields | collector/rttscale.go:32 | labelNames has eight entries naming the identity fields in targetName's order |
| Collector.DecodeTargetName | collector/rttscale.go:65 | decoding a target name built from space-free pods gives one piece per label name, each the value that label names |
| Collector.Render | collector/rttscale.go:64-75 | the loop sends exactly the samples of every retained target, in any order |
| Collector.SentCount | collector/rttscale.go:64-75 | whatever order the loop visits targets in, the number of samples sent is 4 × answered + retained |
| Collector.PingCollector.constructor | collector/rttscale.go:42-45 | a new collector retains no snapshot |
| Collector.PingCollector.Collect | collector/rttscale.go:56-76 | the retained snapshot becomes the export if it is non-empty and stays as it was otherwise; the samples sent are those of the retained snapshot, 4 × answered + retained of them |
| Collector.ScrapeTwiceWithoutNewData | collector/rttscale.go:60-76 | two scrapes with nothing new exported keep the snapshot and send the same samples |

## Findings

Runs (a), (b) and (c) are the ones described in the rows of the table above.

| source | as written | input that shows it | evidently intended | confidence | as-written member | corrected member |
|---|---|---|---|---|---|---|
| controller/controller.go:175-178 | a peer's address change removes the target keyed on the informer's old object | run (a): add p at address A; an update to no address is dropped; an update to address B removes the target keyed on the address-less object, so the target at A stays | remove the target keyed on the object saved under the name | high; not executed | Reconciliation.LeakAfterDroppedUpdate | Reconciliation.FixedUpdateKeepsConsistent |
| controller/controller.go:175 | the address change is detected against the informer's old object, not the saved one | run (c): p added without address; the update to address B is dropped ("9" then "10"); a later update keeps B and does nothing | compare with the saved object, and save and probe a peer other than the local pod that is not yet saved | medium; not executed | Reconciliation.PeerNeverProbedAfterDroppedUpdate | Reconciliation.FixedProbesAfterDroppedUpdate |
| controller/controller.go:188-189 | deleteFunc removes the target keyed on the delete's object | run (b): add p at A (version "9"); the update to B ("10") is dropped; delete of the B object leaves the target at A | remove the target keyed on the object saved under the name | high; not executed | Reconciliation.LeakOnDeleteAfterDroppedUpdate | Reconciliation.FixedDeleteKeepsConsistent |

## Left out

- Controller.New's informer registration, Run and WaitForCacheSync: client-go plumbing. Only the initial state (`me`, empty `saved`) is modelled, as the constructor.
- randDurationMs: the jitter is random and only delays probing. It is modelled as an arbitrary delay below 2000 ms passed to the monitor, which ignores it.
- net.ResolveIPAddr: a call into the resolver. It is the `resolvable` predicate, fixed for the life of a controller. The resolved address itself is not modelled; the pod IP is passed instead.
- klog logging: it has no effect on state.
- The `interface{}` type assertions in the callbacks: the callbacks take typed pods.
- main.go is not part of this model: environment lookup, client creation, DaemonSet lookup, monitor and pinger construction, and HTTP serving.
- collector/collector.go's scaled-metric wrapper and the float32/1000 scaling: values are kept symbolic (`Scaled(raw)`). The "_seconds" name suffix is modelled in `DescName`.
- The float loss ratio, including NaN when nothing was sent: kept symbolic as `LossRatio(lost, sent)`.
- The metrics library's panic in MustNewConstMetric when a key splits into fewer than eight labels: the sample is kept with the pieces as they are.
- Controller.Controller: its methods follow the code as written (AfterUpdate, AfterDelete). The corrected FixedUpdate and FixedDelete exist only as transitions on values; there is no class method for them.
- The package mutex and Describe: concurrency and Prometheus plumbing. Describe also announces the version gauge `ping_up` (collector/rttscale.go:38, :53); Collect never sends it, so the model sends no such sample either.
- Go map iteration order: loops pick any remaining key, and contracts are stated over sets and multisets.
- The monitor's probing, timers and statistics: Monitor.Export's result is a parameter of Collect.
- GoStrings.SplitN: only a one-character separator and n >= 0 are modelled, which is all the exporter uses.
