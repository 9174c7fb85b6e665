/** What the controller's callbacks achieve together: the target table
    holds exactly one probe per known peer, keyed on the current identity
    of the local pod, and nothing before the local pod has an address. */
module Reconciliation {
  import opened GoStrings
  import opened Controller

  /** The targets that should be active. */
  function Desired(me: Pod, saved: map<string, Pod>, resolvable: string -> bool): set<string> {
    if |me.podIP| == 0 then {} else ReplayedTargets(me, saved, saved.Keys, resolvable)
  }

  /** The monitor probes exactly the desired targets. */
  predicate Consistent(s: State, resolvable: string -> bool) {
    s.targets == Desired(s.me, s.saved, resolvable)
  }

  /** Every saved pod is filed under its own name, and no identity field
      of a known pod contains a space. */
  predicate WellFormed(s: State) {
    Spaceless(s.me) &&
    forall n :: n in s.saved ==> s.saved[n].name == n && Spaceless(s.saved[n])
  }

  /** The pod an event carries matches, in every field of a target name,
      what the controller saved under that name (if anything). */
  predicate Agrees(s: State, p: Pod) {
    p.name in s.saved ==> SameKey(s.saved[p.name], p)
  }

  /** The target name of a saved peer `k` that addTarget creates, if any. */
  function TargetOf(me: Pod, saved: map<string, Pod>, k: string, resolvable: string -> bool): set<string>
    requires k in saved
  {
    if resolvable(saved[k].podIP) then {TargetName(me, saved[k])} else {}
  }

  /** The targets replayed for a map are those for the map without `k` and
      the one for `k`. */
  lemma ReplayedSplit(me: Pod, saved: map<string, Pod>, k: string, resolvable: string -> bool)
    requires k in saved
    ensures ReplayedTargets(me, saved, saved.Keys, resolvable) ==
      ReplayedTargets(me, saved - {k}, (saved - {k}).Keys, resolvable) + TargetOf(me, saved, k, resolvable)
  {
    var rest := saved - {k};
    forall x | x in ReplayedTargets(me, saved, saved.Keys, resolvable)
      ensures x in ReplayedTargets(me, rest, rest.Keys, resolvable) + TargetOf(me, saved, k, resolvable)
    {
      var n :| n in saved && resolvable(saved[n].podIP) && x == TargetName(me, saved[n]);
      if n != k {
        assert n in rest && rest[n] == saved[n];
      }
    }
  }

  /** Dropping the target of `p` from the replayed set of a well-formed
      registry is the same as forgetting the saved peer named p.name. */
  lemma {:induction false} ReplayedDrop(s: State, p: Pod, resolvable: string -> bool)
    requires WellFormed(s) && Spaceless(p) && Agrees(s, p)
    ensures ReplayedTargets(s.me, s.saved, s.saved.Keys, resolvable) - {TargetName(s.me, p)} ==
      ReplayedTargets(s.me, s.saved - {p.name}, (s.saved - {p.name}).Keys, resolvable)
  {
    var me, saved, rest := s.me, s.saved, s.saved - {p.name};
    forall x | x in ReplayedTargets(me, rest, rest.Keys, resolvable)
      ensures x != TargetName(me, p)
    {
      var n :| n in rest && resolvable(rest[n].podIP) && x == TargetName(me, rest[n]);
      if x == TargetName(me, p) {
        TargetNameInjective(me, rest[n], me, p);
        assert false;
      }
    }
    if p.name in saved {
      ReplayedSplit(me, saved, p.name, resolvable);
    } else {
      assert rest == saved;
    }
  }

  /** Saving `p` under its name replaces whatever target the peer of that
      name had with p's own. */
  lemma ReplayedPut(me: Pod, saved: map<string, Pod>, p: Pod, resolvable: string -> bool)
    ensures ReplayedTargets(me, saved[p.name := p], saved[p.name := p].Keys, resolvable) ==
      ReplayedTargets(me, saved - {p.name}, (saved - {p.name}).Keys, resolvable) +
      (if resolvable(p.podIP) then {TargetName(me, p)} else {})
  {
    var m := saved[p.name := p];
    ReplayedSplit(me, m, p.name, resolvable);
    assert m - {p.name} == saved - {p.name};
  }

  /** Targets keyed on two pods with the same key fields are the same. */
  lemma ReplayedSameKey(me: Pod, me': Pod, saved: map<string, Pod>, resolvable: string -> bool)
    requires SameKey(me, me')
    ensures ReplayedTargets(me, saved, saved.Keys, resolvable) == ReplayedTargets(me', saved, saved.Keys, resolvable)
  {
    forall x | x in ReplayedTargets(me, saved, saved.Keys, resolvable)
      ensures x in ReplayedTargets(me', saved, saved.Keys, resolvable)
    {
      var n :| n in saved && resolvable(saved[n].podIP) && x == TargetName(me, saved[n]);
      assert x == TargetName(me', saved[n]);
    }
    forall x | x in ReplayedTargets(me', saved, saved.Keys, resolvable)
      ensures x in ReplayedTargets(me, saved, saved.Keys, resolvable)
    {
      var n :| n in saved && resolvable(saved[n].podIP) && x == TargetName(me', saved[n]);
      assert x == TargetName(me, saved[n]);
    }
  }

  /** addFunc keeps the table consistent, provided the added pod agrees
      with what was saved under its name and, when it is the local pod
      arriving again, keeps the local pod's key. */
  lemma AddKeepsConsistent(s: State, pod: Pod, resolvable: string -> bool)
    requires WellFormed(s) && Consistent(s, resolvable)
    requires Spaceless(pod) && Agrees(s, pod)
    requires pod.name == s.me.name && |s.me.podIP| > 0 ==> SameKey(s.me, pod)
    ensures WellFormed(AfterAdd(s, pod, resolvable))
    ensures Consistent(AfterAdd(s, pod, resolvable), resolvable)
  {
    var r := AfterAdd(s, pod, resolvable);
    if |pod.podIP| == 0 {
    } else if s.me.name == pod.name {
      if |s.me.podIP| > 0 {
        ReplayedSameKey(s.me, pod, s.saved, resolvable);
      }
    } else if |s.me.podIP| == 0 {
    } else {
      ReplayedPut(s.me, s.saved, pod, resolvable);
      if pod.name in s.saved {
        ReplayedSplit(s.me, s.saved, pod.name, resolvable);
      } else {
        assert s.saved - {pod.name} == s.saved;
      }
    }
  }

  /** updateFunc keeps the table consistent, provided the old object is the
      same pod as the new one and agrees with what was saved for it. */
  lemma UpdateKeepsConsistent(s: State, oldPod: Pod, newPod: Pod, resolvable: string -> bool)
    requires WellFormed(s) && Consistent(s, resolvable)
    requires Spaceless(oldPod) && Spaceless(newPod) && oldPod.name == newPod.name
    requires Agrees(s, oldPod)
    ensures WellFormed(AfterUpdate(s, oldPod, newPod, resolvable))
    ensures Consistent(AfterUpdate(s, oldPod, newPod, resolvable), resolvable)
  {
    if AtLeast(oldPod.resourceVersion, newPod.resourceVersion) || |newPod.podIP| == 0 {
    } else if s.me.name == newPod.name && s.me.podIP != newPod.podIP {
      assert s.targets <= PeerTargetNames(s.me, s.saved, s.saved.Keys);
    } else if |s.me.podIP| == 0 {
    } else if oldPod.podIP != newPod.podIP {
      ReplayedDrop(s, oldPod, resolvable);
      ReplayedPut(s.me, s.saved, newPod, resolvable);
    }
  }

  /** deleteFunc keeps the table consistent, provided the deleted object
      agrees with what was saved for it. */
  lemma DeleteKeepsConsistent(s: State, pod: Pod, resolvable: string -> bool)
    requires WellFormed(s) && Consistent(s, resolvable)
    requires Spaceless(pod) && Agrees(s, pod)
    ensures WellFormed(AfterDelete(s, pod))
    ensures Consistent(AfterDelete(s, pod), resolvable)
  {
    if |s.me.podIP| > 0 {
      ReplayedDrop(s, pod, resolvable);
    }
  }

  /** An informer callback. */
  datatype Event = AddEvent(pod: Pod) | UpdateEvent(oldPod: Pod, newPod: Pod) | DeleteEvent(pod: Pod)

  function Apply(s: State, e: Event, resolvable: string -> bool): State {
    match e
    case AddEvent(p) => AfterAdd(s, p, resolvable)
    case UpdateEvent(o, n) => AfterUpdate(s, o, n, resolvable)
    case DeleteEvent(p) => AfterDelete(s, p)
  }

  function Run(s: State, events: seq<Event>, resolvable: string -> bool): State
    decreases |events|
  {
    if |events| == 0 then s else Run(Apply(s, events[0], resolvable), events[1..], resolvable)
  }

  /** What the callbacks as written need of an event to keep the table
      consistent: pods whose identity fields have no spaces, an update's two
      objects of the same pod, event objects that agree with the last object
      the controller saved for that pod, and the local pod re-added keeping
      its key.  The informer does not guarantee the agreement: it fails for
      the next update or delete after any update the controller dropped
      (see LeakAfterDroppedUpdate below). */
  predicate Admissible(s: State, e: Event) {
    match e
    case AddEvent(p) =>
      Spaceless(p) && Agrees(s, p) &&
      (p.name == s.me.name && |s.me.podIP| > 0 ==> SameKey(s.me, p))
    case UpdateEvent(o, n) =>
      Spaceless(o) && Spaceless(n) && o.name == n.name && Agrees(s, o)
    case DeleteEvent(p) =>
      Spaceless(p) && Agrees(s, p)
  }

  predicate AdmissibleRun(s: State, events: seq<Event>, resolvable: string -> bool)
    decreases |events|
  {
    |events| == 0 ||
    (Admissible(s, events[0]) && AdmissibleRun(Apply(s, events[0], resolvable), events[1..], resolvable))
  }

  /** The controller as created: the local pod, nothing saved, no target. */
  lemma InitialConsistent(me: Pod, resolvable: string -> bool)
    requires Spaceless(me)
    ensures WellFormed(State(me, map[], {})) && Consistent(State(me, map[], {}), resolvable)
  {
  }

  /** After any admissible sequence of callbacks the monitor probes
      exactly the desired targets of the saved peers: no duplicates, no
      stale target, and no target while the local pod has no address.  A
      peer the controller never saved is not covered (see
      PeerNeverProbedAfterDroppedUpdate below). */
  lemma {:induction false} RunKeepsConsistent(s: State, events: seq<Event>, resolvable: string -> bool)
    requires WellFormed(s) && Consistent(s, resolvable)
    requires AdmissibleRun(s, events, resolvable)
    ensures WellFormed(Run(s, events, resolvable))
    ensures Run(s, events, resolvable).targets ==
      Desired(Run(s, events, resolvable).me, Run(s, events, resolvable).saved, resolvable)
    decreases |events|
  {
    if |events| > 0 {
      var e := events[0];
      match e {
        case AddEvent(p) => AddKeepsConsistent(s, p, resolvable);
        case UpdateEvent(o, n) => UpdateKeepsConsistent(s, o, n, resolvable);
        case DeleteEvent(p) => DeleteKeepsConsistent(s, p, resolvable);
      }
      RunKeepsConsistent(Apply(s, e, resolvable), events[1..], resolvable);
    }
  }

  /** A peer added while the local pod has no address gets its target when
      the local pod's own add arrives with one. */
  lemma DeferredPeerReplayed(s: State, peer: Pod, me': Pod, resolvable: string -> bool)
    requires |s.me.podIP| == 0
    requires peer.name != s.me.name && |peer.podIP| > 0 && resolvable(peer.podIP)
    requires me'.name == s.me.name && |me'.podIP| > 0
    ensures var s1 := AfterAdd(s, peer, resolvable);
      s1.targets == s.targets && TargetName(me', peer) in AfterAdd(s1, me', resolvable).targets
  {
    var s1 := AfterAdd(s, peer, resolvable);
    assert peer.name in s1.saved && s1.saved[peer.name] == peer;
  }

  /** When the local pod changes address, no target keyed on the old
      address survives, and the table becomes exactly the targets keyed on
      the new one of the saved peers that resolve. */
  lemma SelfReaddressed(s: State, oldPod: Pod, newPod: Pod, resolvable: string -> bool)
    requires WellFormed(s) && Consistent(s, resolvable) && Spaceless(newPod)
    requires newPod.name == s.me.name && |newPod.podIP| > 0 && newPod.podIP != s.me.podIP
    requires Less(oldPod.resourceVersion, newPod.resourceVersion)
    ensures var r := AfterUpdate(s, oldPod, newPod, resolvable);
      r.me == newPod && r.saved == s.saved &&
      (forall n :: n in s.saved ==> TargetName(s.me, s.saved[n]) !in r.targets) &&
      (forall n :: n in s.saved && resolvable(s.saved[n].podIP) ==> TargetName(newPod, s.saved[n]) in r.targets) &&
      r.targets == ReplayedTargets(newPod, s.saved, s.saved.Keys, resolvable)
  {
    var r := AfterUpdate(s, oldPod, newPod, resolvable);
    assert r.targets == ReplayedTargets(newPod, s.saved, s.saved.Keys, resolvable) by {
      assert s.targets <= PeerTargetNames(s.me, s.saved, s.saved.Keys);
    }
    forall n | n in s.saved
      ensures TargetName(s.me, s.saved[n]) !in r.targets
    {
      if TargetName(s.me, s.saved[n]) in r.targets {
        var m :| m in s.saved && resolvable(s.saved[m].podIP) && TargetName(s.me, s.saved[n]) == TargetName(newPod, s.saved[m]);
        TargetNameInjective(s.me, s.saved[n], newPod, s.saved[m]);
        assert false;
      }
    }
  }

  /** An update whose version token is not after the old one (equal, or
      earlier in string order) changes nothing. */
  lemma StaleUpdateIgnored(s: State, oldPod: Pod, newPod: Pod, resolvable: string -> bool)
    requires newPod.resourceVersion == oldPod.resourceVersion || Less(newPod.resourceVersion, oldPod.resourceVersion)
    ensures AfterUpdate(s, oldPod, newPod, resolvable) == s
  {
    AtLeastIffNotAfter(oldPod.resourceVersion, newPod.resourceVersion);
  }

  /** Because tokens compare as strings, a numerically newer token can be
      taken for a stale one: the update from version "9" to "10" is
      dropped. */
  lemma NumericallyNewerDropped(s: State, oldPod: Pod, newPod: Pod, resolvable: string -> bool)
    requires oldPod.resourceVersion == "9" && newPod.resourceVersion == "10"
    ensures AfterUpdate(s, oldPod, newPod, resolvable) == s
  {
    StringOrderNotNumeric();
  }

  /** An update without an address changes nothing. */
  lemma UpdateWithoutAddressIgnored(s: State, oldPod: Pod, newPod: Pod, resolvable: string -> bool)
    requires |newPod.podIP| == 0
    ensures AfterUpdate(s, oldPod, newPod, resolvable) == s
  {
  }

  /** An add without an address changes nothing. */
  lemma AddWithoutAddressIgnored(s: State, pod: Pod, resolvable: string -> bool)
    requires |pod.podIP| == 0
    ensures AfterAdd(s, pod, resolvable) == s
  {
  }

  /** The local pod's add adopts it, keeps the saved peers, and adds
      exactly the targets keyed on it for the saved peers that resolve. */
  lemma AddSelfReplays(s: State, pod: Pod, resolvable: string -> bool)
    requires |pod.podIP| > 0 && pod.name == s.me.name
    ensures var r := AfterAdd(s, pod, resolvable);
      r.me == pod && r.saved == s.saved && s.targets <= r.targets &&
      (forall n :: n in s.saved && resolvable(s.saved[n].podIP) ==> TargetName(pod, s.saved[n]) in r.targets) &&
      (forall x :: x in r.targets && x !in s.targets ==>
        exists n :: n in s.saved && resolvable(s.saved[n].podIP) && x == TargetName(pod, s.saved[n]))
  {
  }

  /** A peer's add while the local pod has no address is only saved. */
  lemma AddPeerDeferred(s: State, pod: Pod, resolvable: string -> bool)
    requires |pod.podIP| > 0 && pod.name != s.me.name && |s.me.podIP| == 0
    ensures AfterAdd(s, pod, resolvable) == State(s.me, s.saved[pod.name := pod], s.targets)
  {
  }

  /** A peer's add once the local pod has an address is saved and adds at
      most its own target, keyed on the local pod. */
  lemma AddPeerProbed(s: State, pod: Pod, resolvable: string -> bool)
    requires |pod.podIP| > 0 && pod.name != s.me.name && |s.me.podIP| > 0
    ensures var r := AfterAdd(s, pod, resolvable);
      r.me == s.me && r.saved == s.saved[pod.name := pod] &&
      r.targets - s.targets <= {TargetName(s.me, pod)} && s.targets <= r.targets &&
      (TargetName(s.me, pod) in r.targets <==> resolvable(pod.podIP) || TargetName(s.me, pod) in s.targets)
  {
  }

  /** A peer's address change swaps its target: the one keyed on the old
      object goes, the one keyed on the new object comes if it resolves,
      and no other target changes. */
  lemma UpdatePeerSwaps(s: State, oldPod: Pod, newPod: Pod, resolvable: string -> bool)
    requires Less(oldPod.resourceVersion, newPod.resourceVersion)
    requires |newPod.podIP| > 0 && |s.me.podIP| > 0 && oldPod.podIP != newPod.podIP
    requires newPod.name != s.me.name
    ensures var r := AfterUpdate(s, oldPod, newPod, resolvable);
      var gone, come := TargetName(s.me, oldPod), TargetName(s.me, newPod);
      r.me == s.me && r.saved == s.saved[newPod.name := newPod] &&
      (gone != come ==> gone !in r.targets) &&
      (resolvable(newPod.podIP) ==> come in r.targets) &&
      (come in r.targets <==> resolvable(newPod.podIP) || (come in s.targets && come != gone)) &&
      r.targets - {come} == s.targets - {gone, come}
  {
  }

  /** A peer's update that keeps its address changes nothing once the
      local pod has an address. */
  lemma UpdatePeerSameAddressIgnored(s: State, oldPod: Pod, newPod: Pod, resolvable: string -> bool)
    requires |s.me.podIP| > 0 && oldPod.podIP == newPod.podIP && newPod.name != s.me.name
    ensures AfterUpdate(s, oldPod, newPod, resolvable) == s
  {
  }

  /** An update of the local pod that keeps the local pod's address but
      changes the address the old object carried falls through to the peer
      branch: the local pod is saved as a peer of itself and probed under
      its own name. */
  lemma SelfUpdateFallsThroughToPeer(s: State, oldPod: Pod, newPod: Pod, resolvable: string -> bool)
    requires Less(oldPod.resourceVersion, newPod.resourceVersion)
    requires newPod.name == s.me.name && newPod.podIP == s.me.podIP && |s.me.podIP| > 0
    requires oldPod.podIP != newPod.podIP && resolvable(newPod.podIP)
    ensures var r := AfterUpdate(s, oldPod, newPod, resolvable);
      r.me == s.me && s.me.name in r.saved && TargetName(s.me, newPod) in r.targets
  {
  }

  /** Deleting the same pod twice leaves the state of deleting it once. */
  lemma DeleteIdempotent(s: State, pod: Pod)
    ensures AfterDelete(AfterDelete(s, pod), pod) == AfterDelete(s, pod)
  {
  }

  /** A failed resolution or a duplicate name leaves the table as it was. */
  lemma AddTargetFailureKeepsTable(targets: set<string>, me: Pod, dst: Pod, resolvable: string -> bool)
    requires !resolvable(dst.podIP) || TargetName(me, dst) in targets
    ensures AddTargetTo(targets, me, dst, resolvable) == targets
  {
  }

  /* The informer's old object of an update is its previous view of the
     pod, and a delete carries the pod's last state as the watch reported
     it.  Either differs from what the controller saved whenever the
     controller dropped the update before it (no address, or a version
     token that is not after the old one in string order).  updateFunc and deleteFunc remove the target keyed on
     the informer's object, so on those runs the target keyed on the saved
     object stays behind.  The three runs below show it; the corrected
     transitions after them work from the saved object instead. */

  /** A run of three callbacks applies them in order. */
  lemma RunThree(s: State, e1: Event, e2: Event, e3: Event, resolvable: string -> bool)
    ensures Run(s, [e1, e2, e3], resolvable) ==
      Apply(Apply(Apply(s, e1, resolvable), e2, resolvable), e3, resolvable)
  {
    var s1 := Apply(s, e1, resolvable);
    var s2 := Apply(s1, e2, resolvable);
    var s3 := Apply(s2, e3, resolvable);
    assert [e1, e2, e3][1..] == [e2, e3] && [e2, e3][1..] == [e3] && [e3][1..] == [];
    assert Run(s2, [e3], resolvable) == Run(s3, [], resolvable) == s3;
    assert Run(s1, [e2, e3], resolvable) == Run(s2, [e3], resolvable);
  }

  /** Run (a): a peer is probed, an update that takes its address away is
      dropped, and the update that gives it a new address removes the
      target keyed on the address-less object.  The first target stays,
      beside the new one. */
  lemma LeakAfterDroppedUpdate(me: Pod, a: Pod, gap: Pod, b: Pod, resolvable: string -> bool)
    requires Spaceless(me) && Spaceless(a) && Spaceless(gap) && Spaceless(b) && |me.podIP| > 0
    requires a.name == gap.name == b.name != me.name
    requires |a.podIP| > 0 && |gap.podIP| == 0 && |b.podIP| > 0 && a.podIP != b.podIP
    requires Less(a.resourceVersion, gap.resourceVersion) && Less(gap.resourceVersion, b.resourceVersion)
    requires resolvable(a.podIP)
    ensures var r := Run(State(me, map[], {}), [AddEvent(a), UpdateEvent(a, gap), UpdateEvent(gap, b)], resolvable);
      r.saved == map[b.name := b] && TargetName(me, a) in r.targets && !Consistent(r, resolvable)
  {
    var s0 := State(me, map[], {});
    var s1 := AfterAdd(s0, a, resolvable);
    assert s1 == State(me, map[a.name := a], {TargetName(me, a)});
    var s2 := AfterUpdate(s1, a, gap, resolvable);
    assert s2 == s1;
    var s3 := AfterUpdate(s2, gap, b, resolvable);
    assert s3.saved == map[b.name := b];
    if TargetName(me, a) == TargetName(me, gap) {
      TargetNameInjective(me, a, me, gap);
      assert false;
    }
    assert TargetName(me, a) in s3.targets;
    RunThree(s0, AddEvent(a), UpdateEvent(a, gap), UpdateEvent(gap, b), resolvable);
    if TargetName(me, a) == TargetName(me, b) {
      TargetNameInjective(me, a, me, b);
      assert false;
    }
    assert TargetName(me, a) !in Desired(me, s3.saved, resolvable);
  }

  /** Run (b): a probed peer's update is dropped by the version guard
      (tokens "9" then "10", say), and the delete that follows carries the
      dropped object.  The peer is forgotten but its target stays. */
  lemma LeakOnDeleteAfterDroppedUpdate(me: Pod, a: Pod, b: Pod, resolvable: string -> bool)
    requires Spaceless(me) && Spaceless(a) && Spaceless(b) && |me.podIP| > 0
    requires a.name == b.name != me.name
    requires |a.podIP| > 0 && a.podIP != b.podIP
    requires AtLeast(a.resourceVersion, b.resourceVersion)
    requires resolvable(a.podIP)
    ensures var r := Run(State(me, map[], {}), [AddEvent(a), UpdateEvent(a, b), DeleteEvent(b)], resolvable);
      r.saved == map[] && TargetName(me, a) in r.targets && !Consistent(r, resolvable)
  {
    var s0 := State(me, map[], {});
    var s1 := AfterAdd(s0, a, resolvable);
    assert s1 == State(me, map[a.name := a], {TargetName(me, a)});
    var s2 := AfterUpdate(s1, a, b, resolvable);
    assert s2 == s1;
    var s3 := AfterDelete(s2, b);
    assert s3.saved == map[];
    if TargetName(me, a) == TargetName(me, b) {
      TargetNameInjective(me, a, me, b);
      assert false;
    }
    assert TargetName(me, a) in s3.targets;
    RunThree(s0, AddEvent(a), UpdateEvent(a, b), DeleteEvent(b), resolvable);
  }

  /** Run (c): a peer added without an address is ignored, the update that
      gives it one is dropped by the version guard, and a later update that
      keeps that address changes nothing.  The run is admissible and ends
      consistent, yet the peer is never saved and never probed. */
  lemma PeerNeverProbedAfterDroppedUpdate(me: Pod, a: Pod, b: Pod, c: Pod, resolvable: string -> bool)
    requires Spaceless(me) && Spaceless(a) && Spaceless(b) && Spaceless(c) && |me.podIP| > 0
    requires a.name == b.name == c.name != me.name
    requires |a.podIP| == 0 && |b.podIP| > 0 && c.podIP == b.podIP
    requires AtLeast(a.resourceVersion, b.resourceVersion) && Less(b.resourceVersion, c.resourceVersion)
    ensures var events := [AddEvent(a), UpdateEvent(a, b), UpdateEvent(b, c)];
      var r := Run(State(me, map[], {}), events, resolvable);
      AdmissibleRun(State(me, map[], {}), events, resolvable) && Consistent(r, resolvable) &&
      c.name !in r.saved && r.targets == {}
  {
    var s0 := State(me, map[], {});
    assert AfterAdd(s0, a, resolvable) == s0;
    assert AfterUpdate(s0, a, b, resolvable) == s0;
    assert AfterUpdate(s0, b, c, resolvable) == s0;
    var events := [AddEvent(a), UpdateEvent(a, b), UpdateEvent(b, c)];
    RunThree(s0, AddEvent(a), UpdateEvent(a, b), UpdateEvent(b, c), resolvable);
    assert AdmissibleRun(s0, events[1..][1..], resolvable);
    assert AdmissibleRun(s0, events[1..], resolvable);
  }

  /** The target keyed on what the controller saved under `name`, if it
      saved anything. */
  function SavedTarget(s: State, name: string): (r: set<string>)
    ensures name in s.saved ==> r == {TargetName(s.me, s.saved[name])}
    ensures name !in s.saved ==> r == {}
  {
    if name in s.saved then {TargetName(s.me, s.saved[name])} else {}
  }

  /** updateFunc with its peer branch corrected: the change of address is
      detected against, and the stale target removed for, the object the
      controller saved under the name, not the informer's old object.  The
      local pod never takes the peer branch. */
  function FixedUpdate(s: State, oldPod: Pod, newPod: Pod, resolvable: string -> bool): (r: State)
    ensures AtLeast(oldPod.resourceVersion, newPod.resourceVersion) || |newPod.podIP| == 0 ==> r == s
    ensures r.saved.Keys <= s.saved.Keys + {newPod.name}
    ensures r.me.name == s.me.name
    ensures s.me.name !in s.saved ==> s.me.name !in r.saved
  {
    if AtLeast(oldPod.resourceVersion, newPod.resourceVersion) then s
    else if |newPod.podIP| == 0 then s
    else if s.me.name == newPod.name && s.me.podIP != newPod.podIP then
      var kept := s.targets - PeerTargetNames(s.me, s.saved, s.saved.Keys);
      State(newPod, s.saved, kept + ReplayedTargets(newPod, s.saved, s.saved.Keys, resolvable))
    else if |s.me.podIP| == 0 then
      s.(saved := s.saved[newPod.name := newPod])
    else if newPod.name != s.me.name &&
      (newPod.name !in s.saved || s.saved[newPod.name].podIP != newPod.podIP) then
      var kept := s.targets - SavedTarget(s, newPod.name);
      State(s.me, s.saved[newPod.name := newPod], AddTargetTo(kept, s.me, newPod, resolvable))
    else s
  }

  /** deleteFunc corrected: the target removed is the one keyed on the
      object the controller saved under the pod's name. */
  function FixedDelete(s: State, pod: Pod): (r: State)
    ensures r.me == s.me && pod.name !in r.saved && r.targets <= s.targets
    ensures r.saved.Keys == s.saved.Keys - {pod.name}
  {
    State(s.me, s.saved - {pod.name}, s.targets - SavedTarget(s, pod.name))
  }

  /** The corrected updateFunc keeps the table consistent whatever the
      informer's old object is. */
  lemma FixedUpdateKeepsConsistent(s: State, oldPod: Pod, newPod: Pod, resolvable: string -> bool)
    requires WellFormed(s) && Consistent(s, resolvable) && Spaceless(newPod)
    ensures WellFormed(FixedUpdate(s, oldPod, newPod, resolvable))
    ensures Consistent(FixedUpdate(s, oldPod, newPod, resolvable), resolvable)
  {
    var name := newPod.name;
    if AtLeast(oldPod.resourceVersion, newPod.resourceVersion) || |newPod.podIP| == 0 {
    } else if s.me.name == name && s.me.podIP != newPod.podIP {
      assert s.targets <= PeerTargetNames(s.me, s.saved, s.saved.Keys);
    } else if |s.me.podIP| == 0 {
    } else if name != s.me.name && (name !in s.saved || s.saved[name].podIP != newPod.podIP) {
      FixedPeerSwapConsistent(s, newPod, resolvable);
    }
  }

  /** The corrected peer branch: dropping the saved object's target and
      adding the new object's keeps the table consistent. */
  lemma FixedPeerSwapConsistent(s: State, newPod: Pod, resolvable: string -> bool)
    requires WellFormed(s) && Consistent(s, resolvable) && Spaceless(newPod) && |s.me.podIP| > 0
    ensures var r := State(s.me, s.saved[newPod.name := newPod],
        AddTargetTo(s.targets - SavedTarget(s, newPod.name), s.me, newPod, resolvable));
      WellFormed(r) && Consistent(r, resolvable)
  {
    var name := newPod.name;
    if name in s.saved {
      ReplayedDrop(s, s.saved[name], resolvable);
    } else {
      assert s.saved - {name} == s.saved;
    }
    ReplayedPut(s.me, s.saved, newPod, resolvable);
  }

  /** The corrected deleteFunc keeps the table consistent whatever object
      the delete carries. */
  lemma FixedDeleteKeepsConsistent(s: State, pod: Pod, resolvable: string -> bool)
    requires WellFormed(s) && Consistent(s, resolvable)
    ensures WellFormed(FixedDelete(s, pod))
    ensures Consistent(FixedDelete(s, pod), resolvable)
  {
    if |s.me.podIP| > 0 {
      if pod.name in s.saved {
        ReplayedDrop(s, s.saved[pod.name], resolvable);
      } else {
        assert s.saved - {pod.name} == s.saved;
      }
    }
  }

  function FixedApply(s: State, e: Event, resolvable: string -> bool): State {
    match e
    case AddEvent(p) => AfterAdd(s, p, resolvable)
    case UpdateEvent(o, n) => FixedUpdate(s, o, n, resolvable)
    case DeleteEvent(p) => FixedDelete(s, p)
  }

  function FixedRun(s: State, events: seq<Event>, resolvable: string -> bool): State
    decreases |events|
  {
    if |events| == 0 then s else FixedRun(FixedApply(s, events[0], resolvable), events[1..], resolvable)
  }

  /** What the corrected controller needs of the informer: an add's pod
      agrees with anything saved under its name and, as the local pod,
      keeps its key; an update's new object has space-free fields.  Nothing
      is asked of an update's old object or of a delete's object. */
  predicate FixedAdmissible(s: State, e: Event) {
    match e
    case AddEvent(p) =>
      Spaceless(p) && Agrees(s, p) &&
      (p.name == s.me.name && |s.me.podIP| > 0 ==> SameKey(s.me, p))
    case UpdateEvent(_, n) => Spaceless(n)
    case DeleteEvent(_) => true
  }

  predicate FixedAdmissibleRun(s: State, events: seq<Event>, resolvable: string -> bool)
    decreases |events|
  {
    |events| == 0 ||
    (FixedAdmissible(s, events[0]) && FixedAdmissibleRun(FixedApply(s, events[0], resolvable), events[1..], resolvable))
  }

  /** With the corrected transitions, the table is the desired one after
      every run whose adds agree with the saved peers, however many updates
      were dropped on the way. */
  lemma {:induction false} FixedRunKeepsConsistent(s: State, events: seq<Event>, resolvable: string -> bool)
    requires WellFormed(s) && Consistent(s, resolvable)
    requires FixedAdmissibleRun(s, events, resolvable)
    ensures WellFormed(FixedRun(s, events, resolvable))
    ensures Consistent(FixedRun(s, events, resolvable), resolvable)
    decreases |events|
  {
    if |events| > 0 {
      var e := events[0];
      match e {
        case AddEvent(p) => AddKeepsConsistent(s, p, resolvable);
        case UpdateEvent(o, n) => FixedUpdateKeepsConsistent(s, o, n, resolvable);
        case DeleteEvent(p) => FixedDeleteKeepsConsistent(s, p, resolvable);
      }
      FixedRunKeepsConsistent(FixedApply(s, e, resolvable), events[1..], resolvable);
    }
  }

  /** A corrected run of three callbacks applies them in order. */
  lemma FixedRunThree(s: State, e1: Event, e2: Event, e3: Event, resolvable: string -> bool)
    ensures FixedRun(s, [e1, e2, e3], resolvable) ==
      FixedApply(FixedApply(FixedApply(s, e1, resolvable), e2, resolvable), e3, resolvable)
  {
    var s1 := FixedApply(s, e1, resolvable);
    var s2 := FixedApply(s1, e2, resolvable);
    var s3 := FixedApply(s2, e3, resolvable);
    assert [e1, e2, e3][1..] == [e2, e3] && [e2, e3][1..] == [e3] && [e3][1..] == [];
    assert FixedRun(s2, [e3], resolvable) == FixedRun(s3, [], resolvable) == s3;
    assert FixedRun(s1, [e2, e3], resolvable) == FixedRun(s2, [e3], resolvable);
  }

  /** Run (a) under the corrected transitions: the target keyed on the
      first address is gone and the peer is probed at its new one. */
  lemma FixedNoLeakAfterDroppedUpdate(me: Pod, a: Pod, gap: Pod, b: Pod, resolvable: string -> bool)
    requires Spaceless(me) && Spaceless(a) && Spaceless(b) && |me.podIP| > 0
    requires a.name == gap.name == b.name != me.name
    requires |a.podIP| > 0 && |gap.podIP| == 0 && |b.podIP| > 0 && a.podIP != b.podIP
    requires Less(a.resourceVersion, gap.resourceVersion) && Less(gap.resourceVersion, b.resourceVersion)
    requires resolvable(a.podIP) && resolvable(b.podIP)
    ensures var r := FixedRun(State(me, map[], {}), [AddEvent(a), UpdateEvent(a, gap), UpdateEvent(gap, b)], resolvable);
      r.saved == map[b.name := b] && r.targets == {TargetName(me, b)}
  {
    var s0 := State(me, map[], {});
    var s1 := AfterAdd(s0, a, resolvable);
    assert s1 == State(me, map[a.name := a], {TargetName(me, a)});
    var s2 := FixedUpdate(s1, a, gap, resolvable);
    assert s2 == s1;
    var s3 := FixedUpdate(s2, gap, b, resolvable);
    assert s3 == State(me, map[b.name := b], {TargetName(me, b)});
    FixedRunThree(s0, AddEvent(a), UpdateEvent(a, gap), UpdateEvent(gap, b), resolvable);
  }

  /** Run (c) under the corrected transitions: the update that keeps the
      address finds the peer unsaved, so it saves and probes it. */
  lemma FixedProbesAfterDroppedUpdate(me: Pod, a: Pod, b: Pod, c: Pod, resolvable: string -> bool)
    requires |me.podIP| > 0
    requires a.name == b.name == c.name != me.name
    requires |a.podIP| == 0 && |b.podIP| > 0 && c.podIP == b.podIP
    requires AtLeast(a.resourceVersion, b.resourceVersion) && Less(b.resourceVersion, c.resourceVersion)
    requires resolvable(c.podIP)
    ensures var r := FixedRun(State(me, map[], {}), [AddEvent(a), UpdateEvent(a, b), UpdateEvent(b, c)], resolvable);
      r.saved == map[c.name := c] && r.targets == {TargetName(me, c)}
  {
    var s0 := State(me, map[], {});
    assert AfterAdd(s0, a, resolvable) == s0;
    assert FixedUpdate(s0, a, b, resolvable) == s0;
    var s3 := FixedUpdate(s0, b, c, resolvable);
    assert s3 == State(me, map[c.name := c], {TargetName(me, c)});
    FixedRunThree(s0, AddEvent(a), UpdateEvent(a, b), UpdateEvent(b, c), resolvable);
  }

  /** Under the corrected update, an update of the local pod that keeps its
      address changes nothing: unlike updateFunc as written, it never saves
      the local pod as a peer of itself. */
  lemma FixedSelfSameAddressIgnored(s: State, oldPod: Pod, newPod: Pod, resolvable: string -> bool)
    requires newPod.name == s.me.name && newPod.podIP == s.me.podIP
    ensures FixedUpdate(s, oldPod, newPod, resolvable) == s
  {
  }

  /** With the corrected update, a controller that has not saved the local
      pod never does, whatever callbacks follow. */
  lemma {:induction false} FixedRunNeverSavesSelf(s: State, events: seq<Event>, resolvable: string -> bool)
    requires s.me.name !in s.saved
    ensures FixedRun(s, events, resolvable).me.name == s.me.name
    ensures s.me.name !in FixedRun(s, events, resolvable).saved
    decreases |events|
  {
    if |events| > 0 {
      var s1 := FixedApply(s, events[0], resolvable);
      assert s1.me.name == s.me.name && s.me.name !in s1.saved;
      FixedRunNeverSavesSelf(s1, events[1..], resolvable);
    }
  }
}
