/** The pod-reconciliation controller (controller/controller.go): it keeps
    the local pod `me` and the peers it has seen (`saved`), and turns the
    informer's add, update and delete callbacks into AddTargetDelayed and
    RemoveTarget calls on the probe monitor.

    The pure functions AfterAdd, AfterUpdate and AfterDelete say what each
    callback does to the whole state; the methods of class Controller are
    the callbacks themselves, with the source's loops, and are proved to
    reach exactly those states. */
module Controller {
  import opened GoStrings
  import opened ProbeMonitor

  /** Upper bound (exclusive) of the start-up jitter, in milliseconds. */
  const RAND_DURATION_MS: nat := 2000

  /** The fields of a v1.Pod the controller reads.  An empty podIP means
      the pod has no address yet. */
  datatype Pod = Pod(
    name: string,
    nodeName: string,
    podIP: string,
    hostIP: string,
    resourceVersion: string)

  /** The eight identity fields of a (source, destination) pair, in the
      order targetName writes them. */
  function IdentityFields(src: Pod, dst: Pod): seq<string> {
    [src.name, src.nodeName, src.podIP, src.hostIP,
     dst.name, dst.nodeName, dst.podIP, dst.hostIP]
  }

  /** targetName: the name a probe from `src` to `dst` is registered under. */
  function TargetName(src: Pod, dst: Pod): (r: string)
    ensures |r| == |src.name| + |src.nodeName| + |src.podIP| + |src.hostIP| +
      |dst.name| + |dst.nodeName| + |dst.podIP| + |dst.hostIP| + 7
  {
    src.name + (" " + (src.nodeName + (" " + (src.podIP + (" " + (src.hostIP + (" " +
    (dst.name + (" " + (dst.nodeName + (" " + (dst.podIP + (" " + dst.hostIP)))))))))))))
  }

  /** A target name is the eight identity fields, source first, in the
      order name, node, pod IP, host IP, joined by single spaces. */
  lemma TargetNameFields(src: Pod, dst: Pod)
    ensures TargetName(src, dst) == Join(IdentityFields(src, dst), ' ')
  {
    var f := IdentityFields(src, dst);
    assert f[7..] == [dst.hostIP];
    assert f[6..][1..] == f[7..];
    assert f[5..][1..] == f[6..];
    assert f[4..][1..] == f[5..];
    assert f[3..][1..] == f[4..];
    assert f[2..][1..] == f[3..];
    assert f[1..][1..] == f[2..];
    assert Join(f[6..], ' ') == dst.podIP + (" " + dst.hostIP);
    assert Join(f[5..], ' ') == dst.nodeName + (" " + Join(f[6..], ' '));
    assert Join(f[4..], ' ') == dst.name + (" " + Join(f[5..], ' '));
    assert Join(f[3..], ' ') == src.hostIP + (" " + Join(f[4..], ' '));
    assert Join(f[2..], ' ') == src.podIP + (" " + Join(f[3..], ' '));
    assert Join(f[1..], ' ') == src.nodeName + (" " + Join(f[2..], ' '));
  }

  /** With space-free fields, splitting a target name into at most eight
      pieces gives back the identity fields. */
  lemma SplitTargetName(src: Pod, dst: Pod)
    requires Spaceless(src) && Spaceless(dst)
    ensures SplitN(TargetName(src, dst), ' ', 8) == IdentityFields(src, dst)
  {
    TargetNameFields(src, dst);
    var f := IdentityFields(src, dst);
    assert forall i :: 0 <= i < |f| ==> ' ' !in f[i];
    SplitNJoin(f, ' ', 8);
  }

  /** Two pods agree on every field a target name is built from. */
  predicate SameKey(a: Pod, b: Pod) {
    a.name == b.name && a.nodeName == b.nodeName && a.podIP == b.podIP && a.hostIP == b.hostIP
  }

  /** None of the fields a target name is built from contains a space (true
      of Kubernetes names and IP addresses). */
  predicate Spaceless(p: Pod) {
    ' ' !in p.name && ' ' !in p.nodeName && ' ' !in p.podIP && ' ' !in p.hostIP
  }

  /** With space-free fields, a target name determines both pods' keys. */
  lemma TargetNameInjective(src: Pod, dst: Pod, src': Pod, dst': Pod)
    requires Spaceless(src) && Spaceless(dst) && Spaceless(src') && Spaceless(dst')
    requires TargetName(src, dst) == TargetName(src', dst')
    ensures SameKey(src, src') && SameKey(dst, dst')
  {
    SplitTargetName(src, dst);
    SplitTargetName(src', dst');
    var f, f' := IdentityFields(src, dst), IdentityFields(src', dst');
    assert f == f';
    assert f[0] == f'[0] && f[1] == f'[1] && f[2] == f'[2] && f[3] == f'[3];
    assert f[4] == f'[4] && f[5] == f'[5] && f[6] == f'[6] && f[7] == f'[7];
  }

  /** The controller's state together with the monitor's target table. */
  datatype State = State(me: Pod, saved: map<string, Pod>, targets: set<string>)

  /** addTarget's effect on the target table: nothing when the address does
      not resolve or the monitor already holds the name, else the name is
      added. */
  function AddTargetTo(targets: set<string>, me: Pod, dst: Pod, resolvable: string -> bool): (r: set<string>)
    ensures r == if resolvable(dst.podIP) then targets + {TargetName(me, dst)} else targets
  {
    var name := TargetName(me, dst);
    if !resolvable(dst.podIP) then targets
    else if name in targets then targets
    else targets + {name}
  }

  /** The target names that addTarget creates, keyed on `me`, for the saved
      peers listed in `names` whose addresses resolve. */
  function ReplayedTargets(me: Pod, saved: map<string, Pod>, names: set<string>, resolvable: string -> bool): set<string> {
    set n | n in names && n in saved && resolvable(saved[n].podIP) :: TargetName(me, saved[n])
  }

  /** The target names that removeTarget drops, keyed on `me`, for the saved
      peers listed in `names`. */
  function PeerTargetNames(me: Pod, saved: map<string, Pod>, names: set<string>): set<string> {
    set n | n in names && n in saved :: TargetName(me, saved[n])
  }

  lemma ReplayedTargetsInsert(me: Pod, saved: map<string, Pod>, names: set<string>, n: string, resolvable: string -> bool)
    requires n in saved
    ensures ReplayedTargets(me, saved, names + {n}, resolvable) ==
      ReplayedTargets(me, saved, names, resolvable) +
      (if resolvable(saved[n].podIP) then {TargetName(me, saved[n])} else {})
  {
  }

  lemma PeerTargetNamesInsert(me: Pod, saved: map<string, Pod>, names: set<string>, n: string)
    requires n in saved
    ensures PeerTargetNames(me, saved, names + {n}) == PeerTargetNames(me, saved, names) + {TargetName(me, saved[n])}
  {
  }

  /** addFunc as a transition of the whole state. */
  function AfterAdd(s: State, pod: Pod, resolvable: string -> bool): (r: State)
    ensures s.targets <= r.targets
    ensures r.saved.Keys <= s.saved.Keys + {pod.name}
    ensures r.me == if |pod.podIP| > 0 && pod.name == s.me.name then pod else s.me
  {
    if |pod.podIP| == 0 then s
    else if s.me.name == pod.name then
      State(pod, s.saved, s.targets + ReplayedTargets(pod, s.saved, s.saved.Keys, resolvable))
    else if |s.me.podIP| == 0 then
      s.(saved := s.saved[pod.name := pod])
    else
      State(s.me, s.saved[pod.name := pod], AddTargetTo(s.targets, s.me, pod, resolvable))
  }

  /** updateFunc as a transition of the whole state. */
  function AfterUpdate(s: State, oldPod: Pod, newPod: Pod, resolvable: string -> bool): (r: State)
    ensures AtLeast(oldPod.resourceVersion, newPod.resourceVersion) || |newPod.podIP| == 0 ==> r == s
    ensures r.saved.Keys <= s.saved.Keys + {newPod.name}
    ensures r.me == s.me || r.me == newPod
  {
    if AtLeast(oldPod.resourceVersion, newPod.resourceVersion) then s
    else if |newPod.podIP| == 0 then s
    else if s.me.name == newPod.name && s.me.podIP != newPod.podIP then
      var kept := s.targets - PeerTargetNames(s.me, s.saved, s.saved.Keys);
      State(newPod, s.saved, kept + ReplayedTargets(newPod, s.saved, s.saved.Keys, resolvable))
    else if |s.me.podIP| == 0 then
      s.(saved := s.saved[newPod.name := newPod])
    else if oldPod.podIP != newPod.podIP then
      var kept := s.targets - {TargetName(s.me, oldPod)};
      State(s.me, s.saved[newPod.name := newPod], AddTargetTo(kept, s.me, newPod, resolvable))
    else s
  }

  /** deleteFunc as a transition of the whole state. */
  function AfterDelete(s: State, pod: Pod): (r: State)
    ensures r.me == s.me && pod.name !in r.saved && TargetName(s.me, pod) !in r.targets
    ensures r.saved.Keys == s.saved.Keys - {pod.name} && r.targets <= s.targets
  {
    State(s.me, s.saved - {pod.name}, s.targets - {TargetName(s.me, pod)})
  }

  class Controller {
    /** The local pod. */
    var me: Pod
    /** Peers seen so far, by pod name. */
    var saved: map<string, Pod>
    const monitor: Monitor
    /** Whether net.ResolveIPAddr succeeds on an address. */
    const resolvable: string -> bool

    function Snapshot(): State
      reads this, monitor
    {
      State(me, saved, monitor.targets)
    }

    constructor (me: Pod, monitor: Monitor, resolvable: string -> bool)
      ensures this.me == me && saved == map[]
      ensures this.monitor == monitor && this.resolvable == resolvable
    {
      this.me := me;
      this.saved := map[];
      this.monitor := monitor;
      this.resolvable := resolvable;
    }

    /** addTarget: probe `dst` under its name keyed on the current `me`,
        after a random delay below RAND_DURATION_MS.  A failed resolution
        or a refusal by the monitor is logged and dropped. */
    method AddTarget(dst: Pod)
      modifies monitor
      ensures monitor.targets == AddTargetTo(old(monitor.targets), me, dst, resolvable)
    {
      if !resolvable(dst.podIP) {
        return;
      }
      var name := TargetName(me, dst);
      var delay :| 0 <= delay < RAND_DURATION_MS;
      var err := monitor.AddTargetDelayed(name, dst.podIP, delay);
      if err {
        return;
      }
    }

    /** removeTarget: stop probing `dst` under its name keyed on `me`. */
    method RemoveTarget(dst: Pod)
      modifies monitor
      ensures monitor.targets == old(monitor.targets) - {TargetName(me, dst)}
    {
      var name := TargetName(me, dst);
      monitor.RemoveTarget(name);
    }

    /** The `for _, dst := range ctl.saved { ctl.addTarget(dst) }` loop. */
    method AddSavedTargets()
      modifies monitor
      ensures monitor.targets == old(monitor.targets) + ReplayedTargets(me, saved, saved.Keys, resolvable)
    {
      var pending := saved.Keys;
      while pending != {}
        invariant pending <= saved.Keys
        invariant monitor.targets ==
          old(monitor.targets) + ReplayedTargets(me, saved, saved.Keys - pending, resolvable)
        decreases pending
      {
        var n :| n in pending;
        AddTarget(saved[n]);
        ReplayedTargetsInsert(me, saved, saved.Keys - pending, n, resolvable);
        assert saved.Keys - (pending - {n}) == (saved.Keys - pending) + {n};
        pending := pending - {n};
      }
    }

    /** The `for _, dst := range ctl.saved { ctl.removeTarget(dst) }` loop. */
    method RemoveSavedTargets()
      modifies monitor
      ensures monitor.targets == old(monitor.targets) - PeerTargetNames(me, saved, saved.Keys)
    {
      var pending := saved.Keys;
      while pending != {}
        invariant pending <= saved.Keys
        invariant monitor.targets ==
          old(monitor.targets) - PeerTargetNames(me, saved, saved.Keys - pending)
        decreases pending
      {
        var n :| n in pending;
        RemoveTarget(saved[n]);
        PeerTargetNamesInsert(me, saved, saved.Keys - pending, n);
        assert saved.Keys - (pending - {n}) == (saved.Keys - pending) + {n};
        pending := pending - {n};
      }
    }

    /** addFunc. */
    method AddFunc(pod: Pod)
      modifies this, monitor
      ensures Snapshot() == AfterAdd(old(Snapshot()), pod, resolvable)
    {
      // ignore pod without ip
      if |pod.podIP| == 0 {
        return;
      }
      // the local pod: replay every saved peer
      if me.name == pod.name {
        me := pod;
        AddSavedTargets();
        return;
      }
      // the local pod has no ip yet: only remember the peer
      if |me.podIP| == 0 {
        saved := saved[pod.name := pod];
        return;
      }
      saved := saved[pod.name := pod];
      AddTarget(pod);
    }

    /** updateFunc. */
    method UpdateFunc(oldPod: Pod, newPod: Pod)
      modifies this, monitor
      ensures Snapshot() == AfterUpdate(old(Snapshot()), oldPod, newPod, resolvable)
    {
      if AtLeast(oldPod.resourceVersion, newPod.resourceVersion) {
        return;
      }
      if |newPod.podIP| == 0 {
        return;
      }
      // the local pod changed address: re-key every target
      if me.name == newPod.name && me.podIP != newPod.podIP {
        RemoveSavedTargets();
        me := newPod;
        AddSavedTargets();
        return;
      }
      // the local pod has no ip yet: only remember the peer
      if |me.podIP| == 0 {
        saved := saved[newPod.name := newPod];
        return;
      }
      if oldPod.podIP != newPod.podIP {
        saved := saved[newPod.name := newPod];
        RemoveTarget(oldPod);
        AddTarget(newPod);
      }
    }

    /** deleteFunc. */
    method DeleteFunc(pod: Pod)
      modifies this, monitor
      ensures Snapshot() == AfterDelete(old(Snapshot()), pod)
    {
      saved := saved - {pod.name};
      RemoveTarget(pod);
    }
  }
}
