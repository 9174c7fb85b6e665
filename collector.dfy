/** The scrape side (collector/rttscale.go): PingCollector keeps the last
    non-empty statistics snapshot the monitor exported and, on each scrape,
    turns every retained target into gauges labelled with the eight
    identity fields decoded from the target's name.

    Gauge values are kept symbolic: an RTT gauge is the raw float32 scaled
    by 1/1000, the loss gauge is lost/sent, neither is evaluated. */
module Collector {
  import opened GoStrings
  import Controller

  /** labelNames: the variable labels of every per-target gauge, in the
      order the fields of a target name are written. */
  const LABEL_NAMES: seq<string> :=
    ["src_pod", "src_node", "src_pod_ip", "src_host_ip",
     "dst_pod", "dst_node", "dst_pod_ip", "dst_host_ip"]

  /** A float32 reported by the monitor, carried through as its bit
      pattern and never computed on. */
  type Float32 = bv32

  /** mon.Metrics: one target's round-trip statistics and packet counts. */
  datatype Stats = Stats(
    best: Float32,
    worst: Float32,
    mean: Float32,
    stdDev: Float32,
    packetsSent: int,
    packetsLost: int)

  /** The per-target gauges: four scaled RTT gauges and the loss gauge. */
  datatype Kind = RttBest | RttWorst | RttMean | RttStdDeviation | LossPercent

  /** The value of a gauge, unevaluated. */
  datatype Value =
    | Scaled(raw: Float32)             // float64(raw) / 1000
    | LossRatio(lost: int, sent: int)  // float64(lost) / float64(sent)

  /** One metric sent on the scrape channel, with the target it was
      rendered from. */
  datatype Sample = Sample(kind: Kind, labels: seq<string>, value: Value, target: string)

  /** newDesc's fully qualified metric name for each gauge. */
  function DescName(k: Kind): string {
    match k
    case RttBest => "ping_" + "rtt_best" + "_seconds"
    case RttWorst => "ping_" + "rtt_worst" + "_seconds"
    case RttMean => "ping_" + "rtt_mean" + "_seconds"
    case RttStdDeviation => "ping_" + "rtt_std_deviation" + "_seconds"
    case LossPercent => "ping_" + "loss_percent"
  }

  /** Every gauge has a name of its own under the "ping_" prefix. */
  lemma DescNamesDistinct(k: Kind, k': Kind)
    ensures DescName(k)[..5] == "ping_"
    ensures k != k' ==> DescName(k) != DescName(k')
  {
    var a, b := DescName(k), DescName(k');
    if k != k' {
      assert |a| != |b| || a[9] != b[9];
    }
  }

  /** The value of the gauge of kind `k`, taken from `st`. */
  function GaugeValue(k: Kind, st: Stats): Value {
    match k
    case RttBest => Scaled(st.best)
    case RttWorst => Scaled(st.worst)
    case RttMean => Scaled(st.mean)
    case RttStdDeviation => Scaled(st.stdDev)
    case LossPercent => LossRatio(st.packetsLost, st.packetsSent)
  }

  /** The gauge of kind `k` for `target`: labels decoded with
      strings.SplitN(target, " ", 8), the value taken from `st`. */
  function Gauge(k: Kind, target: string, st: Stats): (r: Sample)
    ensures r.kind == k && r.target == target
    ensures 1 <= |r.labels| <= |LABEL_NAMES|
  {
    Sample(k, SplitN(target, ' ', 8), GaugeValue(k, st), target)
  }

  /** What one iteration of Collect's loop sends for a target: the four
      RTT gauges if at least one packet came back, then the loss gauge. */
  function Samples(target: string, st: Stats): (r: seq<Sample>)
    ensures |r| == if st.packetsSent > st.packetsLost then 5 else 1
  {
    (if st.packetsSent > st.packetsLost then
       [Gauge(RttBest, target, st), Gauge(RttWorst, target, st),
        Gauge(RttMean, target, st), Gauge(RttStdDeviation, target, st)]
     else []) +
    [Gauge(LossPercent, target, st)]
  }

  /** Some target of a non-empty snapshot. */
  ghost function Pick(m: map<string, Stats>): (t: string)
    requires |m| > 0
    ensures t in m
  {
    var t :| t in m; t
  }

  /** Dropping a target of a snapshot leaves one target fewer. */
  lemma RemoveShrinks(m: map<string, Stats>, t: string)
    requires t in m
    ensures |m - {t}| == |m| - 1
  {
    assert m.Keys == (m - {t}).Keys + {t};
  }

  /** The metrics a scrape sends for snapshot `m`, in no particular order. */
  ghost function Expected(m: map<string, Stats>): multiset<Sample>
    decreases |m|
  {
    if |m| == 0 then multiset{}
    else
      var t := Pick(m);
      assert |m - {t}| < |m| by {
        assert m.Keys == (m - {t}).Keys + {t};
      }
      multiset(Samples(t, m[t])) + Expected(m - {t})
  }

  /** The targets with at least one answered packet. */
  function Answered(m: map<string, Stats>): set<string> {
    set t | t in m && m[t].packetsSent > m[t].packetsLost
  }

  /** A target's samples are the gauges its statistics call for. */
  lemma SamplesMembers(target: string, st: Stats, x: Sample)
    ensures x in Samples(target, st) <==>
      x.target == target && x == Gauge(x.kind, target, st) &&
      (x.kind == LossPercent || st.packetsSent > st.packetsLost)
  {
  }

  /** A target's samples are distinct. */
  lemma SamplesOnce(target: string, st: Stats, x: Sample)
    ensures multiset(Samples(target, st))[x] == if x in Samples(target, st) then 1 else 0
  {
  }

  /** How often a snapshot's scrape sends a sample: once if it is a gauge
      the target's statistics call for, never otherwise. */
  lemma {:induction false} ExpectedCount(m: map<string, Stats>, x: Sample)
    ensures Expected(m)[x] ==
      if x.target in m && x in Samples(x.target, m[x.target]) then 1 else 0
    decreases |m|
  {
    if |m| > 0 {
      var t := Pick(m);
      RemoveShrinks(m, t);
      ExpectedCount(m - {t}, x);
      SamplesOnce(t, m[t], x);
      SamplesMembers(t, m[t], x);
      if x.target != t && x.target in m {
        assert (m - {t})[x.target] == m[x.target];
      }
    }
  }

  /** Adding a target to a snapshot adds exactly that target's samples. */
  lemma ExpectedInsert(m: map<string, Stats>, t: string, st: Stats)
    requires t !in m
    ensures Expected(m[t := st]) == Expected(m) + multiset(Samples(t, st))
  {
    forall x
      ensures Expected(m[t := st])[x] == (Expected(m) + multiset(Samples(t, st)))[x]
    {
      ExpectedInsertAt(m, t, st, x);
    }
  }

  /** ExpectedInsert for one sample. */
  lemma ExpectedInsertAt(m: map<string, Stats>, t: string, st: Stats, x: Sample)
    requires t !in m
    ensures Expected(m[t := st])[x] == Expected(m)[x] + multiset(Samples(t, st))[x]
  {
    var m' := m[t := st];
    ExpectedCount(m', x);
    ExpectedCount(m, x);
    SamplesOnce(t, st, x);
    SamplesMembers(t, st, x);
    if x.target == t {
      assert x.target !in m;
      assert m'[x.target] == st;
    } else {
      assert x.target in m' <==> x.target in m;
      assert x.target in m ==> m'[x.target] == m[x.target];
    }
  }


  /** A scrape sends four RTT gauges per answered target and one loss
      gauge per retained target. */
  lemma {:induction false} ExpectedSize(m: map<string, Stats>)
    ensures |Expected(m)| == 4 * |Answered(m)| + |m|
    decreases |m|
  {
    if |m| == 0 {
      assert m == map[];
      assert Answered(m) == {};
    } else {
      var t := Pick(m);
      RemoveShrinks(m, t);
      ExpectedSize(m - {t});
      ExpectedUnfoldSize(m);
      AnsweredRemove(m, t);
    }
  }

  /** The size of a non-empty snapshot's scrape: the picked target's
      samples and the rest's. */
  lemma ExpectedUnfoldSize(m: map<string, Stats>)
    requires |m| > 0
    ensures |Expected(m)| == |Samples(Pick(m), m[Pick(m)])| + |Expected(m - {Pick(m)})|
  {
    var t := Pick(m);
    assert Expected(m) == multiset(Samples(t, m[t])) + Expected(m - {t});
    assert |multiset(Samples(t, m[t]))| == |Samples(t, m[t])|;
  }

  /** Dropping a target drops it from the answered ones. */
  lemma AnsweredRemove(m: map<string, Stats>, t: string)
    requires t in m
    ensures |Answered(m)| == |Answered(m - {t})| + if m[t].packetsSent > m[t].packetsLost then 1 else 0
  {
    if m[t].packetsSent > m[t].packetsLost {
      assert Answered(m) == Answered(m - {t}) + {t};
    } else {
      assert Answered(m) == Answered(m - {t});
    }
  }

  /** For a retained target, each RTT gauge is sent exactly when at least
      one packet was answered, and its loss gauge is sent exactly once. */
  lemma GaugesOfTarget(m: map<string, Stats>, t: string, k: Kind)
    requires t in m
    ensures Expected(m)[Gauge(k, t, m[t])] ==
      if k == LossPercent || m[t].packetsSent > m[t].packetsLost then 1 else 0
  {
    ExpectedCount(m, Gauge(k, t, m[t]));
    SamplesMembers(t, m[t], Gauge(k, t, m[t]));
  }

  /** Every sample a scrape sends is a gauge of a retained target, with
      the labels decoded from that target's name: never more than eight. */
  lemma SamplesAreRetainedGauges(m: map<string, Stats>, x: Sample)
    requires x in Expected(m)
    ensures x.target in m && x == Gauge(x.kind, x.target, m[x.target])
    ensures x.labels == SplitN(x.target, ' ', 8) && 1 <= |x.labels| <= |LABEL_NAMES|
  {
    ExpectedCount(m, x);
    SamplesMembers(x.target, m[x.target], x);
  }

  /** The value of a label of LABEL_NAMES for the probe from src to dst. */
  function LabelValue(name: string, src: Controller.Pod, dst: Controller.Pod): string {
    if name == "src_pod" then src.name
    else if name == "src_node" then src.nodeName
    else if name == "src_pod_ip" then src.podIP
    else if name == "src_host_ip" then src.hostIP
    else if name == "dst_pod" then dst.name
    else if name == "dst_node" then dst.nodeName
    else if name == "dst_pod_ip" then dst.podIP
    else if name == "dst_host_ip" then dst.hostIP
    else ""
  }

  /** LABEL_NAMES names the identity fields in the order targetName writes
      them. */
  lemma LabelNamesFollowFields(src: Controller.Pod, dst: Controller.Pod)
    ensures |LABEL_NAMES| == |Controller.IdentityFields(src, dst)|
    ensures forall i :: 0 <= i < |LABEL_NAMES| ==>
      Controller.IdentityFields(src, dst)[i] == LabelValue(LABEL_NAMES[i], src, dst)
  {
    var fields := Controller.IdentityFields(src, dst);
    forall i | 0 <= i < |LABEL_NAMES|
      ensures fields[i] == LabelValue(LABEL_NAMES[i], src, dst)
    {
      var name := LABEL_NAMES[i];
      if i == 0 {
        assert name == "src_pod";
      } else if i == 1 {
        assert name == "src_node" && name[4] != "src_pod"[4];
      } else if i == 2 {
        assert name == "src_pod_ip";
      } else if i == 3 {
        assert name == "src_host_ip";
      } else if i == 4 {
        assert name == "dst_pod" && name[0] != 's';
      } else if i == 5 {
        assert name == "dst_node" && name[0] != 's';
      } else if i == 6 {
        assert name == "dst_pod_ip" && name[0] != 's';
      } else {
        assert name == "dst_host_ip" && name[0] != 's';
      }
    }
  }

  /** Decoding a target name built by the controller gives one piece per
      label, each the value of the label at the same position. */
  lemma DecodeTargetName(src: Controller.Pod, dst: Controller.Pod)
    requires Controller.Spaceless(src) && Controller.Spaceless(dst)
    ensures var pieces := SplitN(Controller.TargetName(src, dst), ' ', 8);
      |pieces| == |LABEL_NAMES| &&
      forall i :: 0 <= i < |LABEL_NAMES| ==> pieces[i] == LabelValue(LABEL_NAMES[i], src, dst)
  {
    Controller.SplitTargetName(src, dst);
    LabelNamesFollowFields(src, dst);
  }

  class PingCollector {
    /** The retained snapshot, by target name. */
    var metrics: map<string, Stats>

    constructor ()
      ensures metrics == map[]
    {
      metrics := map[];
    }

    /** Collect: `exported` is what Monitor.Export() returned for this
        scrape; the samples are those sent on the channel, in send order. */
    method Collect(exported: map<string, Stats>) returns (out: seq<Sample>)
      modifies this
      ensures metrics == if |exported| > 0 then exported else old(metrics)
      ensures multiset(out) == Expected(metrics)
      ensures |out| == 4 * |Answered(metrics)| + |metrics|
    {
      if |exported| > 0 {
        metrics := exported;
      }
      out := Render(metrics);
      SentCount(out, metrics);
    }
  }

  /** Collect's loop over the retained snapshot: every target's samples,
      targets in any order. */
  method Render(m: map<string, Stats>) returns (out: seq<Sample>)
    ensures multiset(out) == Expected(m)
  {
    out := [];
    var pending := m.Keys;
    RenderStart(m);
    while pending != {}
      invariant pending <= m.Keys
      invariant multiset(out) == Expected(m - pending)
      decreases pending
    {
      var t :| t in pending;
      RenderStep(out, m, pending, t);
      out := out + Samples(t, m[t]);
      pending := pending - {t};
    }
    assert m - pending == m;
  }

  /** Any sequence holding exactly a scrape's samples has the scrape's
      size. */
  lemma SentCount(out: seq<Sample>, m: map<string, Stats>)
    requires multiset(out) == Expected(m)
    ensures |out| == 4 * |Answered(m)| + |m|
  {
    assert |out| == |multiset(out)|;
    ExpectedSize(m);
  }

  /** Before Render's loop nothing is visited and nothing is sent. */
  lemma RenderStart(m: map<string, Stats>)
    ensures Expected(m - m.Keys) == multiset{}
  {
    assert |m - m.Keys| == 0 by {
      assert m - m.Keys == map[];
    }
  }

  /** One iteration of Render: sending the samples of one more pending
      target gives the scrape of the visited part grown by that target. */
  lemma RenderStep(out: seq<Sample>, m: map<string, Stats>, pending: set<string>, t: string)
    requires pending <= m.Keys && t in pending
    requires multiset(out) == Expected(m - pending)
    ensures multiset(out + Samples(t, m[t])) == Expected(m - (pending - {t}))
  {
    TakeOne(m, pending, t);
    SendOne(out, m - pending, t, m[t]);
  }

  /** Visiting one more pending target grows the visited part of the
      snapshot by that target. */
  lemma TakeOne(m: map<string, Stats>, pending: set<string>, t: string)
    requires t in pending && t in m
    ensures (m - pending)[t := m[t]] == m - (pending - {t})
  {
  }

  /** Appending a new target's samples to the samples of a snapshot gives
      the samples of the snapshot grown by that target. */
  lemma SendOne(out: seq<Sample>, done: map<string, Stats>, t: string, st: Stats)
    requires multiset(out) == Expected(done) && t !in done
    ensures multiset(out + Samples(t, st)) == Expected(done[t := st])
  {
    ExpectedInsert(done, t, st);
  }

  /** Two scrapes while the monitor has nothing new send the same metrics. */
  method ScrapeTwiceWithoutNewData(c: PingCollector) returns (first: seq<Sample>, second: seq<Sample>)
    modifies c
    ensures c.metrics == old(c.metrics)
    ensures multiset(first) == multiset(second) == Expected(c.metrics)
  {
    first := c.Collect(map[]);
    second := c.Collect(map[]);
  }
}
