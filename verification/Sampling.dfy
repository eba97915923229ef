/** Which channel gets sampled: priorities, and fairness of the round. */
module Sampling {
  import opened Supervision
  import opened SupervisionInvariant

  /** Refused exactly when no channel is active, enabled and unsuspended; otherwise such a channel
      is taken, a lossy one if any, else an uncalibrated one if any; the current one is kept if it is
      one of those; and the reading is the channel's own. */
  lemma SamplingPolicy(s: State, active: Mask, discard: nat, reading: nat)
    requires Inv(s)
    ensures var (r, sampled) := Sample(s, active, discard, reading); var e := active * s.enabled - s.suspended;
            && (sampled == NoChannel <==> e == {})
            && (sampled.Sampled? ==>
                  && sampled.ch in e
                  && (e * s.lossy != {} ==> sampled.ch in s.lossy)
                  && (e * s.lossy == {} && e * s.calib != {} ==> sampled.ch in s.calib)
                  && (s.curCh in e * s.lossy || (e * s.lossy == {} && s.curCh in e * s.calib) ==>
                        sampled.ch == s.curCh)
                  && r.mux == SelectionMap(sampled.ch) && r.data[sampled.ch].prms == reading)
  {
    SampleEligible(s, active, discard, reading);
    SampleFrame(s, active, discard, reading);
    SampleOnMux(s, active, discard, reading);
    var e := Eligible(s, active);
    if c :| c in e * s.lossy { assert c in s.lossy; }
    if c :| c in e * s.calib { assert c in s.calib * s.enabled; }
  }

  /** Without a lossy or uncalibrated channel to stay on, the next one sampled is the lowest above the
      current one, or, if there is none above, the lowest of all. */
  lemma TakesNextAbove(s: State, active: Mask, discard: nat, reading: nat)
    requires |s.data| == MAX_CHANNELS
    ensures var e := active * s.enabled - s.suspended; var sampled := Sample(s, active, discard, reading).1;
            e != {} && e * s.lossy == {} && e * s.calib == {} ==>
              && sampled.Sampled? && sampled.ch in e
              && (forall c :: c in e && c > s.curCh ==> s.curCh < sampled.ch <= c)
              && (forall c :: c in e && sampled.ch <= s.curCh ==> sampled.ch <= c)
  {
    var e := active * s.enabled - s.suspended;
    if e != {} && e * s.lossy == {} && e * s.calib == {} {
      assert Eligible(s, active) == e;
      forall c | c in e
        ensures Scan(s.curCh, e, 16) in e && Distance(s.curCh, Scan(s.curCh, e, 16)) <= Distance(s.curCh, c)
      {
        ScanFinds(s.curCh, e, 16, c);
      }
    }
  }

  function Next(cur: Channel, e: Mask): Channel {
    Scan(cur, e, 16)
  }

  /** The first n channels of the round over `e` that starts after `cur`. */
  function Round(cur: Channel, e: Mask, n: nat): (r: seq<Channel>)
    ensures |r| == n
    decreases n
  {
    if n == 0 then [] else
      var p := Round(cur, e, n - 1);
      p + [Next(Last(cur, p), e)]
  }

  function Last(cur: Channel, p: seq<Channel>): Channel {
    if p == [] then cur else p[|p| - 1]
  }

  /** Members of `e` met before going as far as `d` channels round from `start`. */
  ghost function Within(start: Channel, e: Mask, d: int): Mask {
    set c | c in e && Distance(start, c) < d
  }

  /** How far round the last channel of a part of the round is. */
  function Reached(start: Channel, p: seq<Channel>): nat {
    if p == [] then 0 else Distance(start, p[|p| - 1]) + 1
  }

  /** Distances from the start of the round and from a channel reached in it. */
  lemma DistanceFrom(start: Channel, c: Channel, x: Channel)
    ensures Distance(start, x) > Distance(start, c) ==> Distance(c, x) == Distance(start, x) - Distance(start, c) - 1
    ensures Distance(start, x) <= Distance(start, c) ==> Distance(c, x) == Distance(start, x) - Distance(start, c) + 15
    ensures Distance(start, x) == Distance(start, c) ==> x == c
  {
  }

  /** If some member has not been met, the scan finds the nearest of those. */
  lemma NextIsNew(start: Channel, p: seq<Channel>, e: Mask, x: Channel)
    requires x in e && Distance(start, x) >= Reached(start, p)
    ensures var n := Next(Last(start, p), e);
            n in e && Reached(start, p) <= Distance(start, n) <= Distance(start, x)
  {
    var c := Last(start, p);
    ScanFinds(c, e, 16, x);
    var n := Next(c, e);
    if p != [] {
      DistanceFrom(start, c, x);
      DistanceFrom(start, c, n);
    }
  }

  lemma {:induction false} RoundMeets(start: Channel, e: Mask, n: nat)
    requires n <= |e|
    ensures var p := Round(start, e, n);
            && Members(p) == Within(start, e, Reached(start, p))
            && |Within(start, e, Reached(start, p))| == n
    decreases n
  {
    if n == 0 {
      assert Within(start, e, 0) == {};
    } else {
      RoundMeets(start, e, n - 1);
      var p := Round(start, e, n - 1);
      var met := Within(start, e, Reached(start, p));
      var x := Missing(met, e);
      NextIsNew(start, p, e, x);
      var next := Next(Last(start, p), e);
      var q := p + [next];
      forall c | c in Within(start, e, Reached(start, q)) ensures c in met + {next} {
        if c !in met {
          NextIsNew(start, p, e, c);
          DistanceFrom(start, next, c);
        }
      }
      assert Within(start, e, Reached(start, q)) == met + {next};
      MembersSnoc(p, next);
    }
  }

  /** |e| successive channels of the round are the members of `e`, each exactly once. */
  lemma RoundIsFair(start: Channel, e: Mask)
    ensures Members(Round(start, e, |e|)) == e
    ensures forall i, j :: 0 <= i < j < |e| ==> Round(start, e, |e|)[i] != Round(start, e, |e|)[j]
  {
    RoundMeets(start, e, |e|);
    var p := Round(start, e, |e|);
    var met := Within(start, e, Reached(start, p));
    assert met == e by { SubsetSize(met, e); }
    AllDistinct(p);
  }

  lemma Missing(a: Mask, b: Mask) returns (x: Channel)
    requires a <= b && |a| < |b|
    ensures x in b && x !in a
  {
    assert b == a + (b - a);
    assert |b - a| > 0;
    x :| x in b - a;
  }

  lemma SubsetSize(a: Mask, b: Mask)
    requires a <= b && |a| == |b|
    ensures a == b
  {
    assert b == a + (b - a);
    assert |b - a| == 0;
  }

  lemma InsertSize(c: Channel, m: Mask)
    ensures |{c} + m| == if c in m then |m| else |m| + 1
  {
    if c in m { assert {c} + m == m; }
  }

  ghost function Members(p: seq<Channel>): Mask {
    set c | c in p
  }

  lemma MembersOfTail(p: seq<Channel>)
    requires p != []
    ensures Members(p) == {p[0]} + Members(p[1..])
  {
  }

  lemma MembersSnoc(p: seq<Channel>, c: Channel)
    ensures Members(p + [c]) == Members(p) + {c}
  {
  }

  lemma {:induction false} MembersAtMost(p: seq<Channel>)
    ensures |Members(p)| <= |p|
  {
    if p == [] {
    } else {
      MembersAtMost(p[1..]);
      MembersOfTail(p);
    }
  }

  lemma {:induction false} AllDistinct(p: seq<Channel>)
    requires |Members(p)| == |p|
    ensures forall i, j :: 0 <= i < j < |p| ==> p[i] != p[j]
  {
    if p == [] {
    } else {
      var rest := Members(p[1..]);
      MembersOfTail(p);
      MembersAtMost(p[1..]);
      InsertSize(p[0], rest);
      AllDistinct(p[1..]);
      forall j | 1 <= j < |p| ensures p[0] != p[j] { assert p[j] == p[1..][j - 1]; }
      forall i, j | 1 <= i < j < |p| ensures p[i] != p[j] {
        assert p[i] == p[1..][i - 1] && p[j] == p[1..][j - 1];
      }
    }
  }

  // ---- the round is what successive samples do ------------------------------------------------

  datatype Input = Input(active: Mask, discard: nat, reading: nat)

  /** The state after sampling once per input. */
  function SampleAll(s: State, ins: seq<Input>): (r: State)
    requires |s.data| == MAX_CHANNELS
    ensures |r.data| == MAX_CHANNELS
    ensures r == s.(data := r.data, curCh := r.curCh, prevAmux := r.prevAmux, mux := r.mux)
  {
    if ins == [] then s
    else
      var p, last := SampleAll(s, ins[..|ins| - 1]), ins[|ins| - 1];
      SampleFrame(p, last.active, last.discard, last.reading);
      Sample(p, last.active, last.discard, last.reading).0
  }

  /** The channel the k-th of the samples takes. */
  function SampledAt(s: State, ins: seq<Input>, k: nat): Sampled
    requires |s.data| == MAX_CHANNELS && k < |ins|
  {
    Sample(SampleAll(s, ins[..k]), ins[k].active, ins[k].discard, ins[k].reading).1
  }

  lemma SampleTakesNext(s: State, x: Input, e: Mask)
    requires |s.data| == MAX_CHANNELS
    requires e != {} && e * s.lossy == {} && e * s.calib == {} && Eligible(s, x.active) == e
    ensures var (r, sampled) := Sample(s, x.active, x.discard, x.reading);
            r.curCh == Next(s.curCh, e) && sampled == Sampled(Next(s.curCh, e))
  {
  }

  lemma {:induction false} CurrentFollowsRound(s: State, ins: seq<Input>, e: Mask, k: nat)
    requires |s.data| == MAX_CHANNELS && k <= |ins|
    requires e != {} && e * s.lossy == {} && e * s.calib == {}
    requires forall k :: 0 <= k < |ins| ==> Eligible(s, ins[k].active) == e
    ensures SampleAll(s, ins[..k]).curCh == Last(s.curCh, Round(s.curCh, e, k))
  {
    if k == 0 {
    } else {
      CurrentFollowsRound(s, ins, e, k - 1);
      var p := SampleAll(s, ins[..k - 1]);
      assert ins[..k][..k - 1] == ins[..k - 1];
      SampleTakesNext(p, ins[k - 1], e);
    }
  }

  lemma {:induction false} RoundPrefix(start: Channel, e: Mask, n: nat, k: nat)
    requires k < n
    ensures Round(start, e, n)[k] == Next(Last(start, Round(start, e, k)), e)
  {
    var p := Round(start, e, n - 1);
    assert Round(start, e, n) == p + [Next(Last(start, p), e)];
    if k < n - 1 { RoundPrefix(start, e, n - 1, k); }
  }

  lemma SamplesFollowRound(s: State, ins: seq<Input>, e: Mask)
    requires |s.data| == MAX_CHANNELS
    requires e != {} && e * s.lossy == {} && e * s.calib == {}
    requires forall k :: 0 <= k < |ins| ==> Eligible(s, ins[k].active) == e
    ensures forall k :: 0 <= k < |ins| ==> SampledAt(s, ins, k) == Sampled(Round(s.curCh, e, |ins|)[k])
  {
    forall k | 0 <= k < |ins| ensures SampledAt(s, ins, k) == Sampled(Round(s.curCh, e, |ins|)[k]) {
      CurrentFollowsRound(s, ins, e, k);
      SampleTakesNext(SampleAll(s, ins[..k]), ins[k], e);
      RoundPrefix(s.curCh, e, |ins|, k);
    }
  }

  /** With a fixed eligible set, none of it lossy or uncalibrated, |e| samples take each member once. */
  lemma FairSampling(s: State, ins: seq<Input>, e: Mask)
    requires |s.data| == MAX_CHANNELS
    requires e != {} && e * s.lossy == {} && e * s.calib == {} && |ins| == |e|
    requires forall k :: 0 <= k < |ins| ==> Eligible(s, ins[k].active) == e
    ensures forall k :: 0 <= k < |ins| ==> SampledAt(s, ins, k).Sampled? && SampledAt(s, ins, k).ch in e
    ensures forall c :: c in e ==> exists k :: 0 <= k < |ins| && SampledAt(s, ins, k) == Sampled(c)
    ensures forall i, j :: 0 <= i < j < |ins| ==> SampledAt(s, ins, i) != SampledAt(s, ins, j)
  {
    SamplesFollowRound(s, ins, e);
    RoundIsFair(s.curCh, e);
    var p := Round(s.curCh, e, |e|);
    forall k | 0 <= k < |ins| ensures SampledAt(s, ins, k).Sampled? && SampledAt(s, ins, k).ch in e {
      assert p[k] in Members(p);
    }
    forall c | c in e ensures exists k :: 0 <= k < |ins| && SampledAt(s, ins, k) == Sampled(c) {
      assert c in Members(p);
      var k :| 0 <= k < |p| && p[k] == c;
      assert SampledAt(s, ins, k) == Sampled(c);
    }
  }

  // ---- the round over runs --------------------------------------------------------------------

  lemma {:induction false} RoundCons(cur: Channel, e: Mask, n: nat)
    requires n > 0
    ensures Round(cur, e, n) == [Next(cur, e)] + Round(Next(cur, e), e, n - 1)
    decreases n
  {
    hide Next;
    if n > 1 {
      RoundCons(cur, e, n - 1);
      var p, q := Round(cur, e, n - 1), Round(Next(cur, e), e, n - 2);
      assert Last(cur, p) == Last(Next(cur, e), q);
    }
  }

  /** Every loop iteration of the run finds the eligible set `e`, none of it lossy or uncalibrated. */
  ghost predicate Calm(s: State, es: seq<Event>, e: Mask)
    requires Inv(s) && ValidEvents(es)
    decreases |es|
  {
    es != [] ==>
      && (es[0].Loop? ==> Eligible(s, es[0].active) == e && e * s.lossy == {} && e * s.calib == {})
      && (StepInv(s, es[0]); Calm(Step(s, es[0]), es[1..], e))
  }

  function Loops(es: seq<Event>): nat {
    if es == [] then 0 else (if es[0].Loop? then 1 else 0) + Loops(es[1..])
  }

  /** The channels the loop iterations of a run sample, in order. */
  ghost function SampledIn(s: State, es: seq<Event>): seq<Channel>
    requires Inv(s) && ValidEvents(es)
    decreases |es|
  {
    if es == [] then []
    else
      StepInv(s, es[0]);
      SampledBy(s, es[0]) + SampledIn(Step(s, es[0]), es[1..])
  }

  function SampledBy(s: State, e: Event): seq<Channel>
    requires |s.data| == MAX_CHANNELS
  {
    if !e.Loop? then []
    else
      match Sample(s, e.active, e.discard, e.reading).1
      case NoChannel => []
      case Sampled(c) => [c]
  }

  /** Only sampling moves on in the round. */
  lemma StepCurrent(s: State, e: Event)
    requires Inv(s) && ValidEvent(e)
    ensures Step(s, e).curCh == if e.Loop? then Sample(s, e.active, e.discard, e.reading).0.curCh else s.curCh
  {
    if e.Loop? {
      SampleInv(s, e.active, e.discard, e.reading);
      SampleEligible(s, e.active, e.discard, e.reading);
      SampleFrame(s, e.active, e.discard, e.reading);
      var (s1, sampled) := Sample(s, e.active, e.discard, e.reading);
      if sampled.Sampled? { MonitorCases(s1, sampled.ch); }
    }
  }

  lemma {:induction false} RunFollowsRound(s: State, es: seq<Event>, e: Mask)
    requires Inv(s) && ValidEvents(es) && Calm(s, es, e) && e != {}
    ensures SampledIn(s, es) == Round(s.curCh, e, Loops(es))
    decreases |es|
  {
    hide Step, Sample, Next, Round;
    if es == [] {
      RoundOfNone(s.curCh, e);
    } else {
      StepInv(s, es[0]);
      StepCurrent(s, es[0]);
      RunFollowsRound(Step(s, es[0]), es[1..], e);
      if es[0].Loop? {
        SampleTakesNext(s, Input(es[0].active, es[0].discard, es[0].reading), e);
        RoundCons(s.curCh, e, Loops(es));
      }
    }
  }

  lemma RoundOfNone(cur: Channel, e: Mask)
    ensures Round(cur, e, 0) == []
  {
  }

  /** In a run whose loop iterations all find the same eligible set, none of it lossy or uncalibrated, |e|
      iterations sample each member exactly once, whatever other events come between. */
  lemma FairOverRun(s: State, es: seq<Event>, e: Mask)
    requires Inv(s) && ValidEvents(es) && Calm(s, es, e) && e != {} && Loops(es) == |e|
    ensures var p := SampledIn(s, es);
            && |p| == |e| && Members(p) == e
            && (forall i, j :: 0 <= i < j < |p| ==> p[i] != p[j])
  {
    hide Step, Sample, Round;
    RunFollowsRound(s, es, e);
    RoundIsFair(s.curCh, e);
  }
}
