// What the balancer does to frames, byte by byte and over whole runs: which frames are pings and
// jobs, and that every job goes back the way the start ping of its server came.

module Frames {
  import opened Checksum
  import opened Balancing
  import opened LoadBalancer

  // UDP over IPv4 to port 8080, with so many bytes of payload behind 42 bytes of headers.
  predicate IsRequest(f: seq<Byte>, payload: nat) {
    |f| == 42 + payload &&
    f[12] == 0x08 && f[13] == 0x00 && f[23] == 0x11 && f[36] == 0x1f && f[37] == 0x90
  }

  predicate IsPing(f: seq<Byte>) {
    IsRequest(f, 1)
  }

  predicate IsJob(f: seq<Byte>) {
    IsRequest(f, 8)
  }

  // The eight bytes p are those of the job f.
  predicate IsPayload(p: seq<Byte>, f: seq<Byte>) {
    IsJob(f) && p == f[42..50]
  }

  // Bytes 26 to 29 of a frame say who sent it, bytes 30 to 33 to whom, bytes 6 to 11 from which interface.
  lemma PingsAndJobs(f: seq<Byte>)
    ensures Classify(f).PingPacket? <==> IsPing(f)
    ensures Classify(f).JobPacket? <==> IsJob(f)
    ensures IsPing(f) ==> Classify(f) == PingPacket(f[26..30], f[30..34], f[6..12])
    ensures IsJob(f) ==> Classify(f) == JobPacket(f[42..50])
  {
  }

  // Everything else is let through or, if it ends within the headers of such a packet, aborted.
  lemma OthersUntouched(s: State, f: seq<Byte>, grows: bool, s': State, t: seq<Byte>, verdict: Verdict)
    requires Handled(s, f, grows, s', t, verdict) && !IsPing(f) && !IsJob(f)
    ensures s' == s && t == f
    ensures verdict == Abort <==>
            |f| < 14 || (f[12] == 0x08 && f[13] == 0x00 && (|f| < 34 || (f[23] == 0x11 && |f| < 42)))
    ensures verdict in {Abort, Pass}
  {
    PingsAndJobs(f);
  }

  // A frame, what has become of it, and the maps afterwards.
  datatype Step = Step(frame: seq<Byte>, grows: bool, wire: seq<Byte>, verdict: Verdict, after: State)

  function Before(steps: seq<Step>, n: nat): State
    requires n <= |steps|
  {
    if n == 0 then INITIAL else steps[n - 1].after
  }

  ghost predicate IsStep(s: State, x: Step) {
    |s.servers| == MAX_SERVERS && Handled(s, x.frame, x.grows, x.after, x.wire, x.verdict)
  }

  // The balancer from its start on.
  ghost predicate IsRun(steps: seq<Step>) {
    forall n :: 0 <= n < |steps| ==> IsStep(Before(steps, n), steps[n])
  }

  // The slot has been filled by the ping f: its server is reached at f's source and interface, from
  // the address that f was sent to.
  predicate FilledBy(d: DestInfo, f: seq<Byte>) {
    IsPing(f) && d.saddr == f[26..30] && d.daddr == f[30..34] && d.dmac == f[6..12]
  }

  predicate SameAddresses(d: DestInfo, e: DestInfo) {
    d.saddr == e.saddr && d.daddr == e.daddr && d.dmac == e.dmac
  }

  // A slot that has been taken keeps its addresses, and only a ping takes one.
  ghost predicate SlotStep(d: DestInfo, e: DestInfo, f: seq<Byte>) {
    if d.Registered() then SameAddresses(d, e) else e.Registered() ==> FilledBy(e, f)
  }

  ghost predicate SlotsStep(s: State, s': State, f: seq<Byte>) {
    |s.servers| == |s'.servers| == MAX_SERVERS &&
    forall k :: 0 <= k < MAX_SERVERS ==> SlotStep(s.servers[k], s'.servers[k], f)
  }

  // Queued jobs were queued before or have just arrived.
  ghost predicate QueueStep(s: State, s': State, f: seq<Byte>) {
    forall p :: p in s'.queue ==> p in s.queue || IsPayload(p, f)
  }

  // The frame t carries one of the jobs, addressed to the server of a slot that has been taken.
  ghost predicate SentTo(s: State, f: seq<Byte>, t: seq<Byte>, k: nat) {
    k < |s.servers| && s.servers[k].Registered() && |t| == 50 &&
    t[30..34] == s.servers[k].saddr && t[26..30] == s.servers[k].daddr && t[0..6] == s.servers[k].dmac &&
    (t[42..50] in s.queue || IsPayload(t[42..50], f))
  }

  lemma ServeFacts(s: State, f: seq<Byte>, grows: bool, t: seq<Byte>, verdict: Verdict)
    requires |s.servers| == MAX_SERVERS
    requires Delivered(f, Serve(s, grows).0, t, Serve(s, grows).1, verdict)
    ensures SlotsStep(s, Serve(s, grows).0, f) && QueueStep(s, Serve(s, grows).0, f)
    ensures verdict == Transmit ==> exists k :: SentTo(s, f, t, k)
  {
    var b := Available(s);
    assert IsBest(s.servers, MAX_SERVERS, b);
    if s.queue != [] && b != NONE && grows {
      assert t[HEADERS..] == t[42..50];
      assert SentTo(s, f, t, b);
    }
  }

  lemma PingFacts(s: State, x: Step)
    requires IsStep(s, x) && IsPing(x.frame)
    ensures SlotsStep(s, x.after, x.frame) && QueueStep(s, x.after, x.frame)
    ensures x.verdict == Transmit ==> exists k :: SentTo(s, x.frame, x.wire, k)
  {
    PingsAndJobs(x.frame);
    hide Classify;
    var f := x.frame;
    var src := f[26..30];
    hide IsRequest, Learned;
    if !Registers(s, src) {
      var s1 := Credit(s, src);
      hide Delivered;
      ServeFacts(s1, f, x.grows, x.wire, x.verdict);
      hide Serve;
      assert forall k :: 0 <= k < MAX_SERVERS ==> SameAddresses(s.servers[k], s1.servers[k]);
      if x.verdict == Transmit {
        var k :| SentTo(s1, f, x.wire, k);
        assert SentTo(s, f, x.wire, k);
      }
    }
  }

  lemma JobFacts(s: State, x: Step)
    requires IsStep(s, x) && IsJob(x.frame)
    ensures SlotsStep(s, x.after, x.frame) && QueueStep(s, x.after, x.frame)
    ensures x.verdict == Transmit ==> exists k :: SentTo(s, x.frame, x.wire, k)
  {
    PingsAndJobs(x.frame);
    hide Classify;
    var b := Available(s);
    assert IsBest(s.servers, MAX_SERVERS, b);
    if b != NONE {
      assert x.wire[HEADERS..] == x.wire[42..50];
      assert SentTo(s, x.frame, x.wire, b);
    }
  }

  lemma StepFacts(s: State, x: Step)
    requires IsStep(s, x)
    ensures SlotsStep(s, x.after, x.frame) && QueueStep(s, x.after, x.frame)
    ensures x.verdict == Transmit ==> exists k :: SentTo(s, x.frame, x.wire, k)
  {
    if IsPing(x.frame) {
      PingFacts(s, x);
    } else if IsJob(x.frame) {
      JobFacts(s, x);
    } else {
      OthersUntouched(s, x.frame, x.grows, x.after, x.wire, x.verdict);
    }
  }

  // Every slot that has been taken was filled by one of the first n frames, and every queued job is
  // the payload of one.
  ghost predicate Explained(steps: seq<Step>, n: nat)
    requires n <= |steps|
  {
    var s := Before(steps, n);
    |s.servers| == MAX_SERVERS &&
    (forall k :: 0 <= k < MAX_SERVERS && s.servers[k].Registered() ==> SomePing(steps, n, s.servers[k])) &&
    forall p :: p in s.queue ==> SomeJob(steps, n, p)
  }

  ghost predicate SomePing(steps: seq<Step>, n: nat, d: DestInfo)
    requires n <= |steps|
  {
    exists i :: 0 <= i < n && FilledBy(d, steps[i].frame)
  }

  ghost predicate SomeJob(steps: seq<Step>, n: nat, p: Payload)
    requires n <= |steps|
  {
    exists i :: 0 <= i < n && IsPayload(p, steps[i].frame)
  }

  lemma RunStep(steps: seq<Step>, n: nat)
    requires IsRun(steps) && n < |steps|
    ensures IsStep(Before(steps, n), steps[n])
  {
  }

  lemma {:induction false} AlwaysExplained(steps: seq<Step>, n: nat)
    requires IsRun(steps) && n <= |steps|
    ensures Explained(steps, n)
    decreases n
  {
    hide IsStep, SomePing, SomeJob;
    if n > 0 {
      hide Explained;
      AlwaysExplained(steps, n - 1);
      RunStep(steps, n - 1);
      ExplainedFurther(steps, n);
    }
  }

  lemma ExplainedFurther(steps: seq<Step>, n: nat)
    requires 0 < n <= |steps| && Explained(steps, n - 1) && IsStep(Before(steps, n - 1), steps[n - 1])
    ensures Explained(steps, n)
  {
    hide IsStep, FilledBy, IsPayload, SameAddresses;
    var s, x := Before(steps, n - 1), steps[n - 1];
    StepFacts(s, x);
    forall k | 0 <= k < MAX_SERVERS && x.after.servers[k].Registered() ensures SomePing(steps, n, x.after.servers[k]) {
      assert SlotStep(s.servers[k], x.after.servers[k], x.frame);
      if s.servers[k].Registered() {
        EarlierPing(steps, n, s.servers[k], x.after.servers[k]);
      }
    }
    forall p | p in x.after.queue ensures SomeJob(steps, n, p) {
      if p in s.queue {
        assert SomeJob(steps, n - 1, p);
      }
    }
  }

  lemma EarlierPing(steps: seq<Step>, n: nat, d: DestInfo, e: DestInfo)
    requires 0 < n <= |steps| && SomePing(steps, n - 1, d) && SameAddresses(d, e)
    ensures SomePing(steps, n, e)
  {
    hide IsRequest;
    var i :| 0 <= i < n - 1 && FilledBy(d, steps[i].frame);
    assert FilledBy(e, steps[i].frame);
  }

  // The frame t goes back the way the ping f came.
  predicate GoesBack(t: seq<Byte>, f: seq<Byte>) {
    IsPing(f) && |t| == 50 && t[30..34] == f[26..30] && t[26..30] == f[30..34] && t[0..6] == f[6..12]
  }

  // The frame t carries the eight bytes of the job f.
  predicate Carries(t: seq<Byte>, f: seq<Byte>) {
    |t| == 50 && IsPayload(t[42..50], f)
  }

  // In every run, a frame that is transmitted goes back the way an earlier ping came, and carries the
  // job of a frame that has arrived.
  lemma JobsGoBack(steps: seq<Step>, j: nat)
    requires IsRun(steps) && j < |steps| && steps[j].verdict == Transmit
    ensures exists i :: 0 <= i < j && GoesBack(steps[j].wire, steps[i].frame)
    ensures exists i :: 0 <= i <= j && Carries(steps[j].wire, steps[i].frame)
  {
    AlwaysExplained(steps, j);
    RunStep(steps, j);
    hide IsRun;
    StepFacts(Before(steps, j), steps[j]);
    hide IsStep;
    var k :| SentTo(Before(steps, j), steps[j].frame, steps[j].wire, k);
    WayBack(steps, j, k);
    Payloads(steps, j, k);
  }

  lemma WayBack(steps: seq<Step>, j: nat, k: nat)
    requires j < |steps| && Explained(steps, j) && SentTo(Before(steps, j), steps[j].frame, steps[j].wire, k)
    ensures exists i :: 0 <= i < j && GoesBack(steps[j].wire, steps[i].frame)
  {
    hide IsRequest;
    var d := Before(steps, j).servers[k];
    assert SomePing(steps, j, d);
    var i :| 0 <= i < j && FilledBy(d, steps[i].frame);
    assert GoesBack(steps[j].wire, steps[i].frame);
  }

  lemma Payloads(steps: seq<Step>, j: nat, k: nat)
    requires j < |steps| && Explained(steps, j) && SentTo(Before(steps, j), steps[j].frame, steps[j].wire, k)
    ensures exists i :: 0 <= i <= j && Carries(steps[j].wire, steps[i].frame)
  {
    hide IsPayload, SomePing;
    var t := steps[j].wire;
    if t[42..50] in Before(steps, j).queue {
      assert SomeJob(steps, j, t[42..50]);
      var i :| 0 <= i < j && IsPayload(t[42..50], steps[i].frame);
      assert Carries(t, steps[i].frame);
    } else {
      assert Carries(t, steps[j].frame);
    }
  }

  // Frame i has filled slot k.
  ghost predicate Fills(steps: seq<Step>, i: nat, k: nat)
    requires i < |steps|
  {
    |Before(steps, i).servers| == |steps[i].after.servers| == MAX_SERVERS && k < MAX_SERVERS &&
    !Before(steps, i).servers[k].Registered() && steps[i].after.servers[k].Registered()
  }

  lemma FillsStep(s: State, x: Step, k: nat)
    requires IsStep(s, x) && k < MAX_SERVERS && !s.servers[k].Registered()
    ensures |x.after.servers| == MAX_SERVERS && SlotStep(s.servers[k], x.after.servers[k], x.frame)
  {
    StepFacts(s, x);
  }

  lemma StaysStep(s: State, x: Step, k: nat, f: seq<Byte>)
    requires IsStep(s, x) && k < MAX_SERVERS && s.servers[k].Registered() && FilledBy(s.servers[k], f)
    ensures |x.after.servers| == MAX_SERVERS && FilledBy(x.after.servers[k], f) && x.after.servers[k].Registered()
  {
    StepFacts(s, x);
    hide IsRequest, Handled, SentTo, QueueStep;
    assert SlotStep(s.servers[k], x.after.servers[k], x.frame);
  }

  // A slot once filled by a ping keeps its addresses for the rest of the run.
  lemma {:induction false} SlotStays(steps: seq<Step>, i: nat, j: nat, k: nat)
    requires IsRun(steps) && i < j <= |steps| && Fills(steps, i, k)
    ensures |Before(steps, j).servers| == MAX_SERVERS && FilledBy(Before(steps, j).servers[k], steps[i].frame)
    ensures Before(steps, j).servers[k].Registered()
    decreases j
  {
    hide FilledBy, Handled;
    RunStep(steps, j - 1);
    if j > i + 1 {
      SlotStays(steps, i, j - 1, k);
      StaysStep(Before(steps, j - 1), steps[j - 1], k, steps[i].frame);
    } else {
      FillsStep(Before(steps, i), steps[i], k);
    }
  }

  // Every ping names its sender, and the count of registrations does not wrap.
  ghost predicate Orderly(steps: seq<Step>) {
    forall n :: 0 <= n < |steps| ==> OrderlyStep(Before(steps, n), steps[n].frame)
  }

  ghost predicate OrderlyStep(s: State, f: seq<Byte>) {
    s.cnt + 1 < U16_SIZE && (IsPing(f) ==> f[26..30] != NO_ADDR)
  }

  lemma {:induction false} OrderlyWellformed(steps: seq<Step>, n: nat)
    requires IsRun(steps) && Orderly(steps) && n <= |steps|
    ensures Wellformed(Before(steps, n))
    decreases n
  {
    hide Wellformed, Handled, OrderlyStep;
    if n == 0 {
      InitialWellformed();
    } else {
      OrderlyWellformed(steps, n - 1);
      RunStep(steps, n - 1);
      assert OrderlyStep(Before(steps, n - 1), steps[n - 1].frame);
      hide IsRun, IsStep, Orderly;
      StepWellformed(Before(steps, n - 1), steps[n - 1]);
    }
  }

  lemma StepWellformed(s: State, x: Step)
    requires Wellformed(s) && IsStep(s, x) && OrderlyStep(s, x.frame)
    ensures Wellformed(x.after)
  {
    var f := x.frame;
    PingsAndJobs(f);
    hide Classify, Wellformed, Delivered, Ping, Job;
    if IsPing(f) {
      PingWellformed(s, f[26..30], f[30..34], f[6..12], x.grows);
    } else if IsJob(f) {
      JobWellformed(s, f[42..50]);
    }
  }

  // A later ping of another sender is never booked under the slot.
  lemma SlotsApart(steps: seq<Step>, i: nat, j: nat, k: nat)
    requires IsRun(steps) && Orderly(steps) && i < j < |steps| && Fills(steps, i, k)
    requires IsPing(steps[j].frame) && steps[j].frame[26..30] != steps[i].frame[26..30]
    ensures KeyFor(Before(steps, j), steps[j].frame[26..30]) != k
  {
    SlotStays(steps, i, j, k);
    OrderlyWellformed(steps, j);
    hide IsRun, Orderly, Fills;
  }
}
