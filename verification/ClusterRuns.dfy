// What holds in every run of the load balancer with its servers: no job is turned away, none is
// lost inside the balancer or overtaken, and no thread idles while jobs wait.

module ClusterRuns {
  import opened Checksum
  import opened Balancing
  import opened Cluster

  lemma HandlersFit(c: Cluster, i: nat)
    requires Inv(c) && i < |c.servers|
    ensures var s := c.servers[i]; |s.jobs| + s.spawned + s.running + s.sending <= MAX_THREADS
    ensures var s := c.servers[i]; |s.jobs| + s.spawned + s.running + s.sending > 0 ==> s.addr in c.lb.ipToKey
    ensures var s := c.servers[i]; s.addr in c.lb.ipToKey ==>
              c.lb.ipToKey[s.addr] < |c.lb.servers| &&
              c.lb.servers[c.lb.ipToKey[s.addr]].free + Outstanding(s) == MAX_THREADS
  {
    assert ServerOk(c.lb, c.servers[i]);
  }

  // In every run, a registered server holds at most as many jobs, handlers and unreported
  // completions as it has threads, so it never turns a job away.
  lemma NeverBusy(c: Cluster, events: seq<Event>, i: nat, p: Payload)
    requires Initial(c) && Enabled(Run(c, events), Receive(i, p))
    ensures !Busy(Run(c, events).servers[i])
    ensures Run(c, events).servers[i].addr in Run(c, events).lb.ipToKey
  {
    CreditSafety(c, events);
    NotBusy(Run(c, events), i, p);
  }

  lemma NotBusy(c: Cluster, i: nat, p: Payload)
    requires Inv(c) && Enabled(c, Receive(i, p))
    ensures !Busy(c.servers[i]) && c.servers[i].addr in c.lb.ipToKey
  {
    HandlersFit(c, i);
    assert |c.servers[i].jobs| > 0;
  }

  predicate LosesNothing(events: seq<Event>) {
    forall k :: 0 <= k < |events| ==> !events[k].LosePing? && !events[k].LoseJob?
  }

  ghost predicate NothingLost(servers: seq<Server>) {
    forall i :: 0 <= i < |servers| ==> servers[i].lost == 0
  }

  lemma StepLosesNothing(c: Cluster, e: Event)
    requires Inv(c) && NothingLost(c.servers) && !e.LosePing? && !e.LoseJob?
    ensures NothingLost(Step(c, e).servers)
  {
    hide Inv, Ping, Job, IndexOf, Wellformed;
    if e.Receive? && Enabled(c, e) {
      HandlersFit(c, e.i);
      assert |c.servers[e.i].jobs| > 0;
    }
  }

  lemma {:induction false} RunLosesNothing(c: Cluster, events: seq<Event>)
    requires Initial(c) && LosesNothing(events)
    ensures NothingLost(Run(c, events).servers)
    decreases |events|
  {
    if events != [] {
      var before := events[..|events| - 1];
      RunLosesNothing(c, before);
      CreditSafety(c, before);
      StepLosesNothing(Run(c, before), events[|events| - 1]);
    }
  }

  // Without loss, the free threads of a registered server are exactly those that no job, handler
  // or ping occupies.
  lemma FreeThreadsExact(c: Cluster, events: seq<Event>, i: nat)
    requires Initial(c) && LosesNothing(events) && i < |Run(c, events).servers|
    requires Run(c, events).servers[i].addr in Run(c, events).lb.ipToKey
    ensures var d := Run(c, events); var s := d.servers[i];
            d.lb.ipToKey[s.addr] < |d.lb.servers| &&
            d.lb.servers[d.lb.ipToKey[s.addr]].free ==
            MAX_THREADS - |s.jobs| - s.spawned - s.running - s.sending - s.pings
  {
    CreditSafety(c, events);
    RunLosesNothing(c, events);
    HandlersFit(Run(c, events), i);
  }

  // The arrivals that were not dropped, in order.
  ghost function Accepted(log: seq<Arrival>): seq<Payload> {
    if log == [] then []
    else
      var last := log[|log| - 1];
      Accepted(log[..|log| - 1]) + (if last.dropped then [] else [last.job])
  }

  lemma AcceptedOne(log: seq<Arrival>, a: Arrival)
    ensures Accepted(log + [a]) == Accepted(log) + (if a.dropped then [] else [a.job])
  {
    assert (log + [a])[..|log|] == log;
  }

  // A job is dropped exactly if the queue is full and no server has a free thread.
  lemma DropsExactly(c: Cluster, p: Payload)
    requires Wellformed(c.lb)
    ensures var d := JobStep(c, p); |d.log| == |c.log| + 1 && d.log[..|c.log|] == c.log && d.log[|c.log|].job == p
    ensures JobStep(c, p).log[|c.log|].dropped <==> |c.lb.queue| == QUEUE_CAPACITY && Available(c.lb) == NONE
  {
  }

  // Every accepted job has been transmitted, waits in the queue, or was cut off.
  ghost predicate JobsConserved(c: Cluster) {
    multiset(Accepted(c.log)) == multiset(c.sent) + multiset(c.lb.queue) + multiset(c.cut)
  }

  lemma HeadAndTail(q: seq<Payload>)
    requires q != []
    ensures multiset(q) == multiset([q[0]]) + multiset(q[1..])
  {
    assert q == [q[0]] + q[1..];
  }

  // An arriving job is transmitted at once, queued, or dropped.
  lemma JobGoesSomewhere(c: Cluster, p: Payload)
    requires Wellformed(c.lb)
    ensures var d := JobStep(c, p);
            d.cut == c.cut &&
            if Available(c.lb) != NONE
            then d.sent == c.sent + [p] && d.lb.queue == c.lb.queue && d.log == c.log + [Arrival(p, false)]
            else if |c.lb.queue| < QUEUE_CAPACITY
            then d.sent == c.sent && d.lb.queue == c.lb.queue + [p] && d.log == c.log + [Arrival(p, false)]
            else d.sent == c.sent && d.lb.queue == c.lb.queue && d.log == c.log + [Arrival(p, true)]
  {
    assert |c.lb.queue + [p]| == |c.lb.queue| + 1;
  }

  lemma ArrivalConservesJobs(c: Cluster, p: Payload)
    requires Wellformed(c.lb) && JobsConserved(c)
    ensures JobsConserved(JobStep(c, p))
  {
    JobGoesSomewhere(c, p);
    AcceptedOne(c.log, Arrival(p, false));
    AcceptedOne(c.log, Arrival(p, true));
  }

  // The queue's head has been moved to the end of one of the other two lists.
  lemma HeadMovedConserves(c: Cluster, d: Cluster)
    requires JobsConserved(c) && c.log == d.log
    requires (d.lb.queue == c.lb.queue && d.sent == c.sent && d.cut == c.cut) ||
             (c.lb.queue != [] && d.lb.queue == c.lb.queue[1..] &&
              ((d.sent == c.sent + [c.lb.queue[0]] && d.cut == c.cut) ||
               (d.sent == c.sent && d.cut == c.cut + [c.lb.queue[0]])))
    ensures JobsConserved(d)
  {
    if c.lb.queue != [] {
      HeadAndTail(c.lb.queue);
    }
  }

  lemma StepConservesJobs(c: Cluster, e: Event)
    requires Inv(c) && JobsConserved(c)
    ensures JobsConserved(Step(c, e))
  {
    hide JobsConserved;
    if !Enabled(c, e) {
      return;
    }
    hide Available, Dispatched;
    match e {
      case Arrive(p) =>
        ArrivalConservesJobs(c, p);
      case Deliver(i, dst, mac, grows) =>
        PingTakesHead(c, i, dst, mac, grows);
        hide PingStep, Registers;
        HeadMovedConserves(c, PingStep(c, i, dst, mac, grows));
      case _ =>
        HeadMovedConserves(c, Step(c, e));
    }
  }

  // A ping transmits nothing, or the head of the queue, or cuts it off.
  lemma PingTakesHead(c: Cluster, i: nat, dst: Addr, mac: Mac, grows: bool)
    requires Inv(c) && i < |c.servers| && c.servers[i].pings > 0
    ensures var d := PingStep(c, i, dst, mac, grows);
            d.log == c.log &&
            if Registers(c.lb, c.servers[i].addr) || c.lb.queue == []
            then d.lb.queue == c.lb.queue && d.sent == c.sent && d.cut == c.cut
            else d.lb.queue == c.lb.queue[1..] &&
                 (if grows then d.sent == c.sent + [c.lb.queue[0]] && d.cut == c.cut
                  else d.sent == c.sent && d.cut == c.cut + [c.lb.queue[0]])
  {
    var a := c.servers[i].addr;
    hide Dispatched;
    AddressReal(c, i);
    hide Inv, Available;
    RegistersExactly(c.lb, a);
    if !Registers(c.lb, a) {
      PingCredits(c.lb, a, dst, mac, grows);
    }
  }

  // In every run.
  lemma {:induction false} JobConservation(c: Cluster, events: seq<Event>)
    requires Initial(c)
    ensures JobsConserved(Run(c, events))
    decreases |events|
  {
    if events != [] {
      var before := events[..|events| - 1];
      JobConservation(c, before);
      CreditSafety(c, before);
      StepConservesJobs(Run(c, before), events[|events| - 1]);
    }
  }

  // Servers take their slots only while no job is queued, and no packet fails to be lengthened.
  ghost predicate CalmStep(c: Cluster, e: Event) {
    e.Deliver? && Enabled(c, e) ==>
      if c.servers[e.i].addr in c.lb.ipToKey then e.grows else c.lb.cnt < MAX_SERVERS ==> c.lb.queue == []
  }

  ghost predicate Calm(c: Cluster, events: seq<Event>) {
    events == [] ||
    (Calm(c, events[..|events| - 1]) && CalmStep(Run(c, events[..|events| - 1]), events[|events| - 1]))
  }

  // Accepted jobs leave in the order in which they came, and free threads do not idle.
  ghost predicate Fair(c: Cluster) {
    Accepted(c.log) == c.sent + c.lb.queue && c.cut == [] && WorkConserving(c.lb)
  }

  lemma CalmStepFair(c: Cluster, e: Event)
    requires Inv(c) && Fair(c) && CalmStep(c, e)
    ensures Fair(Step(c, e))
  {
    if !Enabled(c, e) {
      return;
    }
    match e {
      case Arrive(p) =>
        ArrivalFair(c, p);
      case Deliver(i, dst, mac, grows) =>
        DeliveryFair(c, i, dst, mac, grows);
      case _ =>
    }
  }

  lemma ArrivalFair(c: Cluster, p: Payload)
    requires Wellformed(c.lb) && Fair(c)
    ensures Fair(JobStep(c, p))
  {
    JobGoesSomewhere(c, p);
    AcceptedOne(c.log, Arrival(p, false));
    AcceptedOne(c.log, Arrival(p, true));
    JobConservesWork(c.lb, p);
    JobOvertakes(c.lb, p);
    assert Job(c.lb, p).1.Sent? <==> Available(c.lb) != NONE;
    assert JobStep(c, p).lb == Job(c.lb, p).0;
    hide JobStep, Job, Wellformed, WorkConserving, Accepted, Available;
    assert c.sent + (c.lb.queue + [p]) == (c.sent + c.lb.queue) + [p];
  }

  lemma HeadMovedKeepsOrder(c: Cluster, d: Cluster)
    requires Fair(c) && c.log == d.log && d.cut == c.cut && WorkConserving(d.lb)
    requires (d.lb.queue == c.lb.queue && d.sent == c.sent) ||
             (c.lb.queue != [] && d.lb.queue == c.lb.queue[1..] && d.sent == c.sent + [c.lb.queue[0]])
    ensures Fair(d)
  {
    if c.lb.queue != [] {
      assert (c.sent + [c.lb.queue[0]]) + c.lb.queue[1..] == c.sent + c.lb.queue;
    }
  }

  lemma DeliveryFair(c: Cluster, i: nat, dst: Addr, mac: Mac, grows: bool)
    requires Inv(c) && Fair(c) && i < |c.servers| && c.servers[i].pings > 0
    requires CalmStep(c, Deliver(i, dst, mac, grows))
    ensures Fair(PingStep(c, i, dst, mac, grows))
  {
    AddressReal(c, i);
    PingTakesHead(c, i, dst, mac, grows);
    RegistersExactly(c.lb, c.servers[i].addr);
    DeliveryConservesWork(c, i, dst, mac, grows);
    HeadMovedKeepsOrder(c, PingStep(c, i, dst, mac, grows));
  }

  lemma DeliveryConservesWork(c: Cluster, i: nat, dst: Addr, mac: Mac, grows: bool)
    requires Wellformed(c.lb) && WorkConserving(c.lb) && i < |c.servers| && c.servers[i].pings > 0
    requires CalmStep(c, Deliver(i, dst, mac, grows)) && c.servers[i].addr != NO_ADDR
    ensures WorkConserving(PingStep(c, i, dst, mac, grows).lb)
  {
    var a := c.servers[i].addr;
    PingConservesWork(c.lb, a, dst, mac, grows);
    RegistersExactly(c.lb, a);
  }

  lemma AddressReal(c: Cluster, i: nat)
    requires Inv(c) && i < |c.servers|
    ensures c.servers[i].addr != NO_ADDR && Wellformed(c.lb)
  {
    assert ServerOk(c.lb, c.servers[i]);
  }

  // If servers register only while the queue is empty, no job ever overtakes another and no
  // thread idles while jobs wait.
  lemma {:induction false} NoOvertaking(c: Cluster, events: seq<Event>)
    requires Initial(c) && Calm(c, events)
    ensures Fair(Run(c, events))
    decreases |events|
  {
    if events != [] {
      var before := events[..|events| - 1];
      NoOvertaking(c, before);
      CreditSafety(c, before);
      CalmStepFair(Run(c, before), events[|events| - 1]);
    }
  }

  // The balancer never finds all servers occupied when a completion has just been reported.
  lemma CompletionFindsServer(c: Cluster, events: seq<Event>, i: nat, dst: Addr, mac: Mac)
    requires Initial(c) && Enabled(Run(c, events), Deliver(i, dst, mac, true))
    requires Run(c, events).servers[i].addr in Run(c, events).lb.ipToKey && Run(c, events).lb.queue != []
    ensures Wellformed(Run(c, events).lb)
    ensures var d := Run(c, events); var (lb, out) := Ping(d.lb, d.servers[i].addr, dst, mac, true);
            out.Sent? && out.key < MAX_SERVERS && out.job == d.lb.queue[0] && lb.queue == d.lb.queue[1..]
  {
    CreditSafety(c, events);
    var d := Run(c, events);
    PingCredits(d.lb, d.servers[i].addr, dst, mac, true);
  }
}
