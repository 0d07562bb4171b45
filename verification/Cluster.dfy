// The load balancer with its servers, and a network that may lose and reorder packets but not
// duplicate them. Every packet and every step of a server is one atomic event.

module Cluster {
  import opened Checksum
  import opened Balancing

  // A server with the packets on their way to and from it, and its handlers: started but not yet
  // counted, counted, and done but not yet reported. `lost` counts credits that lost packets held.
  datatype Server = Server(addr: Addr, started: bool, heard: bool, jobs: multiset<Payload>,
                           spawned: nat, running: nat, sending: nat, pings: nat, lost: nat)

  datatype Arrival = Arrival(job: Payload, dropped: bool)

  // `log` holds the jobs that have reached the balancer, `sent` those it has transmitted, and
  // `cut` those it took off the queue but could not transmit.
  datatype Cluster = Cluster(lb: State, servers: seq<Server>, log: seq<Arrival>, sent: seq<Payload>, cut: seq<Payload>)

  datatype Event =
    | Arrive(job: Payload)
    | Deliver(i: nat, dst: Addr, mac: Mac, grows: bool)
    | LosePing(i: nat)
    | LoseJob(i: nat, job: Payload)
    | Start(i: nat)
    | Receive(i: nat, job: Payload)
    | Count(i: nat)
    | Finish(i: nat)
    | Report(i: nat)

  ghost predicate Enabled(c: Cluster, e: Event) {
    match e
    case Arrive(_) => true
    case Deliver(i, _, _, _) => i < |c.servers| && c.servers[i].pings > 0
    case LosePing(i) => i < |c.servers| && c.servers[i].pings > 0
    case LoseJob(i, job) => i < |c.servers| && job in c.servers[i].jobs
    case Start(i) => i < |c.servers| && !c.servers[i].started
    case Receive(i, job) => i < |c.servers| && job in c.servers[i].jobs
    case Count(i) => i < |c.servers| && c.servers[i].spawned > 0
    case Finish(i) => i < |c.servers| && c.servers[i].running > 0
    case Report(i) => i < |c.servers| && c.servers[i].sending > 0
  }

  // The server turns a job away without telling anyone.
  ghost predicate Busy(s: Server) {
    s.running >= MAX_THREADS
  }

  ghost function IndexOf(servers: seq<Server>, a: Addr): (r: nat)
    ensures r <= |servers|
    ensures r < |servers| ==> servers[r].addr == a
    ensures r == |servers| ==> forall i :: 0 <= i < |servers| ==> servers[i].addr != a
  {
    if exists i :: 0 <= i < |servers| && servers[i].addr == a
    then var i :| 0 <= i < |servers| && servers[i].addr == a; i else |servers|
  }

  // A transmitted job is on its way to the server whose address is in the slot.
  ghost function Dispatched(lb: State, servers: seq<Server>, out: Outcome): seq<Server> {
    if out.Sent? && out.key < |lb.servers| then
      var j := IndexOf(servers, lb.servers[out.key].saddr);
      if j < |servers| then servers[j := servers[j].(jobs := servers[j].jobs + multiset{out.job})] else servers
    else servers
  }

  ghost function Jobs(out: Outcome): seq<Payload> {
    if out.Sent? then [out.job] else []
  }

  ghost function JobStep(c: Cluster, p: Payload): Cluster
    requires Wellformed(c.lb)
  {
    var (lb, out) := Job(c.lb, p);
    Cluster(lb, Dispatched(lb, c.servers, out), c.log + [Arrival(p, !out.Sent? && lb.queue == c.lb.queue)],
            c.sent + Jobs(out), c.cut)
  }

  ghost function Heard(servers: seq<Server>, i: nat): seq<Server>
    requires i < |servers| && servers[i].pings > 0
  {
    servers[i := servers[i].(pings := servers[i].pings - 1, heard := true)]
  }

  ghost function PingStep(c: Cluster, i: nat, dst: Addr, mac: Mac, grows: bool): Cluster
    requires Wellformed(c.lb) && i < |c.servers| && c.servers[i].pings > 0
  {
    var (lb, out) := Ping(c.lb, c.servers[i].addr, dst, mac, grows);
    var missed := if !out.Sent? && |lb.queue| < |c.lb.queue| then [c.lb.queue[0]] else [];
    Cluster(lb, Dispatched(lb, Heard(c.servers, i), out), c.log, c.sent + Jobs(out), c.cut + missed)
  }

  ghost function ServerStep(s: Server, e: Event): Server {
    match e
    case LosePing(_) =>
      if s.pings == 0 then s else s.(pings := s.pings - 1, lost := if s.heard then s.lost + 1 else s.lost)
    case LoseJob(_, job) => s.(jobs := s.jobs - multiset{job}, lost := s.lost + 1)
    case Start(_) => s.(started := true, pings := s.pings + 1)
    case Receive(_, job) =>
      if Busy(s) then s.(jobs := s.jobs - multiset{job}, lost := s.lost + 1)
      else s.(jobs := s.jobs - multiset{job}, spawned := s.spawned + 1)
    case Count(_) => if s.spawned == 0 then s else s.(spawned := s.spawned - 1, running := s.running + 1)
    case Finish(_) => if s.running == 0 then s else s.(running := s.running - 1, sending := s.sending + 1)
    case Report(_) => if s.sending == 0 then s else s.(sending := s.sending - 1, pings := s.pings + 1)
    case _ => s
  }

  ghost function Step(c: Cluster, e: Event): Cluster {
    if !Wellformed(c.lb) || !Enabled(c, e) then c
    else
      match e
      case Arrive(p) => JobStep(c, p)
      case Deliver(i, dst, mac, grows) => PingStep(c, i, dst, mac, grows)
      case _ => c.(servers := c.servers[e.i := ServerStep(c.servers[e.i], e)])
  }

  ghost function Run(c: Cluster, events: seq<Event>): Cluster {
    if events == [] then c else Step(Run(c, events[..|events| - 1]), events[|events| - 1])
  }

  // Everything that holds one of the server's credits.
  ghost function Outstanding(s: Server): nat {
    |s.jobs| + s.spawned + s.running + s.sending + s.pings + s.lost
  }

  // The credits of a registered server are all accounted for; an unregistered one has at most
  // its start ping under way.
  ghost predicate ServerOk(lb: State, s: Server) {
    s.addr != NO_ADDR && (s.heard ==> s.started) &&
    if s.addr in lb.ipToKey then
      s.heard && lb.ipToKey[s.addr] < |lb.servers| &&
      lb.servers[lb.ipToKey[s.addr]].free + Outstanding(s) == MAX_THREADS
    else Outstanding(s) == s.pings <= 1 && (s.pings == 1 ==> s.started && !s.heard)
  }

  ghost predicate AddressesDiffer(servers: seq<Server>) {
    forall i, j :: 0 <= i < j < |servers| ==> servers[i].addr != servers[j].addr
  }

  ghost predicate ServersOk(lb: State, servers: seq<Server>) {
    forall i :: 0 <= i < |servers| ==> ServerOk(lb, servers[i])
  }

  ghost predicate SlotsOwned(lb: State, servers: seq<Server>) {
    forall k :: 0 <= k < |lb.servers| && lb.servers[k].Registered() ==>
      IndexOf(servers, lb.servers[k].saddr) < |servers|
  }

  ghost function HeardCount(servers: seq<Server>): nat {
    if servers == [] then 0 else (if servers[0].heard then 1 else 0) + HeardCount(servers[1..])
  }

  ghost predicate Inv(c: Cluster) {
    Wellformed(c.lb) && |c.servers| < U16_SIZE && AddressesDiffer(c.servers) &&
    ServersOk(c.lb, c.servers) && SlotsOwned(c.lb, c.servers) && c.lb.cnt == HeardCount(c.servers)
  }

  ghost predicate Initial(c: Cluster) {
    c.lb == INITIAL && |c.servers| < U16_SIZE && AddressesDiffer(c.servers) && c.log == [] && c.sent == [] &&
    c.cut == [] &&
    forall i :: 0 <= i < |c.servers| ==>
      c.servers[i].addr != NO_ADDR &&
      c.servers[i] == Server(c.servers[i].addr, false, false, multiset{}, 0, 0, 0, 0, 0)
  }

  lemma {:induction false} HeardCountBound(servers: seq<Server>)
    ensures HeardCount(servers) <= |servers|
    ensures (forall i :: 0 <= i < |servers| ==> !servers[i].heard) ==> HeardCount(servers) == 0
    ensures (exists i :: 0 <= i < |servers| && !servers[i].heard) ==> HeardCount(servers) < |servers|
    decreases |servers|
  {
    if servers != [] {
      HeardCountBound(servers[1..]);
      if i :| 0 <= i < |servers| && !servers[i].heard {
        assert i > 0 ==> !servers[1..][i - 1].heard;
      }
    }
  }

  lemma {:induction false} HeardCountUpdate(servers: seq<Server>, i: nat, s: Server)
    requires i < |servers|
    ensures HeardCount(servers[i := s]) ==
            HeardCount(servers) + (if s.heard then 1 else 0) - (if servers[i].heard then 1 else 0)
    decreases |servers|
  {
    if i == 0 {
      assert servers[i := s][1..] == servers[1..];
    } else {
      HeardCountUpdate(servers[1..], i - 1, s);
      assert servers[i := s][1..] == servers[1..][i - 1 := s];
    }
  }

  lemma InitialInv(c: Cluster)
    requires Initial(c)
    ensures Inv(c)
  {
    InitialWellformed();
    HeardCountBound(c.servers);
  }

  // An address names one server only.
  lemma IndexIsUnique(servers: seq<Server>, i: nat)
    requires AddressesDiffer(servers) && i < |servers|
    ensures IndexOf(servers, servers[i].addr) == i
  {
  }

  // Changing a server but not its address leaves the owners of slots as they are.
  lemma OwnersStay(lb: State, servers: seq<Server>, i: nat, s: Server)
    requires SlotsOwned(lb, servers) && i < |servers| && s.addr == servers[i].addr
    ensures SlotsOwned(lb, servers[i := s])
    ensures AddressesDiffer(servers) ==> AddressesDiffer(servers[i := s])
  {
    var t := servers[i := s];
    forall k | 0 <= k < |lb.servers| && lb.servers[k].Registered() ensures IndexOf(t, lb.servers[k].saddr) < |t| {
      var j := IndexOf(servers, lb.servers[k].saddr);
      assert t[j].addr == lb.servers[k].saddr;
    }
  }

  // Steps of a server keep its account balanced.
  lemma ServerStepOk(lb: State, s: Server, e: Event)
    requires ServerOk(lb, s) && !e.Arrive? && !e.Deliver?
    requires match e
             case LoseJob(_, job) => job in s.jobs
             case Receive(_, job) => job in s.jobs
             case Start(_) => !s.started
             case LosePing(_) => s.pings > 0
             case Count(_) => s.spawned > 0
             case Finish(_) => s.running > 0
             case Report(_) => s.sending > 0
    ensures var t := ServerStep(s, e); ServerOk(lb, t) && t.addr == s.addr && t.heard == s.heard
  {
  }

  lemma LocalStepInv(c: Cluster, e: Event)
    requires Inv(c) && Enabled(c, e) && !e.Arrive? && !e.Deliver?
    ensures Inv(Step(c, e))
  {
    hide Wellformed, SlotsOwned, HeardCount, ServerOk, ServerStep;
    var s := c.servers[e.i];
    ServerStepOk(c.lb, s, e);
    OwnersStay(c.lb, c.servers, e.i, ServerStep(s, e));
    HeardCountUpdate(c.servers, e.i, ServerStep(s, e));
  }

  // Debiting slot k balances with one more job under way to its owner, and concerns nobody else.
  lemma DebitServerOk(lb: State, k: nat, p: Payload, s: Server)
    requires Wellformed(lb) && k < MAX_SERVERS && lb.servers[k].Registered() && lb.servers[k].free > 0
    requires ServerOk(lb, s)
    ensures ServerOk(Debit(lb, k),
                     if s.addr == lb.servers[k].saddr then s.(jobs := s.jobs + multiset{p}) else s)
  {
  }

  // Sending a job to a slot moves one credit from the slot to the network.
  lemma SendInv(c: Cluster, k: nat, p: Payload, c': Cluster)
    requires Inv(c) && k < MAX_SERVERS && c.lb.servers[k].Registered() && c.lb.servers[k].free > 0
    requires c'.lb == Debit(c.lb, k) && c'.servers == Dispatched(c'.lb, c.servers, Sent(k, p))
    ensures Inv(c')
  {
    var j := IndexOf(c.servers, c.lb.servers[k].saddr);
    var s := c.servers[j];
    var t := s.(jobs := s.jobs + multiset{p});
    assert c'.servers == c.servers[j := t];
    OwnersStay(c.lb, c.servers, j, t);
    HeardCountUpdate(c.servers, j, t);
    DebitWellformed(c.lb, k);
    assert SlotsOwned(c'.lb, c'.servers);
    hide HeardCount, Dispatched, IndexOf, SlotsOwned;
    forall i | 0 <= i < |c'.servers| ensures ServerOk(c'.lb, c'.servers[i]) {
      DebitServerOk(c.lb, k, p, c.servers[i]);
      hide Wellformed, ServerOk;
    }
    hide Wellformed, ServerOk;
  }

  // A credit arrives at the slot of its sender, and leaves the network.
  lemma CreditInv(c: Cluster, i: nat, c': Cluster)
    requires Inv(c) && i < |c.servers| && c.servers[i].pings > 0 && c.servers[i].addr in c.lb.ipToKey
    requires c'.lb == Credit(c.lb, c.servers[i].addr) && c'.servers == Heard(c.servers, i)
    ensures Inv(c')
  {
    hide Credit, IndexOf, SlotsOwned;
    var s := c.servers[i];
    assert ServerOk(c.lb, s);
    assert s.heard;
    hide Outstanding, Wellformed, ServerOk;
    var t := Heard(c.servers, i)[i];
    OwnersStay(c.lb, c.servers, i, t);
    HeardCountUpdate(c.servers, i, t);
    CreditWellformed(c.lb, s.addr);
    CreditSlotsOwned(c.lb, s.addr, c'.servers);
    hide HeardCount;
    forall j | 0 <= j < |c'.servers| ensures ServerOk(c'.lb, c'.servers[j]) {
      CreditServerOk(c.lb, s, c.servers[j]);
    }
  }

  lemma CreditSlotsOwned(lb: State, a: Addr, servers: seq<Server>)
    requires Wellformed(lb) && a in lb.ipToKey && SlotsOwned(lb, servers)
    ensures SlotsOwned(Credit(lb, a), servers) && Credit(lb, a).cnt == lb.cnt
  {
  }

  // Crediting the slot of `from` balances with one ping less from it, and concerns nobody else.
  lemma CreditServerOk(lb: State, from: Server, s: Server)
    requires Wellformed(lb) && ServerOk(lb, from) && from.addr in lb.ipToKey && from.pings > 0
    requires ServerOk(lb, s) && (s.addr == from.addr ==> s == from)
    ensures ServerOk(Credit(lb, from.addr), if s.addr == from.addr then s.(pings := s.pings - 1, heard := true) else s)
  {
  }

  // The queue plays no part in the accounts.
  lemma QueueFree(c: Cluster, c': Cluster)
    requires Inv(c) && c'.lb == c.lb.(queue := c'.lb.queue) && c'.servers == c.servers &&
             |c'.lb.queue| <= QUEUE_CAPACITY
    ensures Inv(c')
  {
    forall j | 0 <= j < |c'.servers| ensures ServerOk(c'.lb, c'.servers[j]) {
      assert ServerOk(c.lb, c.servers[j]);
    }
  }

  lemma JobInv(c: Cluster, p: Payload)
    requires Inv(c)
    ensures Inv(JobStep(c, p))
  {
    var k := Available(c.lb);
    assert IsBest(c.lb.servers, MAX_SERVERS, k);
    if k == NONE {
      QueueFree(c, JobStep(c, p));
    } else {
      SendInv(c, k, p, JobStep(c, p));
    }
  }

  lemma CompletionInv(c: Cluster, i: nat, dst: Addr, mac: Mac, grows: bool)
    requires Inv(c) && i < |c.servers| && c.servers[i].pings > 0 && c.servers[i].addr in c.lb.ipToKey
    ensures Inv(PingStep(c, i, dst, mac, grows))
  {
    var a := c.servers[i].addr;
    var c' := PingStep(c, i, dst, mac, grows);
    PingCredits(c.lb, a, dst, mac, grows);
    var c1 := c.(lb := Credit(c.lb, a), servers := Heard(c.servers, i));
    CreditInv(c, i, c1);
    if c.lb.queue == [] {
      assert c'.lb == c1.lb && c'.servers == c1.servers;
    } else {
      var k := Available(c1.lb);
      assert IsBest(c1.lb.servers, MAX_SERVERS, k);
      var c2 := c1.(lb := c1.lb.(queue := c.lb.queue[1..]));
      QueueFree(c1, c2);
      if grows {
        SendInv(c2, k, c.lb.queue[0], c');
      }
    }
  }

  // The balancer after a newcomer's ping.
  ghost predicate Opened(lb: State, from: Addr, lb': State) {
    Wellformed(lb) && Wellformed(lb') && from !in lb.ipToKey && from != NO_ADDR &&
    if lb.cnt < MAX_SERVERS
    then lb'.ipToKey == lb.ipToKey[from := lb.cnt] && lb'.servers[lb.cnt].saddr == from &&
         lb'.servers[lb.cnt].free == MAX_THREADS && lb'.servers == lb.servers[lb.cnt := lb'.servers[lb.cnt]]
    else lb'.ipToKey == lb.ipToKey && lb'.servers == lb.servers
  }

  // The newcomer starts with all its credits; nobody else is concerned.
  lemma OpenedServerOk(lb: State, from: Server, lb': State, s: Server)
    requires Opened(lb, from.addr, lb') && ServerOk(lb, from) && from.pings > 0
    requires ServerOk(lb, s) && (s.addr == from.addr ==> s == from)
    ensures ServerOk(lb', if s.addr == from.addr then s.(pings := s.pings - 1, heard := true) else s)
  {
  }

  lemma OpenedSlotsOwned(lb: State, from: Addr, lb': State, servers: seq<Server>)
    requires Opened(lb, from, lb') && SlotsOwned(lb, servers) && IndexOf(servers, from) < |servers|
    ensures SlotsOwned(lb', servers)
  {
  }

  lemma PingOpens(lb: State, from: Addr, dst: Addr, mac: Mac, grows: bool)
    requires Wellformed(lb) && from != NO_ADDR && from !in lb.ipToKey && lb.cnt + 1 < U16_SIZE
    ensures var (lb', out) := Ping(lb, from, dst, mac, grows);
            Opened(lb, from, lb') && Wellformed(lb') && out == Dropped && lb'.cnt == lb.cnt + 1 && lb'.queue == lb.queue
  {
    RegistrationFills(lb, from, dst, mac, grows);
    RegistersExactly(lb, from);
    PingWellformed(lb, from, dst, mac, grows);
  }

  // What a newcomer's ping changes.
  lemma RegistrationStep(c: Cluster, i: nat, dst: Addr, mac: Mac, grows: bool)
    requires Wellformed(c.lb) && c.lb.cnt + 1 < U16_SIZE && i < |c.servers| && c.servers[i].pings > 0
    requires c.servers[i].addr != NO_ADDR && c.servers[i].addr !in c.lb.ipToKey
    ensures var c' := PingStep(c, i, dst, mac, grows);
            Opened(c.lb, c.servers[i].addr, c'.lb) && Wellformed(c'.lb) && c'.lb.cnt == c.lb.cnt + 1 &&
            c'.servers == Heard(c.servers, i)
  {
    PingOpens(c.lb, c.servers[i].addr, dst, mac, grows);
  }

  // A server whose ping is under way, and whose address is unknown, has not been heard.
  lemma NewcomerUnheard(c: Cluster, i: nat)
    requires Inv(c) && i < |c.servers| && c.servers[i].pings > 0 && c.servers[i].addr !in c.lb.ipToKey
    ensures !c.servers[i].heard && c.servers[i].addr != NO_ADDR && HeardCount(c.servers) < |c.servers|
  {
    assert ServerOk(c.lb, c.servers[i]);
    HeardCountBound(c.servers);
  }

  lemma OpenedServersOk(lb: State, servers: seq<Server>, i: nat, lb': State)
    requires AddressesDiffer(servers) && ServersOk(lb, servers) && i < |servers| && servers[i].pings > 0
    requires Opened(lb, servers[i].addr, lb')
    ensures ServersOk(lb', Heard(servers, i))
  {
    assert ServerOk(lb, servers[i]);
    forall j | 0 <= j < |servers| ensures ServerOk(lb', Heard(servers, i)[j]) {
      assert ServerOk(lb, servers[j]);
      OpenedServerOk(lb, servers[i], lb', servers[j]);
    }
  }

  lemma OpenedOwners(lb: State, servers: seq<Server>, i: nat, lb': State)
    requires AddressesDiffer(servers) && SlotsOwned(lb, servers) && i < |servers| && servers[i].pings > 0
    requires Opened(lb, servers[i].addr, lb')
    ensures AddressesDiffer(Heard(servers, i)) && SlotsOwned(lb', Heard(servers, i))
  {
    var t := Heard(servers, i)[i];
    OwnersStay(lb, servers, i, t);
    IndexIsUnique(servers[i := t], i);
    OpenedSlotsOwned(lb, servers[i].addr, lb', servers[i := t]);
  }

  // A start ping is the only ping of an unregistered server; it registers the server if a slot is left.
  lemma RegistrationInv(c: Cluster, i: nat, dst: Addr, mac: Mac, grows: bool)
    requires Inv(c) && i < |c.servers| && c.servers[i].pings > 0 && c.servers[i].addr !in c.lb.ipToKey
    ensures Inv(PingStep(c, i, dst, mac, grows))
  {
    NewcomerUnheard(c, i);
    RegistrationStep(c, i, dst, mac, grows);
    var c' := PingStep(c, i, dst, mac, grows);
    OpenedServersOk(c.lb, c.servers, i, c'.lb);
    OpenedOwners(c.lb, c.servers, i, c'.lb);
    HeardCountUpdate(c.servers, i, c'.servers[i]);
  }

  lemma StepInv(c: Cluster, e: Event)
    requires Inv(c)
    ensures Inv(Step(c, e))
  {
    if !Enabled(c, e) {
      return;
    }
    match e {
      case Arrive(p) =>
        JobInv(c, p);
      case Deliver(i, dst, mac, grows) =>
        if c.servers[i].addr in c.lb.ipToKey {
          CompletionInv(c, i, dst, mac, grows);
        } else {
          RegistrationInv(c, i, dst, mac, grows);
        }
      case _ =>
        LocalStepInv(c, e);
    }
  }

  // In every run, every credit of every registered server is accounted for.
  lemma {:induction false} CreditSafety(c: Cluster, events: seq<Event>)
    requires Initial(c)
    ensures Inv(Run(c, events))
    decreases |events|
  {
    if events == [] {
      InitialInv(c);
    } else {
      CreditSafety(c, events[..|events| - 1]);
      StepInv(Run(c, events[..|events| - 1]), events[|events| - 1]);
    }
  }
}
