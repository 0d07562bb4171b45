// The load balancer with servers that all run the server program.

module ServerSite {
  import opened BigEndian
  import opened Checksum
  import opened Balancing
  import opened Cluster
  import opened ClusterRuns
  import opened ServerSteps

  datatype Site = Site(cluster: Cluster, programs: seq<Program>)

  // An event of the network or the balancer, or a step of the program on one server.
  datatype SiteEvent = Net(event: Event) | On(i: nat, action: Action)

  ghost predicate IsNet(e: Event) {
    e.Arrive? || e.Deliver? || e.LosePing? || e.LoseJob? || e.Start?
  }

  // A datagram is received when a job is there for the server; other steps need their handler.
  ghost predicate Possible(s: Site, e: SiteEvent) {
    match e
    case Net(event) => IsNet(event)
    case On(i, a) =>
      i < |s.programs| == |s.cluster.servers| && CanAct(s.programs[i], a) &&
      (a.Datagram? ==> |a.data| == 8 && a.data in s.cluster.servers[i].jobs)
  }

  // What the cluster model sees of a program's step. Reading the datagram and adding up sleep times is
  // no part of it.
  ghost function Shown(i: nat, a: Action): Event
    requires !a.Add? && !a.Bind? && (a.Datagram? ==> |a.data| == 8)
  {
    match a
    case Datagram(d) => Receive(i, d)
    case Begin(_) => Count(i)
    case Uncount(_) => Finish(i)
    case Answer(_) => Report(i)
  }

  ghost function SiteStep(s: Site, e: SiteEvent): Site {
    if !Possible(s, e) then s
    else
      match e
      case Net(event) => s.(cluster := Step(s.cluster, event))
      case On(i, a) =>
        Site(if a.Add? || a.Bind? then s.cluster else Step(s.cluster, Shown(i, a)),
             s.programs[i := Act(s.programs[i], a)])
  }

  ghost function SiteRun(s: Site, events: seq<SiteEvent>): Site {
    if events == [] then s else SiteStep(SiteRun(s, events[..|events| - 1]), events[|events| - 1])
  }

  // The cluster's counters of a server are the numbers of handlers of its program.
  ghost predicate Matches(p: Program, s: Server) {
    s.spawned == p.unbound + |p.bound| && s.running == |p.asleep| + |p.awake| && s.sending == |p.leaving|
  }

  ghost predicate SiteInv(s: Site) {
    Inv(s.cluster) && |s.programs| == |s.cluster.servers| &&
    forall i :: 0 <= i < |s.programs| ==> Accounted(s.programs[i]) && Matches(s.programs[i], s.cluster.servers[i])
  }

  ghost predicate SiteInitial(s: Site) {
    Initial(s.cluster) && |s.programs| == |s.cluster.servers| &&
    forall i :: 0 <= i < |s.programs| ==> s.programs[i] == START
  }

  // Events of the network and the balancer start and end no handlers.
  lemma NetKeepsHandlers(c: Cluster, e: Event)
    requires IsNet(e)
    ensures |Step(c, e).servers| == |c.servers|
    ensures forall i :: 0 <= i < |c.servers| ==>
      var (s, s') := (c.servers[i], Step(c, e).servers[i]);
      s'.spawned == s.spawned && s'.running == s.running && s'.sending == s.sending
  {
    hide Wellformed, Ping, Job, IndexOf;
  }

  // A step of a program moves the same handler in the cluster model.
  lemma ActMatches(p: Program, server: Server, i: nat, a: Action)
    requires p.nThreads == |p.asleep| + |p.awake| && Matches(p, server) && CanAct(p, a)
    requires !a.Add? && !a.Bind?
    requires a.Datagram? ==> |a.data| == 8
    ensures Matches(Act(p, a), ServerStep(server, Shown(i, a)))
    ensures a.Begin? ==> server.spawned > 0
    ensures a.Uncount? ==> server.running > 0
    ensures a.Answer? ==> server.sending > 0
  {
    match a {
      case Datagram(d) =>
        DatagramMatches(p, server, i, d);
      case Begin(d) =>
        BeginMatches(p, server, i, d);
      case Uncount(d) =>
        UncountMatches(p, server, i, d);
      case Answer(d) =>
        AnswerMatches(p, server, i, d);
    }
  }

  lemma DatagramMatches(p: Program, server: Server, i: nat, d: Payload)
    requires p.nThreads == |p.asleep| + |p.awake| && Matches(p, server)
    ensures Matches(Act(p, Datagram(d)), ServerStep(server, Receive(i, d)))
  {
  }

  lemma BeginMatches(p: Program, server: Server, i: nat, d: Data)
    requires Matches(p, server) && d in p.bound
    ensures Matches(Act(p, Begin(d)), ServerStep(server, Count(i))) && server.spawned > 0
  {
    Moves(p.bound, p.asleep, d);
  }

  lemma UncountMatches(p: Program, server: Server, i: nat, d: Data)
    requires Matches(p, server) && d in p.awake
    ensures Matches(Act(p, Uncount(d)), ServerStep(server, Finish(i))) && server.running > 0
  {
    Moves(p.awake, p.leaving, d);
  }

  lemma AnswerMatches(p: Program, server: Server, i: nat, d: Data)
    requires Matches(p, server) && d in p.leaving
    ensures Matches(Act(p, Answer(d)), ServerStep(server, Report(i))) && server.sending > 0
  {
    Moves(p.leaving, p.finished, d);
  }

  lemma CountIs(p: Program)
    requires Accounted(p)
    ensures p.nThreads == |p.asleep| + |p.awake|
  {
  }

  lemma AddMatches(p: Program, server: Server, d: Data)
    requires Matches(p, server) && d in p.asleep
    ensures Matches(Act(p, Add(d)), server)
  {
    Moves(p.asleep, p.awake, d);
  }

  lemma BindMatches(p: Program, server: Server)
    requires Matches(p, server) && p.unbound > 0
    ensures Matches(Act(p, Bind), server)
  {
    assert |p.bound + multiset{p.latest}| == |p.bound| + 1;
  }

  lemma OnInv(s: Site, i: nat, a: Action)
    requires SiteInv(s) && Possible(s, On(i, a))
    ensures SiteInv(SiteStep(s, On(i, a)))
  {
    hide Inv, Act, Accounted, Matches;
    var p, server := s.programs[i], s.cluster.servers[i];
    assert Accounted(p) && Matches(p, server);
    ActAccounted(p, a);
    if a.Bind? {
      BindMatches(p, server);
    } else if a.Add? {
      AddMatches(p, server, a.data);
    } else {
      assert p.nThreads == |p.asleep| + |p.awake| by {
        CountIs(p);
      }
      ActMatches(p, server, i, a);
      StepInv(s.cluster, Shown(i, a));
      LocalStep(s.cluster, i, Shown(i, a));
    }
  }

  lemma LocalStep(c: Cluster, i: nat, e: Event)
    requires Inv(c) && Enabled(c, e) && i < |c.servers|
    requires e.Receive? || e.Count? || e.Finish? || e.Report?
    requires e.i == i
    ensures Step(c, e).servers == c.servers[i := ServerStep(c.servers[i], e)]
  {
  }

  lemma NetInv(s: Site, e: Event)
    requires SiteInv(s) && IsNet(e)
    ensures SiteInv(SiteStep(s, Net(e)))
  {
    hide Inv, Accounted;
    StepInv(s.cluster, e);
    NetKeepsHandlers(s.cluster, e);
    hide Step;
  }

  lemma {:induction false} SiteSafety(s: Site, events: seq<SiteEvent>)
    requires SiteInitial(s)
    ensures SiteInv(SiteRun(s, events))
    decreases |events|
  {
    if events == [] {
      SiteStarts(s);
    } else {
      var before := SiteRun(s, events[..|events| - 1]);
      SiteSafety(s, events[..|events| - 1]);
      var e := events[|events| - 1];
      if Possible(before, e) {
        if e.Net? {
          NetInv(before, e.event);
        } else {
          OnInv(before, e.i, e.action);
        }
      } else {
        assert SiteStep(before, e) == before by {
          Impossible(before, e);
        }
      }
    }
  }

  lemma Impossible(s: Site, e: SiteEvent)
    requires !Possible(s, e)
    ensures SiteStep(s, e) == s
  {
  }

  lemma SiteStarts(s: Site)
    requires SiteInitial(s)
    ensures SiteInv(s)
  {
    StartAccounted();
    InitialInv(s.cluster);
  }

  // A server's program is loaded with its counted and its spawned handlers.
  lemma SiteLoad(s: Site, i: nat)
    requires SiteInv(s) && i < |s.programs|
    ensures Accounted(s.programs[i]) && Load(s.programs[i]) + |s.cluster.servers[i].jobs| <= BUSY
  {
    HandlersFit(s.cluster, i);
    assert Accounted(s.programs[i]) && Matches(s.programs[i], s.cluster.servers[i]);
  }

  // In every run of the whole site: no server counts more than five threads, now or whatever its
  // handlers do next; every job that reaches a server starts a handler, safely; and the total of each
  // server is that of its finished sleeps.
  lemma ThreadsFit(s: Site, events: seq<SiteEvent>, i: nat)
    requires SiteInitial(s) && i < |SiteRun(s, events).programs|
    ensures var p := SiteRun(s, events).programs[i];
            p.nThreads <= BUSY && KeepsLimit(p) && p.total == Total(p.added) &&
            forall d: Data :: Possible(SiteRun(s, events), On(i, Datagram(d))) ==>
              Accepts(p, d) && KeepsLimit(Act(p, Datagram(d)))
  {
    SiteSafety(s, events);
    var t := SiteRun(s, events);
    var p := t.programs[i];
    SiteLoad(t, i);
    LimitExactly(p);
    forall d: Data | Possible(t, On(i, Datagram(d))) ensures Accepts(p, d) && KeepsLimit(Act(p, Datagram(d))) {
      assert d in t.cluster.servers[i].jobs;
      assert |t.cluster.servers[i].jobs| > 0;
      AcceptingIsSafe(p, d);
    }
  }
}
