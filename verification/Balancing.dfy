// The load balancer's decisions as steps on a value: what one ping and one job do to its maps,
// and the invariants that every step keeps.

module Balancing {
  import opened Checksum

  const MAX_SERVERS: nat := 3
  const MAX_THREADS: nat := 5
  const QUEUE_CAPACITY: nat := 100
  const U16_SIZE: nat := 0x1_0000

  type Addr = a: seq<Byte> | |a| == 4 witness [0, 0, 0, 0]
  type Mac = a: seq<Byte> | |a| == 6 witness [0, 0, 0, 0, 0, 0]
  type Payload = p: seq<Byte> | |p| == 8 witness [0, 0, 0, 0, 0, 0, 0, 0]

  const NO_ADDR: Addr := [0, 0, 0, 0]

  // A slot with source address zero is free for registration.
  datatype DestInfo = DestInfo(saddr: Addr, daddr: Addr, dmac: Mac, free: nat) {
    predicate Registered() { saddr != NO_ADDR }
  }

  datatype State = State(ipToKey: map<Addr, nat>, servers: seq<DestInfo>, cnt: nat, queue: seq<Payload>)

  datatype Outcome = Dropped | Aborted | Sent(key: nat, job: Payload)

  const NONE: int := -1

  // Among the first n slots, the first registered one with the most free threads.
  function Best(servers: seq<DestInfo>, n: nat): (r: int)
    requires n <= |servers|
    ensures IsBest(servers, n, r)
  {
    if n == 0 then NONE
    else
      var b := Best(servers, n - 1);
      var most := if b == NONE then 0 else servers[b].free;
      if servers[n - 1].Registered() && servers[n - 1].free > most then n - 1 else b
  }

  predicate IsBest(servers: seq<DestInfo>, n: nat, r: int)
    requires n <= |servers|
  {
    if r == NONE then forall i :: 0 <= i < n && servers[i].Registered() ==> servers[i].free == 0
    else
      0 <= r < n && servers[r].Registered() && servers[r].free > 0 &&
      forall i :: 0 <= i < n && servers[i].Registered() ==>
        servers[i].free < servers[r].free || (servers[i].free == servers[r].free && r <= i)
  }

  // There is only one choice.
  lemma BestIsUnique(servers: seq<DestInfo>, n: nat, r: int)
    requires n <= |servers| && IsBest(servers, n, r)
    ensures r == Best(servers, n)
  {
    var b := Best(servers, n);
    assert IsBest(servers, n, b);
  }

  function Available(s: State): (r: int)
    requires |s.servers| == MAX_SERVERS
    ensures r == NONE || 0 <= r < MAX_SERVERS
  {
    Best(s.servers, MAX_SERVERS)
  }

  // The key under which pings of src are booked: the count of registrations for a newcomer.
  function KeyFor(s: State, src: Addr): nat {
    if src in s.ipToKey then s.ipToKey[src] else s.cnt
  }

  // The address map refuses new keys once it is full.
  function Learned(s: State, src: Addr): map<Addr, nat> {
    if src in s.ipToKey || |s.ipToKey| >= MAX_SERVERS then s.ipToKey else s.ipToKey[src := s.cnt]
  }

  // The ping is taken for the registration of a server.
  predicate Registers(s: State, src: Addr)
    requires |s.servers| == MAX_SERVERS
  {
    var k := KeyFor(s, src);
    k >= MAX_SERVERS || !s.servers[k].Registered()
  }

  function Debit(s: State, k: nat): State
    requires k < |s.servers| && s.servers[k].free > 0
  {
    s.(servers := s.servers[k := s.servers[k].(free := s.servers[k].free - 1)])
  }

  function Credited(d: DestInfo): DestInfo {
    var f := (d.free + 1) % U16_SIZE;
    d.(free := if f > MAX_THREADS then MAX_THREADS else f)
  }

  // One 1-byte packet. `grows` says whether the packet can be lengthened by seven bytes.
  function Ping(s: State, src: Addr, dst: Addr, mac: Mac, grows: bool): (r: (State, Outcome))
    requires |s.servers| == MAX_SERVERS
  {
    var k := KeyFor(s, src);
    if Registers(s, src) then
      var servers := if k < MAX_SERVERS then s.servers[k := DestInfo(src, dst, mac, MAX_THREADS)] else s.servers;
      (State(Learned(s, src), servers, (s.cnt + 1) % U16_SIZE, s.queue), Dropped)
    else
      Serve(State(Learned(s, src), s.servers[k := Credited(s.servers[k])], s.cnt, s.queue), grows)
  }

  // Sends the oldest queued job, if there is one, to the best server; it is taken off the queue
  // before the packet is lengthened.
  function Serve(s: State, grows: bool): (r: (State, Outcome))
    requires |s.servers| == MAX_SERVERS
  {
    if s.queue == [] then (s, Dropped)
    else if Available(s) == NONE then (s, Aborted)
    else
      var popped := s.(queue := s.queue[1..]);
      if grows then (Debit(popped, Available(s)), Sent(Available(s), s.queue[0])) else (popped, Aborted)
  }

  // One 8-byte packet.
  function Job(s: State, p: Payload): (r: (State, Outcome))
    requires |s.servers| == MAX_SERVERS
  {
    if Available(s) == NONE then
      (if |s.queue| < QUEUE_CAPACITY then s.(queue := s.queue + [p]) else s, Aborted)
    else (Debit(s, Available(s)), Sent(Available(s), p))
  }

  // Slots are filled in order; the address map and the filled slots are inverses of each other.
  ghost predicate Wellformed(s: State) {
    |s.servers| == MAX_SERVERS && |s.queue| <= QUEUE_CAPACITY && s.cnt < U16_SIZE &&
    Inverses(s.ipToKey, s.servers) && Credits(s.servers) &&
    |s.ipToKey| == (if s.cnt < MAX_SERVERS then s.cnt else MAX_SERVERS) &&
    forall k :: 0 <= k < MAX_SERVERS ==> (s.servers[k].Registered() <==> k < s.cnt)
  }

  ghost predicate Inverses(ipToKey: map<Addr, nat>, servers: seq<DestInfo>) {
    (forall a :: a in ipToKey ==> a != NO_ADDR && ipToKey[a] < |servers| && servers[ipToKey[a]].saddr == a) &&
    (forall k :: 0 <= k < |servers| && servers[k].Registered() ==>
      servers[k].saddr in ipToKey && ipToKey[servers[k].saddr] == k)
  }

  ghost predicate Credits(servers: seq<DestInfo>) {
    forall k :: 0 <= k < |servers| && servers[k].Registered() ==> servers[k].free <= MAX_THREADS
  }

  const EMPTY_SLOT := DestInfo(NO_ADDR, NO_ADDR, [0, 0, 0, 0, 0, 0], 0)
  const INITIAL: State := State(map[], [EMPTY_SLOT, EMPTY_SLOT, EMPTY_SLOT], 0, [])

  lemma InitialWellformed()
    ensures Wellformed(INITIAL)
  {
  }

  // A ping keeps the maps in order exactly if the registration count does not wrap.
  lemma PingWellformed(s: State, src: Addr, dst: Addr, mac: Mac, grows: bool)
    requires Wellformed(s) && src != NO_ADDR
    ensures Wellformed(Ping(s, src, dst, mac, grows).0) <==> !(Registers(s, src) && s.cnt + 1 == U16_SIZE)
  {
    if Registers(s, src) {
      if s.cnt + 1 < U16_SIZE {
        RegistrationWellformed(s, src, dst, mac, grows);
      } else {
        CountWraps(s, src, dst, mac, grows);
      }
    } else {
      PingCredits(s, src, dst, mac, grows);
    }
  }

  lemma CountWraps(s: State, src: Addr, dst: Addr, mac: Mac, grows: bool)
    requires Wellformed(s) && src != NO_ADDR && Registers(s, src) && s.cnt + 1 == U16_SIZE
    ensures !Wellformed(Ping(s, src, dst, mac, grows).0)
  {
    assert s.servers[0].Registered();
  }

  // Only newcomers register.
  lemma RegistersExactly(s: State, src: Addr)
    requires Wellformed(s) && src != NO_ADDR
    ensures Registers(s, src) <==> src !in s.ipToKey
    ensures src !in s.ipToKey && s.cnt < MAX_SERVERS ==> |s.ipToKey| < MAX_SERVERS
  {
  }

  // A newcomer takes the next slot, if there is one left.
  lemma RegistrationFills(s: State, src: Addr, dst: Addr, mac: Mac, grows: bool)
    requires Wellformed(s) && src != NO_ADDR && src !in s.ipToKey && s.cnt + 1 < U16_SIZE
    ensures Ping(s, src, dst, mac, grows) ==
            (if s.cnt < MAX_SERVERS
             then State(s.ipToKey[src := s.cnt], s.servers[s.cnt := DestInfo(src, dst, mac, MAX_THREADS)],
                        s.cnt + 1, s.queue)
             else s.(cnt := s.cnt + 1), Dropped)
  {
    hide Inverses, Credits, Available;
    RegistersExactly(s, src);
    assert KeyFor(s, src) == s.cnt;
    if s.cnt < MAX_SERVERS {
      assert Learned(s, src) == s.ipToKey[src := s.cnt];
    } else {
      assert Learned(s, src) == s.ipToKey;
    }
    hide Registers, Learned, Wellformed;
  }

  lemma RegistrationWellformed(s: State, src: Addr, dst: Addr, mac: Mac, grows: bool)
    requires Wellformed(s) && src != NO_ADDR && Registers(s, src) && s.cnt + 1 < U16_SIZE
    ensures Wellformed(Ping(s, src, dst, mac, grows).0)
  {
    RegistersExactly(s, src);
    RegistrationFills(s, src, dst, mac, grows);
    if s.cnt < MAX_SERVERS {
      SlotFilled(s, DestInfo(src, dst, mac, MAX_THREADS));
    }
  }

  lemma SlotFilled(s: State, d: DestInfo)
    requires Wellformed(s) && s.cnt < MAX_SERVERS && d.Registered() && d.saddr !in s.ipToKey && d.free <= MAX_THREADS
    ensures Wellformed(State(s.ipToKey[d.saddr := s.cnt], s.servers[s.cnt := d], s.cnt + 1, s.queue))
  {
    NewInverse(s.ipToKey, s.servers, s.cnt, d);
  }

  lemma NewInverse(ipToKey: map<Addr, nat>, servers: seq<DestInfo>, k: nat, d: DestInfo)
    requires Inverses(ipToKey, servers) && k < |servers| && !servers[k].Registered()
    requires d.Registered() && d.saddr !in ipToKey
    ensures Inverses(ipToKey[d.saddr := k], servers[k := d])
  {
  }

  lemma DebitWellformed(s: State, k: nat)
    requires Wellformed(s) && k < MAX_SERVERS && s.servers[k].Registered() && s.servers[k].free > 0
    ensures Wellformed(Debit(s, k))
  {
  }

  lemma QueueWellformed(s: State, q: seq<Payload>)
    requires Wellformed(s) && |q| <= QUEUE_CAPACITY
    ensures Wellformed(s.(queue := q))
  {
  }

  lemma JobWellformed(s: State, p: Payload)
    requires Wellformed(s)
    ensures Wellformed(Job(s, p).0)
  {
    var k := Available(s);
    assert IsBest(s.servers, MAX_SERVERS, k);
    if k != NONE {
      DebitWellformed(s, k);
    } else if |s.queue| < QUEUE_CAPACITY {
      QueueWellformed(s, s.queue + [p]);
    }
  }

  lemma CreditWellformed(s: State, src: Addr)
    requires Wellformed(s) && src in s.ipToKey
    ensures KeyFor(s, src) < MAX_SERVERS && Wellformed(Credit(s, src)) && !Registers(s, src)
    ensures var s1 := Credit(s, src); var k := KeyFor(s, src);
            s1 == s.(servers := s1.servers) && s1.servers[k].Registered() && s1.servers[k].free > 0
  {
  }

  // What a completion does: the sender alone gets one credit, unless it is at once spent on the
  // oldest queued job, for the slot with the most free threads. There always is one.
  lemma PingCredits(s: State, src: Addr, dst: Addr, mac: Mac, grows: bool)
    requires Wellformed(s) && src in s.ipToKey
    ensures !Registers(s, src)
    ensures var (s', out) := Ping(s, src, dst, mac, grows); Wellformed(s') && s'.cnt == s.cnt && s'.ipToKey == s.ipToKey
    ensures s.queue == [] ==> Ping(s, src, dst, mac, grows).1 == Dropped
    ensures s.queue != [] ==>
      Ping(s, src, dst, mac, grows).1 == if grows then Sent(Available(Credit(s, src)), s.queue[0]) else Aborted
    ensures s.queue != [] ==> Available(Credit(s, src)) != NONE
  {
    CreditWellformed(s, src);
    var k := KeyFor(s, src);
    var s1 := Credit(s, src);
    if s.queue != [] {
      var b := Available(s1);
      assert IsBest(s1.servers, MAX_SERVERS, b);
      hide Available;
      QueueWellformed(s1, s.queue[1..]);
      DebitWellformed(s1.(queue := s.queue[1..]), b);
    }
    hide Wellformed, Learned, Credited;
  }

  // The state after the sender has been credited, before the queue is looked at.
  function Credit(s: State, src: Addr): State
    requires |s.servers| == MAX_SERVERS && KeyFor(s, src) < MAX_SERVERS
  {
    var k := KeyFor(s, src);
    State(Learned(s, src), s.servers[k := Credited(s.servers[k])], s.cnt, s.queue)
  }

  // Free threads and queued jobs do not coexist.
  ghost predicate WorkConserving(s: State) {
    s.queue != [] ==> forall k :: 0 <= k < |s.servers| && s.servers[k].Registered() ==> s.servers[k].free == 0
  }

  lemma JobConservesWork(s: State, p: Payload)
    requires Wellformed(s) && WorkConserving(s)
    ensures WorkConserving(Job(s, p).0)
  {
  }

  // Work conservation survives a registration exactly if no job is queued or no slot is left, and a
  // completion exactly if at most one job is queued or the ping can be lengthened.
  lemma PingConservesWork(s: State, src: Addr, dst: Addr, mac: Mac, grows: bool)
    requires Wellformed(s) && WorkConserving(s) && src != NO_ADDR
    ensures WorkConserving(Ping(s, src, dst, mac, grows).0) <==>
            if src !in s.ipToKey then s.queue == [] || s.cnt >= MAX_SERVERS else |s.queue| <= 1 || grows
  {
    RegistersExactly(s, src);
    if Registers(s, src) {
      RegistrationConservesWork(s, src, dst, mac, grows);
    } else {
      CompletionConservesWork(s, src, dst, mac, grows);
    }
  }

  lemma RegistrationConservesWork(s: State, src: Addr, dst: Addr, mac: Mac, grows: bool)
    requires Wellformed(s) && WorkConserving(s) && src != NO_ADDR && Registers(s, src)
    ensures var s' := Ping(s, src, dst, mac, grows).0; WorkConserving(s') <==> s.queue == [] || s.cnt >= MAX_SERVERS
  {
    RegistersExactly(s, src);
    var s' := Ping(s, src, dst, mac, grows).0;
    if s.cnt < MAX_SERVERS {
      assert s'.servers[s.cnt].Registered();
    }
  }

  lemma CompletionConservesWork(s: State, src: Addr, dst: Addr, mac: Mac, grows: bool)
    requires Wellformed(s) && WorkConserving(s) && src in s.ipToKey
    ensures var s' := Ping(s, src, dst, mac, grows).0; WorkConserving(s') <==> |s.queue| <= 1 || grows
  {
    if s.queue != [] {
      PingCredits(s, src, dst, mac, grows);
      var k := s.ipToKey[src];
      var s1 := Credit(s, src);
      assert IsBest(s1.servers, MAX_SERVERS, Available(s1));
      assert Available(s1) == k;
      hide Available;
      if !grows {
        var s' := Ping(s, src, dst, mac, grows).0;
        assert s'.servers[k].Registered() && s'.servers[k].free == 1;
      }
    }
  }

  // A job overtakes queued ones exactly when the balancer has left a free thread unused.
  lemma JobOvertakes(s: State, p: Payload)
    requires Wellformed(s)
    ensures s.queue != [] && Job(s, p).1.Sent? <==> !WorkConserving(s)
  {
    assert IsBest(s.servers, MAX_SERVERS, Available(s));
  }

  // A server that registers while jobs are queued does not get any of them, but gets the next
  // job to arrive.
  lemma RegistrationLetsOvertake(s: State, src: Addr, dst: Addr, mac: Mac, grows: bool, p: Payload)
    requires Wellformed(s) && WorkConserving(s) && s.queue != []
    requires src != NO_ADDR && src !in s.ipToKey && s.cnt < MAX_SERVERS
    ensures var s1 := Ping(s, src, dst, mac, grows).0;
            s1.queue == s.queue && Job(s1, p).1 == Sent(s.cnt, p) && Job(s1, p).0.queue == s.queue
  {
    RegistrationFills(s, src, dst, mac, grows);
    var s1 := Ping(s, src, dst, mac, grows).0;
    assert s1.servers[s.cnt].Registered();
    BestIsUnique(s1.servers, MAX_SERVERS, s.cnt);
  }

  // The counter of registrations wraps after 2^16 of them: then a newcomer's ping is taken for
  // the completion of a job on another server.
  lemma WrappedCountCreditsAnother(s: State, src: Addr, dst: Addr, mac: Mac)
    requires Wellformed(s) && s.cnt == U16_SIZE - 1 && src != NO_ADDR && src !in s.ipToKey && s.queue == []
    ensures var s1 := Ping(s, src, dst, mac, true).0;
            var s2 := Ping(s1, src, dst, mac, true).0;
            src !in s1.ipToKey && !Wellformed(s1) && s2.servers == s.servers[0 := Credited(s.servers[0])]
  {
  }
}
