// The XDP program: it classifies a frame, updates its maps, and rewrites the frame in place.

module LoadBalancer {
  import opened Checksum
  import opened Balancing

  const ETH_HLEN: nat := 14
  const IP_HLEN: nat := 20
  const HEADERS: nat := 42
  const JOB_SIZE: nat := 8
  const PORT: nat := 8080

  datatype Verdict = Abort | Drop | Pass | Transmit

  // What a frame is to the balancer.
  datatype Packet = Truncated | Foreign | PingPacket(src: Addr, dst: Addr, mac: Mac) | JobPacket(job: Payload)

  function Classify(f: seq<Byte>): Packet {
    if |f| < ETH_HLEN then Truncated
    else if Word(f[12], f[13], true) != 0x0800 then Foreign
    else if |f| < ETH_HLEN + IP_HLEN then Truncated
    else if f[23] != 17 then Foreign
    else if |f| < HEADERS then Truncated
    else if Word(f[36], f[37], true) != PORT then Foreign
    else if |f| == HEADERS + 1 then PingPacket(f[26..30], f[30..34], f[6..12])
    else if |f| == HEADERS + JOB_SIZE then JobPacket(f[HEADERS..])
    else Foreign
  }

  // The frame of a job that has been addressed to a server: `f` with the addresses of slot d,
  // true lengths, a header checksum that verifies and the job as payload.
  ghost predicate Addressed(f: seq<Byte>, t: seq<Byte>, d: DestInfo, job: Payload) {
    |f| >= HEADERS && |t| == HEADERS + JOB_SIZE &&
    t[0..6] == d.dmac && t[6..12] == f[0..6] && t[26..30] == d.daddr && t[30..34] == d.saddr &&
    Word(t[16], t[17], true) == |t| - ETH_HLEN && Word(t[38], t[39], true) == |t| - ETH_HLEN - IP_HLEN &&
    HeaderVerifies(t[ETH_HLEN..ETH_HLEN + IP_HLEN]) && t[HEADERS..] == job &&
    forall i | 12 <= i < HEADERS && !Rewritten(i) :: t[i] == f[i]
  }

  // Header fields that forwarding changes: both lengths, both checksums and both IP addresses.
  predicate Rewritten(i: nat) {
    16 <= i < 18 || 24 <= i < 34 || 38 <= i < 42
  }

  // Byte i of a forwarded frame before its checksums are computed.
  ghost function AddressedByte(f: seq<Byte>, d: DestInfo, i: nat): Byte
    requires HEADERS <= |f| && i < |f|
  {
    if i < 6 then d.dmac[i]
    else if i < 12 then f[i - 6]
    else if 16 <= i < 18 then StoredWord((|f| - ETH_HLEN) % U16_SIZE, true)[i - 16]
    else if 26 <= i < 30 then d.daddr[i - 26]
    else if 30 <= i < 34 then d.saddr[i - 30]
    else if 38 <= i < 40 then StoredWord((|f| - ETH_HLEN - IP_HLEN) % U16_SIZE, true)[i - 38]
    else f[i]
  }

  lemma SliceIs(t: seq<Byte>, at: nat, b: seq<Byte>)
    requires at + |b| <= |t| && forall i :: 0 <= i < |b| ==> t[at + i] == b[i]
    ensures t[at..at + |b|] == b
  {
  }

  // A frame whose bytes outside the checksums are those, and whose header verifies, is addressed.
  lemma FrameAddressed(f: seq<Byte>, t: seq<Byte>, d: DestInfo)
    requires |f| == |t| == HEADERS + JOB_SIZE && HeaderVerifies(t[ETH_HLEN..ETH_HLEN + IP_HLEN])
    requires forall i :: 0 <= i < |t| && !(24 <= i < 26) && !(40 <= i < 42) ==> t[i] == AddressedByte(f, d, i)
    ensures Addressed(f, t, d, f[HEADERS..])
  {
    SliceIs(t, 0, d.dmac);
    SliceIs(t, 6, f[0..6]);
    SliceIs(t, 26, d.daddr);
    SliceIs(t, 30, d.saddr);
    SliceIs(t, HEADERS, f[HEADERS..]);
    assert t[HEADERS..] == t[HEADERS..HEADERS + JOB_SIZE];
  }

  // What a step of the balancer makes of its packet.
  ghost predicate Delivered(f: seq<Byte>, s: State, t: seq<Byte>, out: Outcome, verdict: Verdict) {
    match out
    case Dropped => verdict == Drop && t == f
    case Aborted => verdict == Abort && t == f
    case Sent(k, job) => verdict == Transmit && k < |s.servers| && Addressed(f, t, s.servers[k], job)
  }

  ghost predicate PingHandled(s: State, f: seq<Byte>, grows: bool, s': State, t: seq<Byte>, verdict: Verdict) {
    var c := Classify(f);
    c.PingPacket? && |s.servers| == MAX_SERVERS &&
    var (r, out) := Ping(s, c.src, c.dst, c.mac, grows);
    s' == r && Delivered(f, s', t, out, verdict)
  }

  ghost predicate JobHandled(s: State, f: seq<Byte>, s': State, t: seq<Byte>, verdict: Verdict) {
    var c := Classify(f);
    c.JobPacket? && |s.servers| == MAX_SERVERS &&
    var (r, out) := Job(s, c.job);
    s' == r && Delivered(f, s', t, out, verdict)
  }

  // The program does to its maps what the step of its packet does, and to the frame what the
  // step's outcome asks for; other frames change nothing.
  ghost predicate Handled(s: State, f: seq<Byte>, grows: bool, s': State, t: seq<Byte>, verdict: Verdict) {
    match Classify(f)
    case Truncated => verdict == Abort && s' == s && t == f
    case Foreign => verdict == Pass && s' == s && t == f
    case PingPacket(_, _, _) => PingHandled(s, f, grows, s', t, verdict)
    case JobPacket(_) => JobHandled(s, f, s', t, verdict)
  }

  // A frame in a buffer with some room behind its end.
  class Frame {
    const buf: array<Byte>
    var end: nat

    constructor (buf: array<Byte>, end: nat)
      requires end <= buf.Length
      ensures this.buf == buf && this.end == end
    {
      this.buf, this.end := buf, end;
    }

    ghost predicate Valid()
      reads this
    {
      end <= buf.Length
    }

    ghost function Bytes(): seq<Byte>
      requires Valid()
      reads this, buf
    {
      buf[..end]
    }

    // Lengthens the frame with zeros if there is room for it.
    method AdjustTail(delta: nat) returns (ok: bool)
      requires Valid()
      modifies this`end, buf
      ensures Valid() && ok == (old(end) + delta <= buf.Length)
      ensures ok ==> Bytes() == old(Bytes()) + seq(delta, _ => 0)
      ensures !ok ==> Bytes() == old(Bytes())
    {
      if end + delta > buf.Length {
        return false;
      }
      var from := end;
      forall i | 0 <= i < delta {
        buf[from + i] := 0;
      }
      end := end + delta;
      ok := true;
    }

    // Copies bytes into the frame.
    method Write(at: nat, b: seq<Byte>)
      requires Valid() && at + |b| <= end
      modifies buf
      ensures forall i :: 0 <= i < buf.Length ==> buf[i] == if at <= i < at + |b| then b[i - at] else old(buf[i])
    {
      forall i | 0 <= i < |b| {
        buf[at + i] := b[i];
      }
    }
  }

  class Balancer {
    var ipToKey: map<Addr, nat>
    const servers: array<DestInfo>
    var serverCnt: nat
    var queue: seq<Payload>
    // The byte order of the host that runs the program.
    const bigEndian: bool

    ghost function Contents(): State
      reads this, servers
    {
      State(ipToKey, servers[..], serverCnt, queue)
    }

    ghost predicate Valid()
      reads this, servers
    {
      servers.Length == MAX_SERVERS && serverCnt < U16_SIZE &&
      forall k :: 0 <= k < servers.Length ==> servers[k].free < U16_SIZE
    }

    constructor (bigEndian: bool)
      ensures Valid() && Contents() == INITIAL && this.bigEndian == bigEndian && fresh(servers)
    {
      ipToKey, serverCnt, queue := map[], 0, [];
      servers := new DestInfo[MAX_SERVERS](_ => EMPTY_SLOT);
      this.bigEndian := bigEndian;
    }

    // The first registered slot with the most free threads.
    method GetAvailableBackend() returns (selected: int)
      requires Valid()
      ensures IsBest(servers[..], MAX_SERVERS, selected)
      ensures selected == Available(Contents())
    {
      var most := 0;
      selected := NONE;
      var info := servers[0];
      if info.saddr != NO_ADDR {
        if info.free > most {
          most, selected := info.free, 0;
        }
      }
      info := servers[1];
      if info.saddr != NO_ADDR {
        if info.free > most {
          most, selected := info.free, 1;
        }
      }
      info := servers[2];
      if info.saddr != NO_ADDR {
        if info.free > most {
          most, selected := info.free, 2;
        }
      }
      BestIsUnique(servers[..], MAX_SERVERS, selected);
    }

    // A full queue refuses the value.
    method Enqueue(value: Payload)
      modifies this`queue
      ensures queue == if |old(queue)| < QUEUE_CAPACITY then old(queue) + [value] else old(queue)
    {
      if |queue| < QUEUE_CAPACITY {
        queue := queue + [value];
      }
    }

    method Dequeue() returns (value: Payload)
      requires queue != []
      modifies this`queue
      ensures old(queue) == [value] + queue
    {
      value := queue[0];
      queue := queue[1..];
    }

    // Takes a thread from the slot and addresses the frame to its server.
    method SendToBackend(k: nat, p: Frame, udpCheck: seq<Byte>) returns (verdict: Verdict)
      requires Valid() && p.Valid() && p.end == HEADERS + JOB_SIZE && |udpCheck| == 2
      requires k < MAX_SERVERS ==> servers[k].free > 0
      modifies servers, p.buf
      ensures Valid() && p.Valid()
      ensures k < MAX_SERVERS ==> Contents() == Debit(old(Contents()), k) && verdict == Transmit
      ensures k < MAX_SERVERS ==> Addressed(old(p.Bytes()), p.Bytes(), old(servers[k]), old(p.Bytes())[HEADERS..])
      ensures k >= MAX_SERVERS ==> verdict == Abort && Contents() == old(Contents()) && p.Bytes() == old(p.Bytes())
    {
      if k >= MAX_SERVERS {
        return Abort;
      }
      var info := servers[k];
      servers[k] := info.(free := (info.free + (U16_SIZE - 1)) % U16_SIZE);
      ghost var f := p.Bytes();
      WriteAddresses(p, info);
      WriteChecksums(p, udpCheck);
      FrameAddressed(f, p.Bytes(), info);
      verdict := Transmit;
    }

    // Source and destination addresses, and the lengths of the IP and UDP packets.
    method WriteAddresses(p: Frame, info: DestInfo)
      requires p.Valid() && p.end == HEADERS + JOB_SIZE
      modifies p.buf
      ensures forall i :: 0 <= i < p.end ==> p.Bytes()[i] == AddressedByte(old(p.Bytes()), info, i)
    {
      p.Write(26, info.daddr);
      p.Write(30, info.saddr);
      p.Write(6, p.buf[0..6]);
      p.Write(0, info.dmac);
      p.Write(16, StoredWord((p.end - ETH_HLEN) % U16_SIZE, true));
      p.Write(38, StoredWord((p.end - ETH_HLEN - IP_HLEN) % U16_SIZE, true));
    }

    // The header checksum is computed over the header with a zero in its place.
    method WriteChecksums(p: Frame, udpCheck: seq<Byte>)
      requires p.Valid() && p.end == HEADERS + JOB_SIZE && |udpCheck| == 2
      modifies p.buf
      ensures HeaderVerifies(p.Bytes()[ETH_HLEN..ETH_HLEN + IP_HLEN])
      ensures forall i :: 0 <= i < p.end && !(24 <= i < 26) && !(40 <= i < 42) ==> p.Bytes()[i] == old(p.Bytes())[i]
    {
      p.Write(24, [0, 0]);
      ghost var h := p.buf[ETH_HLEN..ETH_HLEN + IP_HLEN];
      var check := IpChecksum(p.buf, ETH_HLEN, IP_HLEN, bigEndian);
      var stored := StoredWord(check, bigEndian);
      StoredChecksumVerifies(h, 10, bigEndian, check, stored);
      p.Write(24, stored);
      p.Write(40, udpCheck);
      assert p.Bytes()[ETH_HLEN..ETH_HLEN + IP_HLEN] == p.buf[ETH_HLEN..ETH_HLEN + IP_HLEN];
      assert p.buf[ETH_HLEN..ETH_HLEN + IP_HLEN] == h[10 := stored[0]][11 := stored[1]];
    }

    // The slot under which the sender of a ping is booked; a newcomer is given the next one.
    method LookUpKey(src: Addr) returns (key: nat)
      requires Valid()
      modifies this`ipToKey
      ensures key == KeyFor(old(Contents()), src)
      ensures Contents() == old(Contents()).(ipToKey := Learned(old(Contents()), src))
    {
      if src in ipToKey {
        return ipToKey[src];
      }
      key := serverCnt;
      if |ipToKey| < MAX_SERVERS {
        ipToKey := ipToKey[src := key];
      }
    }

    // A 1-byte packet: the registration of a server, or the completion of a job.
    method HandlePing(p: Frame, udpCheck: seq<Byte>) returns (verdict: Verdict)
      requires Valid() && p.Valid() && Classify(p.Bytes()).PingPacket? && |udpCheck| == 2
      modifies this, servers, p`end, p.buf
      ensures Valid() && p.Valid()
      ensures PingHandled(old(Contents()), old(p.Bytes()), old(p.end) + 7 <= p.buf.Length,
                          Contents(), p.Bytes(), verdict)
    {
      var src, dst, mac := p.buf[26..30], p.buf[30..34], p.buf[6..12];
      ghost var f := p.Bytes();
      assert Classify(f) == PingPacket(src, dst, mac);
      hide Classify;
      ghost var s := Contents();
      var key := LookUpKey(src);
      hide Learned;
      if key >= MAX_SERVERS || servers[key].saddr == NO_ADDR {
        if key < MAX_SERVERS {
          servers[key] := DestInfo(src, dst, mac, MAX_THREADS);
        }
        serverCnt := (serverCnt + 1) % U16_SIZE;
        return Drop;
      }
      var free := (servers[key].free + 1) % U16_SIZE;
      if free > MAX_THREADS {
        free := MAX_THREADS;
      }
      servers[key] := servers[key].(free := free);
      assert Contents() == Credit(s, src);
      verdict := ServeQueue(p, udpCheck);
    }

    // A completion frees a thread for the oldest queued job, if there is one.
    method ServeQueue(p: Frame, udpCheck: seq<Byte>) returns (verdict: Verdict)
      requires Valid() && p.Valid() && p.end == HEADERS + 1 && |udpCheck| == 2
      modifies this`queue, servers, p`end, p.buf
      ensures Valid() && p.Valid()
      ensures var (s, out) := Serve(old(Contents()), old(p.end) + 7 <= p.buf.Length);
              Contents() == s && Delivered(old(p.Bytes()), s, p.Bytes(), out, verdict)
    {
      if queue == [] {
        return Drop;
      }
      var selected := GetAvailableBackend();
      if selected == NONE {
        return Abort;
      }
      verdict := SendQueued(selected, p, udpCheck);
    }

    // Makes room for a whole job in the frame, fills in the oldest one and sends it.
    method SendQueued(k: nat, p: Frame, udpCheck: seq<Byte>) returns (verdict: Verdict)
      requires Valid() && p.Valid() && p.end == HEADERS + 1 && |udpCheck| == 2 && queue != []
      requires k < MAX_SERVERS && servers[k].free > 0
      modifies this`queue, servers, p`end, p.buf
      ensures Valid() && p.Valid()
      ensures old(p.end) + 7 > p.buf.Length ==>
                verdict == Abort && p.Bytes() == old(p.Bytes()) &&
                Contents() == old(Contents()).(queue := old(queue)[1..])
      ensures old(p.end) + 7 <= p.buf.Length ==>
                verdict == Transmit && Contents() == Debit(old(Contents()).(queue := old(queue)[1..]), k) &&
                Addressed(old(p.Bytes()), p.Bytes(), old(servers[k]), old(queue)[0])
    {
      ghost var f := p.Bytes();
      var grown := p.AdjustTail(7);
      var value := Dequeue();
      if HEADERS + JOB_SIZE > p.end {
        return Abort;
      }
      p.Write(HEADERS, value);
      ghost var g := p.Bytes();
      SliceIs(g, HEADERS, value);
      assert g[HEADERS..] == g[HEADERS..HEADERS + JOB_SIZE];
      assert forall i :: 0 <= i < HEADERS ==> g[i] == f[i];
      verdict := SendToBackend(k, p, udpCheck);
      assert g[0..6] == f[0..6];
    }

    // An 8-byte packet: a job, sent at once or queued.
    method HandleJob(p: Frame, udpCheck: seq<Byte>) returns (verdict: Verdict)
      requires Valid() && p.Valid() && Classify(p.Bytes()).JobPacket? && |udpCheck| == 2
      modifies this, servers, p.buf
      ensures Valid() && p.Valid()
      ensures JobHandled(old(Contents()), old(p.Bytes()), Contents(), p.Bytes(), verdict)
    {
      assert p.Bytes()[HEADERS..] == p.buf[HEADERS..p.end];
      var selected := GetAvailableBackend();
      if selected == NONE {
        Enqueue(p.buf[HEADERS..p.end]);
        return Abort;
      }
      verdict := SendToBackend(selected, p, udpCheck);
    }

    // The program: one frame, one verdict.
    method Handle(p: Frame, udpCheck: seq<Byte>) returns (verdict: Verdict)
      requires Valid() && p.Valid() && |udpCheck| == 2
      modifies this, servers, p`end, p.buf
      ensures Valid() && p.Valid()
      ensures Handled(old(Contents()), old(p.Bytes()), old(p.end) + 7 <= p.buf.Length, Contents(), p.Bytes(), verdict)
    {
      if ETH_HLEN > p.end {
        return Abort;
      }
      if Word(p.buf[12], p.buf[13], true) != 0x0800 {
        return Pass;
      }
      if ETH_HLEN + IP_HLEN > p.end {
        return Abort;
      }
      if p.buf[23] != 17 {
        return Pass;
      }
      if HEADERS > p.end {
        return Abort;
      }
      if Word(p.buf[36], p.buf[37], true) != PORT {
        return Pass;
      }
      if p.end - HEADERS == 1 {
        verdict := HandlePing(p, udpCheck);
      } else if p.end - HEADERS == JOB_SIZE {
        verdict := HandleJob(p, udpCheck);
      } else {
        return Pass;
      }
    }
  }
}
