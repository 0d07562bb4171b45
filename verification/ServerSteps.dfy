// The server program: its receive loop and its handlers as interleaved steps, one for every
// stretch that no other thread can interrupt, and what holds in every run of them.

module ServerSteps {
  import opened Checksum
  import opened Balancing
  import opened BigEndian

  const BUSY: nat := 5

  // The global variables, and what the handlers are doing: started but yet to read the datagram
  // (`unbound`), about to count themselves, sleeping, done sleeping but still counted, not counted any
  // more, and finished. `accepted` holds the datagrams for which a handler was started, `added` what
  // has been summed up.
  datatype Program = Program(nThreads: nat, total: nat, latest: Data, accepted: seq<Data>, added: seq<Data>,
                             unbound: nat, bound: multiset<Data>, asleep: multiset<Data>, awake: multiset<Data>,
                             leaving: multiset<Data>, finished: multiset<Data>)

  datatype Action =
    | Datagram(data: Data)
    | Bind
    | Begin(data: Data)
    | Add(data: Data)
    | Uncount(data: Data)
    | Answer(data: Data)

  const NONE_AT_WORK: multiset<Data> := multiset{}
  const START := Program(0, 0, [], [], [], 0, NONE_AT_WORK, NONE_AT_WORK, NONE_AT_WORK, NONE_AT_WORK, NONE_AT_WORK)

  predicate CanAct(p: Program, a: Action) {
    match a
    case Datagram(_) => true
    case Bind => p.unbound > 0
    case Begin(d) => d in p.bound
    case Add(d) => d in p.asleep
    case Uncount(d) => d in p.awake
    case Answer(d) => d in p.leaving
  }

  predicate Accepts(p: Program, d: Data) {
    p.nThreads < BUSY && d != []
  }

  // A handler reads the variable that the loop assigns, whenever it gets to run.
  function Act(p: Program, a: Action): Program {
    if !CanAct(p, a) then p
    else
      match a
      case Datagram(d) =>
        if Accepts(p, d) then p.(latest := d, accepted := p.accepted + [d], unbound := p.unbound + 1)
        else p.(latest := d)
      case Bind => p.(unbound := p.unbound - 1, bound := p.bound + multiset{p.latest})
      case Begin(d) =>
        p.(nThreads := p.nThreads + 1, bound := p.bound - multiset{d}, asleep := p.asleep + multiset{d})
      case Add(d) =>
        p.(total := p.total + Number(d), added := p.added + [d],
           asleep := p.asleep - multiset{d}, awake := p.awake + multiset{d})
      case Uncount(d) =>
        p.(nThreads := if p.nThreads == 0 then 0 else p.nThreads - 1,
           awake := p.awake - multiset{d}, leaving := p.leaving + multiset{d})
      case Answer(d) => p.(leaving := p.leaving - multiset{d}, finished := p.finished + multiset{d})
  }

  function ActAll(p: Program, actions: seq<Action>): Program {
    if actions == [] then p else Act(ActAll(p, actions[..|actions| - 1]), actions[|actions| - 1])
  }

  function Total(ds: seq<Data>): nat {
    if ds == [] then 0 else Total(ds[..|ds| - 1]) + Number(ds[|ds| - 1])
  }

  // Every accepted datagram has one handler; the threads that count are asleep or awake; the total
  // is that of the handlers that are done sleeping.
  ghost predicate Accounted(p: Program) {
    |p.accepted| == p.unbound + |p.bound| + |p.asleep| + |p.awake| + |p.leaving| + |p.finished| &&
    multiset(p.added) == p.awake + p.leaving + p.finished &&
    p.nThreads == |p.asleep| + |p.awake| && p.total == Total(p.added)
  }

  // A handler moves from one stage to another.
  lemma Moves(m: multiset<Data>, n: multiset<Data>, d: Data)
    requires d in m
    ensures |m - multiset{d}| == |m| - 1 && |n + multiset{d}| == |n| + 1
    ensures (m - multiset{d}) + (n + multiset{d}) == m + n
  {
    assert m == (m - multiset{d}) + multiset{d};
  }

  lemma Appended(ds: seq<Data>, d: Data)
    ensures multiset(ds + [d]) == multiset(ds) + multiset{d} && Total(ds + [d]) == Total(ds) + Number(d)
  {
    assert (ds + [d])[..|ds|] == ds;
  }

  lemma ActAccounted(p: Program, a: Action)
    requires Accounted(p)
    ensures Accounted(Act(p, a))
  {
    if CanAct(p, a) {
      match a {
        case Datagram(d) =>
        case Bind =>
          assert |p.bound + multiset{p.latest}| == |p.bound| + 1;
        case Begin(d) =>
          Moves(p.bound, p.asleep, d);
        case Add(d) =>
          AddAccounted(p, d);
        case Uncount(d) =>
          UncountAccounted(p, d);
        case Answer(d) =>
          AnswerAccounted(p, d);
      }
    }
  }

  lemma AddAccounted(p: Program, d: Data)
    requires Accounted(p) && d in p.asleep
    ensures Accounted(Act(p, Add(d)))
  {
    Appended(p.added, d);
    Moves(p.asleep, p.awake, d);
    var q := Act(p, Add(d));
    assert q.awake == p.awake + multiset{d} && q.leaving == p.leaving && q.finished == p.finished;
  }

  lemma UncountAccounted(p: Program, d: Data)
    requires Accounted(p) && d in p.awake
    ensures Accounted(Act(p, Uncount(d))) && p.nThreads > 0
  {
    Moves(p.awake, p.leaving, d);
    var q := Act(p, Uncount(d));
    assert q.awake + q.leaving == p.awake + p.leaving && q.finished == p.finished;
  }

  lemma AnswerAccounted(p: Program, d: Data)
    requires Accounted(p) && d in p.leaving
    ensures Accounted(Act(p, Answer(d)))
  {
    Moves(p.leaving, p.finished, d);
    var q := Act(p, Answer(d));
    assert q.leaving + q.finished == p.leaving + p.finished && q.awake == p.awake;
  }

  lemma {:induction false} RunAccounted(actions: seq<Action>)
    ensures Accounted(ActAll(START, actions))
    decreases |actions|
  {
    if actions == [] {
      StartAccounted();
    } else {
      RunAccounted(actions[..|actions| - 1]);
      ActAccounted(ActAll(START, actions[..|actions| - 1]), actions[|actions| - 1]);
    }
  }

  lemma StartAccounted()
    ensures Accounted(START)
  {
  }

  // The total does not depend on the order in which handlers finish.
  lemma {:induction false} TotalPermutes(ds: seq<Data>, es: seq<Data>)
    requires multiset(ds) == multiset(es)
    ensures Total(ds) == Total(es)
    decreases |ds|
  {
    if ds == [] {
      assert |multiset(es)| == 0;
      assert es == [];
    } else {
      var n := |ds| - 1;
      var d := ds[n];
      assert ds == ds[..n] + [d];
      assert d in multiset(es);
      var k :| 0 <= k < |es| && es[k] == d;
      assert es == es[..k] + [d] + es[k + 1..];
      var rest := es[..k] + es[k + 1..];
      assert multiset(ds[..n]) + multiset{d} == multiset(rest) + multiset{d};
      assert multiset(ds[..n]) == multiset(rest) by {
        Cancels(multiset(ds[..n]), multiset(rest), d);
      }
      TotalPermutes(ds[..n], rest);
      TotalWithout(es, k);
    }
  }

  lemma Cancels(m: multiset<Data>, n: multiset<Data>, d: Data)
    requires m + multiset{d} == n + multiset{d}
    ensures m == n
  {
    assert m == (m + multiset{d}) - multiset{d};
    assert n == (n + multiset{d}) - multiset{d};
  }

  lemma {:induction false} TotalWithout(es: seq<Data>, k: nat)
    requires k < |es|
    ensures Total(es) == Total(es[..k] + es[k + 1..]) + Number(es[k])
    decreases |es|
  {
    var n := |es| - 1;
    var rest := es[..k] + es[k + 1..];
    if k == n {
      assert rest == es[..n];
    } else {
      TotalWithout(es[..n], k);
      assert rest[..|rest| - 1] == es[..n][..k] + es[..n][k + 1..];
      assert rest[|rest| - 1] == es[n];
    }
  }

  // What the handlers have read, in the order in which they have.
  function Read(actions: seq<Action>): seq<Data> {
    if actions == [] then []
    else
      var n := |actions| - 1;
      var p := ActAll(START, actions[..n]);
      Read(actions[..n]) + if actions[n].Bind? && CanAct(p, Bind) then [p.latest] else []
  }

  // By how much a datagram changes what the handlers that have yet to read will add up.
  function Shift(p: Program, a: Action): int {
    if a.Datagram? then p.unbound * (Number(a.data) - Number(p.latest)) else 0
  }

  function Drift(actions: seq<Action>): int {
    if actions == [] then 0
    else
      var n := |actions| - 1;
      Drift(actions[..n]) + Shift(ActAll(START, actions[..n]), actions[n])
  }

  // Every datagram that has been read belongs to one handler, and what has been read, with what is
  // going to be read, adds up to what has been accepted and the drift.
  ghost predicate Drifted(p: Program, read: seq<Data>, drift: int) {
    multiset(read) == InHand(p) && Total(read) + Due(p.unbound, Number(p.latest)) == Total(p.accepted) + drift
  }

  // The datagrams that handlers have read.
  ghost function InHand(p: Program): multiset<Data> {
    p.bound + p.asleep + p.awake + p.leaving + p.finished
  }

  // What handlers will add up that read the same number.
  function Due(handlers: nat, number: nat): int {
    handlers * number
  }

  lemma DueChanges(u: nat, x: nat, y: nat)
    ensures Due(u, y) == Due(u, x) + u * (y - x) && Due(u + 1, y) == Due(u, y) + y
  {
  }

  lemma DatagramDrifts(p: Program, read: seq<Data>, drift: int, d: Data)
    requires Drifted(p, read, drift)
    ensures Drifted(Act(p, Datagram(d)), read, drift + Shift(p, Datagram(d)))
  {
    hide Number, Total, Due;
    Appended(p.accepted, d);
    DueChanges(p.unbound, Number(p.latest), Number(d));
  }

  lemma BindDrifts(p: Program, read: seq<Data>, drift: int)
    requires Drifted(p, read, drift) && p.unbound > 0
    ensures Drifted(Act(p, Bind), read + [p.latest], drift)
  {
    hide Number, Total, Due;
    Appended(read, p.latest);
    DueChanges(p.unbound - 1, Number(p.latest), Number(p.latest));
    assert Act(p, Bind).bound == p.bound + multiset{p.latest};
  }

  // Other steps move a handler between neighbouring stages.
  lemma StageDrifts(p: Program, read: seq<Data>, drift: int, a: Action)
    requires Drifted(p, read, drift) && CanAct(p, a) && !a.Datagram? && !a.Bind?
    ensures Drifted(Act(p, a), read, drift)
  {
    match a {
      case Begin(d) =>
        BeginMoves(p, d);
      case Add(d) =>
        AddMoves(p, d);
      case Uncount(d) =>
        UncountMoves(p, d);
      case Answer(d) =>
        AnswerMoves(p, d);
    }
  }

  ghost predicate SameHand(p: Program, q: Program) {
    InHand(q) == InHand(p) && q.unbound == p.unbound && q.latest == p.latest && q.accepted == p.accepted
  }

  lemma BeginMoves(p: Program, d: Data)
    requires d in p.bound
    ensures SameHand(p, Act(p, Begin(d)))
  {
    Moves(p.bound, p.asleep, d);
    var q := Act(p, Begin(d));
    assert InHand(p) == (p.bound + p.asleep) + (p.awake + p.leaving + p.finished);
    assert InHand(q) == (q.bound + q.asleep) + (p.awake + p.leaving + p.finished);
  }

  lemma AddMoves(p: Program, d: Data)
    requires d in p.asleep
    ensures SameHand(p, Act(p, Add(d)))
  {
    Moves(p.asleep, p.awake, d);
    var q := Act(p, Add(d));
    assert InHand(p) == p.bound + (p.asleep + p.awake) + (p.leaving + p.finished);
    assert InHand(q) == p.bound + (q.asleep + q.awake) + (p.leaving + p.finished);
  }

  lemma UncountMoves(p: Program, d: Data)
    requires d in p.awake
    ensures SameHand(p, Act(p, Uncount(d)))
  {
    Moves(p.awake, p.leaving, d);
    var q := Act(p, Uncount(d));
    assert InHand(p) == p.bound + p.asleep + (p.awake + p.leaving) + p.finished;
    assert InHand(q) == p.bound + p.asleep + (q.awake + q.leaving) + p.finished;
  }

  lemma AnswerMoves(p: Program, d: Data)
    requires d in p.leaving
    ensures SameHand(p, Act(p, Answer(d)))
  {
    Moves(p.leaving, p.finished, d);
    var q := Act(p, Answer(d));
    assert InHand(p) == p.bound + p.asleep + p.awake + (p.leaving + p.finished);
    assert InHand(q) == p.bound + p.asleep + p.awake + (q.leaving + q.finished);
  }

  lemma {:induction false} RunDrifts(actions: seq<Action>)
    ensures Drifted(ActAll(START, actions), Read(actions), Drift(actions))
    decreases |actions|
  {
    hide Act, Drifted, Shift;
    if actions == [] {
      StartDrifted();
    } else {
      var n := |actions| - 1;
      var p, read, drift := ActAll(START, actions[..n]), Read(actions[..n]), Drift(actions[..n]);
      RunDrifts(actions[..n]);
      StepDrifts(p, read, drift, actions[n]);
      assert read + [] == read;
    }
  }

  lemma StepDrifts(p: Program, read: seq<Data>, drift: int, a: Action)
    requires Drifted(p, read, drift)
    ensures Drifted(Act(p, a), if a.Bind? && CanAct(p, a) then read + [p.latest] else read, drift + Shift(p, a))
  {
    if a.Datagram? {
      DatagramDrifts(p, read, drift, a.data);
    } else if CanAct(p, a) {
      if a.Bind? {
        BindDrifts(p, read, drift);
      } else {
        StageDrifts(p, read, drift, a);
      }
    }
  }

  lemma StartDrifted()
    ensures Drifted(START, [], 0)
  {
  }

  // In every run, once no handler is at work: the total is the sum of everything that was accepted,
  // and the drift. So it is exact if and only if there is no drift.
  lemma TotalIsExact(actions: seq<Action>)
    ensures var p := ActAll(START, actions);
            p.unbound == 0 && p.bound == p.asleep == multiset{} ==>
              p.total == Total(p.accepted) + Drift(actions) && (p.awake == multiset{} ==> p.nThreads == 0)
    ensures var p := ActAll(START, actions);
            p.unbound == 0 && p.bound == p.asleep == multiset{} ==>
              (p.total == Total(p.accepted) <==> Drift(actions) == 0)
  {
    RunAccounted(actions);
    RunDrifts(actions);
    var p := ActAll(START, actions);
    hide Total, ActAll, Number, Read, Drift;
    if p.unbound == 0 && p.bound == p.asleep == multiset{} {
      TotalPermutes(p.added, Read(actions));
    }
  }

  // A datagram adds to the drift unless every handler has read its own, or the two are equal as numbers.
  lemma DriftsExactly(actions: seq<Action>, d: Data)
    ensures var p := ActAll(START, actions);
            Drift(actions + [Datagram(d)]) == Drift(actions) <==> p.unbound == 0 || Number(d) == Number(p.latest)
  {
    hide Number, ActAll;
    var all := actions + [Datagram(d)];
    assert all[..|all| - 1] == actions;
    var u, x := ActAll(START, actions).unbound, Number(d) - Number(ActAll(START, actions).latest);
    assert u * x == 0 <==> u == 0 || x == 0;
  }

  // No datagram is received while a handler has yet to read the last one.
  ghost predicate Prompt(actions: seq<Action>) {
    actions == [] ||
    var n := |actions| - 1;
    Prompt(actions[..n]) && (actions[n].Datagram? ==> ActAll(START, actions[..n]).unbound == 0)
  }

  lemma {:induction false} PromptHasNoDrift(actions: seq<Action>)
    requires Prompt(actions)
    ensures Drift(actions) == 0
    decreases |actions|
  {
    if actions != [] {
      PromptHasNoDrift(actions[..|actions| - 1]);
    }
  }

  lemma {:induction false} ActAllSplits(p: Program, xs: seq<Action>, ys: seq<Action>)
    ensures ActAll(p, xs + ys) == ActAll(ActAll(p, xs), ys)
    decreases |ys|
  {
    hide Act;
    if ys == [] {
      assert xs + ys == xs;
    } else {
      var n := |ys| - 1;
      ActAllSplits(p, xs, ys[..n]);
      assert (xs + ys)[..|xs + ys| - 1] == xs + ys[..n];
    }
  }

  function Repeat(a: Action, n: nat): (r: seq<Action>)
    ensures |r| == n
  {
    if n == 0 then [] else Repeat(a, n - 1) + [a]
  }

  lemma {:induction false} Rush(d: Data, n: nat)
    requires d != []
    ensures var p := ActAll(START, Repeat(Datagram(d), n));
            p.nThreads == 0 && p.unbound == n && p.bound == multiset{} && (n > 0 ==> p.latest == d)
  {
    if n > 0 {
      Rush(d, n - 1);
      assert Repeat(Datagram(d), n)[..n - 1] == Repeat(Datagram(d), n - 1);
    }
  }

  lemma {:induction false} AllBind(p: Program, n: nat)
    requires n <= p.unbound && p.bound == multiset{}
    ensures var q := ActAll(p, Repeat(Bind, n));
            q.nThreads == p.nThreads && q.unbound == p.unbound - n && q.latest == p.latest && q.bound[p.latest] == n
  {
    if n > 0 {
      AllBind(p, n - 1);
      assert Repeat(Bind, n)[..n - 1] == Repeat(Bind, n - 1);
    }
  }

  lemma OneBegins(p: Program, d: Data)
    requires d in p.bound
    ensures var q := Act(p, Begin(d)); q.nThreads == p.nThreads + 1 && q.bound[d] == p.bound[d] - 1
  {
  }

  lemma {:induction false} AllBegin(p: Program, d: Data, n: nat)
    requires n <= p.bound[d]
    ensures var q := ActAll(p, Repeat(Begin(d), n)); q.nThreads == p.nThreads + n && q.bound[d] == p.bound[d] - n
  {
    hide Act, ActAll;
    if n > 0 {
      AllBegin(p, d, n - 1);
      ActAllLast(p, Repeat(Begin(d), n - 1), Begin(d));
      OneBegins(ActAll(p, Repeat(Begin(d), n - 1)), d);
    } else {
      NoActions(p);
    }
  }

  // The handlers that count, or will.
  function Load(p: Program): nat {
    p.nThreads + p.unbound + |p.bound|
  }

  predicate NoDatagrams(actions: seq<Action>) {
    forall i :: 0 <= i < |actions| ==> !actions[i].Datagram?
  }

  // Only an accepted datagram adds to the load.
  lemma LoadStep(p: Program, a: Action)
    requires Accounted(p)
    ensures Load(Act(p, a)) <= Load(p) + if a.Datagram? && Accepts(p, a.data) then 1 else 0
    ensures a.Datagram? ==> Load(Act(p, a)) == Load(p) + if Accepts(p, a.data) then 1 else 0
  {
    if CanAct(p, a) {
      match a {
        case Datagram(d) =>
        case Bind =>
          assert |p.bound + multiset{p.latest}| == |p.bound| + 1;
        case Begin(d) =>
          Moves(p.bound, p.asleep, d);
        case Add(d) =>
        case Uncount(d) =>
          UncountAccounted(p, d);
        case Answer(d) =>
      }
    }
  }

  lemma {:induction false} LoadRun(p: Program, actions: seq<Action>)
    requires Accounted(p) && NoDatagrams(actions)
    ensures Accounted(ActAll(p, actions)) && Load(ActAll(p, actions)) <= Load(p)
    decreases |actions|
  {
    if actions != [] {
      var n := |actions| - 1;
      LoadRun(p, actions[..n]);
      ActAccounted(ActAll(p, actions[..n]), actions[n]);
      LoadStep(ActAll(p, actions[..n]), actions[n]);
    }
  }

  // All handlers that will count can do so before any of them is done.
  lemma {:induction false} Reaches(p: Program) returns (actions: seq<Action>)
    ensures NoDatagrams(actions) && ActAll(p, actions).nThreads == Load(p)
    decreases p.unbound, |p.bound|
  {
    hide Number, ActAll;
    NoActions(p);
    actions := [];
    if p.unbound > 0 || p.bound != multiset{} {
      var a := NextCounting(p);
      var more := Reaches(Act(p, a));
      actions := [a] + more;
      ActAllSplits(p, [a], more);
      ActAllLast(p, [], a);
      assert [] + [a] == [a];
    }
  }

  // A step that brings a handler closer to counting.
  lemma NextCounting(p: Program) returns (a: Action)
    requires p.unbound > 0 || p.bound != multiset{}
    ensures CanAct(p, a) && !a.Datagram? && Load(Act(p, a)) == Load(p)
    ensures var q := Act(p, a); q.unbound < p.unbound || (q.unbound == p.unbound && |q.bound| < |p.bound|)
  {
    if p.unbound > 0 {
      assert |p.bound + multiset{p.latest}| == |p.bound| + 1;
      a := Bind;
    } else {
      var d :| d in p.bound;
      Moves(p.bound, p.asleep, d);
      a := Begin(d);
    }
  }

  // The limit holds whatever the handlers do from here if and only if it holds for the load.
  ghost predicate KeepsLimit(p: Program) {
    forall actions | NoDatagrams(actions) :: ActAll(p, actions).nThreads <= BUSY
  }

  lemma LimitExactly(p: Program)
    requires Accounted(p)
    ensures KeepsLimit(p) <==> Load(p) <= BUSY
  {
    var reach := Reaches(p);
    if Load(p) <= BUSY {
      forall actions | NoDatagrams(actions) ensures ActAll(p, actions).nThreads <= BUSY {
        LoadRun(p, actions);
      }
    } else {
      assert ActAll(p, reach).nThreads > BUSY;
    }
  }

  // Accepting a datagram is safe if and only if the load, not the counter, is below the limit.
  lemma AcceptingIsSafe(p: Program, d: Data)
    requires Accounted(p) && Accepts(p, d)
    ensures KeepsLimit(Act(p, Datagram(d))) <==> Load(p) < BUSY
  {
    LoadStep(p, Datagram(d));
    ActAccounted(p, Datagram(d));
    LimitExactly(Act(p, Datagram(d)));
  }

  // Every datagram was accepted while the load was below the limit.
  ghost predicate Heeded(actions: seq<Action>) {
    actions == [] ||
    var n := |actions| - 1;
    var p := ActAll(START, actions[..n]);
    Heeded(actions[..n]) && (actions[n].Datagram? && Accepts(p, actions[n].data) ==> Load(p) < BUSY)
  }

  // After every part of a run the limit holds, whatever the handlers do from there.
  ghost predicate AllKeep(actions: seq<Action>) {
    forall k :: 0 <= k <= |actions| ==> KeepsLimit(ActAll(START, actions[..k]))
  }

  // A run keeps the limit at all times, however its handlers go on from there, if and only if every
  // datagram was accepted while the load was below the limit.
  lemma {:induction false} RunKeepsLimit(actions: seq<Action>)
    ensures Heeded(actions) <==> AllKeep(actions)
    decreases |actions|
  {
    assert actions[..|actions|] == actions;
    RunAccounted(actions);
    LimitExactly(ActAll(START, actions));
    if actions == [] {
      StartKeeps();
    } else {
      var n := |actions| - 1;
      RunKeepsLimit(actions[..n]);
      PrefixesKeep(actions);
      RunAccounted(actions[..n]);
      assert actions[..n][..n] == actions[..n];
      assert ActAll(START, actions) == Act(ActAll(START, actions[..n]), actions[n]);
      StepKeeps(ActAll(START, actions[..n]), actions[n]);
    }
  }

  lemma PrefixesKeep(actions: seq<Action>)
    requires actions != []
    ensures AllKeep(actions) <==> AllKeep(actions[..|actions| - 1]) && KeepsLimit(ActAll(START, actions))
  {
    hide KeepsLimit, ActAll;
    var n := |actions| - 1;
    assert actions[..|actions|] == actions;
    if AllKeep(actions) {
      forall k | 0 <= k <= n ensures KeepsLimit(ActAll(START, actions[..n][..k])) {
        assert actions[..n][..k] == actions[..k];
      }
    }
    if AllKeep(actions[..n]) {
      forall k | 0 <= k <= n ensures KeepsLimit(ActAll(START, actions[..k])) {
        assert actions[..n][..k] == actions[..k];
      }
    }
  }

  lemma StepKeeps(p: Program, a: Action)
    requires Accounted(p)
    ensures KeepsLimit(p) ==>
              (KeepsLimit(Act(p, a)) <==> (a.Datagram? && Accepts(p, a.data) ==> Load(p) < BUSY))
  {
    LoadStep(p, a);
    LimitExactly(p);
    ActAccounted(p, a);
    LimitExactly(Act(p, a));
  }

  lemma StartKeeps()
    ensures KeepsLimit(ActAll(START, []))
  {
    StartAccounted();
    NoActions(START);
    LimitExactly(START);
  }

  // The loop tests the counter before the handlers count themselves: any number of datagrams in a
  // row all start handlers, and then all of these count.
  lemma LimitExceeded(d: Data, n: nat)
    requires d != []
    ensures ActAll(START, Repeat(Datagram(d), n) + Repeat(Bind, n) + Repeat(Begin(d), n)).nThreads == n
  {
    var rush, binds, begins := Repeat(Datagram(d), n), Repeat(Bind, n), Repeat(Begin(d), n);
    ActAllSplits(START, rush + binds, begins);
    ActAllSplits(START, rush, binds);
    Rush(d, n);
    AllBind(ActAll(START, rush), n);
    if n > 0 {
      AllBegin(ActAll(START, rush + binds), d, n);
    } else {
      assert begins == [] && binds == [];
      NoActions(ActAll(START, rush));
    }
  }

  lemma NoActions(p: Program)
    ensures ActAll(p, []) == p
  {
  }

  // Two datagrams in a row: both handlers sleep as long as the second one says.
  lemma SecondCountsTwice(d: Data, e: Data)
    requires d != [] && e != []
    ensures var p := ActAll(START, [Datagram(d), Datagram(e), Bind, Bind, Begin(e), Begin(e), Add(e), Add(e)]);
            p.accepted == [d, e] && p.total == 2 * Number(e) && p.unbound == 0 && p.bound == p.asleep == multiset{}
  {
    var all := [Datagram(d), Datagram(e), Bind, Bind, Begin(e), Begin(e), Add(e), Add(e)];
    TwoBound(d, e);
    assert all == [Datagram(d), Datagram(e), Bind, Bind] + [Begin(e), Begin(e), Add(e), Add(e)];
    ActAllSplits(START, [Datagram(d), Datagram(e), Bind, Bind], [Begin(e), Begin(e), Add(e), Add(e)]);
    TwoSleep(ActAll(START, [Datagram(d), Datagram(e), Bind, Bind]), e);
  }

  lemma FourActions(p: Program, a: Action, b: Action, c: Action, d: Action)
    ensures ActAll(p, [a, b, c, d]) == Act(Act(Act(Act(p, a), b), c), d)
  {
    hide Act, ActAll;
    NoActions(p);
    ActAllLast(p, [], a);
    ActAllLast(p, [a], b);
    ActAllLast(p, [a, b], c);
    ActAllLast(p, [a, b, c], d);
    assert [] + [a] == [a] && [a] + [b] == [a, b] && [a, b] + [c] == [a, b, c] && [a, b, c] + [d] == [a, b, c, d];
  }

  lemma ActAllLast(p: Program, actions: seq<Action>, a: Action)
    ensures ActAll(p, actions + [a]) == Act(ActAll(p, actions), a)
  {
    assert (actions + [a])[..|actions|] == actions;
  }

  lemma TwoBound(d: Data, e: Data)
    requires d != [] && e != []
    ensures var p := ActAll(START, [Datagram(d), Datagram(e), Bind, Bind]);
            p.accepted == [d, e] && p.total == 0 && p.unbound == 0 && p.bound == multiset{e, e} &&
            p.asleep == multiset{}
  {
    hide ActAll, Number;
    FourActions(START, Datagram(d), Datagram(e), Bind, Bind);
    var p1 := Act(START, Datagram(d));
    assert p1.accepted == [d] && p1.unbound == 1 && p1.bound == p1.asleep == multiset{} && p1.nThreads == p1.total == 0;
    var p2 := Act(p1, Datagram(e));
    assert p2.accepted == [d, e] && p2.unbound == 2 && p2.latest == e && p2.bound == multiset{};
    var p3 := Act(p2, Bind);
    assert p3.bound == multiset{e} && p3.unbound == 1;
  }

  lemma TwoSleep(p: Program, e: Data)
    requires p.bound == multiset{e, e} && p.asleep == multiset{}
    ensures var q := ActAll(p, [Begin(e), Begin(e), Add(e), Add(e)]);
            q.accepted == p.accepted && q.total == p.total + 2 * Number(e) && q.unbound == p.unbound &&
            q.bound == q.asleep == multiset{}
  {
    hide ActAll, Number;
    FourActions(p, Begin(e), Begin(e), Add(e), Add(e));
    var p1 := Act(p, Begin(e));
    assert p1.bound == multiset{e} && p1.asleep == multiset{e};
    var p2 := Act(p1, Begin(e));
    assert p2.bound == multiset{} && p2.asleep == multiset{e, e};
    var p3 := Act(p2, Add(e));
    assert p3.bound == multiset{} && p3.asleep == multiset{e};
  }
}
