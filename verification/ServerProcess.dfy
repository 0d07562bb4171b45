// The server program as it runs.

module ServerProcess {
  import opened BigEndian
  import opened Checksum
  import opened ServerSteps

  class Process {
    var nThreads: nat
    var totalSleepTime: nat
    // The datagram received last, for the loop and all handlers to read.
    var data: Data
    // The same variables with what every handler is doing.
    ghost var program: Program

    ghost predicate Valid()
      reads this
    {
      Accounted(program) && nThreads == program.nThreads && totalSleepTime == program.total &&
      data == program.latest
    }

    constructor ()
      ensures Valid() && program == START
    {
      nThreads, totalSleepTime, data, program := 0, 0, [], START;
      new;
      StartAccounted();
    }

    // One turn of the loop: a handler is started unless all threads are busy.
    method OnDatagram(received: Data) returns (spawned: bool)
      requires Valid()
      modifies this
      ensures Valid() && program == Act(old(program), Datagram(received))
      ensures spawned <==> program.accepted == old(program.accepted) + [received]
    {
      ActAccounted(program, Datagram(received));
      program := Act(program, Datagram(received));
      data := received;
      spawned := nThreads < BUSY && data != [];
    }

    // A handler that gets to run reads the variable that the loop assigns.
    method ReadDatagram() returns (own: Data)
      requires Valid() && CanAct(program, Bind)
      modifies this`program
      ensures Valid() && program == Act(old(program), Bind) && own in program.bound
    {
      ActAccounted(program, Bind);
      program := Act(program, Bind);
      own := data;
    }

    // A handler counts itself, under the lock.
    method BeginHandler(data: Data)
      requires Valid() && CanAct(program, Begin(data))
      modifies this
      ensures Valid() && program == Act(old(program), Begin(data))
    {
      ActAccounted(program, Begin(data));
      program := Act(program, Begin(data));
      nThreads := nThreads + 1;
    }

    // A handler has slept for as many seconds as its data says; the sum is taken under the lock.
    method AddSleep(data: Data)
      requires Valid() && CanAct(program, Add(data))
      modifies this
      ensures Valid() && program == Act(old(program), Add(data))
    {
      ActAccounted(program, Add(data));
      program := Act(program, Add(data));
      totalSleepTime := totalSleepTime + Number(data);
    }

    // A handler stops counting, under the lock.
    method EndHandler(data: Data)
      requires Valid() && CanAct(program, Uncount(data))
      modifies this
      ensures Valid() && program == Act(old(program), Uncount(data))
    {
      ActAccounted(program, Uncount(data));
      assert |program.awake| > 0 by {
        assert program.awake[data] > 0;
      }
      program := Act(program, Uncount(data));
      nThreads := nThreads - 1;
    }

    // A handler that no longer counts reports to the balancer with a single byte.
    method ReportDone(data: Data) returns (ping: seq<Byte>)
      requires Valid() && CanAct(program, Answer(data))
      modifies this
      ensures Valid() && |ping| == 1 && program == Act(old(program), Answer(data))
    {
      ActAccounted(program, Answer(data));
      program := Act(program, Answer(data));
      ping := [68];
    }
  }
}
