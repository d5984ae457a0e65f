// The environment of the broker: clock, pipes, epoll and the killer. Every choice the kernel
// or the solution can make is nondeterministic, so what is proved holds for all of them.
module Kernel {
  import opened Basics

  const NANOS_PER_MILLI := 1_000_000

  // Time in nanoseconds. Two readings of the clock always differ.
  class Clock {
    var time: int
    ghost var slept: nat

    constructor ()
    {
      time := *;
      slept := 0;
    }

    method Now() returns (t: int)
      modifies this
      ensures t == time > old(time) && slept == old(slept)
    {
      var d: int := *;
      time := time + 1 + (if d > 0 then d else 0);
      t := time;
    }

    method Sleep(limit: nat)
      modifies this
      ensures old(time) <= time <= old(time) + limit
      ensures slept - old(slept) == time - old(time)
    {
      var d: int := *;
      var pause: nat := if 0 <= d <= limit then d else limit;
      time := time + pause;
      slept := slept + pause;
    }
  }

  datatype KillerStatus = KillerOK | KillerError

  datatype KillerCall = Freeze(pid: nat) | Thaw(pid: nat) | Kill(pid: nat)

  // The process that freezes, thaws and terminates solutions; any call may report an error.
  class Killer {
    ghost var calls: seq<KillerCall>

    constructor ()
      ensures calls == []
    {
      calls := [];
    }

    method Call(call: KillerCall) returns (status: KillerStatus)
      modifies this
      ensures calls == old(calls) + [call]
    {
      calls := calls + [call];
      var failed: bool := *;
      status := if failed then KillerError else KillerOK;
    }
  }

  datatype PipeEnd = WriteEnd | ReadEnd

  datatype ReadReply = Chunk(data: Bytes) | ReadBlocks | EndOfFile | ReadError

  datatype WriteReply = Wrote(size: nat) | WriteBlocks | WriteError

  datatype Event = Event(fd: PipeEnd, epollin: bool, epollout: bool, err: bool, hup: bool)

  // What the kernel knows of one call of epoll_wait: the registered descriptors, the bytes it
  // had taken for the solution, whether this epoll instance had reported the write end broken,
  // the time and the timeout, the events it had reported and that were not attended to yet, and
  // what it reported this time.
  datatype Wait = Wait(
    interest: set<PipeEnd>,
    delivered: Bytes,
    writeEndBroken: bool,
    time: int,
    timeout: nat,
    owed: set<PipeEnd>,
    batch: seq<Event>)

  // The standard input and output of one solution. unread is everything the solution will
  // still write before its end of the pipe closes. The ghost fields are written by the kernel
  // alone; waits holds the waits of the latest epoll instance, and errors counts the failed
  // reads and writes. A reported event is owed until its
  // descriptor is removed or a transfer would block or meets the end of file. usedWith holds
  // what the killer had been told whenever the pipes were read, written or waited for.
  class Pipes {
    ghost const killer: Killer
    var unread: Bytes
    ghost var received: Bytes
    ghost var delivered: Bytes
    ghost var waits: seq<Wait>
    ghost var owed: set<PipeEnd>
    ghost var errors: nat
    ghost var usedWith: set<seq<KillerCall>>

    constructor (ghost killer: Killer)
      ensures this.killer == killer && received == [] && delivered == [] && waits == []
      ensures owed == {} && errors == 0 && usedWith == {}
    {
      this.killer := killer;
      unread := *;
      received, delivered, waits, owed, errors, usedWith := [], [], [], {}, 0, {};
    }

    method Read(max: nat) returns (r: ReadReply)
      requires max > 0
      modifies this`unread, this`received, this`owed, this`errors, this`usedWith
      ensures r.Chunk? ==> 0 < |r.data| <= max && old(unread) == r.data + unread && received == old(received) + r.data
      ensures !r.Chunk? ==> unread == old(unread) && received == old(received)
      ensures r.EndOfFile? ==> unread == []
      ensures owed == old(owed) - (if r.ReadBlocks? || r.EndOfFile? then {ReadEnd} else {})
      ensures errors == old(errors) + (if r.ReadError? then 1 else 0)
      ensures usedWith == old(usedWith) + {killer.calls}
    {
      usedWith := usedWith + {killer.calls};
      var n: int, choice: int := *, *;
      if 0 < n <= max && n <= |unread| {
        r := Chunk(unread[..n]);
        received := received + unread[..n];
        unread := unread[n..];
      } else if choice == 0 && unread == [] {
        r := EndOfFile;
        owed := owed - {ReadEnd};
      } else if choice == 1 {
        r := ReadError;
        errors := errors + 1;
      } else {
        r := ReadBlocks;
        owed := owed - {ReadEnd};
      }
    }

    method Write(data: Bytes) returns (r: WriteReply)
      requires data != []
      modifies this`delivered, this`owed, this`errors, this`usedWith
      ensures r.Wrote? ==> 0 < r.size <= |data| && delivered == old(delivered) + data[..r.size]
      ensures !r.Wrote? ==> delivered == old(delivered)
      ensures owed == old(owed) - (if r.WriteBlocks? then {WriteEnd} else {})
      ensures errors == old(errors) + (if r.WriteError? then 1 else 0)
      ensures usedWith == old(usedWith) + {killer.calls}
    {
      usedWith := usedWith + {killer.calls};
      var n: int, broken: bool := *, *;
      if 0 < n <= |data| {
        r := Wrote(n);
        delivered := delivered + data[..n];
      } else if broken {
        r := WriteError;
        errors := errors + 1;
      } else {
        r := WriteBlocks;
        owed := owed - {WriteEnd};
      }
    }
  }

  // A batch epoll_wait can deliver: at most one event for each registered descriptor; the
  // write end is writable or broken; the read end is readable, or drained and closed.
  predicate BatchOk(batch: seq<Event>, interest: set<PipeEnd>, drained: bool) {
    && |batch| <= 2
    && (|batch| == 2 ==> batch[0].fd != batch[1].fd)
    && forall i | 0 <= i < |batch| ::
         && batch[i].fd in interest
         && (batch[i].fd == WriteEnd ==> batch[i].epollout || batch[i].err || batch[i].hup)
         && (batch[i].fd == ReadEnd && !batch[i].epollin ==> drained)
  }

  // The write end is reported in error or hung up.
  predicate ReportsBroken(batch: seq<Event>) {
    exists i | 0 <= i < |batch| :: batch[i].fd == WriteEnd && (batch[i].err || batch[i].hup)
  }

  // The read end is reported without anything to read.
  predicate ReportsEnd(batch: seq<Event>) {
    exists i | 0 <= i < |batch| :: batch[i].fd == ReadEnd && !batch[i].epollin
  }

  function Reported(batch: seq<Event>): set<PipeEnd> {
    set i | 0 <= i < |batch| :: batch[i].fd
  }

  // An event that was owed when its descriptor was removed is owed again once the descriptor is
  // registered again.
  class Epoll {
    const pipes: Pipes
    var interest: set<PipeEnd>
    ghost var writeEndBroken: bool
    ghost var suspended: set<PipeEnd>

    constructor (pipes: Pipes)
      modifies pipes`waits, pipes`owed
      ensures this.pipes == pipes && interest == {} && !writeEndBroken && suspended == {}
      ensures pipes.waits == [] && pipes.owed == {}
    {
      this.pipes, interest, writeEndBroken, suspended := pipes, {}, false, {};
      new;
      pipes.waits, pipes.owed := [], {};
    }

    method Add(fd: PipeEnd)
      requires fd !in interest
      modifies this`interest, pipes`owed
      ensures interest == old(interest) + {fd} && pipes.owed == old(pipes.owed) + {fd} * suspended
    {
      interest := interest + {fd};
      pipes.owed := pipes.owed + {fd} * suspended;
    }

    // epoll_ctl refuses to remove a descriptor that is not registered.
    method Del(fd: PipeEnd)
      requires fd in interest
      modifies this`interest, this`suspended, pipes`owed
      ensures interest == old(interest) - {fd} && suspended == old(suspended) + {fd} * old(pipes.owed)
      ensures pipes.owed == old(pipes.owed) - {fd}
    {
      interest := interest - {fd};
      suspended := suspended + {fd} * pipes.owed;
      pipes.owed := pipes.owed - {fd};
    }

    // epoll_wait
    method AwaitEvents(clock: Clock, timeout: nat) returns (batch: seq<Event>)
      modifies this`writeEndBroken, pipes`waits, pipes`owed, pipes`usedWith, clock
      ensures BatchOk(batch, interest, pipes.unread == [])
      ensures pipes.waits == old(pipes.waits) +
                [Wait(interest, pipes.delivered, old(writeEndBroken), old(clock.time), timeout, old(pipes.owed), batch)]
      ensures pipes.usedWith == old(pipes.usedWith) + {pipes.killer.calls}
      ensures writeEndBroken == (old(writeEndBroken) || ReportsBroken(batch))
      ensures pipes.owed == old(pipes.owed) + Reported(batch)
      ensures old(clock.time) <= clock.time <= old(clock.time) + timeout
      ensures clock.slept - old(clock.slept) == clock.time - old(clock.time)
    {
      ghost var asked := clock.time;
      clock.Sleep(timeout);
      batch := *;
      if !BatchOk(batch, interest, pipes.unread == []) {
        batch := [];
      }
      pipes.waits := pipes.waits +
        [Wait(interest, pipes.delivered, writeEndBroken, asked, timeout, pipes.owed, batch)];
      pipes.usedWith := pipes.usedWith + {pipes.killer.calls};
      writeEndBroken := writeEndBroken || ReportsBroken(batch);
      pipes.owed := pipes.owed + Reported(batch);
    }
  }
}
