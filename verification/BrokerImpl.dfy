// src/lib/BrokerImpl.cpp and src/lib/BrokerImplCommunicate.cpp.
module BrokerImpl {
  import opened Basics
  import opened Tokenizers
  import opened Sessions
  import opened Communicate
  import opened Kernel
  import opened Runs
  import opened Fleet
  import opened Streams
  import opened Tokens

  // The longest sleep of one epoll_wait, in milliseconds.
  const WAIT_MILLIS := 100

  // Where communicate started from.
  datatype Origin = Origin(session: Session, unread: Bytes, received: Bytes, delivered: Bytes)

  // The time asleep in epoll_wait since start is less than one longest sleep more than the
  // time from start to the deadline, so communicate is not later than that plus the time it
  // spends working.
  ghost predicate OnTime(clock: Clock, start: int, slept0: nat, deadline: int)
    reads clock
  {
    && 0 <= clock.slept - slept0 <= clock.time - start
    && clock.slept - slept0 < (if start < deadline then deadline - start else 0) + 100_000_000
  }

  lemma OnTimeAtFirst(clock: Clock, deadline: int)
    ensures OnTime(clock, clock.time, clock.slept, deadline)
  {
  }

  // Every wait watches the output of the solution, watches its input unless everything to be
  // written has been taken or the kernel has reported the write end broken, starts before the
  // deadline, lasts at most 100 ms, and leaves no reported event unattended.
  ghost predicate Disciplined(waits: seq<Wait>, all: Bytes, deadline: int) {
    forall w | w in waits ::
      && ReadEnd in w.interest && (WriteEnd in w.interest || w.delivered == all || w.writeEndBroken)
      && w.time < deadline && w.timeout == 100_000_000 && w.owed == {}
  }

  // The last thing the kernel reported is the end of the solution's output.
  ghost predicate EndsReported(waits: seq<Wait>) {
    waits != [] && ReportsEnd(Last(waits).batch)
  }

  lemma DisciplineStarts(all: Bytes, deadline: int)
    ensures Disciplined([], all, deadline)
  {
  }

  lemma OwedAfter(events: seq<Event>, i: nat)
    requires i < |events| <= 2 && (|events| == 2 ==> events[0].fd != events[1].fd)
    ensures Reported(events[i + 1..]) == Reported(events[i..]) - {events[i].fd}
  {
    assert events[i..] == [events[i]] + events[i + 1..];
  }

  class Solution {
    const pid: nat
    const pipes: Pipes
    var tokenizer: Option<Tokenizer>
    var tokenizerStatus: Verdict
    var result: Bytes
    var inbuf: Bytes
    var outbuf: Bytes
    var resourceLimits: Limits

    constructor (pid: nat, pipes: Pipes)
      ensures this.pid == pid && this.pipes == pipes
      ensures tokenizer.None? && tokenizerStatus == Continue && result == [] && inbuf == [] && outbuf == []
    {
      this.pid, this.pipes := pid, pipes;
      tokenizer, tokenizerStatus, result, inbuf, outbuf := None, Continue, [], [], [];
      resourceLimits := *;
    }

    ghost function State(): Session
      reads this
    {
      Session(tokenizer, tokenizerStatus, result, inbuf, outbuf, resourceLimits)
    }

    ghost function CurrentWorld(): World
      reads this, pipes
    {
      World(State(), pipes.unread)
    }

    // The session, and what has gone through its pipes, are where the transfers io lead from o.
    ghost predicate Progress(o: Origin, io: IO)
      reads this, pipes
    {
      && Ready(o.session) && o.session.verdict == Continue
      && Transfers(o.session, o.unread, io)
      && State() == CommFn(o.session, io)
      && pipes.unread == o.unread[|io.read|..]
      && pipes.received == o.received + io.read
      && pipes.delivered == o.delivered + io.written
    }

    // The write end of the pipe has an event: write until inbuf is drained or the pipe is full.
    // Bytes are left only if the write end is broken, the session is decided, or a write would
    // block or failed.
    method ServeWriteEnd(ev: Event, epoll: Epoll, ghost o: Origin, ghost io: IO)
      returns (thrown: bool, ghost io': IO)
      requires Progress(o, io) && epoll.pipes == pipes
      requires WriteEnd in epoll.interest && (ev.epollout || ev.err || ev.hup)
      modifies this`inbuf, pipes`delivered, pipes`owed, pipes`errors, pipes`usedWith
      modifies epoll`interest, epoll`suspended
      ensures Progress(o, io') && io'.outcome == io.outcome
      ensures old(epoll.interest) - {WriteEnd} <= epoll.interest <= old(epoll.interest)
      ensures WriteEnd !in epoll.interest ==> inbuf == [] || ev.err || ev.hup
      ensures !thrown && tokenizerStatus == Continue ==> pipes.owed == old(pipes.owed) - {WriteEnd}
      ensures !thrown && WriteEnd in epoll.interest && tokenizerStatus == Continue ==> inbuf != []
      ensures thrown ==> tokenizerStatus == Continue
      ensures pipes.errors == old(pipes.errors) + (if thrown then 1 else 0)
      ensures pipes.usedWith <= old(pipes.usedWith) + {pipes.killer.calls}
    {
      hide Feed, CommFn, Transfers;
      io' := io;
      if ev.err || ev.hup {
        epoll.Del(WriteEnd);
        return false, io';
      }
      if tokenizerStatus != Continue {
        return false, io';
      }
      while inbuf != []
        invariant Progress(o, io') && io'.outcome == io.outcome
        invariant tokenizerStatus == Continue && epoll.interest == old(epoll.interest)
        invariant pipes.owed == old(pipes.owed) && pipes.errors == old(pipes.errors)
        invariant pipes.usedWith <= old(pipes.usedWith) + {pipes.killer.calls}
        decreases |inbuf|
      {
        var bsize := Min(BUFSIZ, |inbuf|);
        var r := pipes.Write(inbuf[..bsize]);
        match r {
          case WriteBlocks => break;
          case WriteError => return true, io';
          case Wrote(size) =>
            WriteExtends(o.session, o.unread, io', size);
            io' := io'.(written := io'.written + inbuf[..size]);
            assert inbuf[..bsize][..size] == inbuf[..size];
            inbuf := inbuf[size..];
        }
      }
      if inbuf == [] {
        epoll.Del(WriteEnd);
      }
      return false, io';
    }

    // One chunk goes through the tokenizer; what it accepts is result, what follows is outbuf.
    method Tokenize(data: Bytes, epoll: Epoll)
      requires Ready(State()) && tokenizerStatus == Continue && ReadEnd in epoll.interest && epoll.pipes == pipes
      modifies this`tokenizer, this`tokenizerStatus, this`result, this`outbuf
      modifies epoll`interest, epoll`suspended, pipes`owed
      ensures State() == Absorb(old(State()), data)
      ensures epoll.interest == old(epoll.interest) - (if tokenizerStatus == Fail then {ReadEnd} else {})
      ensures tokenizerStatus == Continue ==> pipes.owed == old(pipes.owed)
    {
      var reply := Feed(tokenizer.value, data);
      tokenizer := Some(reply.tok);
      tokenizerStatus := reply.verdict;
      match reply.verdict {
        case Fail => epoll.Del(ReadEnd);
        case Continue => result := result + data;
        case Accepted =>
          result := result + data[..reply.accepted];
          outbuf := outbuf + data[reply.accepted..];
      }
    }

    // A chunk that was read and tokenized is one more of the transfers.
    lemma ChunkIsProgress(o: Origin, io: IO, data: Bytes)
      requires Ready(o.session) && o.session.verdict == Continue && Transfers(o.session, o.unread, io)
      requires CommFn(o.session, io).verdict == Continue && Ready(CommFn(o.session, io))
      requires 0 < |data| <= BUFSIZ && o.unread[|io.read|..] == data + pipes.unread
      requires State() == Absorb(CommFn(o.session, io), data)
      requires pipes.received == o.received + io.read + data && pipes.delivered == o.delivered + io.written
      ensures Progress(o, io.(read := io.read + data, last := |data|))
    {
      hide Feed, CommFn, Absorb, Transfers;
      ReadExtends(o.session, o.unread, io, data);
      assert pipes.unread == (data + pipes.unread)[|data|..];
    }

    // The read end is readable: read and tokenize until a decision or until nothing is left. An
    // undecided session has met a read that would block, the end of file, or an error.
    method ServeReadEnd(epoll: Epoll, ghost o: Origin, ghost io: IO)
      returns (thrown: bool, ghost io': IO)
      requires Progress(o, io) && ReadEnd in epoll.interest && epoll.pipes == pipes
      modifies this`tokenizer, this`tokenizerStatus, this`result, this`outbuf
      modifies pipes`unread, pipes`received, pipes`owed, pipes`errors, pipes`usedWith
      modifies epoll`interest, epoll`suspended
      ensures Progress(o, io') && io'.outcome == io.outcome
      ensures old(pipes.unread) == [] ==> pipes.unread == []
      ensures old(epoll.interest) - {ReadEnd} <= epoll.interest <= old(epoll.interest)
      ensures tokenizerStatus == Continue ==> ReadEnd in epoll.interest
      ensures old(tokenizerStatus) != Continue ==> tokenizerStatus == old(tokenizerStatus)
      ensures !thrown && tokenizerStatus == Continue ==> pipes.owed == old(pipes.owed) - {ReadEnd}
      ensures thrown ==> tokenizerStatus == Continue
      ensures pipes.errors == old(pipes.errors) + (if thrown then 1 else 0)
      ensures pipes.usedWith <= old(pipes.usedWith) + {pipes.killer.calls}
    {
      hide Feed, CommFn, Absorb, Transfers;
      io' := io;
      while tokenizerStatus == Continue
        invariant Progress(o, io') && io'.outcome == io.outcome
        invariant old(pipes.unread) == [] ==> pipes.unread == []
        invariant old(epoll.interest) - {ReadEnd} <= epoll.interest <= old(epoll.interest)
        invariant tokenizerStatus == Continue ==> ReadEnd in epoll.interest && pipes.owed == old(pipes.owed)
        invariant old(tokenizerStatus) != Continue ==> tokenizerStatus == old(tokenizerStatus)
        invariant pipes.errors == old(pipes.errors)
        invariant pipes.usedWith <= old(pipes.usedWith) + {pipes.killer.calls}
        decreases |pipes.unread|, tokenizerStatus == Continue
      {
        CommIsReady(o.session, o.unread, io');
        var r := pipes.Read(BUFSIZ);
        match r {
          case EndOfFile => return false, io';
          case ReadBlocks => return false, io';
          case ReadError => return true, io';
          case Chunk(data) =>
            Tokenize(data, epoll);
            ChunkIsProgress(o, io', data);
            io' := io'.(read := io'.read + data, last := |data|);
        }
      }
      return false, io';
    }

    // No wakeup can be lost: output is watched, and input as long as there is something to write.
    ghost predicate Watching(epoll: Epoll, all: Bytes)
      reads epoll, pipes
    {
      && ReadEnd in epoll.interest
      && (WriteEnd in epoll.interest || pipes.delivered == all || epoll.writeEndBroken)
    }

    // The wait loop: sleep until there is an event or the deadline has passed.
    method AwaitBatch(clock: Clock, epoll: Epoll, untilPoint: int,
                      ghost o: Origin, ghost io: IO, ghost all: Bytes, ghost start: int, ghost slept0: nat)
      returns (events: seq<Event>, now: int)
      requires Progress(o, io)
      requires epoll.pipes == pipes && Watching(epoll, all) && pipes.owed == {}
      requires Disciplined(pipes.waits, all, untilPoint) && OnTime(clock, start, slept0, untilPoint)
      modifies pipes`waits, pipes`owed, pipes`usedWith, epoll`writeEndBroken, clock
      ensures now == clock.time > old(clock.time)
      ensures BatchOk(events, epoll.interest, pipes.unread == [])
      ensures pipes.owed == Reported(events)
      ensures epoll.writeEndBroken == (old(epoll.writeEndBroken) || ReportsBroken(events))
      ensures events == [] ==> now >= untilPoint && pipes.owed == {}
      ensures events != [] ==> old(clock.time) < untilPoint
      ensures ReportsEnd(events) ==> EndsReported(pipes.waits)
      ensures Disciplined(pipes.waits, all, untilPoint) && OnTime(clock, start, slept0, untilPoint)
      ensures Watching(epoll, all) && Progress(o, io)
      ensures pipes.usedWith <= old(pipes.usedWith) + {pipes.killer.calls}
    {
      events := [];
      now := clock.Now();
      while events == [] && now < untilPoint
        invariant now == clock.time > old(clock.time)
        invariant BatchOk(events, epoll.interest, pipes.unread == [])
        invariant pipes.owed == Reported(events)
        invariant epoll.writeEndBroken == (old(epoll.writeEndBroken) || ReportsBroken(events))
        invariant events != [] ==> old(clock.time) < untilPoint
        invariant events != [] ==> pipes.waits != [] && Last(pipes.waits).batch == events
        invariant Disciplined(pipes.waits, all, untilPoint) && OnTime(clock, start, slept0, untilPoint)
        invariant pipes.usedWith <= old(pipes.usedWith) + {pipes.killer.calls}
        decreases untilPoint - now
      {
        events := epoll.AwaitEvents(clock, WAIT_MILLIS * NANOS_PER_MILLI);
        now := clock.Now();
      }
    }

    // A drained inbuf has gone through the pipe completely.
    lemma Drained(o: Origin, io: IO)
      requires Progress(o, io)
      ensures inbuf == [] ==> pipes.delivered == o.delivered + o.session.inbuf
    {
      DrainedIsDelivered(o.session, o.unread, io);
    }

    // The event loop over one batch; the result is None to go on waiting, and then every event of
    // the batch has been attended to.
    method ServeBatch(events: seq<Event>, epoll: Epoll, ghost o: Origin, ghost io: IO)
      returns (outcome: Option<Outcome>, ghost io': IO)
      requires Progress(o, io) && tokenizerStatus == Continue && epoll.pipes == pipes
      requires Watching(epoll, o.delivered + o.session.inbuf)
      requires BatchOk(events, epoll.interest, pipes.unread == [])
      requires pipes.owed == Reported(events) && (ReportsBroken(events) ==> epoll.writeEndBroken)
      modifies this`tokenizer, this`tokenizerStatus, this`result, this`inbuf, this`outbuf
      modifies pipes`unread, pipes`received, pipes`delivered, pipes`owed, pipes`errors, pipes`usedWith
      modifies epoll`interest, epoll`suspended
      ensures Progress(o, io') && io'.outcome == io.outcome
      ensures tokenizerStatus == Continue && outcome.None? ==>
                Watching(epoll, o.delivered + o.session.inbuf) && pipes.owed == {}
      ensures outcome == Some(Done) ==> pipes.unread == [] && ReportsEnd(events)
      ensures outcome == Some(Broken) ==> tokenizerStatus == Continue
      ensures outcome != Some(TimedOut)
      ensures pipes.errors == old(pipes.errors) + (if outcome == Some(Broken) then 1 else 0)
      ensures pipes.usedWith <= old(pipes.usedWith) + {pipes.killer.calls}
    {
      hide Progress;
      ghost var all := o.delivered + o.session.inbuf;
      io' := io;
      for i := 0 to |events|
        invariant Progress(o, io') && io'.outcome == io.outcome
        invariant forall j | i <= j < |events| :: events[j].fd in epoll.interest
        invariant old(pipes.unread) == [] ==> pipes.unread == []
        invariant WriteEnd in epoll.interest || pipes.delivered == all || epoll.writeEndBroken
        invariant tokenizerStatus == Continue ==> ReadEnd in epoll.interest && pipes.owed == Reported(events[i..])
        invariant pipes.errors == old(pipes.errors)
        invariant pipes.usedWith <= old(pipes.usedWith) + {pipes.killer.calls}
      {
        var ev := events[i];
        var thrown;
        assert tokenizerStatus == Continue ==> Reported(events[i + 1..]) == pipes.owed - {ev.fd} by {
          OwedAfter(events, i);
        }
        if ev.fd == WriteEnd {
          thrown, io' := ServeWriteEnd(ev, epoll, o, io');
          Drained(o, io');
        } else {
          if !ev.epollin {
            return Some(Done), io';
          }
          thrown, io' := ServeReadEnd(epoll, o, io');
        }
        if thrown {
          return Some(Broken), io';
        }
      }
      assert events[|events|..] == [];
      return None, io';
    }

    lemma ProgressStarts(o: Origin)
      requires o == Origin(State(), pipes.unread, pipes.received, pipes.delivered)
      requires Ready(State()) && tokenizerStatus == Continue
      ensures Progress(o, IO(true, [], [], 0, Done))
    {
      NothingTransferred(o.session, o.unread);
    }

    // Where communicate stops, its transfers are legal for the outcome.
    lemma Concluded(o: Origin, io: IO, outcome: Outcome)
      requires Progress(o, io)
      requires tokenizerStatus != Continue ==> outcome == Done
      requires tokenizerStatus == Continue && outcome == Done ==> pipes.unread == []
      ensures IOLegal(o.session, o.unread, io.(outcome := outcome)) && Progress(o, io.(outcome := outcome))
    {
      ReturnIsLegal(o.session, o.unread, io, outcome);
    }

    // The event loop: wait for a batch and serve it, until the session is decided.
    method ServeEvents(clock: Clock, epoll: Epoll, untilPoint: int,
                       ghost o: Origin, ghost start: int, ghost slept0: nat)
      returns (outcome: Outcome, ghost io: IO)
      requires o == Origin(State(), pipes.unread, pipes.received, pipes.delivered)
      requires Ready(State()) && tokenizerStatus == Continue && epoll.pipes == pipes
      requires Watching(epoll, pipes.delivered + inbuf) && pipes.owed == {} && pipes.waits == []
      requires OnTime(clock, start, slept0, untilPoint)
      modifies this`tokenizer, this`tokenizerStatus, this`result, this`inbuf, this`outbuf, pipes, clock, epoll
      ensures io.outcome == outcome && Progress(o, io) && IOLegal(o.session, o.unread, io)
      ensures Disciplined(pipes.waits, o.delivered + o.session.inbuf, untilPoint)
      ensures OnTime(clock, start, slept0, untilPoint) && old(clock.time) <= clock.time
      ensures outcome == TimedOut ==> clock.time >= untilPoint && pipes.owed == {}
      ensures pipes.errors == old(pipes.errors) + (if outcome == Broken then 1 else 0)
      ensures pipes.usedWith <= old(pipes.usedWith) + {pipes.killer.calls}
      ensures outcome == Done && tokenizerStatus == Continue ==> EndsReported(pipes.waits)
    {
      hide Feed, CommFn, Transfers, IOLegal, Disciplined, OnTime, BatchOk, ReportsBroken, Reported, ReportsEnd;
      hide Progress, Watching, EndsReported;
      ghost var all := pipes.delivered + inbuf;
      io := IO(true, [], [], 0, Done);
      ProgressStarts(o);
      DisciplineStarts(all, untilPoint);
      while tokenizerStatus == Continue
        invariant Progress(o, io) && io.outcome == Done
        invariant tokenizerStatus == Continue ==> Watching(epoll, all) && pipes.owed == {}
        invariant old(clock.time) <= clock.time
        invariant Disciplined(pipes.waits, all, untilPoint) && OnTime(clock, start, slept0, untilPoint)
        invariant pipes.errors == old(pipes.errors)
        invariant pipes.usedWith <= old(pipes.usedWith) + {pipes.killer.calls}
        decreases untilPoint - clock.time
      {
        var events, now := AwaitBatch(clock, epoll, untilPoint, o, io, all, start, slept0);
        if events == [] && now >= untilPoint {
          Concluded(o, io, TimedOut);
          return TimedOut, io.(outcome := TimedOut);
        }
        var stop;
        stop, io := ServeBatch(events, epoll, o, io);
        if stop.Some? {
          Concluded(o, io, stop.value);
          return stop.value, io.(outcome := stop.value);
        }
      }
      Concluded(o, io, Done);
      return Done, io.(outcome := Done);
    }

    // BrokerImpl::communicate, called for a session that is still undecided.
    method Communicate(clock: Clock) returns (outcome: Outcome, ghost io: IO, ghost start: int, ghost deadline: int)
      requires Ready(State()) && tokenizerStatus == Continue
      modifies this`tokenizer, this`tokenizerStatus, this`result, this`inbuf, this`outbuf, pipes, clock
      ensures io.outcome == outcome && IOLegal(old(State()), old(pipes.unread), io)
      ensures State() == CommFn(old(State()), io)
      ensures pipes.unread == old(pipes.unread)[|io.read|..]
      ensures pipes.received == old(pipes.received) + io.read
      ensures pipes.delivered == old(pipes.delivered) + io.written
      ensures old(clock.time) < start <= clock.time
      // The deadline, unless 64-bit nanoseconds cannot hold it.
      ensures var limit := resourceLimits.realTimeLimit * 1_000_000;
              (&& -0x8000_0000_0000_0000 <= limit < 0x8000_0000_0000_0000
               && -0x8000_0000_0000_0000 <= start + limit < 0x8000_0000_0000_0000) ==>
                deadline == start + limit
      ensures Disciplined(pipes.waits, old(pipes.delivered + inbuf), deadline)
      ensures OnTime(clock, start, old(clock.slept), deadline)
      // Every outcome has its cause: a timeout comes past the deadline with no reported event
      // unattended; an error is thrown exactly if the kernel reported one; an undecided session
      // ends because the kernel reported the end of the output.
      ensures outcome == TimedOut ==> clock.time >= deadline && pipes.owed == {}
      ensures pipes.errors == old(pipes.errors) + (if outcome == Broken then 1 else 0)
      ensures pipes.usedWith <= old(pipes.usedWith) + {pipes.killer.calls}
      ensures outcome == Done && tokenizerStatus == Continue ==> EndsReported(pipes.waits)
    {
      hide Feed, CommFn, Transfers, IOLegal, Disciplined, OnTime;
      var begun := clock.Now();
      start := begun;
      var untilPoint: int := *;
      var limit := resourceLimits.realTimeLimit * NANOS_PER_MILLI;
      if InInt64(limit) && InInt64(begun + limit) {
        untilPoint := begun + limit;
      }
      deadline := untilPoint;
      OnTimeAtFirst(clock, deadline);
      var epoll := new Epoll(pipes);
      epoll.Add(WriteEnd);
      assert pipes.owed == {};
      epoll.Add(ReadEnd);
      assert pipes.owed == {} && epoll.interest == {WriteEnd, ReadEnd};
      ghost var o := Origin(State(), pipes.unread, pipes.received, pipes.delivered);
      outcome, io := ServeEvents(clock, epoll, untilPoint, o, start, clock.slept);
    }
  }

  class BrokerImpl {
    const lib: Library
    const defaultArgument: Bytes
    const defaultLimits: Limits
    const solutions: seq<Solution>
    const killer: Killer
    const clock: Clock
    ghost const start: seq<World>
    ghost var log: seq<Entry>

    ghost function Footprint(): set<object> {
      {killer, clock} + (set s | s in solutions) + (set s | s in solutions :: s.pipes)
    }

    ghost predicate Separate() {
      && (forall i, j | 0 <= i < j < |solutions| ::
            solutions[i] != solutions[j] && solutions[i].pipes != solutions[j].pipes)
      && forall i | 0 <= i < |solutions| :: solutions[i].pipes.killer == killer
    }

    ghost function Pids(): (pids: seq<nat>)
      ensures |pids| == |solutions|
    {
      seq(|solutions|, i requires 0 <= i < |solutions| => solutions[i].pid)
    }

    // Solution i is where the legal run log leads: session, pipes and all. Its pipes were read,
    // written and waited for only while it was the one thawed process.
    ghost predicate Follows(i: nat)
      requires i < |solutions| == |start|
      reads this, solutions[i], solutions[i].pipes
    {
      var r := RunAll(lib, start, log);
      && r.Some? && solutions[i].CurrentWorld() == r.value[i]
      && start[i].unread == solutions[i].pipes.received + solutions[i].pipes.unread
      && solutions[i].pipes.delivered == Delivered(Project(log, i))
      && forall told | told in solutions[i].pipes.usedWith :: Thawed(All(Pids()), told) == {solutions[i].pid}
    }

    // Every reachable broker is at the end of a legal run of the model, and has made exactly
    // the killer calls of that run. An operation has crashed if and only if the kernel reported
    // a failed read or write.
    ghost predicate Valid()
      reads this, Footprint()
    {
      && Separate() && |start| == |solutions|
      && (forall i | 0 <= i < |solutions| :: start[i].session == Idle(defaultLimits) && Follows(i))
      && RunAll(lib, start, log).Some? && InRange(log, |solutions|)
      && killer.calls == KillerCalls(Pids(), log)
      && (log == [] || NoCrash(Front(log)))
      && (NoCrash(log) <==> forall i | 0 <= i < |solutions| :: solutions[i].pipes.errors == 0)
    }

    // A thrown SystemError ends the broker; before that, it takes calls.
    ghost predicate Running()
      reads this
    {
      NoCrash(log)
    }

    constructor (lib: Library, defaultArgument: Bytes, defaultLimits: Limits,
                 solutions: seq<Solution>, killer: Killer, clock: Clock)
      requires forall i, j | 0 <= i < j < |solutions| ::
                 solutions[i] != solutions[j] && solutions[i].pipes != solutions[j].pipes
      requires forall s | s in solutions ::
                 && s.State() == Idle(s.resourceLimits)
                 && s.pipes.received == [] && s.pipes.delivered == [] && s.pipes.errors == 0
                 && s.pipes.usedWith == {} && s.pipes.killer == killer
      requires killer.calls == []
      modifies solutions, killer
      ensures Valid() && Running() && log == []
      ensures |killer.calls| == |solutions|
      ensures forall i | 0 <= i < |solutions| ::
                killer.calls[i] == Freeze(solutions[i].pid) && solutions[i].State() == Idle(defaultLimits)
      ensures this.lib == lib && this.solutions == solutions && this.killer == killer && this.clock == clock
      ensures this.defaultArgument == defaultArgument && this.defaultLimits == defaultLimits
    {
      this.lib, this.defaultArgument, this.defaultLimits := lib, defaultArgument, defaultLimits;
      this.solutions, this.killer, this.clock := solutions, killer, clock;
      start := seq(|solutions|, i requires 0 <= i < |solutions| reads set s | s in solutions :: s.pipes =>
                   World(Idle(defaultLimits), solutions[i].pipes.unread));
      log := [];
      new;
      for i := 0 to |solutions|
        invariant log == [] && killer.calls == Construction(Pids())[..i]
        invariant forall j | 0 <= j < |solutions| ::
                    solutions[j].State() == Idle(if j < i then defaultLimits else old(solutions[j].resourceLimits))
      {
        var status := killer.Call(Freeze(solutions[i].pid));
        solutions[i].resourceLimits := defaultLimits;
      }
    }

    // The operation op on solution id has taken effect but is not in the log yet.
    ghost predicate Performed(id: nat, op: Op)
      reads this, Footprint()
    {
      && id < |solutions| == |start| && Separate()
      && (forall i | 0 <= i < |solutions| :: start[i].session == Idle(defaultLimits) && (i != id ==> Follows(i)))
      && RunAll(lib, start, log).Some? && InRange(log, |solutions|) && NoCrash(log)
      && var w := RunAll(lib, start, log).value[id];
         var pipes := solutions[id].pipes;
      && Legal(lib, w, op) && solutions[id].CurrentWorld() == Exec(lib, w, op)
      && start[id].unread == pipes.received + pipes.unread
      && pipes.delivered == Delivered(Project(log, id)) + (if op.End? then op.io.written else [])
      && (forall told | told in pipes.usedWith :: Thawed(All(Pids()), told) == {solutions[id].pid})
      && killer.calls == KillerCalls(Pids(), log) + KillerCallsOf(solutions[id].pid, op)
      && forall i | 0 <= i < |solutions| :: solutions[i].pipes.errors == if i == id && Crashes(op) then 1 else 0
    }

    ghost method Record(id: nat, op: Op)
      requires Performed(id, op)
      modifies this`log
      ensures Valid() && log == old(log) + [Entry(id, op)]
      ensures Running() <==> !Crashes(op)
    {
      hide RunAll, Project, Delivered, KillerCalls, KillerCallsOf, Exec, Legal;
      var before := log;
      log := before + [Entry(id, op)];
      var ws := RunAll(lib, start, before).value;
      RunAllSnoc(lib, start, before, id, op);
      KillerCallsSnoc(Pids(), before, id, op);
      NoCrashSnoc(before, id, op);
      forall i | 0 <= i < |solutions|
        ensures Follows(i)
      {
        assert i != id ==> old(Follows(i));
        assert solutions[i].CurrentWorld() == ws[id := Exec(lib, ws[id], op)][i];
        ProjectSnoc(before, id, op, i);
        DeliveredSnoc(Project(before, id), op);
      }
    }

    // begin, as far as it concerns the solution: bytes read ahead by earlier sessions are
    // tokenized first.
    method BeginSession(sol: Solution, arg: Bytes, limits: Limits)
      requires ArgumentOk(lib, arg)
      modifies sol
      ensures sol.State() == BeginFn(lib, old(sol.State()), arg, limits)
      ensures sol.resourceLimits == limits && sol.inbuf == old(sol.inbuf)
    {
      hide Feed;
      sol.tokenizer := Some(Fresh(lib, arg));
      sol.tokenizerStatus := Continue;
      sol.result := [];
      sol.resourceLimits := limits;
      if sol.outbuf != [] {
        var reply := Feed(sol.tokenizer.value, sol.outbuf);
        sol.tokenizer := Some(reply.tok);
        sol.tokenizerStatus := reply.verdict;
        match reply.verdict {
          case Fail =>
          case Accepted =>
            sol.result := sol.outbuf[..reply.accepted];
            sol.outbuf := sol.outbuf[reply.accepted..];
          case Continue =>
            sol.result := sol.outbuf;
            sol.outbuf := [];
        }
      }
    }

    // begin(id, tokenizerArgument, resourceLimits)
    method Begin(id: nat, arg: Bytes, limits: Limits)
      requires Valid() && Running() && id < |solutions|
      requires solutions[id].tokenizer.None? && ArgumentOk(lib, arg)
      modifies this`log, solutions[id]
      ensures Valid() && Running() && log == old(log) + [Entry(id, Op.Begin(arg, limits))]
      ensures solutions[id].State() == BeginFn(lib, old(solutions[id].State()), arg, limits)
      ensures solutions[id].resourceLimits == limits && solutions[id].inbuf == old(solutions[id].inbuf)
      ensures killer.calls == old(killer.calls)
    {
      hide RunAll, KillerCalls, Project, Delivered, Fresh, BeginFn;
      assert Follows(id);
      BeginSession(solutions[id], arg, limits);
      Record(id, Op.Begin(arg, limits));
    }

    // begin(id, tokenizerArgument)
    method BeginWith(id: nat, arg: Bytes)
      requires Valid() && Running() && id < |solutions|
      requires solutions[id].tokenizer.None? && ArgumentOk(lib, arg)
      modifies this`log, solutions[id]
      ensures Valid() && Running() && log == old(log) + [Entry(id, Op.Begin(arg, defaultLimits))]
      ensures solutions[id].State() == BeginFn(lib, old(solutions[id].State()), arg, defaultLimits)
      ensures solutions[id].resourceLimits == defaultLimits && solutions[id].inbuf == old(solutions[id].inbuf)
      ensures killer.calls == old(killer.calls)
    {
      Begin(id, arg, defaultLimits);
    }

    // begin(id)
    method BeginDefault(id: nat)
      requires Valid() && Running() && id < |solutions|
      requires solutions[id].tokenizer.None? && ArgumentOk(lib, defaultArgument)
      modifies this`log, solutions[id]
      ensures Valid() && Running() && log == old(log) + [Entry(id, Op.Begin(defaultArgument, defaultLimits))]
      ensures solutions[id].State() == BeginFn(lib, old(solutions[id].State()), defaultArgument, defaultLimits)
      ensures solutions[id].resourceLimits == defaultLimits && solutions[id].inbuf == old(solutions[id].inbuf)
      ensures killer.calls == old(killer.calls)
    {
      BeginWith(id, defaultArgument);
    }

    method Send(id: nat, msg: Bytes)
      requires Valid() && Running() && id < |solutions| && solutions[id].tokenizer.Some?
      modifies this`log, solutions[id]
      ensures Valid() && Running() && log == old(log) + [Entry(id, Op.Send(msg))]
      ensures solutions[id].State() == old(solutions[id].State()).(inbuf := old(solutions[id].inbuf) + msg)
      ensures killer.calls == old(killer.calls)
    {
      hide Feed, RunAll, KillerCalls, Project, Delivered;
      var sol := solutions[id];
      assert Follows(id);
      sol.inbuf := sol.inbuf + msg;
      Record(id, Op.Send(msg));
    }

    // The body of terminate, which end also runs after a timeout.
    method KillAndReset(sol: Solution)
      modifies sol, killer
      ensures sol.State() == TerminateFn(old(sol.State())) && killer.calls == old(killer.calls) + [Kill(sol.pid)]
    {
      var status := killer.Call(Kill(sol.pid));
      sol.tokenizer := None;
      sol.inbuf := [];
      sol.outbuf := [];
    }

    method Terminate(id: nat)
      requires Valid() && Running() && id < |solutions|
      modifies this`log, solutions[id], killer
      ensures Valid() && Running() && log == old(log) + [Entry(id, Op.Terminate)]
      ensures solutions[id].State() == old(solutions[id].State()).(tokenizer := None, inbuf := [], outbuf := [])
      ensures killer.calls == old(killer.calls) + [Kill(solutions[id].pid)]
    {
      hide Feed, RunAll, KillerCalls, Project, Delivered;
      assert Follows(id);
      KillAndReset(solutions[id]);
      Record(id, Op.Terminate);
    }

    // An active session can be ended: its tokenizer is usable if it is undecided.
    lemma ReadyToEnd(id: nat)
      requires Valid() && id < |solutions| && solutions[id].tokenizer.Some?
      ensures Ready(solutions[id].State())
    {
      Projection(lib, start, log, id);
      assert Follows(id);
      ReachableIsCoupled(lib, defaultLimits, start[id].unread, Project(log, id));
    }

    // Thaw, communicate, freeze; a thrown error skips the freeze.
    method CommunicateThawed(sol: Solution) returns (outcome: Outcome, ghost io: IO)
      requires Ready(sol.State()) && sol.tokenizerStatus == Continue && sol.pipes.killer == killer
      modifies sol, sol.pipes, killer, clock
      ensures io.outcome == outcome && IOLegal(old(sol.State()), old(sol.pipes.unread), io)
      ensures sol.State() == CommFn(old(sol.State()), io)
      ensures sol.pipes.unread == old(sol.pipes.unread)[|io.read|..]
      ensures sol.pipes.received == old(sol.pipes.received) + io.read
      ensures sol.pipes.delivered == old(sol.pipes.delivered) + io.written
      ensures killer.calls == old(killer.calls) + [Thaw(sol.pid)] +
                              (if outcome == Broken then [] else [Freeze(sol.pid)])
      ensures sol.pipes.errors == old(sol.pipes.errors) + (if outcome == Broken then 1 else 0)
      ensures io.outcome == TimedOut ==>
                var limit := old(sol.resourceLimits).realTimeLimit * 1_000_000;
                (&& -0x8000_0000_0000_0000 <= limit < 0x8000_0000_0000_0000
                 && -0x8000_0000_0000_0000 <= old(clock.time) + limit
                 && clock.time + limit < 0x8000_0000_0000_0000) ==>
                  old(clock.time) + limit < clock.time
      ensures sol.pipes.usedWith <= old(sol.pipes.usedWith) + {old(killer.calls) + [Thaw(sol.pid)]}
      ensures outcome == Done && sol.tokenizerStatus == Continue ==> EndsReported(sol.pipes.waits)
    {
      hide CommFn, IOLegal, Disciplined, OnTime, EndsReported;
      var status := killer.Call(Thaw(sol.pid));
      ghost var start, deadline;
      outcome, io, start, deadline := sol.Communicate(clock);
      if outcome != Broken {
        status := killer.Call(Freeze(sol.pid));
      }
    }

    // The rest of end: discard, turn a timeout into a termination, report the verdict.
    method Conclude(sol: Solution, discardRemaining: bool, outcome: Outcome) returns (answer: Answer)
      requires sol.tokenizer.Some?
      modifies sol, killer
      ensures (sol.State(), answer) == ConcludeFn(old(sol.State()), discardRemaining, outcome)
      ensures killer.calls == old(killer.calls) + (if outcome == TimedOut then [Kill(sol.pid)] else [])
    {
      if outcome == Broken {
        sol.tokenizer := None;
        return Thrown;
      }
      if discardRemaining {
        sol.inbuf := [];
      }
      if outcome == TimedOut {
        KillAndReset(sol);
        return Returned(Result(REAL_TIME_LIMIT_EXCEEDED, []));
      }
      match sol.tokenizerStatus {
        case Fail => answer := Returned(Result(TOKENIZER_ERROR, What(sol.tokenizer.value)));
        case Continue => answer := Returned(Result(EOF_ERROR, []));
        case Accepted => answer := Returned(Result(OK, sol.result));
      }
      sol.tokenizer := None;
    }

    // end, as far as it concerns the solution: the answer is that of EndFn for the transfers
    // io, which are what went through the pipes.
    method EndSession(sol: Solution, discardRemaining: bool) returns (answer: Answer, ghost io: IO)
      requires Ready(sol.State()) && sol.pipes.killer == killer
      modifies sol, sol.pipes, killer, clock
      ensures IOLegal(old(sol.State()), old(sol.pipes.unread), io)
      ensures (sol.State(), answer) == EndFn(old(sol.State()), discardRemaining, io)
      ensures sol.pipes.unread == old(sol.pipes.unread)[|io.read|..]
      ensures sol.pipes.received == old(sol.pipes.received) + io.read
      ensures sol.pipes.delivered == old(sol.pipes.delivered) + io.written
      ensures killer.calls == old(killer.calls) + KillerCallsOf(sol.pid, Op.End(discardRemaining, io))
      ensures answer.Thrown? <==> Crashes(Op.End(discardRemaining, io))
      ensures sol.pipes.errors == old(sol.pipes.errors) + (if answer.Thrown? then 1 else 0)
      ensures io.outcome == TimedOut ==>
                var limit := old(sol.resourceLimits).realTimeLimit * 1_000_000;
                (&& -0x8000_0000_0000_0000 <= limit < 0x8000_0000_0000_0000
                 && -0x8000_0000_0000_0000 <= old(clock.time) + limit
                 && clock.time + limit < 0x8000_0000_0000_0000) ==>
                  old(clock.time) + limit < clock.time
      ensures io.ran <==> old(sol.tokenizerStatus) == Continue
      ensures killer.calls == old(killer.calls) +
                              (if !io.ran then [] else
                               match io.outcome
                               case Done => [Thaw(sol.pid), Freeze(sol.pid)]
                               case TimedOut => [Thaw(sol.pid), Freeze(sol.pid), Kill(sol.pid)]
                               case Broken => [Thaw(sol.pid)])
      ensures sol.pipes.usedWith <= old(sol.pipes.usedWith) + {old(killer.calls) + [Thaw(sol.pid)]}
      ensures io.outcome == TimedOut ==> answer == Returned(Result(REAL_TIME_LIMIT_EXCEEDED, []))
      ensures io.outcome == Broken ==> answer == Thrown
      ensures io.outcome == Done ==>
                && answer.Returned? && answer.result.status in {OK, TOKENIZER_ERROR, EOF_ERROR}
                && (answer.result.status == EOF_ERROR ==> answer.result.data == [])
      ensures sol.tokenizer.None? && sol.resourceLimits == old(sol.resourceLimits)
      ensures io.outcome == TimedOut ==> sol.outbuf == []
      ensures sol.inbuf ==
              if io.outcome == TimedOut || (io.outcome == Done && discardRemaining) then []
              else old(sol.inbuf)[|io.written|..]
      ensures io.ran && answer == Returned(Result(EOF_ERROR, [])) ==> EndsReported(sol.pipes.waits)
    {
      io := NO_IO;
      var outcome := Done;
      if sol.tokenizerStatus == Continue {
        outcome, io := CommunicateThawed(sol);
      }
      answer := Conclude(sol, discardRemaining, outcome);
    }

    method End(id: nat, discardRemaining: bool) returns (answer: Answer, ghost io: IO)
      requires Valid() && Running() && id < |solutions| && solutions[id].tokenizer.Some?
      modifies this`log, solutions[id], solutions[id].pipes, killer, clock
      ensures Valid() && log == old(log) + [Entry(id, Op.End(discardRemaining, io))]
      ensures answer.Returned? <==> Running()
      ensures Ready(old(solutions[id].State()))
      ensures IOLegal(old(solutions[id].State()), old(solutions[id].pipes.unread), io)
      ensures (solutions[id].State(), answer) == EndFn(old(solutions[id].State()), discardRemaining, io)
      ensures solutions[id].pipes.received == old(solutions[id].pipes.received) + io.read
      ensures solutions[id].pipes.delivered == old(solutions[id].pipes.delivered) + io.written
      ensures AnswersFor(lib, start, log, id) ==
              old(AnswersFor(lib, start, log, id)) + (if answer.Returned? then [answer.result] else [])
      ensures solutions[id].pipes.errors == old(solutions[id].pipes.errors) + (if answer.Thrown? then 1 else 0)
      ensures io.outcome == TimedOut ==>
                var limit := old(solutions[id].resourceLimits).realTimeLimit * 1_000_000;
                (&& -0x8000_0000_0000_0000 <= limit < 0x8000_0000_0000_0000
                 && -0x8000_0000_0000_0000 <= old(clock.time) + limit
                 && clock.time + limit < 0x8000_0000_0000_0000) ==>
                  old(clock.time) + limit < clock.time
      // The solution's pipes were used only between the thaw and the commands that follow it.
      ensures io.ran <==> old(solutions[id].tokenizerStatus) == Continue
      ensures var pid := solutions[id].pid;
              killer.calls == old(killer.calls) +
                              (if !io.ran then [] else
                               match io.outcome
                               case Done => [Thaw(pid), Freeze(pid)]
                               case TimedOut => [Thaw(pid), Freeze(pid), Kill(pid)]
                               case Broken => [Thaw(pid)])
      ensures solutions[id].pipes.usedWith <=
              old(solutions[id].pipes.usedWith) + {old(killer.calls) + [Thaw(solutions[id].pid)]}
      // The answer for each outcome, in terms of the argument of the last begin and of what has not
      // been returned yet; and what is left of the session.
      ensures answer.Returned? ==>
                exists k: nat :: LastBeginFor(old(log), id, k) &&
                  IsAnswer(lib, old(log)[k].op.arg, old(Pending(solutions[id].CurrentWorld())), answer.result)
      ensures io.outcome == TimedOut ==> answer == Returned(Result(REAL_TIME_LIMIT_EXCEEDED, []))
      ensures io.outcome == Broken ==> answer == Thrown
      ensures io.outcome == Done ==>
                && answer.Returned? && answer.result.status in {OK, TOKENIZER_ERROR, EOF_ERROR}
                && (answer.result.status == EOF_ERROR ==> answer.result.data == [])
      ensures solutions[id].tokenizer.None? && solutions[id].resourceLimits == old(solutions[id].resourceLimits)
      ensures io.outcome == TimedOut ==> solutions[id].outbuf == []
      ensures solutions[id].inbuf ==
              if io.outcome == TimedOut || (io.outcome == Done && discardRemaining) then []
              else old(solutions[id].inbuf)[|io.written|..]
      ensures io.ran && answer == Returned(Result(EOF_ERROR, [])) ==> EndsReported(solutions[id].pipes.waits)
    {
      hide Feed, RunAll, AllAnswers, AnswersFor, KillerCalls, Project, Delivered, EndFn, IOLegal, CommFn;
      hide IsAnswer, LastBeginFor, Pending, Thawed, All;
      assert Follows(id);
      ReadyToEnd(id);
      ghost var unread := solutions[id].pipes.unread;
      ghost var s := solutions[id].State();
      OneThawed(Pids(), log, solutions[id].pid);
      answer, io := EndSession(solutions[id], discardRemaining);
      LegalTransfersFit(s, unread, io);
      Record(id, Op.End(discardRemaining, io));
      AnswersSnoc(lib, start, old(log), id, Op.End(discardRemaining, io));
      ghost var k := AnswerFitsItsBegin(lib, start, old(log), id, Op.End(discardRemaining, io));
    }
  }

  // ---- the theorems about runs, said of the broker object ----------------------------

  // As long as nothing of solution id's output has been dropped, the judge has been given what a plain reader of the
  // solution's output gets from the same calls: all of it unless the tokenizer failed.
  lemma JudgeSeesTheStream(b: BrokerImpl, id: nat)
    requires b.Valid() && id < |b.solutions| && NothingDropped(b.lib, b.start[id], Project(b.log, id))
    ensures var rd := ReadStream(b.lib, b.start[id].unread, Calls(Project(b.log, id)));
            var answers := AnswersFor(b.lib, b.start, b.log, id);
            && rd.results <= answers
            && (!rd.jammed ==>
                  && rd.results == answers
                  && rd.rest == Pending(b.solutions[id].CurrentWorld()))
  {
    Projection(b.lib, b.start, b.log, id);
    assert b.Follows(id);
    RunRefinesReader(b.lib, b.defaultLimits, b.start[id].unread, Project(b.log, id));
  }

  // The buffers and the tokenizer of every solution of every reachable broker are coupled,
  // and its input was delivered first in, first out.
  lemma ObjectIsCoupled(b: BrokerImpl, id: nat)
    requires b.Valid() && id < |b.solutions|
    ensures Coupled(b.lib, LastArg(Project(b.log, id)), b.solutions[id].State())
    ensures Surviving(Project(b.log, id)) == b.solutions[id].pipes.delivered + b.solutions[id].inbuf
  {
    Projection(b.lib, b.start, b.log, id);
    assert b.Follows(id);
    ReachableIsCoupled(b.lib, b.defaultLimits, b.start[id].unread, Project(b.log, id));
    InputIsFifo(b.lib, b.defaultLimits, b.start[id].unread, Project(b.log, id));
  }

  // The killer was told to terminate a process exactly as often as a terminate or a timed-out end
  // of its solution was logged.
  lemma ObjectKills(b: BrokerImpl, pid: nat)
    requires b.Valid()
    ensures multiset(b.killer.calls)[Kill(pid)] == |TerminatedAt(b.Pids(), b.log, pid)|
  {
    KillsAreTerminations(b.Pids(), b.log, pid);
  }

  // Whenever the pipes of a solution were read, written or waited for, it was the one thawed
  // process, if the killer did what it was told.
  lemma ObjectServesTheThawed(b: BrokerImpl, id: nat)
    requires b.Valid() && id < |b.solutions|
    ensures forall told | told in b.solutions[id].pipes.usedWith ::
              Thawed(All(b.Pids()), told) == {b.solutions[id].pid}
  {
    assert b.Follows(id);
  }

  // Between calls, a broker whose killer has done what it was told has every solution frozen.
  lemma ObjectIsFrozen(b: BrokerImpl)
    requires b.Valid() && b.Running()
    ensures Thawed(All(b.Pids()), b.killer.calls) == {}
  {
    FrozenBetweenOperations(b.Pids(), b.log);
  }
}
