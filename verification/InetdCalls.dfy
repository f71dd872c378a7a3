/** The system calls net/inetd.c makes, and a kernel that answers them. */
module InetdCalls {
  /** A call and its answer; -1 is an error. */
  datatype Call =
    | SocketCall(dgram: bool, answer: int)
    | BindCall(fd: nat, port: nat, ok: bool)
    | ListenCall(fd: nat, ok: bool)
    | CloseCall(fd: nat)
    | DropCall(fd: nat)                             // sockdrop
    | ReceiveCall(fd: nat)                          // recvfrom, for a datagram to be dropped
    | ForkCall(pid: int)
    | WaitCall(alarm: bool, pid: int)
    | AcceptCall(fd: nat, conn: int, bad: bool)     // bad if it says that fd is no socket any more
    | PollCall(fds: seq<nat>, timed: bool, result: PollResult)

  datatype PollResult = Interrupted | Failed | TimedOut | Ready(ready: seq<bool>)

  /** What a socket is bound to, and whether it listens. */
  datatype Port = Port(port: nat, listens: bool)

  /** Processes and descriptors, and all calls so far.  What a call answers is not known: any
      function of the time. */
  class Kernel {
    const coin: nat -> nat
    const who: nat -> nat   // the child that is the next to finish, if it is one
    var clock: nat
    var kids: set<nat>      // children not collected yet
    var open: set<nat>      // descriptors of sockets
    ghost var ports: map<nat, Port>
    ghost var log: seq<Call>

    constructor (coin: nat -> nat, who: nat -> nat)
      ensures kids == {} && open == {} && ports == map[] && log == [] && this.who == who
    {
      this.coin, this.who, clock, kids, open, ports, log := coin, who, 0, {}, {}, map[], [];
    }

    method Toss() returns (n: nat)
      modifies this`clock
    {
      n := coin(clock);
      clock := clock + 1;
    }

    method Socket(dgram: bool) returns (s: int)
      modifies this`clock, this`open, this`log
      ensures log == old(log) + [SocketCall(dgram, s)]
      ensures -1 <= s && open == if s >= 0 then old(open) + {s} else old(open)
      ensures s >= 0 ==> s !in old(open)
    {
      s := Toss();
      if s in open { s := -1; } else { open := open + {s}; }
      log := log + [SocketCall(dgram, s)];
    }

    method Bind(s: nat, port: nat) returns (ok: bool)
      modifies this`clock, this`ports, this`log
      ensures log == old(log) + [BindCall(s, port, ok)]
      ensures ports == if ok then old(ports)[s := Port(port, false)] else old(ports)
    {
      var n := Toss();
      ok := n % 2 == 0;
      if ok { ports := ports[s := Port(port, false)]; }
      log := log + [BindCall(s, port, ok)];
    }

    method Listen(s: nat) returns (ok: bool)
      requires s in ports
      modifies this`clock, this`ports, this`log
      ensures log == old(log) + [ListenCall(s, ok)]
      ensures ports == if ok then old(ports)[s := Port(old(ports)[s].port, true)] else old(ports)
    {
      var n := Toss();
      ok := n % 2 == 0;
      if ok { ports := ports[s := Port(ports[s].port, true)]; }
      log := log + [ListenCall(s, ok)];
    }

    method Close(s: nat)
      modifies this`open, this`ports, this`log
      ensures log == old(log) + [CloseCall(s)] && open == old(open) - {s} && ports == old(ports) - {s}
    {
      open, ports, log := open - {s}, ports - {s}, log + [CloseCall(s)];
    }

    /** The socket lives on, with the child that has it. */
    method Drop(s: nat)
      modifies this`open, this`ports, this`log
      ensures log == old(log) + [DropCall(s)] && open == old(open) - {s} && ports == old(ports) - {s}
    {
      open, ports, log := open - {s}, ports - {s}, log + [DropCall(s)];
    }

    method Receive(s: nat)
      modifies this`log
      ensures log == old(log) + [ReceiveCall(s)]
    {
      log := log + [ReceiveCall(s)];
    }

    method Fork() returns (n: int)
      modifies this`clock, this`kids, this`log
      ensures log == old(log) + [ForkCall(n)]
      ensures -1 <= n && n != 0 && kids == if n > 0 then old(kids) + {n} else old(kids)
      ensures n > 0 ==> n !in old(kids)
    {
      n := Toss();
      if n == 0 || n in kids { n := -1; } else { kids := kids + {n}; }
      log := log + [ForkCall(n)];
    }

    /** wait: a child, or an error when there is none; if an alarm is set, also when none has
        finished in time. */
    method Wait(alarm: bool) returns (pid: int)
      modifies this`clock, this`kids, this`log
      ensures log == old(log) + [WaitCall(alarm, pid)]
      ensures -1 <= pid && kids == if pid >= 0 then old(kids) - {pid} else old(kids)
      ensures pid >= 0 ==> pid in old(kids)
      ensures pid < 0 && !alarm ==> old(kids) == {}
      ensures pid >= 0 && who(old(clock)) in old(kids) ==> pid == who(old(clock))
    {
      pid := who(clock);
      var n := Toss();
      if kids == {} || (alarm && n % 2 == 0) {
        pid := -1;
      } else {
        if pid !in kids { pid :| pid in kids; }
        kids := kids - {pid};
      }
      log := log + [WaitCall(alarm, pid)];
    }

    /** accept: a new descriptor, or an error.  The socket goes on listening unless it is none any
        more. */
    method Accept(fd: nat) returns (conn: int, bad: bool)
      modifies this`clock, this`open, this`ports, this`log
      ensures log == old(log) + [AcceptCall(fd, conn, bad)]
      ensures -1 <= conn && (conn >= 0 ==> !bad && conn !in old(open) && open == old(open) + {conn})
      ensures conn < 0 ==> open == if bad then old(open) - {fd} else old(open)
      ensures ports == if bad then old(ports) - {fd} else old(ports)
    {
      bad := false;
      conn := Toss();
      if conn in open {
        conn := -1;
        var n := Toss();
        bad := n % 2 == 0;
        if bad { open, ports := open - {fd}, ports - {fd}; }
      } else {
        open := open + {conn};
      }
      log := log + [AcceptCall(fd, conn, bad)];
    }

    /** poll: it times out only if a time is given. */
    method Poll(fds: seq<nat>, timed: bool) returns (answer: PollResult)
      modifies this`clock, this`log
      ensures log == old(log) + [PollCall(fds, timed, answer)]
      ensures (answer == TimedOut ==> timed) && (answer.Ready? ==> |answer.ready| == |fds|)
    {
      var n := Toss();
      if n % 4 == 0 {
        answer := Interrupted;
      } else if n % 4 == 1 {
        answer := Failed;
      } else if n % 4 == 2 && timed {
        answer := TimedOut;
      } else {
        var t := clock;
        answer := Ready(seq(|fds|, i requires 0 <= i < |fds| => coin(t + i) % 2 == 1));
        clock := clock + |fds|;
      }
      log := log + [PollCall(fds, timed, answer)];
    }
  }
}
