/** What the functions of net/inetd.c do to its books, call by call. */
module InetdSteps {
  import opened InetdServices
  import opened InetdCalls

  datatype Kind = Nothing | Relay | Service

  /** The services, the count of relays, the relays not collected, and the calls made. */
  datatype Books = Books(servs: seq<Serv>, nkids: int, relays: set<nat>, log: seq<Call>)

  // ---------------------------------------------------------------------- openserv

  /** A service without socket and owner gets a socket bound to its port, a stream service one that
      listens; or it is refused one and left as it is. */
  ghost predicate Opens(v: Serv, u: Serv, before: seq<Call>, after: seq<Call>) {
    if !Unanswered(v) then u == v && after == before
    else exists fd: int :: OpensWith(v, u, fd, before, after)
  }

  ghost predicate OpensWith(v: Serv, u: Serv, fd: int, before: seq<Call>, after: seq<Call>) {
    if u == v then Refused(v, fd, before, after)
    else
      && fd >= 0 && u == v.(fd := fd)
      && after == before + [SocketCall(v.dgram, fd), BindCall(fd, v.port, true)]
                  + if v.dgram then [] else [ListenCall(fd, true)]
  }

  ghost predicate Refused(v: Serv, fd: int, before: seq<Call>, after: seq<Call>) {
    if fd < 0 then after == before + [SocketCall(v.dgram, fd)]
    else
      || after == before + [SocketCall(v.dgram, fd), BindCall(fd, v.port, false), CloseCall(fd)]
      || (!v.dgram && after == before + [SocketCall(v.dgram, fd), BindCall(fd, v.port, true), ListenCall(fd, false),
                                         CloseCall(fd)])
  }

  ghost predicate Opening(s: seq<Serv>, t: seq<Serv>, before: seq<Call>, after: seq<Call>) {
    && |s| == |t|
    && if s == [] then after == before
       else
         var n := |s| - 1;
         exists log: seq<Call> :: Opening(s[..n], t[..n], before, log) && Opens(s[n], t[n], log, after)
  }

  lemma {:induction false} OpeningMore(s: seq<Serv>, t: seq<Serv>, before: seq<Call>, log: seq<Call>, v: Serv, u: Serv,
                                       after: seq<Call>)
    requires Opening(s, t, before, log) && Opens(v, u, log, after)
    ensures Opening(s + [v], t + [u], before, after)
  {
    hide Opens;
    assert (s + [v])[..|s|] == s && (t + [u])[..|s|] == t;
  }

  lemma {:induction false} OpeningNone(s: seq<Serv>, t: seq<Serv>, log: seq<Call>)
    requires |s| == |t|
    ensures Opening(s[..0], t[..0], log, log)
  {
  }

  lemma {:induction false} OpensNot(v: Serv, log: seq<Call>)
    ensures !Unanswered(v) ==> Opens(v, v, log, log)
  {
  }

  /** The next service is dealt with. */
  lemma {:induction false} OpeningStep(s: seq<Serv>, t: seq<Serv>, u: seq<Serv>, i: nat, before: seq<Call>,
                                       log: seq<Call>, after: seq<Call>)
    requires |s| == |t| == |u| && i < |s| && Opening(s[..i], t[..i], before, log) && Opens(s[i], u[i], log, after)
    requires forall j :: 0 <= j < |t| && j != i ==> u[j] == t[j]
    ensures Opening(s[..i + 1], u[..i + 1], before, after)
  {
    hide Opens, Opening;
    OpeningMore(s[..i], t[..i], before, log, s[i], u[i], after);
    assert s[..i] + [s[i]] == s[..i + 1] && t[..i] + [u[i]] == u[..i + 1];
  }

  /** How often the kernel has refused socket, bind or listen. */
  function Refusals(log: seq<Call>): nat {
    if log == [] then 0 else Refusals(log[..|log| - 1]) + if Refusal(log[|log| - 1]) then 1 else 0
  }

  predicate Refusal(c: Call) {
    match c
    case SocketCall(_, fd) => fd < 0
    case BindCall(_, _, ok) => !ok
    case ListenCall(_, ok) => !ok
    case _ => false
  }

  lemma {:induction false} RefusalsMore(log: seq<Call>, c: Call)
    ensures Refusals(log + [c]) == Refusals(log) + if Refusal(c) then 1 else 0
  {
    assert (log + [c])[..|log|] == log;
  }

  lemma {:induction false} OpensRefusals(v: Serv, u: Serv, before: seq<Call>, after: seq<Call>)
    requires Opens(v, u, before, after)
    ensures Refusals(after) == Refusals(before) + if Unanswered(u) then 1 else 0
  {
    hide Refusals;
    if v.fd < 0 && v.pid == 0 {
      var fd: int :| OpensWith(v, u, fd, before, after);
      var socket := SocketCall(v.dgram, fd);
      RefusalsMore(before, socket);
      if fd >= 0 {
        var a, bind := before + [socket], BindCall(fd, v.port, true);
        if u != v {
          RefusalsMore(a, bind);
          RefusalsTwo(a, bind, ListenCall(fd, true));
          assert after == if v.dgram then a + [bind] else a + [bind, ListenCall(fd, true)];
        } else if after == before + [socket, BindCall(fd, v.port, false), CloseCall(fd)] {
          RefusalsTwo(a, BindCall(fd, v.port, false), CloseCall(fd));
          assert after == a + [BindCall(fd, v.port, false), CloseCall(fd)];
        } else {
          RefusalsMore(a, bind);
          RefusalsTwo(a + [bind], ListenCall(fd, false), CloseCall(fd));
          assert after == a + [bind] + [ListenCall(fd, false), CloseCall(fd)];
        }
      }
    }
  }

  lemma {:induction false} RefusalsTwo(log: seq<Call>, c: Call, d: Call)
    ensures Refusals(log + [c, d]) == Refusals(log) + (if Refusal(c) then 1 else 0) + if Refusal(d) then 1 else 0
  {
    hide Refusals;
    RefusalsMore(log, c);
    RefusalsMore(log + [c], d);
    assert log + [c, d] == log + [c] + [d];
  }

  /** openserv leaves nobody to answer for as many services as it was refused a socket. */
  lemma {:induction false} RefusedCount(s: seq<Serv>, t: seq<Serv>, before: seq<Call>, after: seq<Call>)
    requires Opening(s, t, before, after)
    ensures Refusals(after) == Refusals(before) + Number(t, Unanswered)
  {
    hide Opens, Refusals;
    if s != [] {
      var n := |s| - 1;
      var log: seq<Call> :| Opening(s[..n], t[..n], before, log) && Opens(s[n], t[n], log, after);
      RefusedCount(s[..n], t[..n], before, log);
      OpensRefusals(s[n], t[n], log, after);
    }
  }

  // --------------------------------------------------------------------- collecting

  /** The child pid is told apart: the owner of a service's socket, which is opened again, or a
      relay. */
  ghost predicate Tells(pid: int, b: Books, c: Books, r: Kind) {
    if pid < 0 then r == Nothing && c == b
    else if exists i: nat :: i < |b.servs| && b.servs[i].pid == pid then
      r == Service && c.nkids == b.nkids && c.relays == b.relays && exists i: nat :: Frees(i, pid, b, c)
    else r == Relay && c == b.(relays := b.relays - {pid})
  }

  ghost predicate Frees(i: nat, pid: int, b: Books, c: Books) {
    && i < |b.servs| && b.servs[i].pid == pid
    && Opening(b.servs[i := b.servs[i].(pid := 0)], c.servs, b.log, c.log)
  }

  /** One wait, with or without an alarm; the count is the caller's business. */
  ghost predicate Reaps(alarm: bool, b: Books, c: Books, r: Kind) {
    exists pid: int :: pid >= -1 && Tells(pid, b.(log := b.log + [WaitCall(alarm, pid)]), c, r)
  }

  /** One wait with an alarm, and the relay is taken off the count. */
  ghost predicate ReapsOne(b: Books, c: Books, r: Kind) {
    exists d: Books :: Reaps(true, b, d, r) && c == d.(nkids := if r == Relay then d.nkids - 1 else d.nkids)
  }

  ghost predicate Outstanding(b: Books) { b.nkids > 0 || Some(b.servs, Owns) }

  /** n children have been collected, one after the other. */
  ghost predicate Reaped(n: nat, b: Books, c: Books) {
    if n == 0 then c == b
    else
      var m := n - 1;
      exists d: Books, r: Kind :: Reaped(m, b, d) && Outstanding(d) && ReapsOne(d, c, r) && r != Nothing
  }

  /** All have been collected that had finished: there are no more, or the last wait gave none. */
  ghost predicate ReapsAll(b: Books, c: Books) {
    exists n: nat, d: Books :: Reaped(n, b, d) && if Outstanding(d) then ReapsOne(d, c, Nothing) else c == d
  }

  lemma {:induction false} TellsNothing(pid: int, b: Books)
    requires pid < 0
    ensures Tells(pid, b, b, Nothing)
  {
  }

  lemma {:induction false} TellsOwner(i: nat, pid: int, b: Books, c: Books)
    requires pid > 0 && c.nkids == b.nkids && c.relays == b.relays && Frees(i, pid, b, c)
    ensures Tells(pid, b, c, Service)
  {
    hide Opening;
    assert b.servs[i].pid == pid;
  }

  lemma {:induction false} TellsRelay(pid: int, b: Books, c: Books)
    requires pid > 0 && c == b.(relays := b.relays - {pid})
    requires forall i :: 0 <= i < |b.servs| ==> b.servs[i].pid != pid
    ensures Tells(pid, b, c, Relay)
  {
  }

  lemma {:induction false} TellsWho(pid: int, b: Books, c: Books, r: Kind)
    requires pid >= 0 && Tells(pid, b, c, r)
    ensures r == Relay ==> c.relays == b.relays - {pid}
    ensures r != Relay ==> c.relays == b.relays
  {
  }

  lemma {:induction false} ReapedNone(b: Books)
    ensures Reaped(0, b, b)
  {
  }

  lemma {:induction false} ReapedMore(n: nat, b: Books, d: Books, c: Books, r: Kind)
    requires Reaped(n, b, d) && Outstanding(d) && ReapsOne(d, c, r) && r != Nothing
    ensures Reaped(n + 1, b, c)
  {
    hide ReapsOne, Outstanding;
  }

  lemma {:induction false} ReapsLast(n: nat, b: Books, d: Books, c: Books)
    requires Reaped(n, b, d) && Outstanding(d) && ReapsOne(d, c, Nothing)
    ensures ReapsAll(b, c)
  {
    hide ReapsOne, Outstanding, Reaped;
  }

  lemma {:induction false} ReapsDone(n: nat, b: Books, c: Books)
    requires Reaped(n, b, c) && !Outstanding(c)
    ensures ReapsAll(b, c)
  {
    hide ReapsOne, Outstanding, Reaped;
  }

  // ------------------------------------------------------------------------ rebind

  /** A service that has a socket is owed no more binds; one that nobody answers for one less. */
  function Retried(v: Serv): Serv {
    if v.fd >= 0 then v.(rebind := 0)
    else if v.pid == 0 && v.rebind > 0 then v.(rebind := v.rebind - 1)
    else v
  }

  ghost predicate Rebinds(b: Books, c: Books) {
    exists t: seq<Serv> ::
      && Opening(b.servs, t, b.log, c.log) && |t| == |c.servs| && c == b.(servs := c.servs, log := c.log)
      && forall j :: 0 <= j < |t| ==> c.servs[j] == Retried(t[j])
  }

  lemma {:induction false} RebindsBy(b: Books, t: seq<Serv>, c: Books)
    requires Opening(b.servs, t, b.log, c.log) && |t| == |c.servs| && c == b.(servs := c.servs, log := c.log)
    requires forall j :: 0 <= j < |t| ==> c.servs[j] == Retried(t[j])
    ensures Rebinds(b, c)
  {
    hide Opening;
  }

  // ----------------------------------------------------------------------- serving

  /** A child gets the socket of datagram service i; if there can be no child, the datagram is
      dropped. */
  ghost predicate HandsOver(i: nat, b: Books, c: Books) {
    && i < |b.servs| && b.servs[i].fd >= 0
    && exists n: int ::
         if n > 0 then
           c == b.(servs := b.servs[i := b.servs[i].(fd := -1, pid := n)],
                   log := b.log + [ForkCall(n), DropCall(b.servs[i].fd)])
         else c == b.(log := b.log + [ForkCall(n), ReceiveCall(b.servs[i].fd)])
  }

  /** accept on the socket of stream service i fails; if that is none any more it is closed, and
      the service is owed five binds. */
  ghost predicate AcceptFails(i: nat, b: Books, c: Books) {
    && i < |b.servs| && b.servs[i].fd >= 0
    && var fd: nat := b.servs[i].fd;
       || c == b.(log := b.log + [AcceptCall(fd, -1, false)])
       || c == b.(servs := b.servs[i := b.servs[i].(fd := -1, rebind := 5)],
                  log := b.log + [AcceptCall(fd, -1, true), CloseCall(fd)])
  }

  /** A connection is accepted, and a child gets it; if there can be no child, it is closed. */
  ghost predicate Accepts(i: nat, b: Books, c: Books) {
    && i < |b.servs| && b.servs[i].fd >= 0
    && var fd: nat := b.servs[i].fd;
       exists conn: nat, n: int ::
         if n > 0 then
           c == b.(nkids := b.nkids + 1, relays := b.relays + {n},
                   log := b.log + [AcceptCall(fd, conn, false), ForkCall(n), DropCall(conn)])
         else c == b.(log := b.log + [AcceptCall(fd, conn, false), ForkCall(n), CloseCall(conn)])
  }

  /** The first i of the services polled, none of which has been served: they were not ready, or
      accept failed and all children were collected that had finished. */
  ghost predicate Passed(i: nat, idx: seq<nat>, ready: seq<bool>, b: Books, c: Books)
    requires i <= |idx| == |ready|
  {
    if i == 0 then c == b
    else
      var n := i - 1;
      exists d: Books :: Passed(n, idx, ready, b, d) && Passes(idx[n], ready[n], d, c)
  }

  ghost predicate Passes(j: nat, ready: bool, b: Books, c: Books) {
    if !ready then c == b
    else j < |b.servs| && !b.servs[j].dgram && exists d: Books :: AcceptFails(j, b, d) && ReapsAll(d, c)
  }

  ghost predicate ServesOne(j: nat, b: Books, c: Books) {
    j < |b.servs| && if b.servs[j].dgram then HandsOver(j, b, c) else Accepts(j, b, c)
  }

  /** The first service that is ready is served, or the first after those where accept failed. */
  ghost predicate Serves(idx: seq<nat>, ready: seq<bool>, b: Books, c: Books)
    requires |idx| == |ready|
  {
    || Passed(|idx|, idx, ready, b, c)
    || exists i: nat, d: Books :: i < |idx| && ready[i] && Passed(i, idx, ready, b, d) && ServesOne(idx[i], d, c)
  }

  lemma {:induction false} HandsOverWith(i: nat, b: Books, c: Books, n: int)
    requires i < |b.servs| && b.servs[i].fd >= 0
    requires if n > 0 then
               c.servs == b.servs[i := b.servs[i].(fd := -1, pid := n)]
               && c.log == b.log + [ForkCall(n)] + [DropCall(b.servs[i].fd)]
             else c.servs == b.servs && c.log == b.log + [ForkCall(n)] + [ReceiveCall(b.servs[i].fd)]
    requires c.nkids == b.nkids && c.relays == b.relays
    ensures HandsOver(i, b, c)
  {
    var fd := b.servs[i].fd;
    assert b.log + [ForkCall(n)] + [DropCall(fd)] == b.log + [ForkCall(n), DropCall(fd)];
    assert b.log + [ForkCall(n)] + [ReceiveCall(fd)] == b.log + [ForkCall(n), ReceiveCall(fd)];
  }

  lemma {:induction false} AcceptFailed(i: nat, b: Books, c: Books, bad: bool)
    requires i < |b.servs| && b.servs[i].fd >= 0 && c.nkids == b.nkids && c.relays == b.relays
    requires var fd: nat := b.servs[i].fd;
             if bad then
               && c.servs == b.servs[i := b.servs[i].(fd := -1, rebind := 5)]
               && c.log == b.log + [AcceptCall(fd, -1, true)] + [CloseCall(fd)]
             else c.servs == b.servs && c.log == b.log + [AcceptCall(fd, -1, false)]
    ensures AcceptFails(i, b, c)
  {
    var fd: nat := b.servs[i].fd;
    assert b.log + [AcceptCall(fd, -1, true)] + [CloseCall(fd)] == b.log + [AcceptCall(fd, -1, true), CloseCall(fd)];
  }

  lemma {:induction false} AcceptsWith(i: nat, b: Books, c: Books, conn: nat, n: int)
    requires i < |b.servs| && b.servs[i].fd >= 0 && c.servs == b.servs
    requires var log := b.log + [AcceptCall(b.servs[i].fd, conn, false)];
             if n > 0 then
               && c.log == log + [ForkCall(n), DropCall(conn)]
               && c.nkids == b.nkids + 1 && c.relays == b.relays + {n}
             else c.log == log + [ForkCall(n), CloseCall(conn)] && c.nkids == b.nkids && c.relays == b.relays
    ensures Accepts(i, b, c)
  {
    var a := AcceptCall(b.servs[i].fd, conn, false);
    assert b.log + [a] + [ForkCall(n), DropCall(conn)] == b.log + [a, ForkCall(n), DropCall(conn)];
    assert b.log + [a] + [ForkCall(n), CloseCall(conn)] == b.log + [a, ForkCall(n), CloseCall(conn)];
  }

  lemma {:induction false} PassedNone(idx: seq<nat>, ready: seq<bool>, b: Books)
    requires |idx| == |ready|
    ensures Passed(0, idx, ready, b, b)
  {
  }

  lemma {:induction false} PassesIdle(j: nat, b: Books)
    ensures Passes(j, false, b, b)
  {
  }

  lemma {:induction false} PassesFailed(j: nat, b: Books, d: Books, c: Books)
    requires j < |b.servs| && !b.servs[j].dgram && AcceptFails(j, b, d) && ReapsAll(d, c)
    ensures Passes(j, true, b, c)
  {
    hide AcceptFails, ReapsAll;
  }

  lemma {:induction false} PassedMore(i: nat, idx: seq<nat>, ready: seq<bool>, b: Books, d: Books, c: Books)
    requires i < |idx| == |ready| && Passed(i, idx, ready, b, d) && Passes(idx[i], ready[i], d, c)
    ensures Passed(i + 1, idx, ready, b, c)
  {
    hide Passes;
  }

  lemma {:induction false} ServedOne(i: nat, idx: seq<nat>, ready: seq<bool>, b: Books, d: Books, c: Books)
    requires i < |idx| == |ready| && ready[i] && Passed(i, idx, ready, b, d) && idx[i] < |d.servs|
    requires if d.servs[idx[i]].dgram then HandsOver(idx[i], d, c) else Accepts(idx[i], d, c)
    ensures Serves(idx, ready, b, c)
  {
    hide Passed, HandsOver, Accepts;
    assert ServesOne(idx[i], d, c);
  }

  lemma {:induction false} ServedNone(idx: seq<nat>, ready: seq<bool>, b: Books, c: Books)
    requires |idx| == |ready| && Passed(|idx|, idx, ready, b, c)
    ensures Serves(idx, ready, b, c)
  {
    hide Passed;
  }

  // ------------------------------------------------------------------------- a turn

  /** Nobody is waiting: all that have finished are collected, and what is owed is bound. */
  ghost predicate Idles(b: Books, c: Books) {
    exists d: Books :: ReapsAll(b, d) && if Some(d.servs, Waiting) then Rebinds(d, c) else c == d
  }

  /** The services that have a socket, in order. */
  function Polled(s: seq<Serv>): (idx: seq<nat>)
    ensures forall j :: 0 <= j < |idx| ==> idx[j] < |s| && s[idx[j]].fd >= 0
  {
    if s == [] then []
    else
      var n := |s| - 1;
      var rest := Polled(s[..n]);
      if s[n].fd >= 0 then rest + [n] else rest
  }

  function PolledFds(s: seq<Serv>): (fds: seq<nat>)
    ensures |fds| == |Polled(s)|
  {
    seq(|Polled(s)|, j requires 0 <= j < |Polled(s)| => s[Polled(s)[j]].fd)
  }

  lemma {:induction false} PolledMore(s: seq<Serv>, i: nat)
    requires i < |s|
    ensures Polled(s[..i + 1]) == Polled(s[..i]) + if s[i].fd >= 0 then [i] else []
    ensures PolledFds(s[..i + 1]) == PolledFds(s[..i]) + if s[i].fd >= 0 then [s[i].fd] else []
  {
    assert s[..i + 1][..i] == s[..i];
  }

  lemma {:induction false} PolledNone(s: seq<Serv>)
    ensures Polled(s) == [] <==> Bound(s) == {}
  {
    PolledAll(s);
    if Polled(s) != [] { InSets(s, Polled(s)[0]); }
    forall i | 0 <= i < |s| ensures Polled(s) == [] ==> s[i].fd < 0 {
      if s[i].fd >= 0 { assert i in Polled(s); }
    }
  }

  lemma {:induction false} PolledAll(s: seq<Serv>)
    ensures forall i :: 0 <= i < |s| && s[i].fd >= 0 ==> i in Polled(s)
  {
    if s != [] {
      PolledAll(s[..|s| - 1]);
      forall i | 0 <= i < |s| && s[i].fd >= 0 ensures i in Polled(s) {
        if i < |s| - 1 { assert s[..|s| - 1][i].fd >= 0; }
      }
    }
  }

  lemma {:induction false} PolledOrder(s: seq<Serv>)
    ensures forall a, b :: 0 <= a < b < |Polled(s)| ==> Polled(s)[a] < Polled(s)[b]
  {
    if s != [] { PolledOrder(s[..|s| - 1]); }
  }

  /** Poll, with a time limit if something is outstanding, and do what it says; five failures
      without an answer between them end the loop. */
  ghost predicate Polls(b: Books, fail: nat, c: Books, fail': nat, go: bool) {
    exists answer :: PollsWith(answer, b, fail, c, fail', go)
  }

  ghost predicate PollsWith(answer: PollResult, b: Books, fail: nat, c: Books, fail': nat, go: bool) {
    var d := b.(log := b.log + [PollCall(PolledFds(b.servs), Outstanding(b) || Some(b.servs, Waiting), answer)]);
    match answer
    case Interrupted => c == d && fail' == fail && go
    case Failed => c == d && fail' == fail + 1 && (go <==> fail' < 5)
    case TimedOut => Idles(d, c) && fail' == 0 && go
    case Ready(ready) => |ready| == |Polled(b.servs)| && Serves(Polled(b.servs), ready, d, c) && fail' == 0 && go
  }

  lemma {:induction false} PollsBy(answer: PollResult, b: Books, d: Books, fail: nat, c: Books, fail': nat, go: bool)
    requires d == b.(log := b.log + [PollCall(PolledFds(b.servs), Outstanding(b) || Some(b.servs, Waiting), answer)])
    requires match answer
             case Interrupted => c == d && fail' == fail && go
             case Failed => c == d && fail' == fail + 1 && (go <==> fail' < 5)
             case TimedOut => Idles(d, c) && fail' == 0 && go
             case Ready(ready) =>
               |ready| == |Polled(b.servs)| && Serves(Polled(b.servs), ready, d, c) && fail' == 0 && go
    ensures Polls(b, fail, c, fail', go)
  {
    hide Idles, Serves, Polled, PolledFds, Some;
    assert PollsWith(answer, b, fail, c, fail', go);
  }

  /** At the limit one child is waited for. */
  ghost predicate Limited(b: Books, c: Books) {
    exists d: Books, r: Kind ::
      && Reaps(false, b, d, r)
      && c == d.(nkids := match r case Nothing => 0 case Relay => d.nkids - 1 case Service => d.nkids)
  }

  lemma {:induction false} LimitedBy(b: Books, d: Books, c: Books, r: Kind)
    requires Reaps(false, b, d, r)
    requires c == d.(nkids := match r case Nothing => 0 case Relay => d.nkids - 1 case Service => d.nkids)
    ensures Limited(b, c)
  {
    hide Reaps;
  }

  /** Without a socket to poll a child is waited for that owns one; without such a child the binds
      owed are tried; without those it is over. */
  ghost predicate Waits(b: Books, c: Books, go: bool) {
    if Some(b.servs, Owns) then go && exists r: Kind :: Reaps(false, b, c, r)
    else if Some(b.servs, Waiting) then go && Rebinds(b, c)
    else !go && c == b
  }

  ghost predicate Turns(optM: nat, b: Books, fail: nat, c: Books, fail': nat, go: bool) {
    if b.nkids >= optM then Limited(b, c) && fail' == fail && go
    else if Polled(b.servs) == [] then Waits(b, c, go) && fail' == fail
    else Polls(b, fail, c, fail', go)
  }

  /** A turn slips if it collects a relay that nkids goes on counting. */
  ghost predicate Slips(optM: nat, b: Books, c: Books) {
    b.nkids < optM && Polled(b.servs) == [] && |c.relays| < |b.relays|
  }

  /** So many turns of the main loop, k of which slip. */
  ghost predicate Runs(n: nat, optM: nat, b: Books, fail: nat, c: Books, fail': nat, k: nat) {
    if n == 0 then c == b && fail' == fail && k == 0
    else
      var m := n - 1;
      exists d: Books, f: nat, go: bool, j: nat ::
        && Runs(m, optM, b, fail, d, f, j) && Turns(optM, d, f, c, fail', go)
        && k == if Slips(optM, d, c) then j + 1 else j
  }

  lemma {:induction false} RunsNone(optM: nat, b: Books, fail: nat)
    ensures Runs(0, optM, b, fail, b, fail, 0)
  {
  }

  lemma {:induction false} RunsMore(n: nat, optM: nat, b: Books, fail: nat, d: Books, f: nat, j: nat, c: Books,
                                    fail': nat, go: bool)
    requires Runs(n, optM, b, fail, d, f, j) && Turns(optM, d, f, c, fail', go)
    ensures Runs(n + 1, optM, b, fail, c, fail', if Slips(optM, d, c) then j + 1 else j)
  {
    hide Turns, Slips;
  }
}
