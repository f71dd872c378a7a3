/** The services of net/inetd.c: their sockets and the children that own them. */
module InetdServices {
  import opened InetdCalls

  const REBINDMAX: nat := 5

  /** fd is -1 without a socket, pid 0 without a child that owns it. */
  datatype Serv = Serv(port: nat, dgram: bool, fd: int, pid: nat, rebind: nat)

  /** A child owns its socket. */
  predicate Owns(v: Serv) { v.pid != 0 }

  /** Nobody answers for it. */
  predicate Unanswered(v: Serv) { v.fd < 0 && v.pid == 0 }

  /** Owed a bind again, and able to have one. */
  predicate Waiting(v: Serv) { Unanswered(v) && v.rebind > 0 }

  ghost predicate Some(s: seq<Serv>, p: Serv -> bool) { exists i :: 0 <= i < |s| && p(s[i]) }

  /** How many services are so. */
  function Number(s: seq<Serv>, p: Serv -> bool): nat {
    if s == [] then 0 else Number(s[..|s| - 1], p) + if p(s[|s| - 1]) then 1 else 0
  }

  lemma {:induction false} NumberSome(s: seq<Serv>, p: Serv -> bool)
    ensures Number(s, p) > 0 <==> Some(s, p)
  {
    if s != [] {
      var n := |s| - 1;
      NumberSome(s[..n], p);
      if Some(s[..n], p) {
        var i :| 0 <= i < n && p(s[..n][i]);
        assert p(s[i]);
      }
      if Some(s, p) && !p(s[n]) {
        var i :| 0 <= i < |s| && p(s[i]);
        assert p(s[..n][i]);
      }
    }
  }

  lemma {:induction false} NumberMore(s: seq<Serv>, i: nat, p: Serv -> bool)
    requires i < |s|
    ensures Number(s[..i + 1], p) == Number(s[..i], p) + if p(s[i]) then 1 else 0
  {
    assert s[..i + 1][..i] == s[..i];
  }

  /** The children that own a service's socket. */
  ghost function Owners(s: seq<Serv>): set<nat> { set i | 0 <= i < |s| && s[i].pid != 0 :: s[i].pid }

  ghost function Bound(s: seq<Serv>): set<nat> { set i | 0 <= i < |s| && s[i].fd >= 0 :: s[i].fd }

  /** No service has both a socket and a child that owns it, only datagram services have
      children, and no two share a child or a descriptor. */
  ghost predicate Orderly(s: seq<Serv>) {
    && (forall i :: 0 <= i < |s| ==> OneHolder(s[i]))
    && (forall i, j :: 0 <= i < j < |s| && s[i].pid != 0 ==> s[i].pid != s[j].pid)
    && forall i, j :: 0 <= i < j < |s| && s[i].fd >= 0 ==> s[i].fd != s[j].fd
  }

  ghost predicate OneHolder(v: Serv) {
    && -1 <= v.fd && !(v.fd >= 0 && v.pid != 0) && (v.pid != 0 ==> v.dgram)
    && v.rebind <= REBINDMAX && (v.rebind > 0 ==> !v.dgram)
  }

  /** Binds still owed, over all services. */
  function Owed(s: seq<Serv>): nat { if s == [] then 0 else Owed(s[..|s| - 1]) + s[|s| - 1].rebind }

  lemma {:induction false} OwedUpdate(s: seq<Serv>, i: nat, v: Serv)
    requires i < |s|
    ensures Owed(s[i := v]) == Owed(s) - s[i].rebind + v.rebind
  {
    var n := |s| - 1;
    if i < n {
      OwedUpdate(s[..n], i, v);
      assert s[i := v][..n] == s[..n][i := v];
    } else {
      assert s[i := v][..n] == s[..n];
    }
  }

  function Fds(v: Serv): set<nat> { if v.fd >= 0 then {v.fd} else {} }

  function Pids(v: Serv): set<nat> { if v.pid != 0 then {v.pid} else {} }

  lemma {:induction false} BoundUpdate(s: seq<Serv>, i: nat, v: Serv)
    requires Orderly(s) && i < |s|
    ensures Bound(s[i := v]) == Bound(s) - Fds(s[i]) + Fds(v)
  {
    var t := s[i := v];
    forall x | x in Bound(s) - Fds(s[i]) ensures x in Bound(t) {
      var j :| 0 <= j < |s| && s[j].fd >= 0 && s[j].fd == x;
      assert j != i && t[j] == s[j];
    }
    forall x | x in Fds(v) ensures x in Bound(t) { assert t[i].fd == x; }
    forall x | x in Bound(t) ensures x in Bound(s) - Fds(s[i]) + Fds(v) {
      var j :| 0 <= j < |t| && t[j].fd >= 0 && t[j].fd == x;
    }
  }

  lemma {:induction false} OwnersUpdate(s: seq<Serv>, i: nat, v: Serv)
    requires Orderly(s) && i < |s|
    ensures Owners(s[i := v]) == Owners(s) - Pids(s[i]) + Pids(v)
  {
    var t := s[i := v];
    forall x | x in Owners(s) - Pids(s[i]) ensures x in Owners(t) {
      var j :| 0 <= j < |s| && s[j].pid != 0 && s[j].pid == x;
      assert j != i && t[j] == s[j];
    }
    forall x | x in Pids(v) ensures x in Owners(t) { assert t[i].pid == x; }
    forall x | x in Owners(t) ensures x in Owners(s) - Pids(s[i]) + Pids(v) {
      var j :| 0 <= j < |t| && t[j].pid != 0 && t[j].pid == x;
    }
  }

  /** A service may take a socket nobody has, and a child nobody has. */
  lemma {:induction false} Changed(s: seq<Serv>, i: nat, v: Serv)
    requires Orderly(s) && i < |s| && OneHolder(v)
    requires (v.fd == s[i].fd || Fds(v) !! Bound(s)) && (v.pid == s[i].pid || Pids(v) !! Owners(s))
    ensures Orderly(s[i := v]) && Owed(s[i := v]) == Owed(s) - s[i].rebind + v.rebind
    ensures Bound(s[i := v]) == Bound(s) - Fds(s[i]) + Fds(v) && Owners(s[i := v]) == Owners(s) - Pids(s[i]) + Pids(v)
  {
    hide Owed;
    OwedUpdate(s, i, v);
    BoundUpdate(s, i, v);
    OwnersUpdate(s, i, v);
    forall j | 0 <= j < |s|
      ensures (s[j].fd >= 0 ==> s[j].fd in Bound(s)) && (s[j].pid != 0 ==> s[j].pid in Owners(s))
    {
      InSets(s, j);
    }
  }

  lemma {:induction false} BoundSet(s: seq<Serv>, i: nat, fd: nat)
    requires Orderly(s) && i < |s| && s[i].fd < 0 && s[i].pid == 0 && fd !in Bound(s)
    ensures var t := s[i := s[i].(fd := fd)];
            Orderly(t) && Bound(t) == Bound(s) + {fd} && Owners(t) == Owners(s)
            && Owed(t) == Owed(s)
  {
    hide Bound, Owners, Owed;
    assert OneHolder(s[i]);
    Changed(s, i, s[i].(fd := fd));
  }

  /** A socket is given up: with nothing instead, or for a child, which owns it from now on. */
  lemma {:induction false} BoundGone(s: seq<Serv>, i: nat, v: Serv)
    requires Orderly(s) && i < |s| && s[i].fd >= 0 && v.fd == -1 && OneHolder(v) && (v.pid == 0 || v.pid !in Owners(s))
    ensures var t := s[i := v]; Orderly(t) && Bound(t) == Bound(s) - {s[i].fd} && Owners(t) == Owners(s) + Pids(v)
    ensures Owed(s[i := v]) == Owed(s) - s[i].rebind + v.rebind
  {
    hide Bound, Owners, Owed;
    assert OneHolder(s[i]);
    Changed(s, i, v);
  }

  /** A child that owned a socket is collected. */
  lemma {:induction false} OwnerGone(s: seq<Serv>, i: nat)
    requires Orderly(s) && i < |s| && s[i].pid != 0
    ensures var t := s[i := s[i].(pid := 0)];
            Orderly(t) && Bound(t) == Bound(s) && Owners(t) == Owners(s) - {s[i].pid}
            && Owed(t) == Owed(s)
    ensures s[i].fd < 0
  {
    hide Bound, Owners, Owed;
    assert OneHolder(s[i]);
    Changed(s, i, s[i].(pid := 0));
  }

  lemma {:induction false} RebindSet(s: seq<Serv>, i: nat, r: nat)
    requires Orderly(s) && i < |s| && r <= s[i].rebind
    ensures var t := s[i := s[i].(rebind := r)];
            Orderly(t) && Bound(t) == Bound(s) && Owners(t) == Owners(s)
            && Owed(t) == Owed(s) - s[i].rebind + r
  {
    hide Owed;
    assert OneHolder(s[i]);
    assert s[i].fd >= 0 ==> s[i].fd in Bound(s);
    assert s[i].pid != 0 ==> s[i].pid in Owners(s);
    hide Bound, Owners;
    Changed(s, i, s[i].(rebind := r));
  }

  /** What openserv may do: give a socket to services that have none and no child with one. */
  ghost predicate Opened(s: seq<Serv>, t: seq<Serv>) {
    |s| == |t| && forall j :: 0 <= j < |s| ==> OpenedAt(s[j], t[j])
  }

  ghost predicate OpenedAt(v: Serv, u: Serv) {
    u == v || (v.fd < 0 && v.pid == 0 && u.fd >= 0 && u == v.(fd := u.fd))
  }

  lemma {:induction false} InSets(s: seq<Serv>, i: nat)
    requires i < |s|
    ensures (s[i].pid != 0 ==> s[i].pid in Owners(s)) && (s[i].fd >= 0 ==> s[i].fd in Bound(s))
  {
  }




  lemma {:induction false} NoOwners(s: seq<Serv>)
    ensures Owners(s) != {} <==> Some(s, Owns)
  {
    if x :| x in Owners(s) { var j :| 0 <= j < |s| && s[j].pid != 0 && s[j].pid == x; }
    if j :| 0 <= j < |s| && s[j].pid != 0 { assert s[j].pid in Owners(s); }
  }

  lemma {:induction false} KeptOn(s: seq<Serv>, t: seq<Serv>, u: seq<Serv>)
    requires Kept(s, t) && Kept(t, u)
    ensures Kept(s, u)
  {
  }

  lemma {:induction false} KeptSockets(s: seq<Serv>, t: seq<Serv>)
    requires Kept(s, t)
    ensures |s| == |t| && forall j :: 0 <= j < |s| && s[j].fd >= 0 ==> t[j] == s[j]
  {
  }

  lemma {:induction false} NoneOwed(s: seq<Serv>)
    requires forall j :: 0 <= j < |s| ==> s[j].rebind == 0
    ensures Owed(s) == 0
  {
    if s != [] { NoneOwed(s[..|s| - 1]); }
  }

  /** Services that had a socket have it still. */
  ghost predicate Kept(s: seq<Serv>, t: seq<Serv>) {
    |s| == |t| && forall j :: 0 <= j < |s| ==>
      t[j].dgram == s[j].dgram && t[j].port == s[j].port && t[j].rebind == s[j].rebind
      && (s[j].fd >= 0 ==> t[j] == s[j])
  }

  lemma {:induction false} KeptSame(s: seq<Serv>)
    ensures Kept(s, s)
  {
  }

  lemma {:induction false} KeptOpened(s: seq<Serv>, i: nat, t: seq<Serv>)
    requires i < |s| && s[i].fd < 0 && Opened(s[i := s[i].(pid := 0)], t)
    ensures Kept(s, t)
  {
  }

  lemma {:induction false} DropChild(kids: set<nat>, relays: set<nat>, owners: set<nat>, pid: nat)
    requires kids + {pid} == relays + owners && pid !in kids && relays !! owners
    ensures pid in owners ==> kids == relays + (owners - {pid}) && relays !! (owners - {pid})
    ensures pid !in owners ==> pid in relays && kids == (relays - {pid}) + owners && |relays - {pid}| == |relays| - 1
  {
  }

  lemma {:induction false} NewRelay(relays: set<nat>, owners: set<nat>, n: nat)
    requires n !in relays + owners
    ensures relays + owners + {n} == (relays + {n}) + owners && |relays + {n}| == |relays| + 1
  {
  }

  lemma {:induction false} NotOwner(s: seq<Serv>, pid: nat)
    requires forall j :: 0 <= j < |s| ==> s[j].pid != pid
    ensures pid !in Owners(s)
  {
  }

  lemma {:induction false} BackIn(kids: set<nat>, pid: int)
    ensures pid in kids && pid >= 0 ==> kids - {pid} + {pid} == kids && |kids - {pid}| == |kids| - 1
  {
  }

  // ------------------------------------------------------------------------- ports

  /** Every service's socket is bound to its port, and listens if it is a stream service's. */
  ghost predicate Ported(s: seq<Serv>, ports: map<nat, Port>) {
    forall i :: 0 <= i < |s| && s[i].fd >= 0 ==> s[i].fd in ports && ports[s[i].fd] == Port(s[i].port, !s[i].dgram)
  }

  /** Nothing changes for a descriptor that is no service's. */
  lemma {:induction false} PortedElsewhere(s: seq<Serv>, ports: map<nat, Port>, fd: nat, p: Port)
    requires Ported(s, ports) && fd !in Bound(s)
    ensures Ported(s, ports[fd := p]) && Ported(s, ports - {fd})
  {
    forall i | 0 <= i < |s| && s[i].fd >= 0 ensures s[i].fd != fd { InSets(s, i); }
  }

  lemma {:induction false} PortedUpdate(s: seq<Serv>, ports: map<nat, Port>, i: nat, v: Serv)
    requires Ported(s, ports) && i < |s| && (v.fd >= 0 ==> v.fd in ports && ports[v.fd] == Port(v.port, !v.dgram))
    ensures Ported(s[i := v], ports)
  {
  }

  /** A socket is given up. */
  lemma {:induction false} PortedGone(s: seq<Serv>, ports: map<nat, Port>, i: nat, v: Serv)
    requires Ported(s, ports) && Orderly(s) && i < |s| && s[i].fd >= 0 && v.fd < 0
    ensures Ported(s[i := v], ports - {s[i].fd})
  {
  }

  lemma {:induction false} PortedAgain(s: seq<Serv>, ports: map<nat, Port>, i: nat, r: nat)
    requires Ported(s, ports) && i < |s|
    ensures Ported(s[i := s[i].(rebind := r)], ports)
  {
  }
}
