/** The switchboard of net/inetd.c: its services, their sockets and children, in every run that
    does not reload. */
module Inetd {
  import opened InetdServices
  import opened InetdCalls
  import opened InetdSteps

  const POLLFAILMAX: nat := 5

  class Switchboard {
    const k: Kernel
    const servs: array<Serv>
    const optM: nat
    var nkids: nat
    var pollfail: nat
    ghost var relays: set<nat>  // children not collected that serve one connection each
    ghost var losses: nat       // listening sockets that turned out to be none
    ghost var turns: nat        // turns spent on binding services again
    ghost var missed: nat       // relays collected when there was nothing to poll

    ghost function B(): Books
      reads this, k, servs
    {
      Books(servs[..], nkids, relays, k.log)
    }

    /** With these children, descriptors and ports: the sockets open are those of the services, and
        bound to their ports; the children not collected are relays and owners of sockets; the
        relays are no more than nkids; and every turn spent on binding again was owed for a lost
        socket. */
    ghost predicate With(kids: set<nat>, open: set<nat>, ports: map<nat, Port>)
      reads this`nkids, this`relays, this`turns, this`losses, servs
    {
      && Orderly(servs[..]) && open == Bound(servs[..]) && Ported(servs[..], ports)
      && kids == relays + Owners(servs[..]) && relays !! Owners(servs[..]) && 0 !in kids
      && |relays| <= nkids
      && turns + Owed(servs[..]) <= REBINDMAX * losses
    }

    ghost predicate Inv()
      reads this`nkids, this`relays, this`turns, this`losses, k, servs
    {
      With(k.kids, k.open, k.ports)
    }

    /** Between two turns nkids counts the relays, and those collected that it has missed. */
    ghost predicate Valid()
      reads this`nkids, this`relays, this`turns, this`losses, this`missed, k, servs
    {
      Inv() && nkids == |relays| + missed && nkids <= optM && optM >= 1
    }

    /** The services of the conf file, before any is bound. */
    constructor (k: Kernel, conf: seq<(nat, bool)>, optM: nat)
      requires k.kids == {} && k.open == {} && optM >= 1
      ensures Valid() && nkids == pollfail == 0 && losses == turns == missed == 0 && relays == {}
      ensures this.k == k && this.optM == optM && fresh(servs) && |servs[..]| == |conf|
      ensures forall i :: 0 <= i < |conf| ==> servs[i] == Serv(conf[i].0, conf[i].1, -1, 0, 0)
    {
      this.k, this.optM := k, optM;
      servs := new Serv[|conf|](i requires 0 <= i < |conf| => Serv(conf[i].0, conf[i].1, -1, 0, 0));
      nkids, pollfail, relays, losses, turns, missed := 0, 0, {}, 0, 0, 0;
      new;
      NoneOwed(servs[..]);
    }

    /** openserv: a socket for every service that has none and no child that owns one; a service
        for which that fails is left without. */
    method OpenServ()
      requires Inv()
      modifies k, servs
      ensures Inv() && k.kids == old(k.kids) && Owners(servs[..]) == Owners(old(servs[..]))
      ensures Owed(servs[..]) == Owed(old(servs[..]))
      ensures Opened(old(servs[..]), servs[..])
      ensures Opening(old(servs[..]), servs[..], old(k.log), k.log)
    {
      hide Owners, Bound, Owed, Orderly, Ported, Opening, Opens;
      ghost var s: seq<Serv> := servs[..];
      OpeningNone(s, servs[..], k.log);
      var i := 0;
      while i < servs.Length
        invariant i <= servs.Length && Inv() && k.kids == old(k.kids)
        invariant Owners(servs[..]) == Owners(s) && Owed(servs[..]) == Owed(s)
        invariant forall j :: 0 <= j < i ==> OpenedAt(s[j], servs[j])
        invariant forall j :: i <= j < servs.Length ==> servs[j] == s[j]
        invariant Opening(s[..i], servs[..i], old(k.log), k.log)
      {
        ghost var t: seq<Serv>, log := servs[..], k.log;
        if servs[i].fd < 0 && servs[i].pid == 0 {
          OpenOne(i);
        } else {
          OpensNot(s[i], k.log);
        }
        OpeningStep(s, t, servs[..], i, old(k.log), log, k.log);
        i := i + 1;
      }
      assert s[..i] == s && servs[..i] == servs[..];
    }

    method OpenOne(i: nat)
      requires Inv() && i < servs.Length && Unanswered(servs[i])
      modifies k, servs
      ensures Inv() && k.kids == old(k.kids) && Owners(servs[..]) == Owners(old(servs[..]))
      ensures Owed(servs[..]) == Owed(old(servs[..]))
      ensures OpenedAt(old(servs[i]), servs[i])
      ensures Opens(old(servs[i]), servs[i], old(k.log), k.log)
      ensures forall j :: 0 <= j < servs.Length && j != i ==> servs[j] == old(servs[j])
    {
      hide Owners, Bound, Owed, Orderly, Ported;
      ghost var v, before, open: set<nat>, was: seq<Serv> := servs[i], k.log, k.open, servs[..];
      var s := k.Socket(servs[i].dgram);
      if s < 0 {
        assert OpensWith(v, v, s, before, k.log);
        return;
      }
      PortedElsewhere(was, k.ports, s, Port(v.port, false));
      var ok := k.Bind(s, servs[i].port);
      if !ok {
        PortedElsewhere(was, k.ports, s, Port(0, false));
        k.Close(s);
        assert open + {s} - {s} == open;
        assert OpensWith(v, v, s, before, k.log);
        return;
      }
      if !servs[i].dgram {
        PortedElsewhere(was, k.ports, s, Port(v.port, true));
        ok := k.Listen(s);
        if !ok {
          PortedElsewhere(was, k.ports, s, Port(0, false));
          k.Close(s);
          assert open + {s} - {s} == open;
          assert OpensWith(v, v, s, before, k.log);
          return;
        }
      }
      BoundSet(was, i, s);
      PortedUpdate(was, k.ports, i, was[i].(fd := s));
      servs[i] := servs[i].(fd := s);
      assert servs[..] == was[i := was[i].(fd := s)];
      assert OpensWith(v, servs[i], s, before, k.log);
    }

    /** The child of service i is gone; the service gets a fresh socket. */
    method FreeOwner(i: nat)
      requires i < servs.Length && servs[i].pid != 0 && servs[i].pid in Owners(servs[..]) && servs[i].pid !in k.kids
      requires With(k.kids + {servs[i].pid}, k.open, k.ports)
      modifies k, servs
      ensures Inv() && k.kids == old(k.kids) && Owed(servs[..]) == Owed(old(servs[..]))
      ensures Kept(old(servs[..]), servs[..])
      ensures Frees(i, old(servs[i].pid), old(B()), B())
    {
      hide Owners, Bound, Owed, Orderly, Ported, Kept, Opened, Opening;
      ghost var was: seq<Serv> := servs[..];
      OwnerGone(was, i);
      PortedUpdate(was, k.ports, i, was[i].(pid := 0));
      DropChild(k.kids, relays, Owners(was), servs[i].pid);
      servs[i] := servs[i].(pid := 0);
      assert servs[..] == was[i := was[i].(pid := 0)];
      OpenServ();
      KeptOpened(was, i, servs[..]);
    }

    /** reaped: the service whose socket the child owned gets a fresh one. */
    method Reaped(pid: nat) returns (service: bool)
      requires pid != 0 && pid !in k.kids && With(k.kids + {pid}, k.open, k.ports)
      modifies this`relays, k, servs
      ensures Inv() && service == (pid in Owners(old(servs[..]))) && k.kids == old(k.kids)
      ensures Owed(servs[..]) == Owed(old(servs[..]))
      ensures (!service ==> pid in old(relays)) && Kept(old(servs[..]), servs[..])
      ensures Tells(pid, old(B()), B(), if service then Service else Relay)
    {
      hide Owners, Bound, Owed, Orderly, Ported, Kept, Opened, Opening;
      hide Tells, Frees;
      ghost var was: seq<Serv>, b := servs[..], B();
      var i := 0;
      while i < servs.Length
        invariant i <= servs.Length && forall j :: 0 <= j < i ==> servs[j].pid != pid
      {
        if servs[i].pid == pid {
          InSets(was, i);
          FreeOwner(i);
          TellsOwner(i, pid, b, B());
          return true;
        }
        i := i + 1;
      }
      NotOwner(was, pid);
      DropChild(k.kids, relays, Owners(was), pid);
      relays := relays - {pid};
      KeptSame(was);
      TellsRelay(pid, b, B());
      service := false;
    }

    /** Children not collected, with a child pid collected. */
    method Collected(pid: int) returns (r: Kind)
      requires -1 <= pid
      requires if pid >= 0 then pid !in k.kids && With(k.kids + {pid}, k.open, k.ports) else Inv()
      modifies this`relays, k, servs
      ensures Inv() && k.kids == old(k.kids) && Owed(servs[..]) == Owed(old(servs[..]))
      ensures Kept(old(servs[..]), servs[..]) && Tells(pid, old(B()), B(), r)
      ensures (r == Nothing <==> pid < 0) && (r == Relay ==> |relays| + 1 == |old(relays)|)
      ensures (r != Relay ==> relays == old(relays))
      ensures pid >= 0 && pid !in Owners(old(servs[..])) ==> r == Relay
    {
      hide Owners, Bound, Owed, Orderly, Ported, Kept, Tells;
      if pid < 0 {
        KeptSame(servs[..]);
        TellsNothing(pid, B());
        return Nothing;
      }
      ghost var b := B();
      var service := Reaped(pid);
      r := if service then Service else Relay;
      TellsWho(pid, b, B(), r);
    }

    /** reap: collect one child, waiting for it. */
    method Reap() returns (r: Kind)
      requires Inv()
      modifies this`relays, k, servs
      ensures Inv() && Owed(servs[..]) == Owed(old(servs[..])) && Kept(old(servs[..]), servs[..])
      ensures Reaps(false, old(B()), B(), r)
      ensures (r == Relay ==> |relays| + 1 == |old(relays)|) && (r != Relay ==> relays == old(relays))
      ensures (r == Nothing ==> relays == {})
      ensures k.who(old(k.clock)) in old(relays) ==> r == Relay
    {
      hide Owners, Bound, Owed, Orderly, Ported, Kept, Tells;
      var pid := k.Wait(false);
      BackIn(old(k.kids), pid);
      r := Collected(pid);
    }

    /** reapidle: collect one child if one has finished. */
    method ReapIdle() returns (r: Kind)
      requires Inv()
      modifies this`relays, k, servs
      ensures Inv() && Owed(servs[..]) == Owed(old(servs[..])) && Kept(old(servs[..]), servs[..])
      ensures Reaps(true, old(B()), B(), r)
      ensures (r == Relay ==> |relays| + 1 == |old(relays)|) && (r != Relay ==> relays == old(relays))
      ensures r != Nothing ==> |k.kids| < |old(k.kids)|
    {
      hide Owners, Bound, Owed, Orderly, Ported, Kept, Tells;
      var pid := k.Wait(true);
      BackIn(old(k.kids), pid);
      r := Collected(pid);
    }

    /** held: how many datagram services have a child that owns their socket. */
    method Held() returns (n: nat)
      ensures n == Number(servs[..], Owns) && (n > 0 <==> Some(servs[..], Owns))
      ensures n > 0 <==> Owners(servs[..]) != {}
    {
      hide Owners, Some;
      n := 0;
      NoOwners(servs[..]);
      NumberSome(servs[..], Owns);
      var i := 0;
      while i < servs.Length
        invariant i <= servs.Length && n == Number(servs[..][..i], Owns)
      {
        NumberMore(servs[..], i, Owns);
        if servs[i].pid != 0 { n := n + 1; }
        i := i + 1;
      }
      assert servs[..][..i] == servs[..];
    }

    /** rebinding: how many services are waiting to be bound again. */
    method Rebinding() returns (n: nat)
      ensures n == Number(servs[..], Waiting) && (n > 0 <==> Some(servs[..], Waiting))
    {
      hide Some;
      n := 0;
      NumberSome(servs[..], Waiting);
      var i := 0;
      while i < servs.Length
        invariant i <= servs.Length && n == Number(servs[..][..i], Waiting)
      {
        NumberMore(servs[..], i, Waiting);
        if servs[i].fd < 0 && servs[i].pid == 0 && servs[i].rebind > 0 { n := n + 1; }
        i := i + 1;
      }
      assert servs[..][..i] == servs[..];
    }

    /** rebind: try, and spend a turn doing it; a turn is spent whether or not the port comes
        back, so that the turns owed get fewer. */
    method Rebind()
      requires Inv() && Some(servs[..], Waiting)
      modifies this`turns, k, servs
      ensures Inv() && turns == old(turns) + 1 && Owed(servs[..]) < Owed(old(servs[..])) && k.kids == old(k.kids)
      ensures Rebinds(old(B()), B())
    {
      hide Owners, Bound, Owed, Orderly, Ported, Opening;
      ghost var b := B();
      ghost var w: nat :| w < servs.Length && Waiting(servs[w]);
      ghost var owed := Owed(servs[..]);
      OpenServ();
      assert OpenedAt(old(servs[..])[w], servs[..][w]);
      ghost var t: seq<Serv> := servs[..];
      var i := 0;
      while i < servs.Length
        invariant i <= servs.Length && Inv() && k.kids == old(k.kids) && Owed(servs[..]) <= owed
        invariant (i > w ==> Owed(servs[..]) < owed)
        invariant turns == old(turns) && Opening(b.servs, t, b.log, k.log)
        invariant forall j :: 0 <= j < i ==> servs[j] == Retried(t[j])
        invariant forall j :: i <= j < servs.Length ==> servs[j] == t[j]
      {
        RetryOne(i);
        i := i + 1;
      }
      turns := turns + 1;
      RebindsBy(b, t, B());
    }

    /** One service of rebind. */
    method RetryOne(i: nat)
      requires Inv() && i < servs.Length
      modifies servs
      ensures Inv() && servs[..] == old(servs[..])[i := Retried(old(servs[i]))]
      ensures Owed(servs[..]) <= Owed(old(servs[..]))
      ensures old(servs[i]).rebind > 0 && (old(servs[i]).fd >= 0 || old(servs[i]).pid == 0) ==>
                Owed(servs[..]) < Owed(old(servs[..]))
    {
      hide Owners, Bound, Owed, Orderly, Ported;
      ghost var was: seq<Serv> := servs[..];
      ghost var v := Retried(was[i]);
      RebindSet(was, i, v.rebind);
      PortedAgain(was, k.ports, i, v.rebind);
      if servs[i].fd >= 0 {
        servs[i] := servs[i].(rebind := 0);
      } else if servs[i].pid == 0 && servs[i].rebind != 0 {
        servs[i] := servs[i].(rebind := servs[i].rebind - 1);
      }
      assert servs[..] == was[i := was[i].(rebind := v.rebind)];
    }

    /** Collect one child that has finished, if there is one. */
    method CollectOne() returns (more: bool, ghost r: Kind)
      requires Inv()
      modifies this`relays, this`nkids, k, servs
      ensures Inv() && nkids <= old(nkids) && Owed(servs[..]) == Owed(old(servs[..])) && Kept(old(servs[..]), servs[..])
      ensures (more <==> r != Nothing) && ReapsOne(old(B()), B(), r)
      ensures more ==> |k.kids| < |old(k.kids)|
      ensures nkids - |relays| == old(nkids - |relays|)
    {
      hide Owners, Bound, Owed, Orderly, Ported, Kept, Reaps;
      var kind := ReapIdle();
      ghost var d := B();
      if kind == Relay { nkids := nkids - 1; }
      more, r := kind != Nothing, kind;
      assert B() == d.(nkids := if r == Relay then d.nkids - 1 else d.nkids);
    }

    /** Collect every child that has finished. */
    method CollectIdle()
      requires Inv()
      modifies this`relays, this`nkids, k, servs
      ensures Inv() && nkids <= old(nkids) && Owed(servs[..]) == Owed(old(servs[..])) && Kept(old(servs[..]), servs[..])
      ensures nkids - |relays| == old(nkids - |relays|) && ReapsAll(old(B()), B())
    {
      hide Owners, Bound, Owed, Orderly, Ported, Kept, Inv, ReapsOne, InetdSteps.Reaped, ReapsAll, Some;
      KeptSame(servs[..]);
      ghost var b, c := B(), 0;
      ReapedNone(b);
      var n := Held();
      while nkids > 0 || n > 0
        invariant Inv() && nkids <= old(nkids) && Owed(servs[..]) == Owed(old(servs[..]))
        invariant Kept(old(servs[..]), servs[..]) && nkids - |relays| == old(nkids - |relays|)
        invariant InetdSteps.Reaped(c, b, B()) && (n > 0 <==> Some(servs[..], Owns))
        decreases |k.kids|
      {
        ghost var was: seq<Serv>, d := servs[..], B();
        var more;
        ghost var r;
        more, r := CollectOne();
        KeptOn(old(servs[..]), was, servs[..]);
        if !more {
          ReapsLast(c, b, d, B());
          return;
        }
        ReapedMore(c, b, d, B(), r);
        c := c + 1;
        n := Held();
      }
      ReapsDone(c, b, B());
    }

    /** The services to poll. */
    method Pollable() returns (idx: seq<nat>, fds: seq<nat>)
      ensures idx == Polled(servs[..]) && fds == PolledFds(servs[..])
      ensures idx == [] <==> Bound(servs[..]) == {}
    {
      hide Bound;
      idx, fds := [], [];
      var i := 0;
      while i < servs.Length
        invariant i <= servs.Length && idx == Polled(servs[..][..i]) && fds == PolledFds(servs[..][..i])
      {
        PolledMore(servs[..], i);
        if servs[i].fd >= 0 { idx, fds := idx + [i], fds + [servs[i].fd]; }
        i := i + 1;
      }
      assert servs[..][..i] == servs[..];
      PolledNone(servs[..]);
    }

    /** A datagram waits for service i: a child gets the socket itself, if there can be one. */
    method HandOver(i: nat)
      requires Inv() && i < servs.Length && servs[i].fd >= 0 && servs[i].dgram
      modifies k, servs
      ensures Inv() && Owed(servs[..]) == Owed(old(servs[..]))
      ensures HandsOver(i, old(B()), B())
    {
      hide Owners, Bound, Owed, Ported;
      ghost var b := B();
      var n := k.Fork();
      if n < 0 {
        k.Receive(servs[i].fd);
        HandsOverWith(i, b, B(), n);
        return;
      }
      ghost var was: seq<Serv> := servs[..];
      ghost var v := was[i].(fd := -1, pid := n);
      assert OneHolder(was[i]);
      PortedGone(was, k.ports, i, v);
      hide Orderly;
      k.Drop(servs[i].fd);
      BoundGone(was, i, v);
      servs[i] := servs[i].(fd := -1);
      servs[i] := servs[i].(pid := n);
      assert servs[..] == was[i := v];
      HandsOverWith(i, b, B(), n);
    }

    /** What accept says is no socket is given up, and the service is owed a bind. */
    method LostListener(i: nat, ghost ports: map<nat, Port>)
      requires i < servs.Length && servs[i].fd >= 0 && !servs[i].dgram && servs[i].fd !in k.open
      requires With(k.kids, k.open + {servs[i].fd}, ports) && k.ports == ports - {servs[i].fd}
      modifies this`losses, k`open, k`ports, k`log, servs
      ensures Inv() && losses == old(losses) + 1
      ensures servs[..] == old(servs[..])[i := old(servs[i]).(fd := -1, rebind := 5)]
      ensures k.log == old(k.log) + [CloseCall(old(servs[i]).fd)]
    {
      hide Owners, Bound, Owed, Ported;
      ghost var was: seq<Serv> := servs[..];
      ghost var v := was[i].(fd := -1, rebind := REBINDMAX);
      assert OneHolder(was[i]);
      PortedGone(was, ports, i, v);
      hide Orderly;
      k.Close(servs[i].fd);
      assert k.ports == ports - {was[i].fd};
      BoundGone(was, i, v);
      servs[i] := servs[i].(fd := -1);
      servs[i] := servs[i].(rebind := REBINDMAX);
      assert servs[..] == was[i := v];
      losses := losses + 1;
    }

    /** A caller waits for service i: a relay gets the connection. */
    method Answer(i: nat) returns (ok: bool)
      requires Inv() && nkids < optM && i < servs.Length && servs[i].fd >= 0 && !servs[i].dgram
      modifies this`nkids, this`relays, this`losses, k, servs
      ensures Inv() && nkids <= optM && (!ok ==> nkids == old(nkids) && relays == old(relays))
      ensures nkids - |relays| == old(nkids - |relays|)
      ensures losses >= old(losses) && (losses == old(losses) ==> Owed(servs[..]) == Owed(old(servs[..])))
      ensures if ok then Accepts(i, old(B()), B()) else AcceptFails(i, old(B()), B())
      ensures forall j :: 0 <= j < servs.Length && j != i ==> servs[j] == old(servs[j])
    {
      hide Owners, Bound, Owed, Orderly, Ported;
      ghost var b, ports := B(), k.ports;
      InSets(servs[..], i);
      var conn, bad := k.Accept(servs[i].fd);
      if conn < 0 {
        if bad { LostListener(i, ports); }
        AcceptFailed(i, b, B(), bad);
        return false;
      }
      ghost var n := Relayed(conn);
      AcceptsWith(i, b, B(), conn, n);
      ok := true;
    }

    /** The connection is a child's from now on, if there can be one. */
    method Relayed(conn: nat) returns (ghost pid: int)
      requires conn in k.open && conn !in Bound(servs[..]) && With(k.kids, k.open - {conn}, k.ports) && nkids < optM
      modifies this`nkids, this`relays, k
      ensures Inv() && nkids <= optM && nkids - |relays| == old(nkids - |relays|)
      ensures B() == if pid > 0 then
                       Books(servs[..], old(nkids) + 1, old(relays) + {pid},
                             old(k.log) + [ForkCall(pid), DropCall(conn)])
                     else old(B()).(log := old(k.log) + [ForkCall(pid), CloseCall(conn)])
    {
      hide Owners, Bound, Owed, Orderly, Ported;
      PortedElsewhere(servs[..], k.ports, conn, Port(0, false));
      var n := k.Fork();
      if n < 0 {
        k.Close(conn);
      } else {
        NewRelay(relays, Owners(servs[..]), n);
        k.Drop(conn);
        relays := relays + {n};
        nkids := nkids + 1;
      }
      pid := n;
    }

    /** The services found readable, up to the first that is served. */
    method Serve(idx: seq<nat>, ready: seq<bool>)
      requires Valid() && nkids < optM && |idx| == |ready|
      requires forall j :: 0 <= j < |idx| ==> idx[j] < servs.Length && servs[idx[j]].fd >= 0
      requires forall a, b :: 0 <= a < b < |idx| ==> idx[a] < idx[b]
      modifies this`nkids, this`relays, this`losses, k, servs
      ensures Valid() && losses >= old(losses) && (losses == old(losses) ==> Owed(servs[..]) == Owed(old(servs[..])))
      ensures Serves(idx, ready, old(B()), B())
    {
      hide With, Owners, Bound, Owed, Orderly, Ported, Kept, Passed, Serves, Passes, HandsOver, Accepts, AcceptFails,
           ReapsAll;
      ghost var b := B();
      PassedNone(idx, ready, b);
      var i := 0;
      while i < |idx|
        invariant i <= |idx| && Inv() && nkids < optM && losses >= old(losses)
        invariant nkids - |relays| == old(nkids - |relays|)
        invariant (losses == old(losses) ==> Owed(servs[..]) == Owed(old(servs[..])))
        invariant forall j :: i <= j < |idx| ==> servs[idx[j]].fd >= 0
        invariant Passed(i, idx, ready, b, B())
      {
        ghost var d := B();
        if !ready[i] {
          PassesIdle(idx[i], d);
          PassedMore(i, idx, ready, b, d, B());
          i := i + 1;
          continue;
        }
        if servs[idx[i]].dgram {
          HandOver(idx[i]);
          ServedOne(i, idx, ready, b, d, B());
          return;
        }
        var ok := Answer(idx[i]);
        if ok {
          ServedOne(i, idx, ready, b, d, B());
          return;
        }
        ghost var was: seq<Serv>, e := servs[..], B();
        CollectIdle();
        KeptSockets(was, servs[..]);
        PassesFailed(idx[i], d, e, B());
        PassedMore(i, idx, ready, b, d, B());
        i := i + 1;
      }
      ServedNone(idx, ready, b, B());
    }

    /** No more children than optM: wait for one.  If there is none, nothing is missed any more. */
    method AtLimit()
      requires Valid() && nkids >= optM
      modifies this`nkids, this`relays, this`missed, k, servs
      ensures Valid() && Owed(servs[..]) == Owed(old(servs[..])) && Limited(old(B()), B())
      ensures missed == old(missed) || (missed == 0 && nkids == 0)
    {
      hide Owners, Bound, Owed, Orderly, Ported, Kept, Reaps;
      ghost var b := B();
      var r := Reap();
      ghost var d := B();
      hide With;
      Discount(r);
      LimitedBy(b, d, B(), r);
    }

    /** A relay collected is taken off the count; if there was nothing to wait for, the count is 0. */
    method Discount(r: Kind)
      requires Inv() && (r == Nothing ==> relays == {}) && nkids == |relays| + missed + if r == Relay then 1 else 0
      requires optM >= 1 && nkids <= optM
      modifies this`nkids, this`missed
      ensures Valid() && (missed == old(missed) || (missed == 0 && nkids == 0))
      ensures nkids == match r case Nothing => 0 case Relay => old(nkids) - 1 case Service => old(nkids)
    {
      hide Owners, Bound, Owed, Orderly, Ported;
      match r
      case Relay => nkids := nkids - 1;
      case Nothing => nkids, missed := 0, 0;
      case Service =>
    }

    /** What a turn may do to the binds owed: without a listener lost they get fewer by every one
        that is tried. */
    ghost predicate Spent(losses0: nat, turns0: nat, owed0: nat)
      reads this, servs
    {
      && losses >= losses0 && turns >= turns0
      && (losses == losses0 ==> Owed(servs[..]) <= owed0 && (turns > turns0 ==> Owed(servs[..]) < owed0))
    }

    /** Collect a child without telling nkids. */
    method ReapUncounted() returns (r: Kind)
      requires Valid()
      modifies this`relays, this`missed, k, servs
      ensures Valid() && Owed(servs[..]) == Owed(old(servs[..])) && Reaps(false, old(B()), B(), r)
      ensures missed == old(missed) + if r == Relay then 1 else 0
      ensures if r == Relay then |relays| + 1 == |old(relays)| else relays == old(relays)
      ensures k.who(old(k.clock)) in old(relays) ==> r == Relay
    {
      hide Owners, Bound, Owed, Orderly, Ported, Kept, Reaps;
      r := Reap();
      if r == Relay { missed := missed + 1; }
    }

    /** There is no socket to poll: wait for a child that has one, or bind again what is owed a
        bind; if there is neither, it is over.  The child collected may be a relay; nkids does not
        learn of it. */
    method NothingToPoll() returns (go: bool, ghost r: Kind)
      requires Valid()
      modifies this`relays, this`turns, this`missed, k, servs
      ensures Valid() && Spent(losses, old(turns), Owed(old(servs[..])))
      ensures Waits(old(B()), B(), go)
      ensures missed == old(missed) + if r == Relay then 1 else 0
      ensures r == Relay ==> Owners(old(servs[..])) != {} && |relays| + 1 == |old(relays)|
      ensures r != Relay ==> relays == old(relays)
      ensures Owners(old(servs[..])) != {} && k.who(old(k.clock)) in old(relays) ==> r == Relay
      ensures !go ==> servs[..] == old(servs[..]) && Owners(servs[..]) == {} && !Some(servs[..], Waiting)
    {
      hide Owners, Bound, Owed, Orderly, Ported, Kept, Reaps, Rebinds, Some;
      go, r := true, Nothing;
      var held := Held();
      if held > 0 {
        r := ReapUncounted();
        return;
      }
      var waiting := Rebinding();
      if waiting > 0 {
        Rebind();
        return;
      }
      go := false;
    }

    /** Poll, and do what it says. */
    method PollOnce(idx: seq<nat>, fds: seq<nat>) returns (go: bool)
      requires Valid() && nkids < optM && idx == Polled(servs[..]) && fds == PolledFds(servs[..])
      modifies this`nkids, this`relays, this`losses, this`turns, this`pollfail, k, servs
      ensures Valid() && Spent(old(losses), old(turns), Owed(old(servs[..]))) && (!go ==> pollfail >= POLLFAILMAX)
      ensures Polls(old(B()), old(pollfail), B(), pollfail, go)
    {
      hide With, Owners, Bound, Owed, Orderly, Ported, Kept, Some, Idles, Serves, Polled, PolledFds;
      ghost var b := B();
      go := true;
      PolledOrder(servs[..]);
      var held := Held();
      var waiting := Rebinding();
      var answer := k.Poll(fds, nkids > 0 || held > 0 || waiting > 0);
      ghost var d := B();
      assert d == b.(log := b.log + [PollCall(PolledFds(b.servs), Outstanding(b) || Some(b.servs, Waiting), answer)]);
      match answer {
        case Interrupted =>
        case Failed =>
          pollfail := pollfail + 1;
          go := pollfail < POLLFAILMAX;
        case TimedOut =>
          pollfail := 0;
          Idle();
        case Ready(ready) =>
          pollfail := 0;
          Serve(idx, ready);
      }
      PollsBy(answer, b, d, old(pollfail), B(), pollfail, go);
    }

    /** Below the limit there is nothing to poll, but a child has a socket. */
    ghost predicate Unpolled(nkids0: nat, servs0: seq<Serv>) {
      nkids0 < optM && Bound(servs0) == {} && Owners(servs0) != {}
    }

    /** poll() has failed too often, or there is no socket left and nothing that could give one back. */
    ghost predicate Over()
      reads this, servs
    {
      pollfail >= 5 || (Bound(servs[..]) == {} && Owners(servs[..]) == {} && !Some(servs[..], Waiting))
    }

    /** One turn of the main loop; it ends when poll() keeps failing, or when there is no socket
        left and nothing that could give one back.  It slips if it collects a relay that nkids goes
        on counting. */
    method Turn() returns (go: bool, ghost slip: bool)
      requires Valid()
      modifies this`nkids, this`relays, this`losses, this`turns, this`missed, this`pollfail, k, servs
      ensures Valid() && Spent(old(losses), old(turns), Owed(old(servs[..])))
      ensures Turns(optM, old(B()), old(pollfail), B(), pollfail, go)
      ensures missed == if slip then old(missed) + 1 else if missed == nkids == 0 then 0 else old(missed)
      ensures slip ==> Unpolled(old(nkids), old(servs[..])) && |relays| + 1 == |old(relays)|
      ensures slip <==> Slips(optM, old(B()), B())
      ensures Unpolled(old(nkids), old(servs[..])) && k.who(old(k.clock)) in old(relays) ==> slip
      ensures !go ==> Over()
    {
      hide With, Owners, Bound, Owed, Orderly, Ported, Kept, Polls, Waits, Limited, Some, Polled, PolledFds;
      slip := false;
      if nkids >= optM {
        AtLimit();
        return true, false;
      }
      var idx, fds := Pollable();
      if idx == [] {
        ghost var r;
        go, r := NothingToPoll();
        slip := r == Relay;
      } else {
        go := PollOnce(idx, fds);
      }
    }

    /** Nobody is waiting: collect what has finished, and bind again what is owed. */
    method Idle()
      requires Valid()
      modifies this`nkids, this`relays, this`turns, k, servs
      ensures Valid() && turns >= old(turns) && Owed(servs[..]) <= Owed(old(servs[..]))
      ensures (turns > old(turns) ==> Owed(servs[..]) < Owed(old(servs[..])))
      ensures Idles(old(B()), B())
    {
      hide Owners, Bound, Owed, Orderly, Ported, Kept, ReapsAll, Rebinds, Some;
      CollectIdle();
      var waiting := Rebinding();
      if waiting > 0 { Rebind(); }
    }

    /** Any number of turns: no service ever has both a socket and a child that owns it, the
        uncollected relays are at most nkids, which is at most optM, every descriptor open is
        some service's, and the turns spent on binding again are bounded by the sockets lost.
        nkids is the number of uncollected relays exactly if none has been missed, and as many are
        missed at most as turns have slipped. */
    method Run(n: nat) returns (ghost slips: nat, ghost steps: nat)
      requires Valid()
      modifies this`nkids, this`relays, this`losses, this`turns, this`missed, this`pollfail, k, servs
      ensures Valid() && turns + Owed(servs[..]) <= REBINDMAX * losses && |relays| <= nkids <= optM && relays <= k.kids
      ensures (|relays| == nkids <==> missed == 0) && missed <= old(missed) + slips
      ensures forall i :: 0 <= i < servs.Length ==> !(servs[i].fd >= 0 && servs[i].pid != 0)
      ensures steps <= n && Runs(steps, optM, old(B()), old(pollfail), B(), pollfail, slips)
      ensures steps < n ==> Over()
    {
      hide Owners, Bound, Owed, Ported, Turns, Some, Runs, InetdSteps.Slips;
      ghost var b, fail := B(), pollfail;
      RunsNone(optM, b, fail);
      var i, go := 0, true;
      slips := 0;
      while i < n && go
        invariant Valid() && missed <= old(missed) + slips && i <= n
        invariant Runs(i, optM, b, fail, B(), pollfail, slips)
        invariant !go ==> Over()
        decreases n - i
      {
        ghost var slip, c, f, j := false, B(), pollfail, slips;
        go, slip := Turn();
        if slip { slips := slips + 1; }
        RunsMore(i, optM, b, fail, c, f, j, B(), pollfail, go);
        i := i + 1;
      }
      steps := i;
      assert forall i :: 0 <= i < servs.Length ==> OneHolder(servs[..][i]);
    }
  }

  function Configured(conf: seq<(nat, bool)>): (s: seq<Serv>)
    ensures |s| == |conf|
  {
    seq(|conf|, i requires 0 <= i < |conf| => Serv(conf[i].0, conf[i].1, -1, 0, 0))
  }

  /** The services are opened; if none could be, that is the end, else there are so many turns. */
  ghost predicate Served(conf: seq<(nat, bool)>, before: seq<Call>, optM: nat, started: bool, steps: nat, c: Books,
                         fail: nat, slips: nat) {
    exists t: seq<Serv>, log: seq<Call> ::
      && Opening(Configured(conf), t, before, log) && (started <==> Polled(t) != [])
      && Runs(if started then steps else 0, optM, Books(t, 0, {}, log), 0, c, fail, slips)
  }

  /** The program from its start. */
  method Daemon(k: Kernel, conf: seq<(nat, bool)>, optM: nat, n: nat)
    returns (sb: Switchboard, started: bool, ghost steps: nat, ghost slips: nat)
    requires k.kids == {} && k.open == {} && optM >= 1
    modifies k
    ensures fresh(sb) && sb.k == k && sb.Valid() && steps <= n
    ensures Served(conf, old(k.log), optM, started, steps, sb.B(), sb.pollfail, slips)
    ensures started && steps < n ==> sb.Over()
  {
    hide Owners, Bound, Owed, Orderly, Ported, Switchboard.With, Switchboard.Over, Opening, Runs, Polled, PolledFds;
    sb := new Switchboard(k, conf, optM);
    assert sb.servs[..] == Configured(conf);
    sb.OpenServ();
    ghost var b := sb.B();
    var idx, fds := sb.Pollable();
    started, steps, slips := idx != [], 0, 0;
    RunsNone(optM, b, 0);
    if started {
      slips, steps := sb.Run(n);
    }
  }

  /** Two services, one of which has lost its socket for good; a child has the other one's socket,
      and a relay will finish before it. */
  method TwoChildren() returns (sb: Switchboard)
    ensures fresh(sb) && fresh(sb.k) && fresh(sb.servs) && sb.Valid() && sb.missed == 0 && sb.nkids == 1 && sb.optM == 2
    ensures sb.relays == {1} && sb.servs[..] == [Serv(7, false, -1, 0, 0), Serv(518, true, -1, 2, 0)]
    ensures sb.k.who(sb.k.clock) == 1
  {
    hide Owed, Owners, Bound, Orderly, Ported, Switchboard.Inv, Switchboard.With, Switchboard.Valid;
    var k := new Kernel(_ => 0, _ => 1);
    var two := [Serv(7, false, -1, 0, 0), Serv(518, true, -1, 2, 0)];
    NoneOwed(two);
    TwoServices(two);
    sb := new Switchboard(k, [(7, false), (518, true)], 2);
    k.kids, k.open := {1, 2}, {};
    sb.servs[0] := two[0];
    sb.servs[1] := two[1];
    assert sb.servs[..] == two;
    sb.nkids, sb.relays, sb.losses, sb.turns := 1, {1}, 1, REBINDMAX;
    OneRelay(sb);
  }

  lemma {:induction false} OneRelay(sb: Switchboard)
    requires Orderly(sb.servs[..]) && Ported(sb.servs[..], sb.k.ports) && sb.k.open == Bound(sb.servs[..])
    requires Owners(sb.servs[..]) == {2}
    requires sb.k.kids == {1, 2} && sb.relays == {1} && sb.nkids == 1 && sb.missed == 0 && sb.optM == 2
    requires sb.turns == REBINDMAX && Owed(sb.servs[..]) == 0 && sb.losses == 1
    ensures sb.Valid()
  {
    hide Owed, Owners, Bound, Orderly, Ported;
    assert {1, 2} == {1} + {2} && {1} !! {2};
  }

  /** The next turn collects the relay, and nkids stays at 1. */
  method MissedRun() returns (nkids: nat, ghost relays: set<nat>)
    ensures nkids == 1 && relays == {}
  {
    hide Owed, Owners, Bound, Orderly;
    var sb := TwoChildren();
    TwoServices(sb.servs[..]);
    var go;
    ghost var slip;
    go, slip := sb.Turn();
    nkids, relays := sb.nkids, sb.relays;
    Emptied(relays);
  }

  lemma {:induction false} Emptied(relays: set<nat>)
    ensures |relays| == 0 ==> relays == {}
  {
  }

  lemma {:induction false} TwoServices(s: seq<Serv>)
    requires s == [Serv(7, false, -1, 0, 0), Serv(518, true, -1, 2, 0)]
    ensures Orderly(s) && Bound(s) == {} && Owners(s) == {2} && forall ports :: Ported(s, ports)
  {
    assert s[1].pid == 2;
    assert 2 in Owners(s);
  }
}
