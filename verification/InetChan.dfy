/** The client's end of a channel to the inet daemon, net/inet_chan.c: requests and replies over
    byte streams, with a READ armed while other operations are in flight. */
module InetChan {
  import opened BitString

  const NWR_READ: nat := 3
  const NWR_WRITE: nat := 4
  const NWR_IOCTL: nat := 5
  const ICHAN_HOLD: nat := 512

  // --------------------------------------------------------------------- the daemon

  /** A request record and the payload sent with it; req is the code of an ioctl. */
  datatype Request = Request(op: nat, req: int, count: nat, payload: seq<byte>)
  datatype Reply = Reply(rop: nat, status: int, payload: seq<byte>)

  /** A READ for up to n bytes, as the daemon knows it. */
  function ReadFor(n: nat): Request { Request(3, 0, n, []) }

  /** The daemon's contract for one reply: it is tagged with the operation, and a READ brings at
      most as many bytes as were asked for, and says so, or an error. */
  ghost predicate Answers(r: Reply, q: Request) {
    && r.rop == q.op && -0x8000 <= r.status < 0x8000 && |r.payload| < 0x8000
    && (q.op == NWR_READ ==> |r.payload| <= q.count && (r.status == |r.payload| || (r.status < 0 && r.payload == [])))
  }

  /** One of the requests is answered, the others remain. */
  ghost predicate OneAnswered(owed: seq<Request>, owed2: seq<Request>, log: seq<Reply>, log2: seq<Reply>) {
    exists i :: 0 <= i < |owed| && AnsweredAt(owed, owed2, log, log2, i)
  }

  ghost predicate AnsweredAt(owed: seq<Request>, owed2: seq<Request>, log: seq<Reply>, log2: seq<Reply>, i: nat)
    requires i < |owed|
  {
    && |log2| == |log| + 1 && log2[..|log|] == log && Answers(log2[|log|], owed[i])
    && multiset(owed2) == multiset(owed) - multiset{owed[i]} && |owed2| == |owed| - 1
  }

  /** Some answer to q, made from any status and any data. */
  function AnswerTo(q: Request, status: int, data: seq<byte>): (r: Reply)
    ensures Answers(r, q)
  {
    var p := if |data| >= 0x8000 then data[..0x7fff] else data;
    var s := if -0x8000 <= status < 0x8000 then status else 0;
    if q.op != NWR_READ then Reply(q.op, s, p)
    else if s < 0 then Reply(q.op, s, [])
    else
      var p2 := if |p| > q.count then p[..q.count] else p;
      Reply(q.op, |p2|, p2)
  }

  lemma {:induction false} RemovedAt(s: seq<Request>, i: nat)
    requires i < |s|
    ensures multiset(s[..i] + s[i + 1..]) == multiset(s) - multiset{s[i]}
  {
    assert s == s[..i] + [s[i]] + s[i + 1..];
  }

  /** The daemon and the two FIFOs.  Which request it answers next, with what, and how much of a
      payload is there when it is read for, is not known: any functions of the time. */
  class Daemon {
    const pick: nat -> nat
    const status: nat -> int
    const data: nat -> seq<byte>
    const ready: nat -> nat
    var clock: nat
    var owed: seq<Request>   // requests without a reply
    var left: seq<byte>      // payload of the last reply that has not been read
    ghost var log: seq<Reply>
    ghost var asked: seq<Request>  // all requests

    constructor (pick: nat -> nat, status: nat -> int, data: nat -> seq<byte>, ready: nat -> nat)
      ensures owed == [] && left == [] && log == [] && asked == []
    {
      this.pick, this.status, this.data, this.ready := pick, status, data, ready;
      clock, owed, left, log, asked := 0, [], [], [], [];
    }

    method Send(q: Request)
      modifies this`owed, this`asked
      ensures owed == old(owed) + [q] && asked == old(asked) + [q]
    {
      owed, asked := owed + [q], asked + [q];
    }

    /** Read a reply record: only between two replies, and only if one is owed, for otherwise the
        read never ends. */
    method ReadRecord() returns (status: int, rop: nat, dlen: nat)
      requires left == [] && owed != []
      modifies this`clock, this`owed, this`left, this`log
      ensures OneAnswered(old(owed), owed, old(log), log)
      ensures var r := log[|log| - 1]; status == r.status && rop == r.rop && dlen == |r.payload| && left == r.payload
    {
      hide Answers;
      var i := pick(clock) % |owed|;
      var r := AnswerTo(owed[i], this.status(clock), data(clock));
      clock := clock + 1;
      ghost var was := owed;
      RemovedAt(owed, i);
      owed := owed[..i] + owed[i + 1..];
      left := r.payload;
      log := log + [r];
      status, rop, dlen := r.status, r.rop, |r.payload|;
      assert AnsweredAt(was, owed, old(log), log, i);
    }

    /** Read from the payload: something, not always all. */
    method RawRead(n: nat) returns (bytes: seq<byte>)
      requires 0 < n <= |left|
      modifies this`left, this`clock
      ensures 0 < |bytes| <= n && bytes + left == old(left)
    {
      var k := ready(clock) % n + 1;
      clock := clock + 1;
      bytes := left[..k];
      left := left[k..];
    }
  }

  // -------------------------------------------------------------------- the stream

  /** All that READs have brought. */
  function ReadData(log: seq<Reply>): seq<byte> {
    if log == [] then []
    else ReadData(log[..|log| - 1]) + (if log[|log| - 1].rop == NWR_READ then log[|log| - 1].payload else [])
  }

  lemma {:induction false} ReadDataMore(log: seq<Reply>, log2: seq<Reply>)
    requires |log2| == |log| + 1 && log2[..|log|] == log
    ensures ReadData(log2) == ReadData(log) + if log2[|log|].rop == NWR_READ then log2[|log|].payload else []
  {
  }

  /** What the daemon owes: the armed READ, if there is one, and the others. */
  ghost predicate Owes(owed: seq<Request>, posted: bool, count: nat, others: multiset<Request>) {
    && multiset(owed) == others + (if posted then multiset{ReadFor(count)} else multiset{})
    && forall q :: q in others ==> q.op != NWR_READ
  }

  /** A reply answers the READ or one of the others. */
  lemma {:induction false} WhoAnswered(owed: seq<Request>, owed2: seq<Request>, log: seq<Reply>, log2: seq<Reply>,
                                       posted: bool, count: nat, others: multiset<Request>)
    returns (q: Request)
    requires OneAnswered(owed, owed2, log, log2) && Owes(owed, posted, count, others)
    ensures |log2| == |log| + 1 && log2[..|log|] == log && |owed2| == |owed| - 1
    ensures Answers(log2[|log|], q)
    ensures log2[|log|].rop == NWR_READ ==> posted && q == ReadFor(count) && Owes(owed2, false, count, others)
    ensures log2[|log|].rop != NWR_READ ==> q in others && Owes(owed2, posted, count, others - multiset{q})
  {
    hide Answers;
    var i :| 0 <= i < |owed| && AnsweredAt(owed, owed2, log, log2, i);
    q := owed[i];
    assert q in multiset(owed);
    OtherTag(log2[|log|], q);
    if q.op == NWR_READ {
      ReadGone(owed, owed2, posted, count, others, q);
    } else {
      OtherGone(owed, owed2, posted, count, others, q);
    }
  }

  lemma {:induction false} ReadGone(owed: seq<Request>, owed2: seq<Request>, posted: bool, count: nat,
                                    others: multiset<Request>, q: Request)
    requires Owes(owed, posted, count, others) && q in multiset(owed) && q.op == NWR_READ
    requires multiset(owed2) == multiset(owed) - multiset{q}
    ensures posted && q == ReadFor(count) && Owes(owed2, false, count, others)
  {
    assert q !in others;
    assert others + multiset{q} - multiset{q} == others;
  }

  lemma {:induction false} OtherGone(owed: seq<Request>, owed2: seq<Request>, posted: bool, count: nat,
                                     others: multiset<Request>, q: Request)
    requires Owes(owed, posted, count, others) && q in multiset(owed) && q.op != NWR_READ
    requires multiset(owed2) == multiset(owed) - multiset{q}
    ensures q in others && Owes(owed2, posted, count, others - multiset{q})
  {
    var r := if posted then multiset{ReadFor(count)} else multiset{};
    assert q !in r;
    assert others + r - multiset{q} == (others - multiset{q}) + r;
  }

  /** What is asked for to wait for k READs, the first of which may be armed. */
  function Waits(posted: bool, k: nat): seq<Request> {
    if k == 0 then [] else Waits(posted, k - 1) + if k == 1 && posted then [] else [ReadFor(512)]
  }

  class Ichan {
    const d: Daemon
    const hold: array<byte>
    var posted: bool
    var status: int
    var got: nat
    var hlen: nat
    var hoff: nat
    ghost var count: nat        // what the armed READ asked for
    ghost var taken: seq<byte>  // what ichan_recv has handed out

    ghost predicate Shaped()
      reads this
    {
      hold.Length == ICHAN_HOLD && hoff <= hlen <= ICHAN_HOLD && (posted ==> count + (hlen - hoff) <= ICHAN_HOLD)
    }

    ghost function Held(): seq<byte>
      requires Shaped()
      reads this, hold
    {
      hold[hoff..hlen]
    }

    /** The bytes that READs have brought are those handed out and those held, in order; the
        reply FIFO stands between two replies; and the daemon owes the armed READ, if there is
        one, and the others. */
    ghost predicate During(others: multiset<Request>)
      reads this, hold, d
    {
      Shaped() && ReadData(d.log) == taken + Held() && d.left == [] && Owes(d.owed, posted, count, others)
    }

    /** Between two calls nothing but the READ is outstanding. */
    ghost predicate Valid()
      reads this, hold, d
    {
      During(multiset{})
    }

    constructor (d: Daemon)
      requires d.owed == [] && d.left == [] && d.log == []
      ensures Valid() && taken == [] && !posted && this.d == d && fresh(hold)
    {
      this.d, hold := d, new byte[ICHAN_HOLD];
      posted, status, got, hlen, hoff, count, taken := false, 0, 0, 0, 0, 0, [];
    }

    /** Move what is held to the start of the buffer; memcpy is taken to copy upwards. */
    method Compact()
      requires Shaped()
      modifies this`hlen, this`hoff, hold
      ensures Shaped() && Held() == old(Held()) && hoff == 0
    {
      if hoff > 0 {
        var n := hlen - hoff;
        ghost var h := Held();
        var i := 0;
        while i < n
          invariant 0 <= i <= n && hoff == old(hoff) && hlen == old(hlen) && n == hlen - hoff && hold[..i] == h[..i]
          invariant forall j :: hoff + i <= j < hlen ==> hold[j] == old(hold[j])
        {
          hold[i] := hold[hoff + i];
          i := i + 1;
        }
        hlen, hoff := n, 0;
        assert hold[0..hlen] == h;
      }
    }

    /** readn, into the hold buffer: exactly n bytes of the payload, however they come. */
    method ReadHold(n: nat)
      requires Shaped() && n <= |d.left| && hlen + n <= ICHAN_HOLD
      modifies hold, d`left, d`clock
      ensures hold[..hlen + n] == old(hold[..hlen]) + old(d.left)[..n] && d.left == old(d.left)[n..]
    {
      var at: nat := 0;
      ghost var p: seq<byte>, h: seq<byte> := d.left, hold[..hlen];
      assert p[..0] == [] && p[0..] == p;
      while at < n
        invariant at <= n <= |p| && hold[..hlen + at] == h + p[..at] && d.left == p[at..]
      {
        ghost var before: seq<byte> := hold[..hlen + at];
        var bytes := d.RawRead(n - at);
        PartRead(p, at, bytes, d.left);
        CopyBytes(hold, hlen + at, bytes);
        Joins(h, p[..at], bytes, p[..at + |bytes|]);
        at := at + |bytes|;
      }
    }

    /** ichan_drain: throw away n bytes of the payload. */
    method Drain(n: nat)
      requires n <= |d.left|
      modifies d`left, d`clock
      ensures d.left == old(d.left)[n..]
    {
      var m := n;
      ghost var p := d.left;
      while m > 0
        invariant 0 <= m <= n && d.left == p[n - m..]
      {
        var k := if m > 32 then 32 else m;
        var scrap := Readn(d, k);
        m := m - k;
      }
    }

    /** The payload of a READ goes to the hold buffer, as far as there is room for it. */
    method Park(dlen: nat)
      requires Shaped() && !posted && dlen == |d.left|
      modifies this`hlen, this`hoff, hold, d`left, d`clock
      ensures Shaped() && d.left == [] && (old(hoff) == 0 ==> hoff == 0)
      ensures Held()
        == old(Held()) + old(d.left)[..if dlen + |old(Held())| <= ICHAN_HOLD then dlen else ICHAN_HOLD - |old(Held())|]
    {
      if dlen > 0 {
        ghost var h, p := Held(), d.left;
        Compact();
        var room: nat := ICHAN_HOLD - hlen;
        var n: nat := dlen;
        if n > room { n := room; }
        assert hold[0..hlen] == hold[..hlen];
        ReadHold(n);
        hlen := hlen + n;
        assert hold[0..hlen] == hold[..hlen];
        if dlen > n { Drain(dlen - n); }
      }
    }

    /** The reply r answers q, one of the others, and what it brought is in buf as far as it was
        wanted. */
    ghost predicate Other(r: Reply, q: Request, want: nat, max: nat, buf: seq<byte>)
      reads this`got
    {
      && Answers(r, q) && r.rop != NWR_READ && got == |buf|
      && buf == if r.rop == want then r.payload[..if max < |r.payload| then max else |r.payload|] else []
    }

    /** ichan_take: take one reply off the channel.  The payload of a READ is held; that of any
        other reply is the caller's if it is the wanted one; all of it leaves the FIFO. */
    method Take(want: nat, max: nat, ghost others: multiset<Request>)
      returns (rop: nat, buf: seq<byte>, ghost q: Request)
      requires During(others) && d.owed != []
      modifies this`posted, this`status, this`got, this`hlen, this`hoff, hold, d
      ensures |d.log| == |old(d.log)| + 1 && d.log[..|old(d.log)|] == old(d.log) && |d.owed| == |old(d.owed)| - 1
      ensures var r := d.log[|old(d.log)|]; rop == r.rop && status == r.status
      ensures (old(hoff) == 0 ==> hoff == 0) && d.asked == old(d.asked)
      ensures rop == NWR_READ ==>
                old(posted) && !posted && During(others) && Held() == old(Held()) + d.log[|old(d.log)|].payload
                  && Answers(d.log[|old(d.log)|], q) && q.op == NWR_READ
      ensures rop != NWR_READ ==>
                posted == old(posted) && q in others && During(others - multiset{q})
                  && Other(d.log[|old(d.log)|], q, want, max, buf)
                                  && Held() == old(Held())
    {
      hide ReadData, OneAnswered, Answers, Owes;
      buf, got := [], 0;
      ghost var log0, owed0 := d.log, d.owed;
      var dlen;
      status, rop, dlen := d.ReadRecord();
      q := WhoAnswered(owed0, d.owed, log0, d.log, posted, count, others);
      ReadDataMore(log0, d.log);
      OtherTag(d.log[|log0|], q);
      if rop == NWR_READ { posted := false; }
      if rop != NWR_READ {
        buf := PassOn(rop == want, max, dlen);
        return;
      }
      ReadAnswer(d.log[|log0|], q);
      ghost var h, p := Held(), d.left;
      Park(dlen);
      assert p[..|p|] == p;
      assert (taken + h) + p == taken + (h + p);
    }

    /** The payload of a reply to something else than a READ. */
    method PassOn(wanted: bool, max: nat, dlen: nat) returns (buf: seq<byte>)
      requires dlen == |d.left| && got == 0
      modifies this`got, d`left, d`clock
      ensures d.left == [] && got == |buf|
      ensures buf == if wanted then old(d.left)[..if max < dlen then max else dlen] else []
    {
      var n := dlen;
      buf := [];
      if wanted && max > 0 {
        got := if n > max then max else n;
        buf := Readn(d, got);
        n := n - got;
      }
      Drain(n);
    }

    /** The log has grown, and nothing it had before has changed. */
    ghost predicate Grew(log0: seq<Reply>)
      reads d
    {
      |log0| <= |d.log| && d.log[..|log0|] == log0
    }

    /** ichan_await, for the armed READ: nothing else is outstanding. */
    method AwaitRead()
      requires Valid() && posted
      modifies this`posted, this`status, this`got, this`hlen, this`hoff, hold, d
      ensures Valid() && !posted && Grew(old(d.log)) && (old(hoff) == 0 ==> hoff == 0) && d.asked == old(d.asked)
      ensures |d.log| == |old(d.log)| + 1 && d.log[|old(d.log)|].rop == 3 && d.log[|old(d.log)|].status == status
      ensures (status < 0 && Held() == old(Held()))
        || (status >= 0 && |Held()| == |old(Held())| + status && old(Held()) <= Held())
    {
      hide ReadData, OneAnswered, Answers;
      ghost var log0 := d.log;
      ReadOwed(d.owed, count);
      ghost var q;
      var rop, buf;
      rop, buf, q := Take(NWR_READ, 0, multiset{});
      ReadAnswer(d.log[|log0|], q);
    }

    /** ichan_await, for the request q: a READ that completes first is parked. */
    method Await(op: nat, max: nat, ghost q: Request) returns (buf: seq<byte>)
      requires During(multiset{q}) && q.op == op && op != NWR_READ
      modifies this`posted, this`status, this`got, this`hlen, this`hoff, hold, d
      ensures Valid() && Grew(old(d.log)) && old(Held()) <= Held() && |d.log| > 0
      ensures Other(d.log[|d.log| - 1], q, op, max, buf) && status == d.log[|d.log| - 1].status
      ensures |old(d.log)| < |d.log| <= |old(d.log)| + 2 && ReadsOnly(d.log, |old(d.log)|) && d.asked == old(d.asked)
    {
      hide ReadData, OneAnswered, Answers, Owes;
      ghost var log0 := d.log;
      buf := [];
      OtherOwed(d.owed, posted, count, q);
      var rop := NWR_READ;
      while rop != op
        invariant (rop == NWR_READ || rop == op) && d.asked == old(d.asked)
        invariant rop == NWR_READ ==> During(multiset{q}) && |d.owed| == (if posted then 2 else 1)
        invariant rop == op ==>
                  Valid() && |d.log| > 0 && Other(d.log[|d.log| - 1], q, op, max, buf)
                    && status == d.log[|d.log| - 1].status
        invariant Shaped() && Grew(log0) && old(Held()) <= Held() && ReadsOnly(d.log, |log0|)
        invariant rop == NWR_READ ==>
                  |d.log| + |d.owed| == |log0| + (if old(posted) then 2 else 1) && AllReads(d.log, |log0|)
        invariant rop == op ==> |log0| < |d.log| <= |log0| + 2
        decreases rop != op, |d.owed|
      {
        ghost var x, l := q, d.log;
        rop, buf, x := Take(op, max, multiset{q});
        assert d.log[..|log0|] == d.log[..|l|][..|log0|];
        if rop != NWR_READ {
          OtherTag(d.log[|l|], x);
          assert x == q && multiset{q} - multiset{q} == multiset{};
        } else {
          OtherOwed(d.owed, posted, count, q);
        }
      }
    }

    /** What ichan_arm asks for: as much as there is room for, unless a READ is armed. */
    ghost function Rearming(): seq<Request>
      requires Shaped()
      reads this, hold
    {
      if posted || |Held()| == 512 then [] else [ReadFor(512 - |Held()|)]
    }

    /** ichan_arm: keep a READ outstanding, for as much as there is room for. */
    method Arm()
      requires Valid()
      modifies this`posted, this`hlen, this`hoff, this`count, hold, d`owed, d`asked
      ensures d.asked == old(d.asked) + old(Rearming())
      ensures Valid() && Held() == old(Held()) && (posted || |Held()| == ICHAN_HOLD)
      ensures (old(posted) ==> count == old(count)) && (old(hoff) == 0 ==> hoff == 0)
    {
      hide ReadData;
      if posted { return; }
      Compact();
      var room := ICHAN_HOLD - hlen;
      if room <= 0 { return; }
      ghost var o := d.owed;
      d.Send(Request(NWR_READ, 0, room, []));
      assert multiset(d.owed) == multiset(o) + multiset{Request(NWR_READ, 0, room, [])};
      posted := true;
      count := room;
    }

    /** Hand out up to max of the bytes held. */
    method HandOut(max: nat) returns (n: nat, buf: seq<byte>)
      requires Valid()
      modifies this`hlen, this`hoff, this`taken
      ensures Valid() && taken == old(taken) + buf && |buf| == n == if max < |old(Held())| then max else |old(Held())|
      ensures buf + Held() == old(Held())
    {
      hide ReadData, Owes;
      n := hlen - hoff;
      if n > max { n := max; }
      SplitHeld(hold[..], hoff, hlen, n);
      Joins(taken, hold[hoff..hoff + n], hold[hoff + n..hlen], hold[hoff..hlen]);
      buf := hold[hoff..hoff + n];
      taken := taken + buf;
      hoff := hoff + n;
      if hoff >= hlen {
        assert hold[hoff..hlen] == hold[0..0];
        hlen, hoff := 0, 0;
      }
    }

    /** Nothing is held: wait for a READ. */
    method WaitForMore()
      requires Valid() && hoff >= hlen
      modifies this`posted, this`status, this`got, this`hlen, this`hoff, this`count, hold, d
      ensures Valid() && !posted && Grew(old(d.log))
      ensures |d.log| == |old(d.log)| + 1 && d.log[|old(d.log)|].rop == 3 && d.log[|old(d.log)|].status == status
      ensures d.asked == old(d.asked) + if old(posted) then [] else [ReadFor(512)]
      ensures (status < 0 && Held() == []) || (status >= 0 && |Held()| == status)
      ensures hoff == 0
    {
      hide ReadData, Owes;
      assert Held() == [];
      hlen, hoff := 0, 0;
      assert Held() == [];
      Arm();
      AwaitRead();
    }

    /** The last of the new replies is a READ's, and status is its status. */
    ghost predicate LastRead(log0: seq<Reply>)
      reads this, d
    {
      |d.log| > |log0| && d.log[|d.log| - 1].rop == 3 && status == d.log[|d.log| - 1].status
    }

    /** While ichan_recv waited for the last k READs it asked for 512 bytes each time, but for a READ
        that was armed; then, if there was something to hand out, it asked for as much as there is
        room for now, unless the READ armed at first is still. */
    ghost predicate Reread(asked0: seq<Request>, posted0: bool, k: nat, n: int)
      requires Shaped()
      reads this, hold, d
    {
      d.asked == asked0 + Waits(posted0, k)
                 + if (n > 0 || Held() != []) && !(k == 0 && posted0) && |Held()| < 512 then [ReadFor(512 - |Held()|)]
                   else []
    }

    /** ichan_recv: hand out what is held, or wait for more; -1 for an error the daemon reports,
        0 at the end of the data.  What is handed out is what READs brought, in order, and a READ
        is armed again unless there is no room for one. */
    method Recv(max: nat) returns (n: int, buf: seq<byte>)
      requires Valid()
      modifies this, hold, d
      ensures Valid() && Grew(old(d.log)) && taken == old(taken) + buf
      ensures n >= 0 ==> |buf| == n <= max
      ensures n < 0 ==> n == -1 && buf == [] && status < 0 && LastRead(old(d.log))
      ensures n == 0 && max > 0 ==> LastRead(old(d.log))
      ensures |d.log| >= |old(d.log)| && Reread(old(d.asked), old(posted), |d.log| - |old(d.log)|, n)
      ensures old(Held()) != [] ==> n == if max < |old(Held())| then max else |old(Held())|
      ensures n == 0 && max > 0 ==> status == 0 && Held() == []
      ensures n > 0 ==> posted || |Held()| == ICHAN_HOLD
    {
      hide ReadData, Owes, Waits;
      buf := [];
      ghost var log0, asked0 := d.log, d.asked;
      WaitsNone(asked0, posted);
      while hoff >= hlen
        invariant Valid() && Grew(old(d.log)) && taken == old(taken) && (old(Held()) != [] ==> Held() == old(Held()))
        invariant d.asked == asked0 + Waits(old(posted), |d.log| - |log0|)
        invariant posted == (if |d.log| == |log0| then old(posted) else false)
        decreases hoff >= hlen
      {
        ghost var l := d.log;
        WaitForMore();
        assert d.log[..|old(d.log)|] == d.log[..|l|][..|old(d.log)|];
        WaitsMore(asked0, old(posted), |l| - |log0|);
        if status < 0 { return -1, buf; }
        if status == 0 && hlen == 0 { return 0, buf; }
      }
      n, buf := HandOut(max);
      Arm();
    }

    /** Send a request with the payload it has; the daemon owes an answer more. */
    method Ask(q: Request)
      requires Valid() && q.op != NWR_READ
      modifies d`owed, d`asked
      ensures During(multiset{q}) && d.log == old(d.log) && d.asked == old(d.asked) + [q]
    {
      hide ReadData;
      ghost var o := d.owed;
      d.Send(q);
      assert multiset(d.owed) == multiset(o) + multiset{q};
    }

    /** What the call returns is the daemon's answer to its own request; READs that completed
        meanwhile are held. */
    ghost predicate Answered(q: Request, log0: seq<Reply>, held0: seq<byte>)
      requires Shaped()
      reads this, hold, d
    {
      && Grew(log0) && held0 <= Held() && |d.log| > |log0| && Answers(d.log[|d.log| - 1], q)
      && status == d.log[|d.log| - 1].status && ReadsOnly(d.log, |log0|)
    }

    /** ichan_write: these bytes, and their number. */
    method Write(bytes: seq<byte>) returns (r: int)
      requires Valid()
      modifies this`posted, this`status, this`got, this`hlen, this`hoff, hold, d
      ensures d.asked == old(d.asked) + [Request(4, 0, |bytes|, bytes)]
      ensures Valid() && Answered(Request(4, 0, |bytes|, bytes), old(d.log), old(Held()))
      ensures r == if status < 0 then -1 else status
    {
      hide ReadData, OneAnswered, Answers;
      var q := Request(NWR_WRITE, 0, |bytes|, bytes);
      ghost var log0 := d.log;
      Ask(q);
      var buf := Await(NWR_WRITE, 0, q);
      r := if status < 0 then -1 else status;
    }

    /** ichan_ioctl, with len bytes of data or none. */
    method Ioctl(req: int, data: seq<byte>, len: nat) returns (r: int)
      requires Valid() && (|data| == len || data == [])
      modifies this`posted, this`status, this`got, this`hlen, this`hoff, hold, d
      ensures d.asked == old(d.asked) + [Request(5, req, len, data)]
      ensures Valid() && Answered(Request(5, req, len, data), old(d.log), old(Held()))
      ensures r == if status < 0 then -1 else status
    {
      hide ReadData, OneAnswered, Answers;
      var q := Request(NWR_IOCTL, req, len, data);
      ghost var log0 := d.log;
      Ask(q);
      var buf := Await(NWR_IOCTL, 0, q);
      r := if status < 0 then -1 else status;
    }

    /** ichan_ioctl_get: nothing is sent, and the payload of the answer returned as far as the buffer
        goes. */
    method IoctlGet(req: int, len: nat) returns (r: int, answer: seq<byte>)
      requires Valid()
      modifies this`posted, this`status, this`got, this`hlen, this`hoff, hold, d
      ensures d.asked == old(d.asked) + [Request(5, req, 0, [])]
      ensures Valid() && Answered(Request(5, req, 0, []), old(d.log), old(Held()))
      ensures r == if status < 0 then -1 else |answer|
      ensures var p := d.log[|d.log| - 1].payload; answer == p[..if len < |p| then len else |p|]
    {
      hide ReadData, OneAnswered, Answers;
      var q := Request(NWR_IOCTL, req, 0, []);
      ghost var log0 := d.log;
      Ask(q);
      answer := Await(NWR_IOCTL, len, q);
      OtherTag(d.log[|d.log| - 1], q);
      r := if status < 0 then -1 else got;
    }

    /** ichan_ioctl_rw: the data, if there are any, are sent, and the payload of the answer returned
        as far as the buffer goes. */
    method IoctlRw(req: int, data: seq<byte>, len: nat) returns (r: int, answer: seq<byte>)
      requires Valid() && (|data| == len || data == [])
      modifies this`posted, this`status, this`got, this`hlen, this`hoff, hold, d
      ensures d.asked == old(d.asked) + [Request(5, req, len, data)]
      ensures Valid() && Answered(Request(5, req, len, data), old(d.log), old(Held()))
      ensures r == if status < 0 then -1 else |answer|
      ensures var p := d.log[|d.log| - 1].payload; answer == p[..if len < |p| then len else |p|]
    {
      hide ReadData, OneAnswered, Answers;
      var q := Request(NWR_IOCTL, req, len, data);
      ghost var log0 := d.log;
      Ask(q);
      answer := Await(NWR_IOCTL, len, q);
      OtherTag(d.log[|d.log| - 1], q);
      r := if status < 0 then -1 else got;
    }
  }

  lemma {:induction false} WaitsNone(asked: seq<Request>, posted: bool)
    ensures asked + Waits(posted, 0) == asked
  {
  }

  lemma {:induction false} WaitsMore(asked: seq<Request>, posted: bool, k: nat)
    ensures asked + Waits(posted, k + 1) == asked + Waits(posted, k) + if posted && k == 0 then [] else [ReadFor(512)]
  {
  }

  lemma {:induction false} Joins(h: seq<byte>, x: seq<byte>, y: seq<byte>, z: seq<byte>)
    requires z == x + y
    ensures (h + x) + y == h + z
  {
  }

  lemma {:induction false} SplitHeld(hold: seq<byte>, a: nat, b: nat, n: nat)
    requires a + n <= b <= |hold|
    ensures hold[a..b] == hold[a..a + n] + hold[a + n..b]
  {
  }

  lemma {:induction false} PartRead(p: seq<byte>, at: nat, bytes: seq<byte>, left: seq<byte>)
    requires at <= |p| && bytes + left == p[at..]
    ensures at + |bytes| <= |p| && left == p[at + |bytes|..] && p[..at + |bytes|] == p[..at] + bytes
  {
    assert bytes == p[at..][..|bytes|] && left == p[at..][|bytes|..];
  }

  method CopyBytes(a: array<byte>, at: nat, bytes: seq<byte>)
    requires at + |bytes| <= a.Length
    modifies a
    ensures a[..at + |bytes|] == old(a[..at]) + bytes
  {
    var i := 0;
    while i < |bytes|
      invariant i <= |bytes| && a[..at + i] == old(a[..at]) + bytes[..i]
    {
      ghost var before: seq<byte> := a[..at + i];
      a[at + i] := bytes[i];
      assert a[..at + (i + 1)] == before + [bytes[i]];
      i := i + 1;
    }
    assert bytes[..i] == bytes;
  }

  /** readn: exactly n bytes, looping over short reads. */
  method Readn(d: Daemon, n: nat) returns (buf: seq<byte>)
    requires n <= |d.left|
    modifies d`left, d`clock
    ensures buf == old(d.left)[..n] && d.left == old(d.left)[n..]
  {
    buf := [];
    ghost var p := d.left;
    while |buf| < n
      invariant |buf| <= n && buf == p[..|buf|] && d.left == p[|buf|..]
      decreases n - |buf|
    {
      ghost var g := |buf|;
      var bytes := d.RawRead(n - |buf|);
      assert bytes == p[g..g + |bytes|];
      buf := buf + bytes;
    }
  }

  lemma {:induction false} ReadOwed(owed: seq<Request>, count: nat)
    requires Owes(owed, true, count, multiset{})
    ensures owed != []
  {
    assert ReadFor(count) in multiset(owed);
  }

  lemma {:induction false} OtherOwed(owed: seq<Request>, posted: bool, count: nat, q: Request)
    requires Owes(owed, posted, count, multiset{q})
    ensures |owed| == (if posted then 2 else 1)
  {
    assert |multiset(owed)| == |owed|;
    assert |multiset{q} + multiset{ReadFor(count)}| == 2;
  }

  lemma {:induction false} ReadAnswer(r: Reply, q: Request)
    requires Answers(r, q) && q.op == NWR_READ
    ensures r.status == |r.payload| || (r.status < 0 && r.payload == [])
    ensures |r.payload| <= q.count
  {
  }

  lemma {:induction false} OtherTag(r: Reply, q: Request)
    requires Answers(r, q)
    ensures r.rop == q.op
  {
  }

  ghost predicate AllReads(log: seq<Reply>, n: nat) {
    forall i :: n <= i < |log| ==> log[i].rop == NWR_READ
  }

  /** Of the replies from the n-th on only the last is not a READ's. */
  ghost predicate ReadsOnly(log: seq<Reply>, n: nat) {
    forall i :: n <= i < |log| - 1 ==> log[i].rop == NWR_READ
  }

  // ------------------------------------------------------------------- a whole run

  /** What a client may do between two calls. */
  datatype Call =
    | DoArm
    | DoRecv(max: nat)
    | DoWrite(bytes: seq<byte>)
    | DoIoctl(req: int, data: seq<byte>, len: nat)
    | DoIoctlGet(req: int, len: nat)
    | DoIoctlRw(req: int, data: seq<byte>, len: nat)

  /** A buffer has the length given, or there is none. */
  predicate Callable(c: Call) {
    match c
    case DoIoctl(_, data, len) => |data| == len || data == []
    case DoIoctlRw(_, data, len) => |data| == len || data == []
    case _ => true
  }

  /** What a call asks for that is not a READ. */
  function Asks(c: Call): seq<Request> {
    match c
    case DoArm => []
    case DoRecv(_) => []
    case DoWrite(bytes) => [Request(4, 0, |bytes|, bytes)]
    case DoIoctl(req, data, len) => [Request(5, req, len, data)]
    case DoIoctlGet(req, _) => [Request(5, req, 0, [])]
    case DoIoctlRw(req, data, len) => [Request(5, req, len, data)]
  }

  /** How often ichan_recv is called. */
  function Recvs(calls: seq<Call>): nat {
    if calls == [] then 0 else Recvs(calls[..|calls| - 1]) + if calls[|calls| - 1].DoRecv? then 1 else 0
  }

  function AllAsks(calls: seq<Call>): seq<Request> {
    if calls == [] then [] else AllAsks(calls[..|calls| - 1]) + Asks(calls[|calls| - 1])
  }

  /** The requests that are not READs. */
  function NonReads(asked: seq<Request>): seq<Request> {
    if asked == [] then []
    else
      var q := asked[|asked| - 1];
      NonReads(asked[..|asked| - 1]) + if q.op == 3 then [] else [q]
  }

  lemma {:induction false} NonReadsMore(asked: seq<Request>, more: seq<Request>)
    ensures NonReads(asked + more) == NonReads(asked) + NonReads(more)
  {
    if more == [] {
      assert asked + more == asked;
    } else {
      var n := |more| - 1;
      NonReadsMore(asked, more[..n]);
      assert (asked + more)[..|asked| + n] == asked + more[..n];
    }
  }

  lemma {:induction false} OnlyWaits(asked: seq<Request>, posted: bool, k: nat, last: seq<Request>)
    requires |last| <= 1 && forall i :: 0 <= i < |last| ==> last[i].op == 3
    ensures NonReads(asked + Waits(posted, k) + last) == NonReads(asked)
  {
    WaitsReads(posted, k);
    NonReadsMore(asked, Waits(posted, k));
    NonReadsMore(asked + Waits(posted, k), last);
    assert NonReads(last) == [];
  }

  lemma {:induction false} WaitsReads(posted: bool, k: nat)
    ensures NonReads(Waits(posted, k)) == []
  {
    if k > 0 {
      WaitsReads(posted, k - 1);
      NonReadsMore(Waits(posted, k - 1), [ReadFor(512)]);
      assert NonReads([ReadFor(512)]) == [];
    }
  }

  lemma {:induction false} AskedOne(asked: seq<Request>, q: Request)
    ensures NonReads(asked + [q]) == NonReads(asked) + if q.op == 3 then [] else [q]
  {
    assert (asked + [q])[..|asked|] == asked;
  }

  function Joined(parts: seq<seq<byte>>): seq<byte> {
    if parts == [] then [] else Joined(parts[..|parts| - 1]) + parts[|parts| - 1]
  }

  lemma {:induction false} JoinedMore(parts: seq<seq<byte>>, part: seq<byte>)
    ensures Joined(parts + [part]) == Joined(parts) + part
  {
    assert (parts + [part])[..|parts + [part]| - 1] == parts;
  }

  lemma {:induction false} NothingAsked()
    ensures NonReads([]) == [] && AllAsks([]) == [] && Recvs([]) == 0
  {
  }

  lemma {:induction false} AllAsksMore(calls: seq<Call>, i: nat)
    requires i < |calls|
    ensures AllAsks(calls[..i + 1]) == AllAsks(calls[..i]) + Asks(calls[i])
    ensures Recvs(calls[..i + 1]) == Recvs(calls[..i]) + if calls[i].DoRecv? then 1 else 0
  {
    assert calls[..i + 1][..i] == calls[..i];
  }

  /** One call; part is what ichan_recv hands out. */
  method OneCall(c: Ichan, call: Call) returns (part: seq<byte>)
    requires c.Valid() && Callable(call)
    modifies c, c.hold, c.d
    ensures c.Valid() && c.taken == old(c.taken) + part && (!call.DoRecv? ==> part == [])
    ensures NonReads(c.d.asked) == NonReads(old(c.d.asked)) + Asks(call)
  {
    hide ReadData, Answers, Owes, Waits, NonReads;
    part := [];
    ghost var asked, posted, log := c.d.asked, c.posted, c.d.log;
    match call
    case DoArm =>
      ghost var again := c.Rearming();
      c.Arm();
      if again != [] { AskedOne(asked, again[0]); }
      assert c.d.asked == if again == [] then asked else asked + [again[0]];
    case DoRecv(max) =>
      var n;
      n, part := c.Recv(max);
      ghost var first := asked + Waits(posted, |c.d.log| - |log|);
      assert c.d.asked == first + c.d.asked[|first|..];
      OnlyWaits(asked, posted, |c.d.log| - |log|, c.d.asked[|first|..]);
    case DoWrite(bytes) =>
      var r := c.Write(bytes);
      AskedOne(asked, Asks(call)[0]);
    case DoIoctl(req, data, len) =>
      var r := c.Ioctl(req, data, len);
      AskedOne(asked, Asks(call)[0]);
    case DoIoctlGet(req, len) =>
      var r, answer := c.IoctlGet(req, len);
      AskedOne(asked, Asks(call)[0]);
    case DoIoctlRw(req, data, len) =>
      var r, answer := c.IoctlRw(req, data, len);
      AskedOne(asked, Asks(call)[0]);
  }

  /** For every sequence of calls, and every order in which the daemon answers: what the calls of
      ichan_recv hand out, one after the other, and what is held at the end, are all the bytes
      READs brought, in order; no more than ICHAN_HOLD are held; the FIFO stands between two
      replies and at most one READ is outstanding; and besides READs the daemon has been asked for
      what the calls say, in order. */
  method Session(d: Daemon, calls: seq<Call>) returns (parts: seq<seq<byte>>, c: Ichan)
    requires d.owed == [] && d.left == [] && d.log == [] && d.asked == []
    requires forall i :: 0 <= i < |calls| ==> Callable(calls[i])
    modifies d
    ensures NonReads(d.asked) == AllAsks(calls) && |parts| == Recvs(calls)
    ensures c.d == d && c.Valid() && ReadData(d.log) == Joined(parts) + c.Held() && |c.Held()| <= ICHAN_HOLD
    ensures d.left == [] && |d.owed| <= 1 && forall i :: 0 <= i < |d.owed| ==> d.owed[i].op == NWR_READ
  {
    hide ReadData, Answers, Owes, Waits, NonReads, AllAsks, Recvs;
    c := new Ichan(d);
    parts := [];
    var i := 0;
    NothingAsked();
    while i < |calls|
      invariant i <= |calls| && c.d == d && c.Valid() && c.taken == Joined(parts) && fresh(c) && fresh(c.hold)
      invariant NonReads(d.asked) == AllAsks(calls[..i]) && |parts| == Recvs(calls[..i])
    {
      var part := OneCall(c, calls[i]);
      if calls[i].DoRecv? {
        JoinedMore(parts, part);
        parts := parts + [part];
      }
      AllAsksMore(calls, i);
      i := i + 1;
    }
    assert calls[..i] == calls;
    OnlyRead(d.owed, c.posted, c.count);
  }

  lemma {:induction false} OnlyRead(owed: seq<Request>, posted: bool, count: nat)
    requires Owes(owed, posted, count, multiset{})
    ensures |owed| <= 1 && forall i :: 0 <= i < |owed| ==> owed[i].op == NWR_READ
  {
    assert |multiset(owed)| == |owed|;
    forall i | 0 <= i < |owed| ensures owed[i].op == NWR_READ { assert owed[i] in multiset(owed); }
  }
}
