/**
 SIFCMD's RPC queues (src/iop/sifcmd.cpp): the receiving interrupt appends a call's server to its queue
 and wakes the queue's thread; the thread takes servers off the front and answers them.  Wakeups count.
 */
module SifRpc {
  import opened Lists

  /** What a CALL packet asks of a server, kept on the server until it is answered. */
  datatype Call = Call(recId: int, pktAddr: int, rpcId: int, client: int, fno: int, sendSize: int,
                       receive: int, receiveSize: int, mode: int)

  /** The END packet, as far as it names the request it answers. */
  datatype End = End(recId: int, pktAddr: int, rpcId: int, client: int, server: int)

  /** One descriptor handed to SIFMAN: the function's answer, or an END packet; `ends` stops the EE's channel. */
  datatype Block = Answer(source: int, words: int, dest: int, ends: bool) | EndPacket(packet: End, ends: bool)

  /**
   One invocation of a server's function: the call it was taken for, the request fields the server held once the
   function had returned, and the run of blocks built from those.
   */
  datatype Served = Served(server: int, call: Call, fields: Call, result: int, run: seq<Block>)

  datatype ThreadAt = TopOfLoop | FoundNone | Asleep | Answering(server: int)

  /** The run answerCall builds from the server's fields and the function's result. */
  function AnswerRun(server: int, c: Call, result: int, eeKnown: bool): seq<Block> {
    if !eeKnown then []
    else
      (if result != 0 && c.receive != 0 && c.receiveSize != 0
       then [Answer(result, (c.receiveSize + 3) / 4, c.receive, c.mode == 0)] else [])
      + if c.mode != 0 then [EndPacket(End(c.recId, c.pktAddr, c.rpcId, c.client, server), true)] else []
  }

  /**
   An END goes out exactly when the mode asks, with the call's own ids, after any data, and it alone stops the
   channel.
   */
  lemma EndIffAsked(server: int, c: Call, result: int)
    ensures var run := AnswerRun(server, c, result, true);
      && |run| <= 2
      && (c.mode != 0 <==> exists i :: 0 <= i < |run| && run[i].EndPacket?)
      && (c.mode != 0 ==> run[|run| - 1] == EndPacket(End(c.recId, c.pktAddr, c.rpcId, c.client, server), true))
      && (forall i :: 0 <= i < |run| && run[i].ends ==> i == |run| - 1)
      && (run != [] ==> run[|run| - 1].ends)
  {
    var run := AnswerRun(server, c, result, true);
    if c.mode != 0 { assert run[|run| - 1].EndPacket?; }
  }

  /**
   The answer goes out exactly when there is one and the client has room for it: first, alone, from where the function
   left it to the client's buffer, in whole words that cover it; without an END it stops the channel itself.
   */
  lemma AnswerIffWanted(server: int, c: Call, result: int, eeKnown: bool)
    ensures var run := AnswerRun(server, c, result, eeKnown);
      && (eeKnown && result != 0 && c.receive != 0 && c.receiveSize != 0 <==>
          exists i :: 0 <= i < |run| && run[i].Answer?)
      && (forall i :: 0 <= i < |run| && run[i].Answer? ==>
          && i == 0 && run[i].source == result && run[i].dest == c.receive
          && c.receiveSize <= run[i].words * 4 < c.receiveSize + 4
          && (run[i].ends <==> c.mode == 0) && (run[i].ends ==> |run| == 1))
      && (!eeKnown ==> run == [])
  {
    var run := AnswerRun(server, c, result, eeKnown);
    if eeKnown && result != 0 && c.receive != 0 && c.receiveSize != 0 { assert run[0].Answer?; }
  }

  /** Calls in the order the servers are listed. */
  ghost function CallsOf(fields: map<int, Call>, s: seq<int>): (r: seq<Call>)
    requires forall i :: 0 <= i < |s| ==> s[i] in fields
    ensures |r| == |s|
  {
    seq(|s|, i requires 0 <= i < |s| => fields[s[i]])
  }

  lemma CallsAppend(fields: map<int, Call>, s: seq<int>, x: int, c: Call)
    requires (forall i :: 0 <= i < |s| ==> s[i] in fields) && x in fields && x !in s
    ensures CallsOf(fields[x := c], s + [x]) == CallsOf(fields, s) + [c]
  {
  }

  lemma CallsWithout(fields: map<int, Call>, s: seq<int>, k: nat)
    requires (forall i :: 0 <= i < |s| ==> s[i] in fields) && k < |s|
    ensures CallsOf(fields, s[..k] + s[k + 1..]) == CallsOf(fields, s)[..k] + CallsOf(fields, s)[k + 1..]
  {
  }

  /** serveCall's walk to the last pending server. */
  method LastPending(n: map<int, int>, queue: int, ghost pending: seq<int>) returns (tail: int)
    requires From(n, queue, pending) && pending != []
    ensures tail == pending[|pending| - 1] && tail in n
  {
    CellAt(n, queue, pending, 0);
    tail := n[queue];
    ghost var k := 1;
    CellAt(n, queue, pending, k);
    while n[tail] != 0
      invariant 1 <= k <= |pending| && tail == pending[k - 1] && tail in n
      invariant if k < |pending| then n[tail] == pending[k] != 0 else n[tail] == 0
      decreases |pending| - k
    {
      tail := n[tail];
      k := k + 1;
      CellAt(n, queue, pending, k);
    }
  }

  /** Where a server is on the list; past its end when it is not. */
  ghost function Position(pending: seq<int>, server: int): (k: nat)
    ensures k <= |pending| && (k < |pending| ==> pending[k] == server) && (k == |pending| <==> server !in pending)
    ensures forall i :: 0 <= i < k ==> pending[i] != server
  {
    if pending == [] || pending[0] == server then 0 else 1 + Position(pending[1..], server)
  }

  /** What a walk reaches once a server's own link is cleared: everything up to it. */
  ghost function Reached(pending: seq<int>, server: int): seq<int> {
    pending[..if server in pending then Position(pending, server) + 1 else |pending|]
  }

  lemma {:induction false} Cleared(next: map<int, int>, queue: int, pending: seq<int>, server: int)
    requires From(next, queue, pending) && Distinct([queue] + pending) && server != queue
    ensures From(next[server := 0], queue, Reached(pending, server))
    decreases |pending|
  {
    TailDistinct(queue, pending);
    if server !in pending {
      Detached(next, queue, pending, server);
      assert Reached(pending, server) == pending;
    } else if pending[0] == server {
      FromCell(next, server, pending[1..]);
      assert Reached(pending, server) == [server] && [server][1..] == [];
    } else {
      assert pending == [pending[0]] + pending[1..];
      Cleared(next, pending[0], pending[1..], server);
      assert Reached(pending, server) == [pending[0]] + Reached(pending[1..], server);
    }
  }

  /** The walk's last cell is the server itself, so it is linked to itself. */
  lemma SelfLinked(cleared: map<int, int>, n: map<int, int>, queue: int, reached: seq<int>, server: int)
    requires From(cleared, queue, reached) && reached != [] && reached[|reached| - 1] == server
    requires n == cleared[server := server]
    requires forall i :: 0 <= i < |reached| - 1 ==> reached[i] != server
    requires server != queue
    ensures server in n && n[server] == server && server != 0
    ensures forall k :: 0 <= k < |reached| ==>
      Cell(queue, reached, k) in n && n[Cell(queue, reached, k)] == reached[k] != 0
  {
    forall k | 0 <= k < |reached|
      ensures Cell(queue, reached, k) in n && n[Cell(queue, reached, k)] == reached[k] != 0
    {
      CellAt(cleared, queue, reached, k);
    }
    CellAt(cleared, queue, reached, |reached| - 1);
  }

  /** No list leads from a cell to one linked to itself. */
  lemma {:induction false} LoopNeverEnds(n: map<int, int>, c: int, path: seq<int>, s: seq<int>)
    requires From(n, c, s) && path != []
    requires forall k :: 0 <= k < |path| ==> Cell(c, path, k) in n && n[Cell(c, path, k)] == path[k] != 0
    requires var x := path[|path| - 1]; x in n && n[x] == x
    ensures false
    decreases |s|
  {
    assert Cell(c, path, 0) == c && n[c] == path[0];
    var rest := if |path| > 1 then path[1..] else path;
    forall k | 0 <= k < |rest|
      ensures Cell(path[0], rest, k) in n && n[Cell(path[0], rest, k)] == rest[k] != 0
    {
      if |path| > 1 { assert Cell(path[0], rest, k) == Cell(c, path, k + 1); }
    }
    LoopNeverEnds(n, path[0], rest, s[1..]);
  }

  /** The pending list: the queue's word and the servers' links lead through exactly `pending`, each server once. */
  ghost predicate Linked(next: map<int, int>, servers: set<int>, queue: int, pending: seq<int>) {
    && queue != 0 && queue !in servers && 0 !in servers && next.Keys == servers + {queue}
    && From(next, queue, pending) && Distinct([queue] + pending)
    && forall i :: 0 <= i < |pending| ==> pending[i] in servers
  }

  /**
   serveCall's queueing: clear the server's own word and hang it behind the last one.  The pending list stays a
   list exactly when the server was not on it: otherwise its cleared word ends the walk, and it is linked to itself.
   */
  method Append(next: map<int, int>, ghost servers: set<int>, queue: int, ghost pending: seq<int>, server: int)
    returns (n: map<int, int>)
    requires Linked(next, servers, queue, pending) && server in servers
    ensures server !in pending ==> Linked(n, servers, queue, pending + [server])
    ensures (exists s :: Linked(n, servers, queue, s)) <==> server !in pending
    ensures server in pending ==> server in n && n[server] == server
  {
    hide From, Distinct;
    ghost var reached := Reached(pending, server);
    FromCell(next, queue, pending);
    n := next[server := 0];
    ghost var cleared := n;
    Cleared(next, queue, pending, server);
    CellAt(n, queue, reached, 0);
    var tail := queue;
    if n[queue] != 0 {
      tail := LastPending(n, queue, reached);
    }
    n := n[tail := server];
    if server in pending {
      SelfLinked(cleared, n, queue, reached, server);
      forall s
        ensures !Linked(n, servers, queue, s)
      {
        if From(n, queue, s) { LoopNeverEnds(n, queue, reached, s); }
      }
    } else {
      assert reached == pending;
      FromAppend(cleared, n, queue, pending, server);
      AppendDistinct([queue] + pending, server);
      assert [queue] + (pending + [server]) == [queue] + pending + [server];
      assert Linked(n, servers, queue, pending + [server]);
    }
  }

  /** removeRpc's walk along the pending links, and the unlinking. */
  method TakeOff(next: map<int, int>, ghost servers: set<int>, queue: int, ghost pending: seq<int>, server: int)
    returns (n: map<int, int>, ghost k: nat)
    requires Linked(next, servers, queue, pending) && server in servers
    ensures k <= |pending|
    ensures k == |pending| ==> server !in pending && Linked(n, servers, queue, pending)
    ensures k < |pending| ==> pending[k] == server && Linked(n, servers, queue, pending[..k] + pending[k + 1..])
    ensures forall j :: 0 <= j < |pending| && pending[j] == server ==> j == k
  {
    var link := queue;
    k := 0;
    TailDistinct(queue, pending);
    CellAt(next, queue, pending, 0);
    while next[link] != 0 && next[link] != server
      invariant 0 <= k <= |pending| && link == Cell(queue, pending, k) && link in next
      invariant forall j :: 0 <= j < k ==> pending[j] != server
      invariant next[link] == if k < |pending| then pending[k] else 0
      decreases |pending| - k
    {
      link := next[link];
      k := k + 1;
      CellAt(next, queue, pending, k);
    }
    CellAt(next, queue, pending, k);
    n := next;
    if next[link] != 0 {
      ghost var rest := pending[..k] + pending[k + 1..];
      DistinctWithout(pending, k);
      ConsDistinct(queue, rest);
      n := next[link := next[server]];
      Unlink(next, n, queue, pending, k);
      Detached(n, queue, rest, server);
    } else {
      Detached(next, queue, pending, server);
    }
    n := n[server := 0];
  }

  /** rpcLoop's head: the first pending server, taken off the list, or null. */
  method TakeFirst(next: map<int, int>, ghost servers: set<int>, queue: int, ghost pending: seq<int>)
    returns (n: map<int, int>, server: int)
    requires Linked(next, servers, queue, pending)
    ensures pending == [] ==> server == 0 && n == next
    ensures pending != [] ==> server == pending[0] && server in servers && Linked(n, servers, queue, pending[1..])
    ensures pending != [] ==> server !in pending[1..]
  {
    CellAt(next, queue, pending, 0);
    n, server := next, next[queue];
    if server != 0 {
      TailDistinct(queue, pending);
      DistinctWithout(pending, 0);
      ghost var rest := pending[1..];
      assert pending[..0] + pending[1..] == rest;
      ConsDistinct(queue, rest);
      n := next[queue := next[server]];
      Unlink(next, n, queue, pending, 0);
      Detached(n, queue, rest, server);
      n := n[server := 0];
    }
  }

  ghost function Calls(s: seq<Served>): (r: seq<Call>)
    ensures |r| == |s|
  {
    seq(|s|, i requires 0 <= i < |s| => s[i].call)
  }

  /** Every call accepted and not withdrawn has been served, is in hand, or waits, in that order. */
  ghost predicate Accounted(accepted: seq<Call>, served: seq<Served>, inHand: seq<Call>, backlog: seq<Call>) {
    accepted == Calls(served) + inHand + backlog
  }

  lemma CallIn(accepted: seq<Call>, served: seq<Served>, inHand: seq<Call>, backlog: seq<Call>, r: Call)
    requires Accounted(accepted, served, inHand, backlog)
    ensures Accounted(accepted + [r], served, inHand, backlog + [r])
  {
    hide Calls;
    assert Calls(served) + inHand + backlog + [r] == Calls(served) + inHand + (backlog + [r]);
  }

  lemma CallTaken(accepted: seq<Call>, served: seq<Served>, backlog: seq<Call>)
    requires Accounted(accepted, served, [], backlog) && backlog != []
    ensures Accounted(accepted, served, [backlog[0]], backlog[1..])
  {
    hide Calls;
    assert backlog == [backlog[0]] + backlog[1..];
    assert Calls(served) + [] + backlog == Calls(served) + [backlog[0]] + backlog[1..];
  }

  lemma CallServed(accepted: seq<Call>, served: seq<Served>, c: Call, backlog: seq<Call>, s: Served)
    requires Accounted(accepted, served, [c], backlog) && s.call == c
    ensures Accounted(accepted, served + [s], [], backlog) && |served| < |accepted| && accepted[|served|] == c
  {
    assert Calls(served + [s]) == Calls(served) + [c];
    hide Calls;
    assert Calls(served) + [c] + backlog == Calls(served + [s]) + [] + backlog;
  }

  lemma CallWithdrawn(accepted: seq<Call>, served: seq<Served>, inHand: seq<Call>, backlog: seq<Call>, k: nat)
    requires Accounted(accepted, served, inHand, backlog) && k < |backlog|
    ensures var i := |served| + |inHand| + k;
      i < |accepted| && Accounted(accepted[..i] + accepted[i + 1..], served, inHand, backlog[..k] + backlog[k + 1..])
  {
    hide Calls;
    var a, i := Calls(served) + inHand, |served| + |inHand| + k;
    assert accepted == a + backlog;
    assert accepted[..i] + accepted[i + 1..] == a + (backlog[..k] + backlog[k + 1..]);
  }

  /** The call being answered. */
  ghost function InHand(thread: ThreadAt, hand: Call): seq<Call> {
    if thread.Answering? then [hand] else []
  }

  /** The pending list in memory, and the calls its servers hold. */
  ghost predicate Waiting(next: map<int, int>, fields: map<int, Call>, queue: int, pending: seq<int>,
                          backlog: seq<Call>) {
    && Linked(next, fields.Keys, queue, pending) && 0 !in fields
    && (forall i :: 0 <= i < |pending| ==> pending[i] in fields)
    && backlog == CallsOf(fields, pending)
  }

  lemma WaitingParts(next: map<int, int>, fields: map<int, Call>, queue: int, pending: seq<int>, backlog: seq<Call>)
    requires Waiting(next, fields, queue, pending, backlog)
    ensures Linked(next, fields.Keys, queue, pending) && 0 !in fields && |backlog| == |pending|
    ensures forall k :: 0 <= k < |pending| ==> pending[k] in fields && backlog[k] == fields[pending[k]]
  {
  }

  lemma WaitingMore(next: map<int, int>, n: map<int, int>, fields: map<int, Call>, queue: int, pending: seq<int>,
                    backlog: seq<Call>, server: int, request: Call)
    requires Waiting(next, fields, queue, pending, backlog) && server in fields && server !in pending
    requires Linked(n, fields.Keys, queue, pending + [server])
    ensures Waiting(n, fields[server := request], queue, pending + [server], backlog + [request])
  {
    hide Linked, CallsOf;
    CallsAppend(fields, pending, server, request);
    assert fields[server := request].Keys == fields.Keys;
  }

  /** serveCall's parking of a request: its fields kept on the server, the server behind the last one pending. */
  method Park(next: map<int, int>, fields: map<int, Call>, queue: int, ghost pending: seq<int>,
              ghost backlog: seq<Call>, server: int, request: Call)
    returns (n: map<int, int>, f: map<int, Call>)
    requires Waiting(next, fields, queue, pending, backlog) && server in fields && server !in pending
    ensures Waiting(n, f, queue, pending + [server], backlog + [request]) && f == fields[server := request]
  {
    hide Linked, Waiting;
    WaitingParts(next, fields, queue, pending, backlog);
    n := Append(next, fields.Keys, queue, pending, server);
    WaitingMore(next, n, fields, queue, pending, backlog, server, request);
    f := fields[server := request];
  }

  lemma WaitingSame(next: map<int, int>, n: map<int, int>, fields: map<int, Call>, queue: int, pending: seq<int>,
                    backlog: seq<Call>)
    requires Waiting(next, fields, queue, pending, backlog) && Linked(n, fields.Keys, queue, pending)
    ensures Waiting(n, fields, queue, pending, backlog)
  {
  }

  lemma WaitingLess(next: map<int, int>, n: map<int, int>, fields: map<int, Call>, queue: int, pending: seq<int>,
                    backlog: seq<Call>, k: nat)
    requires Waiting(next, fields, queue, pending, backlog) && k < |pending|
    requires Linked(n, fields.Keys, queue, pending[..k] + pending[k + 1..])
    ensures Waiting(n, fields, queue, pending[..k] + pending[k + 1..], backlog[..k] + backlog[k + 1..])
  {
    hide Linked, CallsOf;
    CallsWithout(fields, pending, k);
  }

  class RpcQueue {
    /** The queue record: the cell that heads the pending list. */
    const queue: int
    /** The word that links a pending server to the next; at `queue`, the first one. */
    var next: map<int, int>
    /** Each server's request fields. */
    var fields: map<int, Call>
    /** The EE client's buffer has been named. */
    var eeKnown: bool
    var thread: ThreadAt
    var wakeups: nat

    /** Servers waiting, the call in hand, and whether another call has come in for its server since it was taken. */
    ghost var pending: seq<int>
    ghost var hand: Call
    ghost var overtaken: bool
    /** The pending servers' calls as accepted, the calls ever accepted and not withdrawn, and those served. */
    ghost var backlog: seq<Call>
    ghost var accepted: seq<Call>
    ghost var served: seq<Served>

    ghost predicate Valid()
      reads this
    {
      && Waiting(next, fields, queue, pending, backlog)
      && Accounted(accepted, served, InHand(thread, hand), backlog)
      && (thread.Answering? ==> thread.server in fields)
      && (thread.Answering? && !overtaken ==> thread.server !in pending && fields[thread.server] == hand)
      && (thread.Asleep? ==> pending == [] && wakeups == 0)
      && (thread.FoundNone? && pending != [] ==> wakeups > 0)
    }

    constructor (queue: int, fields: map<int, Call>)
      requires queue != 0 && queue !in fields && 0 !in fields
      ensures Valid() && pending == [] && accepted == [] && served == []
      ensures this.queue == queue && this.fields == fields && thread.TopOfLoop? && wakeups == 0 && !overtaken
    {
      this.queue, this.fields := queue, fields;
      this.next := (map x | x in fields :: 0)[queue := 0];
      this.eeKnown, this.thread, this.wakeups := false, TopOfLoop, 0;
      this.pending, this.backlog, this.accepted, this.served := [], [], [], [];
      this.hand, this.overtaken := Call(0, 0, 0, 0, 0, 0, 0, 0, 0), false;
    }

    /** The EE's INIT_CMD names the buffer its client listens at. */
    method NameClient(address: int)
      requires Valid()
      modifies this`eeKnown
      ensures Valid() && (eeKnown <==> address != 0)
    {
      eeKnown := address != 0;
    }

    /**
     serveCall, in the receiving interrupt: keep the request, append the server, wake the thread.  The server may be
     the one being answered: then the request's fields are overwritten under the answer.
     */
    method ServeCall(server: int, request: Call)
      requires Valid() && (server != 0 ==> server in fields) && server !in pending
      modifies this`next, this`fields, this`overtaken, this`pending, this`backlog, this`accepted
      modifies this`thread, this`wakeups
      ensures Valid()
      ensures overtaken <==> old(overtaken) || (server != 0 && old(thread) == Answering(server))
      ensures server == 0 ==> pending == old(pending) && accepted == old(accepted) && thread == old(thread)
      ensures server != 0 ==> fields == old(fields)[server := request]
      ensures server != 0 ==> thread == if old(thread).Asleep? then TopOfLoop else old(thread)
      ensures server != 0 ==> wakeups == old(wakeups) + if old(thread).Asleep? then 0 else 1
      ensures server != 0 ==>
        && pending == old(pending) + [server] && accepted == old(accepted) + [request]
        && backlog == old(backlog) + [request]
    {
      hide Linked, Waiting, Accounted;
      if server == 0 { return; }
      CallIn(accepted, served, InHand(thread, hand), backlog, request);
      var n, f := Park(next, fields, queue, pending, backlog, server, request);
      next, fields := n, f;
      overtaken := overtaken || thread == Answering(server);
      pending := pending + [server];
      backlog := backlog + [request];
      accepted := accepted + [request];
      Wakeup();
    }

    /** iwakeup: a sleeping thread runs again, any other keeps the count. */
    method Wakeup()
      modifies this`thread, this`wakeups
      ensures thread == if old(thread).Asleep? then TopOfLoop else old(thread)
      ensures wakeups == old(wakeups) + if old(thread).Asleep? then 0 else 1
    {
      if thread.Asleep? {
        thread := TopOfLoop;
      } else {
        wakeups := wakeups + 1;
      }
    }

    /** The head of rpcLoop, with interrupts suspended: take the first pending server. */
    method Take()
      requires Valid() && thread.TopOfLoop?
      modifies this`next, this`thread, this`pending, this`backlog, this`hand, this`overtaken
      ensures Valid() && !overtaken
      ensures old(pending) == [] ==> thread.FoundNone? && pending == []
      ensures old(pending) != [] ==> thread == Answering(old(pending)[0]) && pending == old(pending)[1..]
      ensures old(pending) != [] ==> hand == old(backlog)[0] == fields[old(pending)[0]]
    {
      hide Linked, Waiting, Accounted;
      WaitingParts(next, fields, queue, pending, backlog);
      var n, server := TakeFirst(next, fields.Keys, queue, pending);
      if server != 0 {
        assert pending[..0] + pending[1..] == pending[1..] && backlog[..0] + backlog[1..] == backlog[1..];
        WaitingLess(next, n, fields, queue, pending, backlog, 0);
        CallTaken(accepted, served, backlog);
        hand := backlog[0];
        pending, backlog := pending[1..], backlog[1..];
        thread := Answering(server);
      } else {
        thread := FoundNone;
      }
      next := n;
      overtaken := false;
    }

    /** Sleeping: a wakeup already counted is used up instead. */
    method Sleep()
      requires Valid() && thread.FoundNone?
      modifies this`thread, this`wakeups
      ensures Valid()
      ensures thread == if old(wakeups) == 0 then Asleep else TopOfLoop
      ensures wakeups == if old(wakeups) == 0 then 0 else old(wakeups) - 1
      ensures thread.Asleep? ==> pending == [] && Calls(served) == accepted
    {
      if wakeups > 0 {
        wakeups := wakeups - 1;
        thread := TopOfLoop;
      } else {
        thread := Asleep;
      }
    }

    /**
     answerCall, from the function's return on: hand SIFMAN its answer and the END in one run.  The run is the
     call's own unless another call to the server came in while the function ran; then it is that one's.
     */
    method AnswerCall(result: int) returns (run: seq<Block>)
      requires Valid() && thread.Answering?
      modifies this`thread, this`served
      ensures Valid() && thread.TopOfLoop? && |served| == |old(served)| + 1
      ensures var server, c := old(thread.server), old(fields[thread.server]);
        && served == old(served) + [Served(server, hand, c, result, run)]
        && run == AnswerRun(server, c, result, eeKnown)
        && (!overtaken ==> c == hand)
      ensures hand == old(accepted)[|old(served)|]
      ensures overtaken && old(thread.server) in pending ==>
        exists k :: 0 <= k < |pending| && pending[k] == old(thread.server) && backlog[k] == old(fields[thread.server])
    {
      hide Linked, Waiting, Accounted;
      WaitingParts(next, fields, queue, pending, backlog);
      var server := thread.server;
      var c := fields[server];
      run := [];
      if eeKnown {
        if result != 0 && c.receive != 0 && c.receiveSize != 0 {
          run := run + [Answer(result, (c.receiveSize + 3) / 4, c.receive, c.mode == 0)];
        }
        if c.mode != 0 {
          run := run + [EndPacket(End(c.recId, c.pktAddr, c.rpcId, c.client, server), true)];
        }
      }
      CallServed(accepted, served, hand, backlog, Served(server, hand, c, result, run));
      served := served + [Served(server, hand, c, result, run)];
      thread := TopOfLoop;
    }

    /** removeRpc's second half: a server taken back is taken off the pending list, and its call is withdrawn. */
    method Withdraw(server: int)
      requires Valid() && server in fields
      modifies this`next, this`pending, this`backlog, this`accepted
      ensures Valid() && served == old(served)
      ensures server !in old(pending) ==> pending == old(pending) && accepted == old(accepted)
      ensures forall k :: 0 <= k < |old(pending)| && old(pending)[k] == server ==>
        && pending == old(pending)[..k] + old(pending)[k + 1..]
        && var i := |old(served)| + |old(InHand(thread, hand))| + k;
           accepted == old(accepted)[..i] + old(accepted)[i + 1..]
    {
      hide Linked, Waiting, Accounted;
      WaitingParts(next, fields, queue, pending, backlog);
      var n;
      ghost var k;
      n, k := TakeOff(next, fields.Keys, queue, pending, server);
      if k < |pending| {
        WaitingLess(next, n, fields, queue, pending, backlog, k);
        CallWithdrawn(accepted, served, InHand(thread, hand), backlog, k);
        ghost var i := |served| + |InHand(thread, hand)| + k;
        accepted := accepted[..i] + accepted[i + 1..];
        backlog := backlog[..k] + backlog[k + 1..];
        pending := pending[..k] + pending[k + 1..];
      } else {
        WaitingSame(next, n, fields, queue, pending, backlog);
      }
      next := n;
    }
  }

  /** Two calls of a server, one coming in while the other is answered: that one's END carries the later one's ids. */
  method AnswerOvertaken(queue: int, server: int, idle: Call, first: Call, second: Call, result: int)
    returns (run: seq<Block>)
    requires queue != 0 && server != 0 && queue != server
    ensures run == AnswerRun(server, second, result, true)
  {
    hide Waiting, Accounted;
    var q := new RpcQueue(queue, map[server := idle]);
    q.NameClient(1);
    q.ServeCall(server, first);
    q.Take();
    assert q.pending == [];
    q.ServeCall(server, second);
    run := q.AnswerCall(result);
  }
}
