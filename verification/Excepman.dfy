/**
 EXCEPMAN (src/iop/excepman.cpp): handlers registered per exception cause, compiled into the `next` word
 each handler's owner keeps, so that an exception is a jump through those words.
 */
module Excepman {
  import opened Lists

  const CAUSES := 16
  const NODES := 32
  const ERROR_BAD_CAUSE := -0x32
  const ERROR_LINKED := -0x34

  // ----- what was asked: the registrations, oldest first ----------------------------------------

  datatype Reg = Reg(cause: nat, priority: nat, handler: int)

  /** The registrations of one cause at one priority, oldest first. */
  function At(log: seq<Reg>, cause: nat, priority: nat): seq<Reg> {
    if log == [] then []
    else (if log[0].cause == cause && log[0].priority == priority then [log[0]] else []) + At(log[1..], cause, priority)
  }

  /** The order an exception visits them in: highest priority first. */
  function Order(log: seq<Reg>, cause: nat): seq<Reg> {
    At(log, cause, 3) + At(log, cause, 2) + At(log, cause, 1) + At(log, cause, 0)
  }

  ghost predicate OneEach(s: seq<Reg>) {
    forall i, j :: 0 <= i < j < |s| ==> s[i].handler != s[j].handler
  }

  /** The log without the registrations of one handler. */
  function Without(s: seq<Reg>, handler: int): seq<Reg> {
    if s == [] then []
    else (if s[0].handler == handler then [] else [s[0]]) + Without(s[1..], handler)
  }

  lemma {:induction false} AtAppend(log: seq<Reg>, r: Reg, cause: nat, priority: nat)
    ensures var s := At(log, cause, priority);
      At(log + [r], cause, priority) == if r.cause == cause && r.priority == priority then s + [r] else s
  {
    if log == [] {
      assert [r][1..] == [];
    } else {
      assert (log + [r])[1..] == log[1..] + [r];
      AtAppend(log[1..], r, cause, priority);
    }
  }

  /** Every entry of a cause's part comes from the log, and keeps the log's order. */
  lemma {:induction false} AtFrom(log: seq<Reg>, cause: nat, priority: nat)
    ensures forall e :: e in At(log, cause, priority) <==> e in log && e.cause == cause && e.priority == priority
  {
    if log != [] {
      AtFrom(log[1..], cause, priority);
      assert forall e :: e in log <==> e == log[0] || e in log[1..];
    }
  }

  lemma {:induction false} AtOneEach(log: seq<Reg>, cause: nat, priority: nat)
    requires OneEach(log)
    ensures OneEach(At(log, cause, priority))
  {
    if log != [] {
      AtOneEach(log[1..], cause, priority);
      AtFrom(log[1..], cause, priority);
      var rest := At(log[1..], cause, priority);
      forall j | 0 <= j < |rest|
        ensures rest[j].handler != log[0].handler
      {
        assert rest[j] in log[1..];
      }
    }
  }

  /** The rank of a registration: its place in the log. */
  lemma {:induction false} AtOldestFirst(log: seq<Reg>, cause: nat, priority: nat, i: nat, j: nat)
    returns (p: nat, q: nat)
    requires i < j < |At(log, cause, priority)|
    ensures p < q < |log| && log[p] == At(log, cause, priority)[i] && log[q] == At(log, cause, priority)[j]
  {
    if log[0].cause == cause && log[0].priority == priority {
      var rest := At(log[1..], cause, priority);
      assert At(log, cause, priority)[j] == rest[j - 1];
      if i == 0 {
        AtFrom(log[1..], cause, priority);
        assert rest[j - 1] in log[1..];
        var k :| 0 <= k < |log[1..]| && log[1..][k] == rest[j - 1];
        p, q := 0, k + 1;
      } else {
        p, q := AtOldestFirst(log[1..], cause, priority, i - 1, j - 1);
        p, q := p + 1, q + 1;
      }
    } else {
      assert At(log, cause, priority) == At(log[1..], cause, priority);
      p, q := AtOldestFirst(log[1..], cause, priority, i, j);
      p, q := p + 1, q + 1;
    }
  }

  ghost predicate FourPriorities(log: seq<Reg>) {
    forall i :: 0 <= i < |log| ==> log[i].priority < 4 && log[i].cause < CAUSES
  }

  /** Exactly the cause's registrations, each once. */
  lemma OrderHolds(log: seq<Reg>, cause: nat)
    requires FourPriorities(log)
    ensures forall e :: e in Order(log, cause) <==> e in log && e.cause == cause
  {
    AtFrom(log, cause, 3);
    AtFrom(log, cause, 2);
    AtFrom(log, cause, 1);
    AtFrom(log, cause, 0);
  }

  /** The visiting order: a higher priority before a lower one, and the older first among equals. */
  lemma OrderMeaning(log: seq<Reg>, cause: nat, i: nat, j: nat)
    requires i < j < |Order(log, cause)|
    ensures var a, b := Order(log, cause)[i], Order(log, cause)[j];
      || a.priority > b.priority
      || (a.priority == b.priority && exists p, q :: 0 <= p < q < |log| && log[p] == a && log[q] == b)
  {
    var s3, s2, s1, s0 := At(log, cause, 3), At(log, cause, 2), At(log, cause, 1), At(log, cause, 0);
    PartOf(log, cause, i);
    PartOf(log, cause, j);
    var a, b := Order(log, cause)[i], Order(log, cause)[j];
    if a.priority == b.priority {
      var before := if a.priority == 3 then 0 else if a.priority == 2 then |s3|
                    else if a.priority == 1 then |s3 + s2| else |s3 + s2 + s1|;
      var p, q := AtOldestFirst(log, cause, a.priority, i - before, j - before);
      assert log[p] == a && log[q] == b;
    }
  }

  /** Which part of the order a place falls in. */
  lemma PartOf(log: seq<Reg>, cause: nat, i: nat)
    requires i < |Order(log, cause)|
    ensures var s3, s2, s1 := |At(log, cause, 3)|, |At(log, cause, 2)|, |At(log, cause, 1)|;
      var e := Order(log, cause)[i];
      && e.cause == cause
      && (i < s3 ==> e.priority == 3 && e == At(log, cause, 3)[i])
      && (s3 <= i < s3 + s2 ==> e.priority == 2 && e == At(log, cause, 2)[i - s3])
      && (s3 + s2 <= i < s3 + s2 + s1 ==> e.priority == 1 && e == At(log, cause, 1)[i - s3 - s2])
      && (s3 + s2 + s1 <= i ==> i - s3 - s2 - s1 < |At(log, cause, 0)|
                                && e.priority == 0 && e == At(log, cause, 0)[i - s3 - s2 - s1])
  {
    AtFrom(log, cause, 3);
    AtFrom(log, cause, 2);
    AtFrom(log, cause, 1);
    AtFrom(log, cause, 0);
    var s3, s2, s1, s0 := At(log, cause, 3), At(log, cause, 2), At(log, cause, 1), At(log, cause, 0);
    var e := Order(log, cause)[i];
    if i < |s3| {
      assert e == s3[i] && e in s3;
    } else if i < |s3 + s2| {
      assert e == s2[i - |s3|] && e in s2;
    } else if i < |s3 + s2 + s1| {
      assert e == s1[i - |s3 + s2|] && e in s1;
    } else {
      assert e == s0[i - |s3 + s2 + s1|] && e in s0;
    }
  }

  lemma OrderOneEach(log: seq<Reg>, cause: nat)
    requires OneEach(log)
    ensures OneEach(Order(log, cause))
  {
    var s := Order(log, cause);
    forall i, j | 0 <= i < j < |s|
      ensures s[i].handler != s[j].handler
    {
      OrderMeaning(log, cause, i, j);
      PartOf(log, cause, i);
      PartOf(log, cause, j);
      var a, b := s[i], s[j];
      AtFrom(log, cause, a.priority);
      AtFrom(log, cause, b.priority);
      if a.priority == b.priority {
        var p, q :| 0 <= p < q < |log| && log[p] == a && log[q] == b;
      } else {
        assert a in log && b in log;
        var p :| 0 <= p < |log| && log[p] == a;
        var q :| 0 <= q < |log| && log[q] == b;
      }
    }
  }

  /** Registering puts the newcomer behind every registration of its priority or a higher one, before the rest. */
  lemma OrderInsert(log: seq<Reg>, r: Reg, i: nat)
    requires r.priority < 4 && i <= |Order(log, r.cause)|
    requires forall j :: 0 <= j < i ==> Order(log, r.cause)[j].priority >= r.priority
    requires i < |Order(log, r.cause)| ==> Order(log, r.cause)[i].priority < r.priority
    ensures Order(log + [r], r.cause) == Order(log, r.cause)[..i] + [r] + Order(log, r.cause)[i..]
  {
    hide At, Order;
    var c := r.cause;
    var s3, s2, s1, s0 := At(log, c, 3), At(log, c, 2), At(log, c, 1), At(log, c, 0);
    AtAppend(log, r, c, 3);
    AtAppend(log, r, c, 2);
    AtAppend(log, r, c, 1);
    AtAppend(log, r, c, 0);
    InsertPlace(log, r, i);
    OrderParts(log, c);
    OrderParts(log + [r], c);
    Around(s3, s2, s1, s0, r);
  }

  lemma OrderParts(log: seq<Reg>, cause: nat)
    ensures Order(log, cause) == At(log, cause, 3) + At(log, cause, 2) + At(log, cause, 1) + At(log, cause, 0)
  {
  }

  lemma Around(s3: seq<Reg>, s2: seq<Reg>, s1: seq<Reg>, s0: seq<Reg>, r: Reg)
    ensures var s := s3 + s2 + s1 + s0;
      && s[..|s3|] + [r] + s[|s3|..] == s3 + [r] + s2 + s1 + s0
      && s[..|s3 + s2|] + [r] + s[|s3 + s2|..] == s3 + (s2 + [r]) + s1 + s0
      && s[..|s3 + s2 + s1|] + [r] + s[|s3 + s2 + s1|..] == s3 + s2 + (s1 + [r]) + s0
      && s[..|s|] + [r] + s[|s|..] == s3 + s2 + s1 + (s0 + [r])
  {
  }

  lemma InsertPlace(log: seq<Reg>, r: Reg, i: nat)
    requires r.priority < 4 && i <= |Order(log, r.cause)|
    requires forall j :: 0 <= j < i ==> Order(log, r.cause)[j].priority >= r.priority
    requires i < |Order(log, r.cause)| ==> Order(log, r.cause)[i].priority < r.priority
    ensures var s3, s2 := |At(log, r.cause, 3)|, |At(log, r.cause, 2)|;
      var s1, s0 := |At(log, r.cause, 1)|, |At(log, r.cause, 0)|;
      i == if r.priority == 3 then s3 else if r.priority == 2 then s3 + s2
           else if r.priority == 1 then s3 + s2 + s1 else s3 + s2 + s1 + s0
  {
    hide At;
    var c := r.cause;
    var s3, s2, s1, s0 := |At(log, c, 3)|, |At(log, c, 2)|, |At(log, c, 1)|, |At(log, c, 0)|;
    var place := if r.priority == 3 then s3 else if r.priority == 2 then s3 + s2
                 else if r.priority == 1 then s3 + s2 + s1 else s3 + s2 + s1 + s0;
    if i < place {
      PartOf(log, c, i);
    } else if place < i {
      PartOf(log, c, place);
    }
  }

  lemma OrderOther(log: seq<Reg>, r: Reg, cause: nat)
    requires r.cause != cause
    ensures Order(log + [r], cause) == Order(log, cause)
  {
    AtAppend(log, r, cause, 3);
    AtAppend(log, r, cause, 2);
    AtAppend(log, r, cause, 1);
    AtAppend(log, r, cause, 0);
  }

  lemma {:induction false} WithoutJoin(a: seq<Reg>, b: seq<Reg>, handler: int)
    ensures Without(a + b, handler) == Without(a, handler) + Without(b, handler)
  {
    if a == [] {
      assert a + b == b;
    } else {
      assert (a + b)[1..] == a[1..] + b;
      WithoutJoin(a[1..], b, handler);
    }
  }

  lemma {:induction false} WithoutAt(log: seq<Reg>, handler: int, cause: nat, priority: nat)
    ensures At(Without(log, handler), cause, priority) == Without(At(log, cause, priority), handler)
  {
    if log != [] {
      WithoutAt(log[1..], handler, cause, priority);
      if log[0].handler == handler {
        assert Without(log, handler) == Without(log[1..], handler);
      } else {
        assert Without(log, handler)[1..] == Without(log[1..], handler);
      }
      var head := if log[0].cause == cause && log[0].priority == priority then [log[0]] else [];
      WithoutJoin(head, At(log[1..], cause, priority), handler);
      if head != [] { assert head[1..] == []; }
    }
  }

  /** Dropping a handler commutes with ordering. */
  lemma WithoutOrder(log: seq<Reg>, handler: int, cause: nat)
    ensures Order(Without(log, handler), cause) == Without(Order(log, cause), handler)
  {
    WithoutAt(log, handler, cause, 3);
    WithoutAt(log, handler, cause, 2);
    WithoutAt(log, handler, cause, 1);
    WithoutAt(log, handler, cause, 0);
    var s3, s2, s1, s0 := At(log, cause, 3), At(log, cause, 2), At(log, cause, 1), At(log, cause, 0);
    WithoutJoin(s3, s2, handler);
    WithoutJoin(s3 + s2, s1, handler);
    WithoutJoin(s3 + s2 + s1, s0, handler);
  }

  lemma {:induction false} WithoutNone(s: seq<Reg>, handler: int)
    requires forall i :: 0 <= i < |s| ==> s[i].handler != handler
    ensures Without(s, handler) == s
  {
    if s != [] { WithoutNone(s[1..], handler); }
  }

  lemma {:induction false} WithoutOne(s: seq<Reg>, i: nat)
    requires OneEach(s) && i < |s|
    ensures Without(s, s[i].handler) == s[..i] + s[i + 1..]
  {
    if i == 0 {
      WithoutNone(s[1..], s[0].handler);
    } else {
      WithoutOne(s[1..], i - 1);
      assert s[1..][i - 1] == s[i];
      assert s[..i] + s[i + 1..] == [s[0]] + (s[1..][..i - 1] + s[1..][i..]);
    }
  }

  lemma WithoutHolds(s: seq<Reg>, handler: int)
    ensures forall e :: e in Without(s, handler) <==> e in s && e.handler != handler
  {
    if s != [] {
      WithoutHolds(s[1..], handler);
      assert forall e :: e in s <==> e == s[0] || e in s[1..];
    }
  }

  lemma WithoutCounts(s: seq<Reg>, handler: int)
    requires OneEach(s)
    ensures OneEach(Without(s, handler))
    ensures |Without(s, handler)| == if exists e :: e in s && e.handler == handler then |s| - 1 else |s|
  {
    if exists e :: e in s && e.handler == handler {
      var e :| e in s && e.handler == handler;
      var i :| 0 <= i < |s| && s[i] == e;
      WithoutOne(s, i);
      hide Without;
      var t := Without(s, handler);
      forall j, k | 0 <= j < k < |t|
        ensures t[j].handler != t[k].handler
      {
        assert t[j] == if j < i then s[j] else s[j + 1];
        assert t[k] == if k < i then s[k] else s[k + 1];
      }
    } else {
      assert forall i :: 0 <= i < |s| ==> s[i] in s;
      WithoutNone(s, handler);
    }
  }

  // ----- the pool: sixteen chains and a free list threaded through 32 nodes ---------------------

  /** The words that hold a list's head: one per cause, and the free list's. */
  function Head(t: nat): int { -1 - t }

  const FREE := CAUSES

  predicate IsNode(x: int) { 1 <= x <= NODES }

  predicate IsCell(x: int) { -1 - FREE <= x <= NODES && x != 0 }

  ghost predicate Listed(link: map<int, int>, lists: seq<seq<int>>, t: nat)
    requires t < |lists|
  {
    From(link, Head(t), lists[t]) && Distinct(lists[t])
  }

  ghost predicate Pool(link: map<int, int>, lists: seq<seq<int>>, home: map<int, int>) {
    && (forall x :: x in link <==> IsCell(x)) && |lists| == FREE + 1
    && (forall t :: 0 <= t <= FREE ==> Listed(link, lists, t))
    && (forall t, x {:trigger x in lists[t]} :: 0 <= t <= FREE && x in lists[t] ==>
          x in home && home[x] == t && IsNode(x))
  }

  ghost predicate Nowhere(lists: seq<seq<int>>, x: int) {
    forall t {:trigger lists[t]} :: 0 <= t < |lists| ==> x !in lists[t]
  }

  lemma HeadDistinct(lists: seq<seq<int>>, link: map<int, int>, home: map<int, int>, t: nat)
    requires Pool(link, lists, home) && t <= FREE
    ensures From(link, Head(t), lists[t]) && Distinct(lists[t]) && Distinct([Head(t)] + lists[t])
    ensures forall x :: x in lists[t] ==> IsNode(x)
  {
    assert Listed(link, lists, t);
    ConsDistinct(Head(t), lists[t]);
  }

  /** Writing cells of one list leaves the other lists. */
  lemma OthersListed(link: map<int, int>, m: map<int, int>, lists: seq<seq<int>>, home: map<int, int>, t: nat, u: nat,
                     touched: set<int>)
    requires Pool(link, lists, home) && t <= FREE && u <= FREE && t != u && Only(link, m, touched)
    requires forall x :: x in touched ==> x == Head(t) || x in lists[t] || (Nowhere(lists, x) && x > 0)
    ensures From(m, Head(u), lists[u]) && Distinct(lists[u])
  {
    assert Listed(link, lists, u);
    FromHolds(link, Head(u), lists[u]);
    forall x | x in lists[u]
      ensures x !in touched
    {
      assert home[x] == u;
    }
    FromFrame(link, m, Head(u), lists[u]);
  }

  /** Taking the `k`th node of list `t` out. */
  lemma PoolRemove(link: map<int, int>, lists: seq<seq<int>>, home: map<int, int>, t: nat, k: nat)
    returns (m: map<int, int>)
    requires Pool(link, lists, home) && t <= FREE && k < |lists[t]|
    ensures Cell(Head(t), lists[t], k) in link && lists[t][k] in link && link[Cell(Head(t), lists[t], k)] == lists[t][k]
    ensures m == link[Cell(Head(t), lists[t], k) := link[lists[t][k]]]
    ensures Pool(m, lists[t := lists[t][..k] + lists[t][k + 1..]], home)
    ensures Nowhere(lists[t := lists[t][..k] + lists[t][k + 1..]], lists[t][k])
  {
    var s := lists[t];
    var x := s[k];
    HeadDistinct(lists, link, home, t);
    CellAt(link, Head(t), s, k);
    FromHolds(link, Head(t), s);
    assert x in s;
    m := link[Cell(Head(t), s, k) := link[x]];
    Unlink(link, m, Head(t), s, k);
    DistinctWithout(s, k);
    var after := lists[t := s[..k] + s[k + 1..]];
    if k > 0 { assert s[k - 1] in s; }
    forall u | 0 <= u <= FREE
      ensures Listed(m, after, u)
    {
      if u != t { OthersListed(link, m, lists, home, t, u, {Cell(Head(t), s, k)}); }
    }
    forall u, y {:trigger y in after[u]} | 0 <= u <= FREE && y in after[u]
      ensures y in home && home[y] == u && IsNode(y) && y != x
    {
      assert y in lists[u];
    }
  }

  /** Putting a node that is on no list before the `k`th of list `t`. */
  lemma PoolInsert(link: map<int, int>, lists: seq<seq<int>>, home: map<int, int>, t: nat, k: nat, x: int)
    returns (m: map<int, int>)
    requires Pool(link, lists, home) && t <= FREE && k <= |lists[t]| && IsNode(x) && Nowhere(lists, x)
    ensures Cell(Head(t), lists[t], k) in link
    ensures m == link[x := link[Cell(Head(t), lists[t], k)]][Cell(Head(t), lists[t], k) := x]
    ensures Pool(m, lists[t := lists[t][..k] + [x] + lists[t][k..]], home[x := t])
  {
    var s := lists[t];
    HeadDistinct(lists, link, home, t);
    CellAt(link, Head(t), s, k);
    m := link[x := link[Cell(Head(t), s, k)]][Cell(Head(t), s, k) := x];
    InsertAt(link, m, Head(t), s, k, x);
    DistinctInsert(s, k, x);
    if k > 0 { assert s[k - 1] in s; }
    var after := lists[t := s[..k] + [x] + s[k..]];
    assert m.Keys == link.Keys;
    forall u | 0 <= u <= FREE
      ensures Listed(m, after, u)
    {
      if u != t { OthersListed(link, m, lists, home, t, u, {Cell(Head(t), s, k), x}); }
    }
    forall u, y {:trigger y in after[u]} | 0 <= u <= FREE && y in after[u]
      ensures y in home[x := t] && home[x := t][y] == u && IsNode(y)
    {
      if y != x || u != t { assert y in lists[u]; }
    }
  }

  /** The nodes of each chain are the cause's registrations in visiting order. */
  ghost predicate Named(lists: seq<seq<int>>, handlerOf: map<int, int>, priorityOf: map<int, int>, log: seq<Reg>) {
    && |lists| == FREE + 1 && (forall x :: x in handlerOf <==> IsNode(x)) &&
      (forall x :: x in priorityOf <==> IsNode(x))
    && forall c :: 0 <= c < CAUSES ==> NamedAt(lists[c], handlerOf, priorityOf, Order(log, c))
  }

  ghost predicate NamedAt(nodes: seq<int>, handlerOf: map<int, int>, priorityOf: map<int, int>, order: seq<Reg>) {
    && |nodes| == |order|
    && forall i :: 0 <= i < |nodes| ==>
         && nodes[i] in handlerOf && handlerOf[nodes[i]] == order[i].handler
         && nodes[i] in priorityOf && priorityOf[nodes[i]] == order[i].priority
  }

  // ----- the compiled form: `next` words and the cause table ------------------------------------

  /** Where a handler's code begins, after its two words. */
  function Code(handler: int): int { handler + 8 }

  /** Jumping to `word` and on through the `next` words enters exactly `s`, and then the stop. */
  ghost predicate Visits(next: map<int, int>, word: int, s: seq<int>, last: int)
    decreases |s|
  {
    if s == [] then word == last + 8
    else s[0] in next && s[0] != last && word == s[0] + 8 && Visits(next, next[s[0]], s[1..], last)
  }

  /** The words leave no choice of what is visited. */
  lemma {:induction false} VisitsOnly(next: map<int, int>, word: int, s: seq<int>, t: seq<int>, last: int)
    requires Visits(next, word, s, last) && Visits(next, word, t, last)
    ensures s == t
    decreases |s|
  {
    if s != [] && t != [] {
      VisitsOnly(next, next[s[0]], s[1..], t[1..], last);
      assert s == [s[0]] + s[1..] && t == [t[0]] + t[1..];
    }
  }

  lemma {:induction false} VisitsFrame(next: map<int, int>, m: map<int, int>, word: int, s: seq<int>, last: int)
    requires Visits(next, word, s, last) && forall h :: h in s && h in next ==> h in m && m[h] == next[h]
    ensures Visits(m, word, s, last)
    decreases |s|
  {
    if s != [] {
      assert s[0] in s;
      VisitsFrame(next, m, next[s[0]], s[1..], last);
    }
  }

  /** Every visited handler's word names some code, so it is not null. */
  lemma {:induction false} VisitsLinked(next: map<int, int>, word: int, s: seq<int>, last: int, h: int)
    requires Visits(next, word, s, last) && h in s && last > 0 && forall x :: x in next ==> x > 0
    ensures h in next && next[h] != 0
    decreases |s|
  {
    if h == s[0] {
    } else {
      assert h in s[1..];
      VisitsLinked(next, next[s[0]], s[1..], last, h);
    }
  }

  lemma {:induction false} VisitsBuild(next: map<int, int>, hs: seq<int>, fall: int, ds: seq<int>, last: int)
    requires Visits(next, fall, ds, last)
    requires forall i :: 0 <= i < |hs| ==> hs[i] in next && hs[i] != last
    requires forall i, j :: 0 <= i < j < |hs| && j == i + 1 ==> next[hs[i]] == Code(hs[j])
    requires hs != [] ==> next[hs[|hs| - 1]] == fall
    ensures Visits(next, if hs == [] then fall else Code(hs[0]), hs + ds, last)
    decreases |hs|
  {
    if hs == [] {
      assert hs + ds == ds;
    } else {
      assert (hs + ds)[1..] == hs[1..] + ds;
      VisitsBuild(next, hs[1..], fall, ds, last);
      if |hs| > 1 { assert next[hs[0]] == Code(hs[1]); }
    }
  }

  ghost function Handlers(s: seq<Reg>): (r: seq<int>)
    ensures |r| == |s|
  {
    seq(|s|, i requires 0 <= i < |s| => s[i].handler)
  }

  /** The registrations and the default handlers are each once linked, and none is the stop. */
  ghost predicate LogOk(log: seq<Reg>, defaults: seq<int>, next: map<int, int>, last: int) {
    && FourPriorities(log) && OneEach(log) && Distinct(defaults)
    && (forall i :: 0 <= i < |log| ==> log[i].handler in next && log[i].handler !in defaults)
    && (forall h :: h in defaults ==> h in next)
    && last > 0 && last !in next && (forall h :: h in next ==> h > 0)
  }

  lemma HandlersIn(log: seq<Reg>, defaults: seq<int>, next: map<int, int>, last: int, c: nat)
    requires LogOk(log, defaults, next, last)
    ensures forall h :: h in Handlers(Order(log, c)) ==> h in next && h !in defaults && h != last
    ensures Distinct(Handlers(Order(log, c)))
  {
    OrderHolds(log, c);
    OrderOneEach(log, c);
    hide Order;
    var order := Order(log, c);
    forall h | h in Handlers(order)
      ensures h in next && h !in defaults && h != last
    {
      var i :| 0 <= i < |order| && order[i].handler == h;
      assert order[i] in log;
    }
  }

  lemma HandlersApart(log: seq<Reg>, c: nat, d: nat, h: int)
    requires FourPriorities(log) && OneEach(log) && c != d && h in Handlers(Order(log, c))
    ensures h !in Handlers(Order(log, d))
  {
    OrderHolds(log, c);
    OrderHolds(log, d);
    hide Order;
    var here, there := Order(log, c), Order(log, d);
    var i :| 0 <= i < |here| && here[i].handler == h;
    assert here[i] in here;
    forall j | 0 <= j < |there|
      ensures there[j].handler != h
    {
      assert there[j] in there;
      NamesOne(log, here[i], there[j]);
    }
  }

  lemma NamesOne(log: seq<Reg>, a: Reg, b: Reg)
    requires OneEach(log) && a in log && b in log && a != b
    ensures a.handler != b.handler
  {
    var p :| 0 <= p < |log| && log[p] == a;
    var q :| 0 <= q < |log| && log[q] == b;
  }

  /** A handler whose word is null is on no chain. */
  lemma UnlinkedIsAbsent(log: seq<Reg>, defaults: seq<int>, next: map<int, int>, table: seq<int>, fall: int, last: int,
                         h: int)
    requires LogOk(log, defaults, next, last) && Compiled(log, defaults, next, table, fall, last)
    requires h in next && next[h] == 0
    ensures h !in defaults && Unregistered(log, h)
  {
    if h in defaults { VisitsLinked(next, fall, defaults, last, h); }
    forall i | 0 <= i < |log|
      ensures log[i].handler != h
    {
      var r := log[i];
      OrderHolds(log, r.cause);
      hide Order;
      var order := Order(log, r.cause);
      assert r in order;
      var k :| 0 <= k < |order| && order[k] == r;
      var hs := Handlers(order);
      assert hs[k] == r.handler && (hs + defaults)[k] == r.handler;
      VisitsLinked(next, table[r.cause], hs + defaults, last, r.handler);
    }
  }

  /** The compiled form of the registrations: every cause visits its own in order, then the default handlers. */
  ghost predicate Compiled(log: seq<Reg>, defaults: seq<int>, next: map<int, int>, table: seq<int>, fall: int,
                           last: int) {
    && |table| == CAUSES && Visits(next, fall, defaults, last)
    && forall c :: 0 <= c < CAUSES ==> Visits(next, table[c], Handlers(Order(log, c)) + defaults, last)
  }

  /** One cause's part of rebuild. */
  method RebuildCause(next: map<int, int>, link: map<int, int>, handlerOf: map<int, int>, cause: nat, fall: int,
                      ghost nodes: seq<int>, ghost hs: seq<int>, ghost ds: seq<int>, ghost last: int)
    returns (n: map<int, int>, word: int)
    requires From(link, Head(cause), nodes) && |nodes| == |hs| && Distinct(hs)
    requires forall i :: 0 <= i < |nodes| ==> nodes[i] in handlerOf && handlerOf[nodes[i]] == hs[i]
    requires forall h :: h in hs ==> h in next && h != last && h !in ds
    requires Visits(next, fall, ds, last)
    ensures n.Keys == next.Keys && forall h :: h in n && h !in hs ==> n[h] == next[h]
    ensures Visits(n, word, hs + ds, last)
  {
    n := next;
    CellAt(link, Head(cause), nodes, 0);
    var node := link[Head(cause)];
    word := if node == 0 then fall else Code(handlerOf[node]);
    ghost var k := 0;
    while node != 0
      invariant 0 <= k <= |nodes|
      invariant if k < |nodes| then node == nodes[k] != 0 else node == 0
      invariant n.Keys == next.Keys && forall h :: h in n && h !in hs ==> n[h] == next[h]
      invariant forall i, j :: 0 <= i < j < |hs| && j == i + 1 && i < k ==> n[hs[i]] == Code(hs[j])
      invariant k == |nodes| && hs != [] ==> n[hs[|hs| - 1]] == fall
      decreases |nodes| - k
    {
      CellAt(link, Head(cause), nodes, k + 1);
      if k + 1 < |nodes| { CellAt(link, Head(cause), nodes, k + 2); }
      assert hs[k] in hs;
      var following := link[node];
      n := n[handlerOf[node] := if following != 0 then Code(handlerOf[following]) else fall];
      node := following;
      k := k + 1;
    }
    VisitsFrame(next, n, fall, ds, last);
    assert forall i :: 0 <= i < |hs| ==> hs[i] in hs;
    VisitsBuild(n, hs, fall, ds, last);
  }

  ghost predicate Unregistered(log: seq<Reg>, h: int) {
    forall i :: 0 <= i < |log| ==> log[i].handler != h
  }

  lemma UnregisteredUnvisited(log: seq<Reg>, h: int, c: nat)
    requires FourPriorities(log) && Unregistered(log, h)
    ensures h !in Handlers(Order(log, c))
  {
    OrderHolds(log, c);
    hide Order;
    assert forall i :: 0 <= i < |Order(log, c)| ==> Order(log, c)[i] in Order(log, c);
  }

  /** rebuild: every cause's table entry and every chained handler's `next` word, written afresh. */
  method Rebuild(next: map<int, int>, table: seq<int>, link: map<int, int>, handlerOf: map<int, int>, fall: int,
                 ghost last: int,
                 ghost priorityOf: map<int, int>, ghost lists: seq<seq<int>>, ghost home: map<int, int>,
                 ghost log: seq<Reg>, ghost defaults: seq<int>)
    returns (n: map<int, int>, t: seq<int>)
    requires Pool(link, lists, home) && Named(lists, handlerOf, priorityOf, log)
    requires LogOk(log, defaults, next, last) && Visits(next, fall, defaults, last) && |table| == CAUSES
    ensures n.Keys == next.Keys && Compiled(log, defaults, n, t, fall, last)
    ensures forall h :: h in next && Unregistered(log, h) ==> n[h] == next[h]
  {
    hide Order, At, Pool, Listed, OneEach, Visits, LogOk, Unregistered, Distinct, From;
    LogShape(log, defaults, next, last);
    n, t := next, table;
    var cause := 0;
    while cause < CAUSES
      invariant 0 <= cause <= CAUSES && |t| == CAUSES && n.Keys == next.Keys
      invariant Visits(n, fall, defaults, last)
      invariant forall h :: h in next && Unregistered(log, h) ==> n[h] == next[h]
      invariant forall c :: 0 <= c < cause ==> Visits(n, t[c], Handlers(Order(log, c)) + defaults, last)
    {
      ghost var hs := Handlers(Order(log, cause));
      HeadDistinct(lists, link, home, cause);
      HandlersIn(log, defaults, next, last, cause);
      assert NamedAt(lists[cause], handlerOf, priorityOf, Order(log, cause));
      var m, word := RebuildCause(n, link, handlerOf, cause, fall, lists[cause], hs, defaults, last);
      VisitsFrame(n, m, fall, defaults, last);
      forall c | 0 <= c < cause
        ensures Visits(m, t[c], Handlers(Order(log, c)) + defaults, last)
      {
        ChainsApart(log, defaults, next, last, c, cause);
        VisitsFrame(n, m, t[c], Handlers(Order(log, c)) + defaults, last);
      }
      forall h | h in next && Unregistered(log, h)
        ensures m[h] == next[h]
      {
        UnregisteredUnvisited(log, h, cause);
      }
      n, t := m, t[cause := word];
      cause := cause + 1;
    }
  }

  lemma ChainsApart(log: seq<Reg>, defaults: seq<int>, next: map<int, int>, last: int, c: nat, d: nat)
    requires LogOk(log, defaults, next, last) && c != d
    ensures forall h :: h in Handlers(Order(log, c)) + defaults ==> h !in Handlers(Order(log, d))
  {
    HandlersIn(log, defaults, next, last, d);
    forall h | h in Handlers(Order(log, c)) + defaults
      ensures h !in Handlers(Order(log, d))
    {
      if h in Handlers(Order(log, c)) { HandlersApart(log, c, d, h); }
    }
  }

  // ----- registering and releasing --------------------------------------------------------------

  /** The chain's naming after an insertion at `k`, the new node's fields written. */
  lemma NamedInsert(nodes: seq<int>, handlerOf: map<int, int>, priorityOf: map<int, int>, order: seq<Reg>, k: nat,
                    x: int, r: Reg)
    requires NamedAt(nodes, handlerOf, priorityOf, order) && k <= |nodes| && x !in nodes
    ensures NamedAt(nodes[..k] + [x] + nodes[k..], handlerOf[x := r.handler], priorityOf[x := r.priority],
                    order[..k] + [r] + order[k..])
  {
    var t, o := nodes[..k] + [x] + nodes[k..], order[..k] + [r] + order[k..];
    forall i | 0 <= i < |t|
      ensures t[i] in handlerOf[x := r.handler] && handlerOf[x := r.handler][t[i]] == o[i].handler
      ensures t[i] in priorityOf[x := r.priority] && priorityOf[x := r.priority][t[i]] == o[i].priority
    {
      if i != k {
        var j := if i < k then i else i - 1;
        assert t[i] == nodes[j] && o[i] == order[j] && nodes[j] in nodes;
      }
    }
  }

  lemma NamedRemove(nodes: seq<int>, handlerOf: map<int, int>, priorityOf: map<int, int>, order: seq<Reg>, k: nat)
    requires NamedAt(nodes, handlerOf, priorityOf, order) && k < |nodes|
    ensures NamedAt(nodes[..k] + nodes[k + 1..], handlerOf, priorityOf, order[..k] + order[k + 1..])
  {
  }

  lemma NamedElsewhere(nodes: seq<int>, handlerOf: map<int, int>, priorityOf: map<int, int>, order: seq<Reg>, x: int,
                       r: Reg)
    requires NamedAt(nodes, handlerOf, priorityOf, order) && x !in nodes
    ensures NamedAt(nodes, handlerOf[x := r.handler], priorityOf[x := r.priority], order)
  {
    assert forall i :: 0 <= i < |nodes| ==> nodes[i] in nodes;
  }

  /** registerPriority's list work: a node off the free list, filled in, and placed in the cause's chain. */
  method Insert(link: map<int, int>, handlerOf: map<int, int>, priorityOf: map<int, int>, r: Reg,
                ghost lists: seq<seq<int>>, ghost home: map<int, int>, ghost log: seq<Reg>)
    returns (l: map<int, int>, h: map<int, int>, p: map<int, int>,
             ghost after: seq<seq<int>>, ghost where: map<int, int>)
    requires Pool(link, lists, home) && Named(lists, handlerOf, priorityOf, log)
    requires r.cause < CAUSES && r.priority < 4 && lists[FREE] != []
    ensures Pool(l, after, where) && Named(after, h, p, log + [r]) && |after[FREE]| == |lists[FREE]| - 1
  {
    hide Order, At, Pool, Listed, Nowhere, NamedAt;
    PoolShape(link, lists, home);
    HeadDistinct(lists, link, home, FREE);
    CellAt(link, Head(FREE), lists[FREE], 0);
    var node := link[Head(FREE)];
    assert node in lists[FREE];
    ghost var m := PoolRemove(link, lists, home, FREE, 0);
    l := link[Head(FREE) := link[node]];
    h, p := handlerOf[node := r.handler], priorityOf[node := r.priority];
    ghost var popped := lists[FREE := lists[FREE][..0] + lists[FREE][1..]];
    ghost var chain, order := lists[r.cause], Order(log, r.cause);
    HeadDistinct(popped, l, home, r.cause);
    NowhereAt(popped, node, r.cause);
    NamedLength(chain, handlerOf, priorityOf, order);
    var cell := Head(r.cause);
    ghost var k := 0;
    CellAt(l, Head(r.cause), chain, 0);
    while l[cell] != 0 && p[l[cell]] >= r.priority
      invariant 0 <= k <= |chain| && cell == Cell(Head(r.cause), chain, k) && cell in l
      invariant k < |chain| ==> l[cell] == chain[k] != 0 && chain[k] in p && p[chain[k]] == order[k].priority
      invariant k == |chain| ==> l[cell] == 0
      invariant forall j :: 0 <= j < k ==> order[j].priority >= r.priority
      decreases |chain| - k
    {
      cell := l[cell];
      k := k + 1;
      CellAt(l, Head(r.cause), chain, k);
    }
    ghost var m2 := PoolInsert(l, popped, home, r.cause, k, node);
    l := l[node := l[cell]];
    l := l[cell := node];
    after := popped[r.cause := chain[..k] + [node] + chain[k..]];
    where := home[node := r.cause];
    OrderInsert(log, r, k);
    forall c | 0 <= c < CAUSES
      ensures NamedAt(after[c], h, p, Order(log + [r], c))
    {
      NowhereAt(popped, node, c);
      assert NamedAt(lists[c], handlerOf, priorityOf, Order(log, c));
      if c == r.cause {
        NamedInsert(chain, handlerOf, priorityOf, order, k, node, r);
      } else {
        OrderOther(log, r, c);
        NamedElsewhere(lists[c], handlerOf, priorityOf, Order(log, c), node, r);
      }
    }
  }

  lemma PoolShape(link: map<int, int>, lists: seq<seq<int>>, home: map<int, int>)
    requires Pool(link, lists, home)
    ensures |lists| == FREE + 1 && forall x :: x in link <==> IsCell(x)
  {
  }

  lemma NowhereAt(lists: seq<seq<int>>, x: int, t: nat)
    requires Nowhere(lists, x) && t < |lists|
    ensures x !in lists[t]
  {
  }

  lemma NamedLength(nodes: seq<int>, handlerOf: map<int, int>, priorityOf: map<int, int>, order: seq<Reg>)
    requires NamedAt(nodes, handlerOf, priorityOf, order)
    ensures |nodes| == |order|
    ensures forall i :: 0 <= i < |nodes| ==> nodes[i] in handlerOf && handlerOf[nodes[i]] == order[i].handler
    ensures forall i :: 0 <= i < |nodes| ==> nodes[i] in priorityOf && priorityOf[nodes[i]] == order[i].priority
  {
  }

  /** releaseHandler's list work: the handler's node out of the cause's chain and back onto the free list. */
  method Extract(link: map<int, int>, handlerOf: map<int, int>, cause: nat, handler: int,
                 ghost priorityOf: map<int, int>,
                 ghost lists: seq<seq<int>>, ghost home: map<int, int>, ghost log: seq<Reg>)
    returns (found: bool, l: map<int, int>, ghost after: seq<seq<int>>, ghost where: map<int, int>)
    requires Pool(link, lists, home) && Named(lists, handlerOf, priorityOf, log) && FourPriorities(log) && OneEach(log)
    requires cause < CAUSES
    ensures found <==> exists i :: 0 <= i < |log| && log[i].cause == cause && log[i].handler == handler
    ensures found ==> Pool(l, after, where) && Named(after, handlerOf, priorityOf, Without(log, handler))
    ensures found ==> |after[FREE]| == |lists[FREE]| + 1
    ensures !found ==> l == link && after == lists && where == home
  {
    hide Order, At, Pool, Listed, Nowhere, NamedAt, OneEach, Without;
    PoolShape(link, lists, home);
    l, after, where := link, lists, home;
    ghost var chain, order := lists[cause], Order(log, cause);
    HeadDistinct(lists, link, home, cause);
    assert NamedAt(chain, handlerOf, priorityOf, order);
    NamedLength(chain, handlerOf, priorityOf, order);
    var cell := Head(cause);
    ghost var k := 0;
    CellAt(l, Head(cause), chain, 0);
    while l[cell] != 0 && handlerOf[l[cell]] != handler
      invariant 0 <= k <= |chain| && cell == Cell(Head(cause), chain, k) && cell in l
      invariant if k < |chain| then l[cell] == chain[k] != 0 else l[cell] == 0
      invariant forall j :: 0 <= j < k ==> order[j].handler != handler
      decreases |chain| - k
    {
      cell := l[cell];
      k := k + 1;
      CellAt(l, Head(cause), chain, k);
    }
    found := l[cell] != 0;
    OrderHolds(log, cause);
    if found {
      assert order[k] in order;
      var node := l[cell];
      assert node in chain;
      ghost var m := PoolRemove(link, lists, home, cause, k);
      l := l[cell := l[node]];
      ghost var cut := lists[cause := chain[..k] + chain[k + 1..]];
      ghost var m2 := PoolInsert(l, cut, home, FREE, 0, node);
      l := l[node := l[Head(FREE)]];
      l := l[Head(FREE) := node];
      after := cut[FREE := lists[FREE][..0] + [node] + lists[FREE][0..]];
      where := home[node := FREE];
      forall c | 0 <= c < CAUSES
        ensures NamedAt(after[c], handlerOf, priorityOf, Order(Without(log, handler), c))
      {
        assert NamedAt(lists[c], handlerOf, priorityOf, Order(log, c));
        WithoutOrder(log, handler, c);
        if c == cause {
          OrderOneEach(log, c);
          WithoutOne(order, k);
          NamedRemove(chain, handlerOf, priorityOf, order, k);
        } else {
          AbsentElsewhere(log, order[k], c);
        }
      }
    } else {
      forall i | 0 <= i < |log|
        ensures log[i].cause != cause || log[i].handler != handler
      {
        if log[i].cause == cause { assert log[i] in order; }
      }
    }
  }

  /** A handler registered for one cause is not among another's. */
  lemma AbsentElsewhere(log: seq<Reg>, r: Reg, c: nat)
    requires FourPriorities(log) && OneEach(log) && r in log && r.cause != c
    ensures Without(Order(log, c), r.handler) == Order(log, c)
  {
    OrderHolds(log, c);
    hide Order;
    forall i | 0 <= i < |Order(log, c)|
      ensures Order(log, c)[i].handler != r.handler
    {
      assert Order(log, c)[i] in Order(log, c);
      NamesOne(log, Order(log, c)[i], r);
    }
    WithoutNone(Order(log, c), r.handler);
  }

  ghost function NodesFrom(k: nat): seq<int>
    requires 1 <= k <= NODES + 1
    decreases NODES + 1 - k
  {
    if k == NODES + 1 then [] else [k] + NodesFrom(k + 1)
  }

  lemma {:induction false} NodesFromAre(k: nat)
    requires 1 <= k <= NODES + 1
    ensures |NodesFrom(k)| == NODES + 1 - k && Distinct(NodesFrom(k))
    ensures forall x :: x in NodesFrom(k) <==> k <= x <= NODES
    decreases NODES + 1 - k
  {
    if k <= NODES {
      NodesFromAre(k + 1);
      ConsDistinct(k, NodesFrom(k + 1));
    }
  }

  ghost function OnlyFree(frees: seq<int>): (r: seq<seq<int>>)
    ensures |r| == FREE + 1 && r[FREE] == frees && forall c :: 0 <= c < CAUSES ==> r[c] == []
  {
    seq(CAUSES, (c: nat) => []) + [frees]
  }

  lemma NoNodes(link: map<int, int>)
    requires Head(FREE) in link && link[Head(FREE)] == 0
    ensures From(link, Head(FREE), NodesFrom(NODES + 1))
  {
  }

  lemma NodesStep(k: nat)
    requires 1 <= k <= NODES
    ensures NodesFrom(k) == [k] + NodesFrom(k + 1)
  {
  }

  /** preparePool's loop: all 32 nodes on the free list, lowest first, and every chain head null. */
  method FreeNodes() returns (link: map<int, int>)
    ensures (forall x :: x in link <==> IsCell(x)) && From(link, Head(FREE), NodesFrom(1))
    ensures forall t :: 0 <= t < CAUSES ==> IsCell(Head(t)) && link[Head(t)] == 0
  {
    hide From, NodesFrom, Distinct;
    link := map x: int | -1 - FREE <= x <= NODES && x != 0 && IsCell(x) :: 0;
    NoNodes(link);
    var k := NODES;
    while k > 0
      invariant 0 <= k <= NODES
      invariant (forall x :: x in link <==> IsCell(x)) && From(link, Head(FREE), NodesFrom(k + 1))
      invariant forall x :: x in link && x != Head(FREE) && !(k < x <= NODES) ==> link[x] == 0
    {
      NodesFromAre(k + 1);
      NodesStep(k);
      ghost var was := link;
      link := link[k := link[Head(FREE)]];
      link := link[Head(FREE) := k];
      FromPush(was, link, Head(FREE), NodesFrom(k + 1), k);
      k := k - 1;
    }
  }

  method PreparePool() returns (link: map<int, int>, ghost lists: seq<seq<int>>, ghost home: map<int, int>)
    ensures Pool(link, lists, home) && |lists[FREE]| == NODES
    ensures forall c :: 0 <= c < CAUSES ==> lists[c] == []
  {
    link := FreeNodes();
    NodesFromAre(1);
    lists := OnlyFree(NodesFrom(1));
    home := map x: int | 1 <= x <= NODES && IsNode(x) :: FREE;
    hide NodesFrom, Pool, From;
    FreePool(link, lists, home);
  }

  /** All nodes on the free list, and empty chains. */
  lemma FreePool(link: map<int, int>, lists: seq<seq<int>>, home: map<int, int>)
    requires (forall x :: x in link <==> IsCell(x)) && From(link, Head(FREE), NodesFrom(1))
    requires forall t :: 0 <= t < CAUSES ==> IsCell(Head(t)) && link[Head(t)] == 0
    requires lists == OnlyFree(NodesFrom(1)) && (forall x :: IsNode(x) ==> x in home && home[x] == FREE)
    ensures Pool(link, lists, home)
  {
    NodesFromAre(1);
    hide NodesFrom;
    forall t | 0 <= t <= FREE
      ensures Listed(link, lists, t)
    {
      assert IsCell(Head(t));
    }
  }

  /** registerPriority's work on an unlinked handler, over the values it changes. */
  method InsertAndRebuild(link: map<int, int>, handlerOf: map<int, int>, priorityOf: map<int, int>, next: map<int, int>,
                          table: seq<int>, reg: Reg, fall: int, ghost last: int, ghost lists: seq<seq<int>>,
                          ghost home: map<int, int>, ghost log: seq<Reg>, ghost defaults: seq<int>)
    returns (l: map<int, int>, h: map<int, int>, p: map<int, int>, n: map<int, int>, t: seq<int>,
             ghost ls: seq<seq<int>>, ghost where: map<int, int>)
    requires Pool(link, lists, home) && Named(lists, handlerOf, priorityOf, log) && LogOk(log, defaults, next, last)
    requires Compiled(log, defaults, next, table, fall, last)
    requires reg.cause < CAUSES && reg.priority < 4 && reg.handler in next && next[reg.handler] == 0
    requires |lists[FREE]| + |log| == NODES && |log| != NODES
    ensures Pool(l, ls, where) && Named(ls, h, p, log + [reg]) && LogOk(log + [reg], defaults, n, last)
    ensures |ls[FREE]| + |log + [reg]| == NODES
    ensures n.Keys == next.Keys && Compiled(log + [reg], defaults, n, t, fall, last)
    ensures forall x :: x in next && Unregistered(log + [reg], x) ==> n[x] == next[x]
  {
    hide Order, At, Pool, Named, Compiled, Visits, LogOk, Unregistered, From, Distinct, OneEach, FourPriorities;
    UnlinkedIsAbsent(log, defaults, next, table, fall, last, reg.handler);
    CompiledDefaults(log, defaults, next, table, fall, last);
    LogGrows(log, defaults, next, last, reg);
    l, h, p, ls, where := Insert(link, handlerOf, priorityOf, reg, lists, home, log);
    n, t := Rebuild(next, table, l, h, fall, last, p, ls, where, log + [reg], defaults);
    LogOkKeys(log + [reg], defaults, next, n, last);
  }

  /** Releasing a handler registers none. */
  lemma StillUnregistered(log: seq<Reg>, handler: int)
    requires exists i :: 0 <= i < |log| && log[i].handler == handler
    ensures forall h :: Unregistered(log, h) ==> h != handler && Unregistered(Without(log, handler), h)
  {
    forall h | Unregistered(log, h)
      ensures Unregistered(Without(log, handler), h)
    {
      StillOut(log, handler, h);
    }
  }

  lemma {:induction false} StillOut(log: seq<Reg>, handler: int, h: int)
    requires Unregistered(log, h)
    ensures Unregistered(Without(log, handler), h)
  {
    if log != [] {
      assert log[0].handler != h;
      assert forall i :: 0 <= i < |log| - 1 ==> log[1..][i] == log[i + 1];
      StillOut(log[1..], handler, h);
    }
  }

  class ExceptionManager {
    /** The stop: the handler at the end of every chain. */
    const last: int
    /** The pool: list links (chain heads and the free list's head among them), and each node's handler and priority. */
    var link: map<int, int>
    var handlerOf: map<int, int>
    var priorityOf: map<int, int>
    /** The `next` word of every handler its owner keeps. */
    var next: map<int, int>
    var table: seq<int>
    var defaultChain: int

    /** The registrations, oldest first; the default handlers, newest first; the pool's lists. */
    ghost var log: seq<Reg>
    ghost var defaults: seq<int>
    ghost var lists: seq<seq<int>>
    ghost var home: map<int, int>

    function Fall(): int
      reads this
    {
      if defaultChain != 0 then Code(defaultChain) else Code(last)
    }

    ghost predicate Valid()
      reads this
    {
      && Pool(link, lists, home) && Named(lists, handlerOf, priorityOf, log)
      && LogOk(log, defaults, next, last)
      && |lists[FREE]| + |log| == NODES
      && defaultChain == (if defaults == [] then 0 else defaults[0])
      && Compiled(log, defaults, next, table, Fall(), last)
    }

    /** The module's entry: an empty pool, empty chains, and a table that only knows the stop. */
    constructor (next: map<int, int>, last: int)
      requires last > 0 && last !in next && forall h :: h in next ==> h > 0
      ensures Valid() && log == [] && defaults == [] && this.next.Keys == next.Keys
    {
      var pool;
      ghost var ls, where;
      pool, ls, where := PreparePool();
      var none := map x: int | 1 <= x <= NODES && IsNode(x) :: 0;
      var n, t := Rebuild(next, seq(CAUSES, i => 0), pool, none, Code(last), last, none, ls, where, [], []);
      this.last, this.link, this.handlerOf, this.priorityOf := last, pool, none, none;
      this.next, this.table, this.defaultChain := n, t, 0;
      log, defaults, lists, home := [], [], ls, where;
    }

    method RegisterPriority(cause: nat, priority: nat, handler: int) returns (r: int)
      requires Valid() && handler in next
      modifies this
      ensures Valid() && defaults == old(defaults) && next.Keys == old(next.Keys)
      ensures r == if cause >= 16 then -0x32 else if old(next[handler]) != 0 then -0x34
                   else if |old(log)| == 32 then -1 else 0
      ensures r == 0 ==> log == old(log) + [Reg(cause, priority % 4, handler)]
      ensures r != 0 ==> log == old(log) && next == old(next) && table == old(table)
      ensures forall h :: h in next && Unregistered(log, h) ==> next[h] == old(next[h])
    {
      hide Order, At, Pool, Named, Compiled, Visits, LogOk, Unregistered, From, Distinct, OneEach, FourPriorities;
      if cause >= CAUSES { return ERROR_BAD_CAUSE; }
      if next[handler] != 0 { return ERROR_LINKED; }
      FreeCount();
      if link[Head(FREE)] == 0 { return -1; }
      Link(Reg(cause, priority % 4, handler));
      r := 0;
    }

    /** The pool has run out exactly when 32 registrations are live. */
    lemma FreeCount()
      requires Valid()
      ensures Head(FREE) in link && (link[Head(FREE)] == 0 <==> |log| == NODES)
    {
      FreeHead(link, lists, home);
    }

    /** registerPriority once nothing stands in the way. */
    method Link(reg: Reg)
      requires Valid() && reg.handler in next && next[reg.handler] == 0 && |log| != NODES
      requires reg.cause < CAUSES && reg.priority < 4
      modifies this
      ensures Valid() && defaults == old(defaults) && next.Keys == old(next.Keys) && log == old(log) + [reg]
      ensures forall h :: h in next && Unregistered(log, h) ==> next[h] == old(next[h])
    {
      hide Order, At, Pool, Named, Compiled, Visits, LogOk, Unregistered, From, Distinct, OneEach, FourPriorities;
      var l, h, p, n, t;
      ghost var ls, where;
      l, h, p, n, t, ls, where := InsertAndRebuild(link, handlerOf, priorityOf, next, table, reg, Fall(), last, lists,
        home, log, defaults);
      link, handlerOf, priorityOf, next, table := l, h, p, n, t;
      lists, home, log := ls, where, log + [reg];
    }

    method RegisterDefault(handler: int) returns (r: int)
      requires Valid() && handler in next
      modifies this`next, this`table, this`defaultChain, this`defaults
      ensures Valid() && next.Keys == old(next.Keys)
      ensures r == if old(next[handler]) != 0 then -0x34 else 0
      ensures defaults == if r == 0 then [handler] + old(defaults) else old(defaults)
      ensures forall h :: h in next && Unregistered(log, h) && h != handler ==> next[h] == old(next[h])
      ensures r != 0 ==> next == old(next) && table == old(table)
    {
      hide Order, Pool, Named, Compiled;
      if next[handler] != 0 { return ERROR_LINKED; }
      UnlinkedIsAbsent(log, defaults, next, table, Fall(), last, handler);
      CompiledDefaults(log, defaults, next, table, Fall(), last);
      var linked := next[handler := Fall()];
      VisitsFrame(next, linked, Fall(), defaults, last);
      defaultChain := handler;
      ConsDistinct(handler, defaults);
      assert ([handler] + defaults)[1..] == defaults;
      defaults := [handler] + defaults;
      next, table := Rebuild(linked, table, link, handlerOf, Fall(), last, priorityOf, lists, home, log, defaults);
      r := 0;
    }

    method ReleaseHandler(cause: nat, handler: int) returns (r: int)
      requires Valid() && handler in next
      modifies this
      ensures Valid() && defaults == old(defaults) && next.Keys == old(next.Keys)
      ensures r == -0x32 <==> cause >= 16
      ensures r == 0 <==> exists i ::
        0 <= i < |old(log)| && old(log)[i].cause == cause && old(log)[i].handler == handler
      ensures r == 0 ==> log == Without(old(log), handler) && next[handler] == 0
      ensures forall h :: h in next && Unregistered(old(log), h) ==> next[h] == old(next[h])
      ensures r != 0 ==> log == old(log) && next == old(next) && table == old(table)
      ensures r in {0, -1, -0x32}
    {
      hide Order, Pool, Named, Compiled, Visits, LogOk, Unregistered, Without;
      LogShape(log, defaults, next, last);
      if cause >= CAUSES { return ERROR_BAD_CAUSE; }
      var found, l;
      ghost var ls, where;
      found, l, ls, where := Extract(link, handlerOf, cause, handler, priorityOf, lists, home, log);
      if !found { return -1; }
      CompiledDefaults(log, defaults, next, table, Fall(), last);
      WithoutOk(log, defaults, next, last, handler);
      VisitsFrame(next, next[handler := 0], Fall(), defaults, last);
      ghost var rest := Without(log, handler);
      StillUnregistered(log, handler);
      var n, t := Rebuild(next[handler := 0], table, l, handlerOf, Fall(), last, priorityOf, ls, where, rest, defaults);
      LogOkKeys(rest, defaults, next[handler := 0], n, last);
      link, next, table := l, n, t;
      lists, home, log := ls, where, rest;
      r := 0;
    }

    method ReleaseDefault(handler: int) returns (r: int)
      requires Valid() && handler in next
      modifies this`next, this`table, this`defaultChain, this`defaults
      ensures Valid() && next.Keys == old(next.Keys)
      ensures r == if old(defaults) != [] && old(defaults)[0] == handler then 0 else -1
      ensures defaults == if r == 0 then old(defaults)[1..] else old(defaults)
      ensures r == 0 ==> next[handler] == 0
      ensures forall h :: h in next && Unregistered(log, h) && h != handler ==> next[h] == old(next[h])
      ensures r != 0 ==> next == old(next) && table == old(table)
    {
      hide Order, Pool, Named, Compiled;
      if defaultChain != handler { return -1; }
      CompiledDefaults(log, defaults, next, table, Fall(), last);
      assert defaults[0] == handler && defaults == [handler] + defaults[1..];
      TailDistinct(handler, defaults[1..]);
      var following := next[handler];
      var cleared := next[handler := 0];
      VisitsFrame(next, cleared, following, defaults[1..], last);
      defaultChain := if following == Code(last) then 0 else following - 8;
      defaults := defaults[1..];
      next, table := Rebuild(cleared, table, link, handlerOf, Fall(), last, priorityOf, lists, home, log, defaults);
      r := 0;
    }
  }

  lemma LogShape(log: seq<Reg>, defaults: seq<int>, next: map<int, int>, last: int)
    requires LogOk(log, defaults, next, last)
    ensures FourPriorities(log) && OneEach(log)
  {
  }

  lemma LogOkKeys(log: seq<Reg>, defaults: seq<int>, next: map<int, int>, m: map<int, int>, last: int)
    requires LogOk(log, defaults, next, last) && m.Keys == next.Keys
    ensures LogOk(log, defaults, m, last)
  {
    assert forall h :: h in m <==> h in next;
  }

  lemma LogGrows(log: seq<Reg>, defaults: seq<int>, next: map<int, int>, last: int, r: Reg)
    requires LogOk(log, defaults, next, last) && r.cause < CAUSES && r.priority < 4
    requires r.handler in next && r.handler !in defaults && Unregistered(log, r.handler)
    ensures LogOk(log + [r], defaults, next, last)
  {
  }

  lemma FreeHead(link: map<int, int>, lists: seq<seq<int>>, home: map<int, int>)
    requires Pool(link, lists, home)
    ensures Head(FREE) in link && (link[Head(FREE)] == 0 <==> lists[FREE] == [])
  {
    HeadDistinct(lists, link, home, FREE);
  }

  lemma CompiledDefaults(log: seq<Reg>, defaults: seq<int>, next: map<int, int>, table: seq<int>, fall: int, last: int)
    requires Compiled(log, defaults, next, table, fall, last)
    ensures |table| == CAUSES && Visits(next, fall, defaults, last)
  {
  }

  lemma WithoutOk(log: seq<Reg>, defaults: seq<int>, next: map<int, int>, last: int, handler: int)
    requires LogOk(log, defaults, next, last) && handler in next
    requires exists i :: 0 <= i < |log| && log[i].handler == handler
    ensures LogOk(Without(log, handler), defaults, next[handler := 0], last)
    ensures |Without(log, handler)| == |log| - 1 && Unregistered(Without(log, handler), handler) && handler !in defaults
  {
    WithoutHolds(log, handler);
    WithoutCounts(log, handler);
    hide Without;
    var t := Without(log, handler);
    var i :| 0 <= i < |log| && log[i].handler == handler;
    assert log[i] in log;
    forall j | 0 <= j < |t|
      ensures t[j] in log && t[j].handler != handler
    {
      assert t[j] in t;
    }
  }
}
