/**
 LOADCORE's library registry (src/iop/loadcore.cpp) and the binding of imports against it
 (src/iop/loader.hpp): tables chained from one head word, each heading a list of the import
 tables bound to it, all threaded through the tables' own words.
 */
module Registry {
  import opened Common
  import opened Lists

  const MAGIC := 0x41C0_0000
  const LIBRARY_FOUND := -212
  const ILLEGAL_LIBRARY := -214

  /** A library's identity is its tag and major version; the minor counts generations. */
  datatype Header = Header(tag: int, major: int, minor: int)

  /** Two words of an import stub: the jump that binding writes, and the ordinal it names. */
  datatype Stub = Stub(first: int, second: int)

  // ----- binding one table (bindTable) ------------------------------------------------------

  function BoundStub(s: Stub, entries: seq<int>): Stub {
    if s.second / 0x400_0000 % 0x40 != 9 then s
    else
      var ordinal := s.second % 0x1_0000;
      Stub(if ordinal < |entries| then 0x0800_0000 + entries[ordinal] / 4 % 0x400_0000 else 0x03E0_0008, s.second)
  }

  function BoundStubs(stubs: seq<Stub>, entries: seq<int>): (r: seq<Stub>)
    ensures |r| == |stubs| && forall i :: 0 <= i < |stubs| ==> r[i] == BoundStub(stubs[i], entries)
  {
    seq(|stubs|, i requires 0 <= i < |stubs| => BoundStub(stubs[i], entries))
  }

  /** Binding again forgets the library bound before: only the ordinals matter. */
  lemma RebindForgets(stubs: seq<Stub>, oldEntries: seq<int>, entries: seq<int>)
    ensures BoundStubs(BoundStubs(stubs, oldEntries), entries) == BoundStubs(stubs, entries)
  {
  }

  /** Binding rewrites only stubs, which then jump inside the exporter's range or return at once. */
  lemma BoundStubJumps(s: Stub, entries: seq<int>)
    ensures BoundStub(s, entries).second == s.second
    ensures s.second / 0x400_0000 % 0x40 != 9 ==> BoundStub(s, entries) == s
    ensures var w := BoundStub(s, entries).first; var ordinal := s.second % 0x1_0000;
      s.second / 0x400_0000 % 0x40 == 9 ==>
      if ordinal < |entries| then
        w / 0x400_0000 == 2 && w % 0x400_0000 * 4 % 0x1000_0000 == entries[ordinal] / 4 * 4 % 0x1000_0000
      else w == 0x03E0_0008
  {
    if s.second % 0x1_0000 < |entries| {
      var e := entries[s.second % 0x1_0000];
      assert e / 4 % 0x400_0000 * 4 == e / 4 * 4 % 0x1000_0000;
    }
  }

  // ----- pinned and unpinned clients -------------------------------------------------------------

  ghost predicate IsPinned(flags: map<int, int>, x: int) {
    x in flags && flags[x] % 2 == 1
  }

  ghost function Pinned(flags: map<int, int>, s: seq<int>): seq<int> {
    if s == [] then [] else (if IsPinned(flags, s[0]) then [s[0]] else []) + Pinned(flags, s[1..])
  }

  ghost function Unpinned(flags: map<int, int>, s: seq<int>): seq<int> {
    if s == [] then [] else (if IsPinned(flags, s[0]) then [] else [s[0]]) + Unpinned(flags, s[1..])
  }

  lemma PinnedSnoc(flags: map<int, int>, s: seq<int>, x: int)
    ensures Pinned(flags, s + [x]) == Pinned(flags, s) + if IsPinned(flags, x) then [x] else []
    ensures Unpinned(flags, s + [x]) == Unpinned(flags, s) + if IsPinned(flags, x) then [] else [x]
  {
    hide Pinned, Unpinned;
    PinnedJoins(flags, s, x);
    UnpinnedJoins(flags, s, x);
  }

  lemma {:induction false} PinnedJoins(flags: map<int, int>, s: seq<int>, x: int)
    ensures Pinned(flags, s + [x]) == Pinned(flags, s) + if IsPinned(flags, x) then [x] else []
  {
    hide IsPinned;
    if s == [] {
      assert s + [x] == [x] && [x][1..] == [];
    } else {
      assert (s + [x])[1..] == s[1..] + [x];
      PinnedJoins(flags, s[1..], x);
    }
  }

  lemma {:induction false} UnpinnedJoins(flags: map<int, int>, s: seq<int>, x: int)
    ensures Unpinned(flags, s + [x]) == Unpinned(flags, s) + if IsPinned(flags, x) then [] else [x]
  {
    hide IsPinned;
    if s == [] {
      assert s + [x] == [x] && [x][1..] == [];
    } else {
      assert (s + [x])[1..] == s[1..] + [x];
      UnpinnedJoins(flags, s[1..], x);
    }
  }

  /** Each element is in one half or the other, as often as it was in the list. */
  lemma {:induction false} PinnedSplits(flags: map<int, int>, s: seq<int>)
    ensures multiset(Pinned(flags, s)) + multiset(Unpinned(flags, s)) == multiset(s)
    ensures forall x :: x in Pinned(flags, s) <==> x in s && IsPinned(flags, x)
    ensures forall x :: x in Unpinned(flags, s) <==> x in s && !IsPinned(flags, x)
  {
    hide IsPinned;
    if s != [] {
      PinnedSplits(flags, s[1..]);
      assert s == [s[0]] + s[1..];
    }
  }

  lemma {:induction false} HalvesDistinct(flags: map<int, int>, s: seq<int>)
    requires Distinct(s)
    ensures Distinct(Pinned(flags, s)) && Distinct(Unpinned(flags, s))
  {
    if s != [] {
      HalvesDistinct(flags, s[1..]);
      PinnedSplits(flags, s[1..]);
      assert s[0] !in s[1..];
    }
  }

  // ----- detachUnpinnedClients ---------------------------------------------------------------------

  /** The walk's middle: what is kept hangs off the table, what is taken is a stack, the rest is still linked. */
  ghost predicate Splitting(n: map<int, int>, flags: map<int, int>, t: int, s: seq<int>, k: int, client: int, tail: int,
                            taken: int)
    requires 0 <= k <= |s|
  {
    && From(n, t, Pinned(flags, s[..k]))
    && tail == Tail(t, Pinned(flags, s[..k]))
    && Chain(n, taken, Reverse(Unpinned(flags, s[..k])))
    && Chain(n, client, s[k..])
  }

  method DetachUnpinned(n: map<int, int>, flags: map<int, int>, t: int, ghost s: seq<int>)
    returns (m: map<int, int>, taken: int)
    requires From(n, t, s) && Distinct([t] + s) && (forall x :: x in s ==> x in flags)
    ensures Only(n, m, {t} + Elements(s))
    ensures From(m, t, Pinned(flags, s))
    ensures Chain(m, taken, Reverse(Unpinned(flags, s)))
  {
    hide Splitting, Chain, Pinned, Unpinned, Reverse, Distinct, From;
    SplitStart(n, flags, t, s);
    var client := n[t];
    m := n[t := 0];
    var tail := t;
    taken := 0;
    ghost var k := 0;
    while client != 0
      invariant 0 <= k <= |s| && Only(n, m, {t} + Elements(s))
      invariant Splitting(m, flags, t, s, k, client, tail, taken)
      decreases |s| - k
    {
      SplitStep(m, flags, t, s, k, client, tail, taken);
      var following := m[client];
      if flags[client] % 2 != 0 {
        m := m[tail := client];
        m := m[client := 0];
        tail := client;
      } else {
        m := m[client := taken];
        taken := client;
      }
      client := following;
      k := k + 1;
    }
    SplitDone(m, flags, t, s, k, tail, taken);
  }

  lemma SplitStart(n: map<int, int>, flags: map<int, int>, t: int, s: seq<int>)
    requires From(n, t, s) && Distinct([t] + s)
    ensures t in n && Splitting(n[t := 0], flags, t, s, 0, n[t], t, 0)
  {
    assert s[..0] == [] && s[0..] == s;
    assert [t] + s == [t] + s && ([t] + s)[0] == t;
    if s != [] {
      assert forall i :: 0 <= i < |s| ==> ([t] + s)[i + 1] == s[i];
      FromFrame(n, n[t := 0], s[0], s[1..]);
    }
  }

  lemma SplitDone(m: map<int, int>, flags: map<int, int>, t: int, s: seq<int>, k: int, tail: int, taken: int)
    requires 0 <= k <= |s| && Splitting(m, flags, t, s, k, 0, tail, taken)
    ensures From(m, t, Pinned(flags, s)) && Chain(m, taken, Reverse(Unpinned(flags, s)))
  {
    assert k == |s|;
    assert s[..k] == s;
  }

  lemma SplitStep(m: map<int, int>, flags: map<int, int>, t: int, s: seq<int>, k: int, client: int, tail: int,
                  taken: int)
    requires 0 <= k <= |s| && Splitting(m, flags, t, s, k, client, tail, taken) && client != 0
    requires Distinct([t] + s) && forall x :: x in s ==> x in flags
    ensures k < |s| && client == s[k] && client in m && client in s && tail in m && tail in [t] + s && tail != client
    ensures var m' := if IsPinned(flags, client) then m[tail := client][client := 0] else m[client := taken];
      Splitting(m', flags, t, s, k + 1, m[client], if IsPinned(flags, client) then client else tail,
                if IsPinned(flags, client) then taken else client)
  {
    hide From, Chain, Pinned, Unpinned, Reverse, Distinct, IsPinned;
    AtClient(m, client, s[k..]);
    var a, u, rest := Pinned(flags, s[..k]), Unpinned(flags, s[..k]), s[k + 1..];
    assert s[..k + 1] == s[..k] + [s[k]] && s[k..][1..] == rest;
    PinnedSnoc(flags, s[..k], s[k]);
    SplitApart(flags, t, s, k);
    FromHolds(m, t, a);
    FromCell(m, t, a);
    var m' := if IsPinned(flags, client) then m[tail := client][client := 0] else m[client := taken];
    assert tail in [t] + a;
    RestFrame(m, m', client, rest);
    if IsPinned(flags, client) {
      FromAppend(m, m', t, a, client);
      assert u + [] == u;
      ChainFrame(m, m', taken, Reverse(u));
    } else {
      FromFrame(m, m', t, a);
      ReverseSnoc(u, client);
      assert a + [] == a;
      ChainPush(m, m', taken, Reverse(u), client);
    }
  }

  /** The kept, the taken and the rest have no element in common. */
  lemma SplitApart(flags: map<int, int>, t: int, s: seq<int>, k: int)
    requires Distinct([t] + s) && 0 <= k < |s|
    ensures var a, u := Pinned(flags, s[..k]), Unpinned(flags, s[..k]);
      && Distinct([t] + a) && t !in a && t !in u && s[k] !in a && s[k] !in u && s[k] != t
      && (forall x :: x in a ==> x !in u && x !in s[k + 1..] && x in s)
      && (forall x :: x in u ==> x !in s[k + 1..] && x in s)
      && t !in s[k + 1..] && s[k] !in s[k + 1..]
      && (forall x :: x in Reverse(u) <==> x in u)
  {
    hide Pinned, Unpinned, Reverse;
    TailDistinct(t, s);
    assert forall x :: x in s[..k] ==> x in s && x !in s[k + 1..] && x != s[k];
    PinnedSplits(flags, s[..k]);
    HalvesDistinct(flags, s[..k]);
    ReverseDistinct(Unpinned(flags, s[..k]));
    ConsDistinct(t, Pinned(flags, s[..k]));
  }

  // ----- the registry ---------------------------------------------------------------------------------

  /** What the words in memory stand for: the tables from the head on, and each one's clients in list order. */
  datatype View = View(order: seq<int>, lists: map<int, seq<int>>)

  ghost predicate Same(info: map<int, Header>, a: int, b: int) {
    a in info && b in info && info[a].tag == info[b].tag && info[a].major == info[b].major
  }

  /** A table's list is its own: distinct cells, none of them a table, empty if the table is pinned. */
  ghost predicate OwnList(lists: map<int, seq<int>>, flags: map<int, int>, info: map<int, Header>, t: int)
    requires t in lists
  {
    && 0 < t < MAGIC && t in info && t in flags && Distinct([t] + lists[t])
    && (forall x :: x in lists[t] ==> x !in lists && x != 0 && x in flags)
    && (IsPinned(flags, t) ==> lists[t] == [])
  }

  ghost predicate Disjoint(lists: map<int, seq<int>>) {
    forall t, u, x :: t in lists && u in lists && x in lists[t] && x in lists[u] ==> t == u
  }

  /** Registered tables and their clients are all different; a table registered pinned has no clients. */
  ghost predicate Shaped(v: View, flags: map<int, int>, info: map<int, Header>) {
    && Distinct(v.order) && v.lists.Keys == Elements(v.order)
    && (forall t :: t in v.lists ==> OwnList(v.lists, flags, info, t))
    && Disjoint(v.lists)
  }

  /** A versioned table's minor exceeds that of every later table with its tag and major. */
  ghost predicate Generations(v: View, flags: map<int, int>, info: map<int, Header>) {
    forall i, j :: 0 <= i < j < |v.order| && Same(info, v.order[i], v.order[j]) && !IsPinned(flags, v.order[i]) ==>
      info[v.order[i]].minor > info[v.order[j]].minor
  }

  /** A versioned table of the same library. */
  ghost predicate Superseding(flags: map<int, int>, info: map<int, Header>, newer: int, older: int) {
    Same(info, newer, older) && !IsPinned(flags, newer)
  }

  /** A table with a versioned one of its identity before it has given up its unpinned clients. */
  ghost predicate GivenUp(v: View, flags: map<int, int>, info: map<int, Header>) {
    forall i, j ::
      0 <= i < j < |v.order| && v.order[j] in v.lists && Superseding(flags, info, v.order[i], v.order[j]) ==>
      Unpinned(flags, v.lists[v.order[j]]) == []
  }

  /** The clients of the first `n` tables with `t`'s identity, as the walk gathers them. */
  ghost function Gathered(v: View, flags: map<int, int>, info: map<int, Header>, t: int, n: int): seq<int>
    requires 0 <= n <= |v.order|
  {
    if n == 0 then []
    else
      var u := v.order[n - 1];
      (if Same(info, u, t) && u in v.lists then Reverse(Unpinned(flags, v.lists[u])) else [])
      + Gathered(v, flags, info, t, n - 1)
  }

  /** The lists once `t` has taken the unpinned clients of the first `n` tables of its identity. */
  ghost function Relieved(v: View, flags: map<int, int>, info: map<int, Header>, t: int, n: int): map<int, seq<int>>
    requires 0 <= n <= |v.order|
  {
    if n == 0 then v.lists
    else
      var u := v.order[n - 1];
      if Same(info, u, t) && u in v.lists then Relieved(v, flags, info, t, n - 1)[u := Pinned(flags, v.lists[u])]
      else Relieved(v, flags, info, t, n - 1)
  }

  lemma {:induction false} RelievedAt(v: View, flags: map<int, int>, info: map<int, Header>, t: int, n: int, u: int)
    requires 0 <= n <= |v.order| && u in v.lists
    ensures Relieved(v, flags, info, t, n).Keys == v.lists.Keys
    ensures Relieved(v, flags, info, t, n)[u] ==
      if Same(info, u, t) && u in Elements(v.order[..n]) then Pinned(flags, v.lists[u]) else v.lists[u]
  {
    hide Pinned, Same;
    if n > 0 {
      RelievedAt(v, flags, info, t, n - 1, u);
      assert v.order[..n] == v.order[..n - 1] + [v.order[n - 1]];
    }
  }

  /** Every unpinned client of the older generations is gathered, as many times as it was listed. */
  ghost function UnpinnedOf(v: View, flags: map<int, int>, info: map<int, Header>, t: int, n: int): multiset<int>
    requires 0 <= n <= |v.order|
  {
    if n == 0 then multiset{}
    else
      var u := v.order[n - 1];
      (if Same(info, u, t) && u in v.lists then multiset(v.lists[u]) - multiset(Pinned(flags, v.lists[u]))
       else multiset{})
      + UnpinnedOf(v, flags, info, t, n - 1)
  }

  lemma {:induction false} GatheredConserves(v: View, flags: map<int, int>, info: map<int, Header>, t: int, n: int)
    requires 0 <= n <= |v.order|
    ensures multiset(Gathered(v, flags, info, t, n)) == UnpinnedOf(v, flags, info, t, n)
    ensures multiset(Reverse(Gathered(v, flags, info, t, n))) == UnpinnedOf(v, flags, info, t, n)
  {
    hide Reverse, Unpinned, Pinned;
    ReverseKeeps(Gathered(v, flags, info, t, n));
    if n > 0 {
      GatheredConserves(v, flags, info, t, n - 1);
      var u := v.order[n - 1];
      if Same(info, u, t) && u in v.lists {
        PinnedSplits(flags, v.lists[u]);
        ReverseKeeps(Unpinned(flags, v.lists[u]));
      }
    }
  }

  lemma Listed(v: View, flags: map<int, int>, info: map<int, Header>, i: int)
    requires 0 <= i < |v.order| && Shaped(v, flags, info)
    ensures v.order[i] in v.lists && Distinct([v.order[i]] + v.lists[v.order[i]])
  {
    assert v.order[i] in Elements(v.order);
  }

  lemma Takes(flags: map<int, int>, s: seq<int>, x: int)
    ensures x in Reverse(Unpinned(flags, s)) <==> x in s && !IsPinned(flags, x)
  {
    PinnedSplits(flags, s);
    ReverseHolds(Unpinned(flags, s), x);
  }

  lemma {:induction false} GatheredFrom(v: View, flags: map<int, int>, info: map<int, Header>, t: int, n: int, x: int)
    requires 0 <= n <= |v.order| && Shaped(v, flags, info)
    ensures x in Gathered(v, flags, info, t, n) <==>
      exists i :: 0 <= i < n && Same(info, v.order[i], t)
        && v.order[i] in v.lists && x in v.lists[v.order[i]] && !IsPinned(flags, x)
  {
    hide Shaped, Same, IsPinned, Unpinned, Reverse;
    if n > 0 {
      GatheredFrom(v, flags, info, t, n - 1, x);
      Listed(v, flags, info, n - 1);
      Takes(flags, v.lists[v.order[n - 1]], x);
    }
  }

  /** A client is on one table's list only. */
  lemma OneOwner(v: View, flags: map<int, int>, info: map<int, Header>, i: int, j: int, x: int)
    requires Shaped(v, flags, info) && 0 <= i < |v.order| && 0 <= j < |v.order|
    requires v.order[i] in v.lists && v.order[j] in v.lists && x in v.lists[v.order[i]] && x in v.lists[v.order[j]]
    ensures i == j
  {
  }

  lemma NotGathered(v: View, flags: map<int, int>, info: map<int, Header>, t: int, n: int, x: int)
    requires 0 <= n < |v.order| && Shaped(v, flags, info) && v.order[n] in v.lists && x in v.lists[v.order[n]]
    ensures x !in Gathered(v, flags, info, t, n)
  {
    GatheredFrom(v, flags, info, t, n, x);
    forall i | 0 <= i < n
      ensures v.order[i] in v.lists && x !in v.lists[v.order[i]]
    {
      Listed(v, flags, info, i);
      if x in v.lists[v.order[i]] { OneOwner(v, flags, info, i, n, x); }
    }
  }

  lemma GatheredNext(v: View, flags: map<int, int>, info: map<int, Header>, t: int, n: int)
    requires 0 <= n < |v.order| && Shaped(v, flags, info)
    ensures v.order[n] in v.lists
    ensures Gathered(v, flags, info, t, n + 1) ==
      if Same(info, v.order[n], t) then Reverse(Unpinned(flags, v.lists[v.order[n]])) + Gathered(v, flags, info, t, n)
      else Gathered(v, flags, info, t, n)
  {
    hide Same, Unpinned, Reverse;
    Listed(v, flags, info, n);
    assert [] + Gathered(v, flags, info, t, n) == Gathered(v, flags, info, t, n);
  }

  lemma GatheredNone(v: View, flags: map<int, int>, info: map<int, Header>, t: int)
    ensures Distinct(Gathered(v, flags, info, t, 0))
  {
  }

  lemma TakenApart(v: View, flags: map<int, int>, info: map<int, Header>, t: int, n: int)
    requires 0 <= n < |v.order| && Shaped(v, flags, info) && v.order[n] in v.lists
    ensures forall x :: x in Reverse(Unpinned(flags, v.lists[v.order[n]])) ==> x !in Gathered(v, flags, info, t, n)
  {
    hide *;
    forall x | x in Reverse(Unpinned(flags, v.lists[v.order[n]]))
      ensures x !in Gathered(v, flags, info, t, n)
    {
      Takes(flags, v.lists[v.order[n]], x);
      NotGathered(v, flags, info, t, n, x);
    }
  }

  lemma {:induction false} GatheredDistinct(v: View, flags: map<int, int>, info: map<int, Header>, t: int, n: int)
    requires 0 <= n <= |v.order| && Shaped(v, flags, info)
    ensures Distinct(Gathered(v, flags, info, t, n))
  {
    hide *;
    if n == 0 {
      GatheredNone(v, flags, info, t);
    } else {
      GatheredDistinct(v, flags, info, t, n - 1);
      GatheredNext(v, flags, info, t, n - 1);
      TakenDistinct(v, flags, info, n - 1);
      TakenApart(v, flags, info, t, n - 1);
      if Same(info, v.order[n - 1], t) {
        DistinctConcat(Reverse(Unpinned(flags, v.lists[v.order[n - 1]])), Gathered(v, flags, info, t, n - 1));
      }
    }
  }

  /** Older generations that a strictly newer candidate meets before one it does not exceed have nothing to give. */
  lemma RefusalFindsNothing(v: View, flags: map<int, int>, info: map<int, Header>, t: int, i: int, k: int)
    requires Shaped(v, flags, info) && Generations(v, flags, info) && t in info
    requires 0 <= k < i < |v.order| && Same(info, v.order[k], t) && Same(info, v.order[i], t)
    requires info[v.order[k]].minor < info[t].minor <= info[v.order[i]].minor
    ensures v.order[k] in v.lists && v.lists[v.order[k]] == []
  {
    assert v.order[k] in Elements(v.order);
    assert Same(info, v.order[k], v.order[i]);
  }

  /** The first unpinned table with an identity has the greatest minor of them all. */
  lemma FirstIsNewest(v: View, flags: map<int, int>, info: map<int, Header>, i: int, j: int)
    requires Generations(v, flags, info)
    requires 0 <= i < |v.order| && 0 <= j < |v.order| && Same(info, v.order[i], v.order[j])
    requires !IsPinned(flags, v.order[i]) && !IsPinned(flags, v.order[j])
    requires forall k :: 0 <= k < i && Same(info, v.order[k], v.order[j]) ==> IsPinned(flags, v.order[k])
    ensures info[v.order[j]].minor <= info[v.order[i]].minor
    ensures j != i ==> info[v.order[j]].minor < info[v.order[i]].minor
  {
  }

  ghost predicate Threaded(n: map<int, int>, lists: map<int, seq<int>>) {
    forall t :: t in lists ==> From(n, t, lists[t])
  }

  /** A table and its clients. */
  ghost function Cells(v: View, u: int): set<int>
    requires u in v.lists
  {
    {u} + Elements(v.lists[u])
  }

  /** Every registered table with `t`'s identity has a smaller minor. */
  ghost predicate NewerThanAll(v: View, info: map<int, Header>, t: int) {
    t in info && forall i :: 0 <= i < |v.order| && Same(info, v.order[i], t) ==> info[v.order[i]].minor < info[t].minor
  }

  /** The registry once `t` has been accepted with the clients it took. */
  ghost function Superseded(v: View, flags: map<int, int>, info: map<int, Header>, t: int): View {
    View([t] + v.order, Relieved(v, flags, info, t, |v.order|)[t := Reverse(Gathered(v, flags, info, t, |v.order|))])
  }

  ghost function Rebound(stubs: map<int, seq<Stub>>, s: seq<int>, entries: seq<int>): map<int, seq<Stub>> {
    map x | x in stubs :: if x in s then BoundStubs(stubs[x], entries) else stubs[x]
  }

  // ----- the walk of registerVersioned ---------------------------------------------------------------------

  /**
   After `i` tables: their lists relieved, the takings chained, nothing else touched, and no write without a taking.
   */
  ghost predicate Walking(n: map<int, int>, m: map<int, int>, v: View, flags: map<int, int>, info: map<int, Header>,
                          t: int, i: int, taken: int)
    requires 0 <= i <= |v.order|
  {
    && m.Keys == n.Keys
    && Threaded(m, Relieved(v, flags, info, t, i))
    && Chain(m, taken, Gathered(v, flags, info, t, i))
    && (forall x :: x in n && (forall u :: u in v.lists ==> x !in Cells(v, u)) ==> m[x] == n[x])
    && ((forall k :: 0 <= k < i && Same(info, v.order[k], t) ==>
      v.order[k] in v.lists && v.lists[v.order[k]] == []) ==> m == n)
  }

  lemma WalkStart(n: map<int, int>, v: View, flags: map<int, int>, info: map<int, Header>, t: int)
    requires Threaded(n, v.lists)
    ensures Walking(n, n, v, flags, info, t, 0, 0)
  {
  }

  /** Passing over a table of another identity. */
  lemma WalkOver(n: map<int, int>, m: map<int, int>, v: View, flags: map<int, int>, info: map<int, Header>, t: int,
                 i: int, taken: int)
    requires 0 <= i < |v.order| && Walking(n, m, v, flags, info, t, i, taken) && !Same(info, v.order[i], t)
    ensures Walking(n, m, v, flags, info, t, i + 1, taken)
  {
    hide Threaded, Chain, Same;
    assert [] + Gathered(v, flags, info, t, i) == Gathered(v, flags, info, t, i);
  }

  /** The table the walk stands at still has all its clients. */
  lemma RelievedHere(v: View, flags: map<int, int>, info: map<int, Header>, t: int, i: int)
    requires 0 <= i < |v.order| && Shaped(v, flags, info)
    ensures v.order[i] in v.lists && v.order[i] in Relieved(v, flags, info, t, i)
    ensures Relieved(v, flags, info, t, i)[v.order[i]] == v.lists[v.order[i]]
  {
    Listed(v, flags, info, i);
    RelievedAt(v, flags, info, t, i, v.order[i]);
    assert forall k :: 0 <= k < i ==> v.order[..i][k] == v.order[k] != v.order[i];
  }

  /** The cells of table `i` are on no other list, and nothing gathered so far is among them. */
  lemma CellsApart(v: View, flags: map<int, int>, info: map<int, Header>, t: int, i: int, x: int)
    requires 0 <= i < |v.order| && Shaped(v, flags, info) && v.order[i] in v.lists && x in Cells(v, v.order[i])
    ensures x !in Gathered(v, flags, info, t, i)
    ensures forall u :: u in v.lists && u != v.order[i] ==> x != u && x !in v.lists[u]
  {
    if x == v.order[i] {
      GatheredFrom(v, flags, info, t, i, x);
    } else {
      NotGathered(v, flags, info, t, i, x);
    }
  }

  /** Hanging the list just taken before those taken earlier. */
  lemma TakeChain(m: map<int, int>, d: map<int, int>, m': map<int, int>, a: seq<int>, b: seq<int>, off: int, taken: int,
                  touched: set<int>)
    requires Chain(m, taken, b) && Chain(d, off, a) && Only(m, d, touched) && Distinct(a)
    requires forall x :: x in touched ==> x !in b
    requires forall x :: x in a ==> x in touched
    requires if a == [] then m' == d else a[|a| - 1] in d && m' == d[a[|a| - 1] := taken]
    ensures Chain(m', if a == [] then taken else off, a + b)
  {
    if a == [] {
      assert [] + b == b;
      ChainFrame(m, m', taken, b);
    } else {
      assert a[0] in a && a[|a| - 1] in a;
      ChainFrame(m, m', taken, b);
      assert [a[0]] + a[1..] == a;
      assert Tail(a[0], a[1..]) == a[|a| - 1];
      assert From(d, a[0], a[1..]);
      FromHolds(d, a[0], a[1..]);
      FromJoin(d, m', a[0], a[1..], taken, b);
      assert (a + b)[1..] == a[1..] + b;
    }
  }

  /** The lists after one more generation has given up its unpinned clients. */
  lemma TakeLists(m: map<int, int>, d: map<int, int>, m': map<int, int>, r: map<int, seq<int>>, u: int, kept: seq<int>,
                  touched: set<int>)
    requires Threaded(m, r) && u in r && From(d, u, kept) && Only(m, d, touched) && m'.Keys == d.Keys
    requires forall w :: w in r && w != u ==> w !in touched && forall x :: x in r[w] ==> x !in touched
    requires forall x :: x in d && (x !in touched || x == u || x in kept) ==> m'[x] == d[x]
    ensures Threaded(m', r[u := kept])
  {
    var r' := r[u := kept];
    forall w | w in r'
      ensures From(m', w, r'[w])
    {
      if w == u {
        FromFrame(d, m', u, kept);
      } else {
        FromCell(m, w, r[w]);
        FromFrame(m, m', w, r[w]);
      }
    }
  }

  /** Taking the clients off one more older generation and hanging them before those already taken. */
  lemma WalkTake(n: map<int, int>, m: map<int, int>, d: map<int, int>, m': map<int, int>, v: View, flags: map<int, int>,
                 info: map<int, Header>, t: int, i: int, taken: int, off: int)
    requires 0 <= i < |v.order| && Walking(n, m, v, flags, info, t, i, taken)
    requires Shaped(v, flags, info) && Same(info, v.order[i], t) && v.order[i] in v.lists
    requires Only(m, d, Cells(v, v.order[i])) && From(d, v.order[i], Pinned(flags, v.lists[v.order[i]]))
    requires Chain(d, off, Reverse(Unpinned(flags, v.lists[v.order[i]])))
    requires v.lists[v.order[i]] == [] ==> d == m
    requires var a := Reverse(Unpinned(flags, v.lists[v.order[i]]));
      if a == [] then m' == d else a[|a| - 1] in d && m' == d[a[|a| - 1] := taken]
    ensures var a := Reverse(Unpinned(flags, v.lists[v.order[i]]));
      Walking(n, m', v, flags, info, t, i + 1, if a == [] then taken else off)
  {
    hide Chain, From, Threaded, Shaped, Pinned, Unpinned, Reverse, Same, Distinct;
    var u := v.order[i];
    var s := v.lists[u];
    var a, b, r := Reverse(Unpinned(flags, s)), Gathered(v, flags, info, t, i), Relieved(v, flags, info, t, i);
    RelievedHere(v, flags, info, t, i);
    TakenParts(flags, s);
    TakenDistinct(v, flags, info, i);
    forall x | x in Cells(v, u)
      ensures x !in b && forall w :: w in v.lists && w != u ==> x != w && x !in v.lists[w]
    {
      CellsApart(v, flags, info, t, i, x);
    }
    forall w | w in v.lists && w != u
      ensures w in r && w !in Cells(v, u) && forall x :: x in r[w] ==> x !in Cells(v, u)
    {
      RelievedAt(v, flags, info, t, i, w);
      PinnedWithin(flags, v.lists[w]);
    }
    RelievedAt(v, flags, info, t, i, u);
    assert a != [] ==> a[|a| - 1] in a;
    TakeChain(m, d, m', a, b, off, taken, Cells(v, u));
    TakeLists(m, d, m', r, u, Pinned(flags, s), Cells(v, u));
  }

  lemma PinnedWithin(flags: map<int, int>, s: seq<int>)
    ensures forall x :: x in Pinned(flags, s) ==> x in s
  {
    PinnedSplits(flags, s);
  }

  lemma TakenDistinct(v: View, flags: map<int, int>, info: map<int, Header>, i: int)
    requires 0 <= i < |v.order| && Shaped(v, flags, info) && v.order[i] in v.lists
    ensures Distinct([v.order[i]] + v.lists[v.order[i]]) && v.order[i] !in v.lists[v.order[i]]
    ensures Distinct(Reverse(Unpinned(flags, v.lists[v.order[i]])))
    ensures forall x :: x in v.lists[v.order[i]] ==> x in flags
  {
    Listed(v, flags, info, i);
    TailDistinct(v.order[i], v.lists[v.order[i]]);
    HalvesDistinct(flags, v.lists[v.order[i]]);
    ReverseDistinct(Unpinned(flags, v.lists[v.order[i]]));
  }

  lemma TakenParts(flags: map<int, int>, s: seq<int>)
    ensures var a := Reverse(Unpinned(flags, s));
      && (forall x :: x in a ==> x in s && x !in Pinned(flags, s))
      && (forall x :: x in Pinned(flags, s) ==> x in s)
      && (s == [] ==> a == [])
  {
    PinnedSplits(flags, s);
    forall x
      ensures x in Reverse(Unpinned(flags, s)) <==> x in s && !IsPinned(flags, x)
    {
      Takes(flags, s, x);
    }
  }

  /** The last node of a list. */
  method LastOf(n: map<int, int>, h: int, ghost s: seq<int>) returns (last: int)
    requires Chain(n, h, s) && h != 0
    ensures s != [] && last == s[|s| - 1] && last in n
  {
    last := h;
    ghost var k := 0;
    while n[last] != 0
      invariant 0 <= k < |s| && last == s[k] && From(n, last, s[k + 1..])
      decreases |s| - k
    {
      assert s[k + 1..][1..] == s[k + 2..];
      last := n[last];
      k := k + 1;
    }
  }

  /** registerVersioned's loop: every older generation gives up its clients, or one is new enough to refuse. */
  method WalkGenerations(link: map<int, int>, n: map<int, int>, head: int, flags: map<int, int>, info: map<int, Header>,
                         ghost v: View, t: int) returns (code: int, m: map<int, int>, taken: int)
    requires Shaped(v, flags, info) && Generations(v, flags, info) && t in info
    requires Chain(link, head, v.order) && Threaded(n, v.lists)
    ensures code == if NewerThanAll(v, info, t) then 0 else LIBRARY_FOUND
    ensures code != 0 ==> m == n
    ensures code == 0 ==> Walking(n, m, v, flags, info, t, |v.order|, taken)
  {
    hide Shaped, Generations, Walking, Threaded, Chain, Gathered, Relieved, Unpinned, Pinned, Reverse, From;
    m, taken := n, 0;
    var walk := head;
    ghost var i := 0;
    WalkStart(n, v, flags, info, t);
    assert v.order[0..] == v.order;
    while walk != 0
      invariant 0 <= i <= |v.order| && Chain(link, walk, v.order[i..])
      invariant Walking(n, m, v, flags, info, t, i, taken)
      invariant forall k :: 0 <= k < i && Same(info, v.order[k], t) ==> info[v.order[k]].minor < info[t].minor
      decreases |v.order| - i
    {
      AtTable(link, walk, v, flags, info, i);
      if info[walk].tag != info[t].tag || info[walk].major != info[t].major {
        WalkOver(n, m, v, flags, info, t, i, taken);
      } else {
        if info[walk].minor >= info[t].minor {
          Untouched(n, m, v, flags, info, t, i, taken);
          return LIBRARY_FOUND, m, 0;
        }
        RelievedHere(v, flags, info, t, i);
        WalkList(n, m, v, flags, info, t, i, taken);
        TakenDistinct(v, flags, info, i);
        ghost var s := v.lists[walk];
        ghost var before, held := m, taken;
        var d, off := DetachUnpinned(m, flags, walk, s);
        DetachNothing(before, d, flags, walk, s);
        ChainEmpty(d, off, Reverse(Unpinned(flags, s)));
        m := d;
        if off != 0 {
          var last := LastOf(d, off, Reverse(Unpinned(flags, s)));
          m := m[last := taken];
          taken := off;
        }
        WalkTake(n, before, d, m, v, flags, info, t, i, held, off);
      }
      walk := link[walk];
      i := i + 1;
    }
    WalkEnd(link, v, i);
    code := 0;
  }

  lemma WalkEnd(link: map<int, int>, v: View, i: int)
    requires 0 <= i <= |v.order| && Chain(link, 0, v.order[i..])
    ensures i == |v.order|
  {
  }

  lemma AtTable(link: map<int, int>, walk: int, v: View, flags: map<int, int>, info: map<int, Header>, i: int)
    requires 0 <= i <= |v.order| && Chain(link, walk, v.order[i..]) && walk != 0 && Shaped(v, flags, info)
    ensures i < |v.order| && walk == v.order[i] && walk in info && walk in link
    ensures Chain(link, link[walk], v.order[i + 1..])
  {
    assert v.order[i..][1..] == v.order[i + 1..];
    Listed(v, flags, info, i);
  }

  lemma WalkList(n: map<int, int>, m: map<int, int>, v: View, flags: map<int, int>, info: map<int, Header>, t: int,
                 i: int, taken: int)
    requires 0 <= i < |v.order| && Shaped(v, flags, info) && Walking(n, m, v, flags, info, t, i, taken)
    ensures v.order[i] in v.lists && From(m, v.order[i], v.lists[v.order[i]])
  {
    hide Shaped, Chain, From;
    RelievedHere(v, flags, info, t, i);
  }

  lemma DetachNothing(m: map<int, int>, d: map<int, int>, flags: map<int, int>, u: int, s: seq<int>)
    requires From(m, u, s) && From(d, u, Pinned(flags, s)) && Only(m, d, {u} + Elements(s))
    ensures s == [] ==> d == m
  {
    if s == [] {
      assert Elements(s) == {};
      EmptyUntouched(m, d, u);
    }
  }

  /** A walk that is refused has not moved anything. */
  lemma Untouched(n: map<int, int>, m: map<int, int>, v: View, flags: map<int, int>, info: map<int, Header>, t: int,
                  i: int, taken: int)
    requires Shaped(v, flags, info) && Generations(v, flags, info) && t in info && 0 <= i < |v.order|
    requires Walking(n, m, v, flags, info, t, i, taken)
    requires Same(info, v.order[i], t) && info[t].minor <= info[v.order[i]].minor
    requires forall k :: 0 <= k < i && Same(info, v.order[k], t) ==> info[v.order[k]].minor < info[t].minor
    ensures m == n
  {
    forall k | 0 <= k < i && Same(info, v.order[k], t)
      ensures v.order[k] in v.lists && v.lists[v.order[k]] == []
    {
      RefusalFindsNothing(v, flags, info, t, i, k);
    }
  }

  // ----- adoptClients ---------------------------------------------------------------------------------------

  /** bindTable: the stubs of one import table against an exporter's entries. */
  method BindTable(stubs: seq<Stub>, entries: seq<int>) returns (bound: seq<Stub>)
    ensures bound == BoundStubs(stubs, entries)
  {
    var count := |entries|;
    bound := stubs;
    var k := 0;
    while k < |stubs|
      invariant 0 <= k <= |stubs| && |bound| == |stubs|
      invariant forall i :: 0 <= i < |stubs| ==> bound[i] == if i < k then BoundStub(stubs[i], entries) else stubs[i]
    {
      var second := bound[k].second;
      if second / 0x400_0000 % 0x40 == 9 {
        var ordinal := second % 0x1_0000;
        var instruction;
        if ordinal < count {
          instruction := 0x0800_0000 + entries[ordinal] / 4 % 0x400_0000;
        } else {
          instruction := 0x03E0_0008;
        }
        bound := bound[k := Stub(instruction, second)];
      }
      k := k + 1;
    }
  }

  method AdoptClients(n: map<int, int>, stubs0: map<int, seq<Stub>>, t: int, entries: seq<int>, first: int,
                      ghost s: seq<int>)
    returns (m: map<int, int>, stubs: map<int, seq<Stub>>)
    requires From(n, t, []) && Chain(n, first, s) && Distinct(s) && t !in s && forall x :: x in s ==> x in stubs0
    ensures From(m, t, Reverse(s)) && Only(n, m, {t} + Elements(s))
    ensures stubs == Rebound(stubs0, s, entries)
  {
    hide From, Chain, Distinct, Reverse, Rebound;
    m, stubs := n, stubs0;
    var taken := first;
    ghost var k := 0;
    AdoptStart(n, stubs0, t, entries, s);
    while taken != 0
      invariant 0 <= k <= |s| && Only(n, m, {t} + Elements(s))
      invariant From(m, t, Reverse(s[..k])) && Chain(m, taken, s[k..])
      invariant stubs == Rebound(stubs0, s[..k], entries)
      decreases |s| - k
    {
      AdoptStep(m, stubs0, t, entries, s, k, taken);
      var following := m[taken];
      var bound := BindTable(stubs[taken], entries);
      stubs := stubs[taken := bound];
      m := m[taken := m[t]];
      m := m[t := taken];
      taken := following;
      k := k + 1;
    }
    AdoptDone(m, s, k);
  }

  lemma AdoptStart(n: map<int, int>, stubs0: map<int, seq<Stub>>, t: int, entries: seq<int>, s: seq<int>)
    requires From(n, t, [])
    ensures s[0..] == s && From(n, t, Reverse(s[..0])) && stubs0 == Rebound(stubs0, s[..0], entries)
  {
  }

  lemma AdoptDone(m: map<int, int>, s: seq<int>, k: int)
    requires 0 <= k <= |s| && Chain(m, 0, s[k..])
    ensures k == |s| && s[..k] == s
  {
  }

  lemma AdoptStep(m: map<int, int>, stubs0: map<int, seq<Stub>>, t: int, entries: seq<int>, s: seq<int>, k: int,
                  taken: int)
    requires 0 <= k <= |s| && From(m, t, Reverse(s[..k])) && Chain(m, taken, s[k..]) && taken != 0
    requires Distinct(s) && t !in s && forall x :: x in s ==> x in stubs0
    ensures k < |s| && taken == s[k] && taken in s && taken in m && t in m && taken in stubs0 && taken !in s[..k]
    ensures From(m[taken := m[t]][t := taken], t, Reverse(s[..k + 1]))
    ensures Chain(m[taken := m[t]][t := taken], m[taken], s[k + 1..])
    ensures Rebound(stubs0, s[..k + 1], entries) ==
      Rebound(stubs0, s[..k], entries)[taken := BoundStubs(stubs0[taken], entries)]
    ensures taken in Rebound(stubs0, s[..k], entries) && Rebound(stubs0, s[..k], entries)[taken] == stubs0[taken]
  {
    hide From, Chain, Reverse, Distinct, BoundStubs;
    AtClient(m, taken, s[k..]);
    FromCell(m, t, Reverse(s[..k]));
    assert s[..k + 1] == s[..k] + [s[k]] && s[k..][1..] == s[k + 1..];
    ReverseSnoc(s[..k], s[k]);
    AroundDistinct(s, k);
    var m' := m[taken := m[t]][t := taken];
    FromPush(m, m', t, Reverse(s[..k]), taken);
    RestFrame(m, m', taken, s[k + 1..]);
  }

  lemma AroundDistinct(s: seq<int>, k: int)
    requires Distinct(s) && 0 <= k < |s|
    ensures s[k] in s && s[k] !in s[..k] && s[k] !in s[k + 1..] && s[k] !in Reverse(s[..k])
    ensures forall x :: x in s[k + 1..] ==> x in s
    ensures forall x :: x in Reverse(s[..k]) ==> x in s
  {
    forall x | x in Reverse(s[..k])
      ensures x in s[..k]
    {
      ReverseHolds(s[..k], x);
    }
  }

  // ----- the registry after a supersession --------------------------------------------------------------------

  lemma Unlisted(v: View, n: map<int, int>, m: map<int, int>, flags: map<int, int>, info: map<int, Header>, t: int,
                 taken: int)
    requires Walking(n, m, v, flags, info, t, |v.order|, taken) && t in n && n[t] == 0
    requires t !in v.lists && forall u :: u in v.lists ==> t !in v.lists[u]
    ensures From(m, t, []) && Chain(m, taken, Gathered(v, flags, info, t, |v.order|))
    ensures Threaded(m, Relieved(v, flags, info, t, |v.order|)) && m.Keys == n.Keys
  {
  }

  lemma CandidateApart(v: View, flags: map<int, int>, info: map<int, Header>, stubs: map<int, seq<Stub>>,
                       entries: map<int, seq<int>>, t: int)
    requires Shaped(v, flags, info) && t !in v.lists && forall u :: u in v.lists ==> t !in v.lists[u]
    requires AllBound(stubs, entries, v.lists)
    ensures t !in Gathered(v, flags, info, t, |v.order|)
    ensures forall x :: x in Gathered(v, flags, info, t, |v.order|) ==> x in stubs
  {
    forall x
      ensures x in Gathered(v, flags, info, t, |v.order|) ==> x in stubs && x != t
    {
      GatheredFrom(v, flags, info, t, |v.order|, x);
    }
  }

  /** What is on a list after the supersession: the takings on `t`'s, on any other what it kept. */
  lemma SupersededList(v: View, flags: map<int, int>, info: map<int, Header>, t: int, u: int, x: int)
    requires Shaped(v, flags, info) && u in v.lists && u != t
    ensures u in Superseded(v, flags, info, t).lists
    ensures var s := Superseded(v, flags, info, t).lists[u];
      && s == (if Same(info, u, t) then Pinned(flags, v.lists[u]) else v.lists[u])
      && (x in s ==> x in v.lists[u] && x !in Gathered(v, flags, info, t, |v.order|))
  {
    RelievedAt(v, flags, info, t, |v.order|, u);
    assert v.order[..|v.order|] == v.order;
    PinnedSplits(flags, v.lists[u]);
    GatheredFrom(v, flags, info, t, |v.order|, x);
    if x in v.lists[u] && x in Gathered(v, flags, info, t, |v.order|) {
      var i :| 0 <= i < |v.order| && Same(info, v.order[i], t)
        && v.order[i] in v.lists && x in v.lists[v.order[i]] && !IsPinned(flags, x);
      assert v.order[i] == u;
    }
  }

  lemma {:induction false} RelievedKeys(v: View, flags: map<int, int>, info: map<int, Header>, t: int, n: int)
    requires 0 <= n <= |v.order|
    ensures Relieved(v, flags, info, t, n).Keys == v.lists.Keys
  {
    if n > 0 { RelievedKeys(v, flags, info, t, n - 1); }
  }

  lemma GatheredBelongs(v: View, flags: map<int, int>, info: map<int, Header>, t: int, x: int)
    requires Shaped(v, flags, info) && x in Reverse(Gathered(v, flags, info, t, |v.order|))
    ensures x !in v.lists && x != 0 && x in flags && x in Gathered(v, flags, info, t, |v.order|)
    ensures exists u :: u in v.lists && x in v.lists[u]
  {
    ReverseHolds(Gathered(v, flags, info, t, |v.order|), x);
    GatheredFrom(v, flags, info, t, |v.order|, x);
  }

  lemma SupersededShaped(v: View, flags: map<int, int>, info: map<int, Header>, t: int)
    requires Shaped(v, flags, info) && t !in v.lists && (forall u :: u in v.lists ==> t !in v.lists[u])
    requires 0 < t < MAGIC && t in info && t in flags && !IsPinned(flags, t)
    ensures Shaped(Superseded(v, flags, info, t), flags, info)
  {
    hide Gathered, Relieved, Pinned, Reverse, Unpinned, Same, Distinct, OwnList;
    var w := Superseded(v, flags, info, t);
    RelievedKeys(v, flags, info, t, |v.order|);
    assert w.lists.Keys == v.lists.Keys + {t};
    assert Elements(w.order) == Elements(v.order) + {t};
    ConsDistinct(t, v.order);
    NewOwnList(v, flags, info, t);
    forall u | u in v.lists
      ensures OwnList(w.lists, flags, info, u)
      ensures forall x :: x in w.lists[u] ==> x in v.lists[u] && x !in w.lists[t]
    {
      KeptShaped(v, flags, info, t, u);
    }
  }

  lemma NewOwnList(v: View, flags: map<int, int>, info: map<int, Header>, t: int)
    requires Shaped(v, flags, info) && t !in v.lists && (forall u :: u in v.lists ==> t !in v.lists[u])
    requires 0 < t < MAGIC && t in info && t in flags && !IsPinned(flags, t)
    ensures OwnList(Superseded(v, flags, info, t).lists, flags, info, t)
  {
    hide Gathered, Relieved, Pinned, Reverse, Unpinned, Same, Distinct, Shaped;
    var r := Reverse(Gathered(v, flags, info, t, |v.order|));
    RelievedKeys(v, flags, info, t, |v.order|);
    GatheredDistinct(v, flags, info, t, |v.order|);
    ReverseDistinct(Gathered(v, flags, info, t, |v.order|));
    forall x | x in r
      ensures x !in v.lists && x != t && x != 0 && x in flags
    {
      GatheredBelongs(v, flags, info, t, x);
    }
    ConsDistinct(t, r);
  }

  lemma KeptShaped(v: View, flags: map<int, int>, info: map<int, Header>, t: int, u: int)
    requires Shaped(v, flags, info) && u in v.lists && t !in v.lists && t !in v.lists[u]
    ensures u in Superseded(v, flags, info, t).lists && t in Superseded(v, flags, info, t).lists
    ensures OwnList(Superseded(v, flags, info, t).lists, flags, info, u)
    ensures forall x :: x in Superseded(v, flags, info, t).lists[u] ==>
      x in v.lists[u] && x !in Superseded(v, flags, info, t).lists[t]
  {
    hide Gathered, Relieved, Reverse, Unpinned, Same, Distinct;
    RelievedKeys(v, flags, info, t, |v.order|);
    SupersededList(v, flags, info, t, u, 0);
    var w := Superseded(v, flags, info, t);
    var s := w.lists[u];
    TailDistinct(u, v.lists[u]);
    HalvesDistinct(flags, v.lists[u]);
    PinnedWithin(flags, v.lists[u]);
    ConsDistinct(u, s);
    forall x | x in s
      ensures x in v.lists[u] && x !in w.lists[t]
    {
      SupersededList(v, flags, info, t, u, x);
      ReverseHolds(Gathered(v, flags, info, t, |v.order|), x);
    }
  }

  lemma SupersededGenerations(v: View, flags: map<int, int>, info: map<int, Header>, t: int)
    requires Generations(v, flags, info) && NewerThanAll(v, info, t)
    ensures Generations(Superseded(v, flags, info, t), flags, info)
  {
    hide Gathered, Relieved;
    var o := Superseded(v, flags, info, t).order;
    forall i, j | 0 <= i < j < |o| && Same(info, o[i], o[j]) && !IsPinned(flags, o[i])
      ensures info[o[i]].minor > info[o[j]].minor
    {
      assert o[j] == v.order[j - 1];
      if i > 0 { assert o[i] == v.order[i - 1]; }
    }
  }

  /** What is pinned has no unpinned part. */
  lemma {:induction false} PinnedOnly(flags: map<int, int>, s: seq<int>)
    ensures Unpinned(flags, Pinned(flags, s)) == []
  {
    if s != [] {
      PinnedOnly(flags, s[1..]);
      var r := Pinned(flags, s[1..]);
      assert ([s[0]] + r)[1..] == r && [] + r == r;
    }
  }

  /** The newcomer leaves no older table of its identity an unpinned client, and gives the others none. */
  lemma SupersededGivenUp(v: View, flags: map<int, int>, info: map<int, Header>, t: int)
    requires Shaped(v, flags, info) && GivenUp(v, flags, info) && t !in v.lists
    ensures GivenUp(Superseded(v, flags, info, t), flags, info)
  {
    hide Gathered, Relieved, Pinned, Reverse, Unpinned, Distinct, Shaped, IsPinned;
    var w := Superseded(v, flags, info, t);
    forall i, j | 0 <= i < j < |w.order| && Same(info, w.order[i], w.order[j]) && !IsPinned(flags, w.order[i])
      && w.order[j] in w.lists
      ensures Unpinned(flags, w.lists[w.order[j]]) == []
    {
      var u := w.order[j];
      assert u == v.order[j - 1];
      Listed(v, flags, info, j - 1);
      assert u != t;
      SupersededList(v, flags, info, t, u, 0);
      PinnedOnly(flags, v.lists[u]);
      if i > 0 { assert w.order[i] == v.order[i - 1]; }
    }
  }

  lemma SupersededThreads(m: map<int, int>, m': map<int, int>, v: View, flags: map<int, int>, info: map<int, Header>,
                          t: int)
    requires Shaped(v, flags, info) && t !in v.lists && (forall u :: u in v.lists ==> t !in v.lists[u])
    requires Threaded(m, Relieved(v, flags, info, t, |v.order|))
    requires Only(m, m', {t} + Elements(Gathered(v, flags, info, t, |v.order|)))
    requires From(m', t, Reverse(Gathered(v, flags, info, t, |v.order|)))
    ensures Threaded(m', Superseded(v, flags, info, t).lists)
  {
    hide Gathered, Relieved, Pinned, Reverse, Unpinned, Same, From, Shaped;
    var w := Superseded(v, flags, info, t);
    RelievedKeys(v, flags, info, t, |v.order|);
    forall u | u in w.lists
      ensures From(m', u, w.lists[u])
    {
      if u != t {
        NotAClient(v, flags, info, t, u);
        FromCell(m, u, w.lists[u]);
        forall x | x in w.lists[u]
          ensures x != t && x !in Gathered(v, flags, info, t, |v.order|)
        {
          SupersededList(v, flags, info, t, u, x);
        }
        FromFrame(m, m', u, w.lists[u]);
      }
    }
  }

  lemma NotAClient(v: View, flags: map<int, int>, info: map<int, Header>, t: int, u: int)
    requires Shaped(v, flags, info) && u in v.lists
    ensures u !in Gathered(v, flags, info, t, |v.order|)
  {
    GatheredFrom(v, flags, info, t, |v.order|, u);
  }

  ghost predicate AllBound(stubs: map<int, seq<Stub>>, entries: map<int, seq<int>>, lists: map<int, seq<int>>) {
    forall t, x {:trigger x in lists[t]} :: t in lists && x in lists[t] ==>
      t in entries && x in stubs && BoundStubs(stubs[x], entries[t]) == stubs[x]
  }

  lemma SupersededBound(stubs: map<int, seq<Stub>>, entries: map<int, seq<int>>, v: View, flags: map<int, int>,
                        info: map<int, Header>, t: int)
    requires Shaped(v, flags, info) && AllBound(stubs, entries, v.lists) && t in entries && t !in v.lists
    ensures AllBound(Rebound(stubs, Gathered(v, flags, info, t, |v.order|), entries[t]), entries,
      Superseded(v, flags, info, t).lists)
  {
    hide Gathered, Relieved, Pinned, Reverse, Unpinned, Same, Shaped, BoundStubs;
    var w := Superseded(v, flags, info, t);
    var stubs' := Rebound(stubs, Gathered(v, flags, info, t, |v.order|), entries[t]);
    RelievedKeys(v, flags, info, t, |v.order|);
    forall u, x {:trigger x in w.lists[u]} | u in w.lists && x in w.lists[u]
      ensures u in entries && x in stubs' && BoundStubs(stubs'[x], entries[u]) == stubs'[x]
    {
      if u == t {
        GatheredBelongs(v, flags, info, t, x);
        RebindForgets(stubs[x], entries[t], entries[t]);
      } else {
        SupersededList(v, flags, info, t, u, x);
      }
    }
    assert AllBound(stubs', entries, w.lists);
  }

  class Loadcore {
    /** What is fixed about each table: its header, and an export table's entries up to the terminator. */
    const info: map<int, Header>
    const entries: map<int, seq<int>>

    var head: int
    /** The word at +0x0 of an export table: the magic, then the registry link. */
    var link: map<int, int>
    /** The word at +0x4: an export table's first client, an import table's next fellow. */
    var next: map<int, int>
    var flags: map<int, int>
    var stubs: map<int, seq<Stub>>

    ghost var view: View

    ghost predicate Valid()
      reads this
    {
      && Shaped(view, flags, info) && Generations(view, flags, info) && GivenUp(view, flags, info)
      && Chain(link, head, view.order)
      && Threaded(next, view.lists)
      && (forall t :: t in view.lists ==> t in entries && t in link && link[t] != MAGIC)
      && AllBound(stubs, entries, view.lists)
    }

    /** The entry: SYSMEM's table, placed before there was a registry, becomes its first. */
    constructor (info: map<int, Header>, entries: map<int, seq<int>>, link: map<int, int>, next: map<int, int>,
                 flags: map<int, int>, stubs: map<int, seq<Stub>>, sysmem: int)
      requires 0 < sysmem < MAGIC && sysmem in info && sysmem in entries && sysmem in link && sysmem in flags
      requires sysmem in next && next[sysmem] == 0
      ensures Valid() && view == View([sysmem], map[sysmem := []])
      ensures this.link == link[sysmem := 0] && this.next == next && this.flags == flags && this.stubs == stubs
    {
      this.info, this.entries, this.next, this.flags, this.stubs := info, entries, next, flags, stubs;
      this.head := sysmem;
      this.link := link[sysmem := 0];
      this.view := View([sysmem], map[sysmem := []]);
    }

    /** `t` is a stored export table: its client word is zero and it is nobody's client. */
    ghost predicate Candidate(t: int)
      reads this
    {
      && 0 < t < MAGIC && t in info && t in entries && t in link && t in next && t in flags && t in stubs
      && (link[t] == MAGIC ==> next[t] == 0 && forall u :: u in view.lists ==> t !in view.lists[u])
    }

    /** Ordinal 6. */
    method RegisterVersioned(t: int) returns (code: int)
      requires Valid() && (t != 0 ==> Candidate(t) && (link[t] == MAGIC ==> !IsPinned(flags, t)))
      modifies this`head, this`link, this`next, this`stubs, this`view
      ensures Valid()
      ensures code == if t == 0 || old(link[t]) != 0x41C0_0000 then -214
                      else if NewerThanAll(old(view), info, t) then 0 else -212
      ensures code != 0 ==>
        head == old(head) && link == old(link) && next == old(next) && stubs == old(stubs) && view == old(view)
      ensures code == 0 ==> view == Superseded(old(view), flags, info, t)
      ensures code == 0 ==>
        stubs == Rebound(old(stubs), Gathered(old(view), flags, info, t, |old(view).order|), entries[t])
    {
      hide Shaped, Generations, GivenUp, Chain, Threaded, From, AllBound, Gathered, Relieved, Walking, Reverse,
        Rebound, Distinct;
      if t == 0 || link[t] != MAGIC { return ILLEGAL_LIBRARY; }
      var m, taken;
      code, m, taken := WalkGenerations(link, next, head, flags, info, view, t);
      if code != 0 {
        next := m;
        return;
      }
      Unlisted(view, next, m, flags, info, t, taken);
      Unregistered(view, flags, info, t);
      GatheredDistinct(view, flags, info, t, |view.order|);
      CandidateApart(view, flags, info, stubs, entries, t);
      var m', stubs' := AdoptClients(m, stubs, t, entries[t], taken, Gathered(view, flags, info, t, |view.order|));
      SupersededShaped(view, flags, info, t);
      SupersededGenerations(view, flags, info, t);
      SupersededGivenUp(view, flags, info, t);
      SupersededThreads(m, m', view, flags, info, t);
      ChainPush(link, link[t := head], head, view.order, t);
      HeadIsNoMagic(link, head, view, flags, info);
      RelievedKeys(view, flags, info, t, |view.order|);
      SupersededBound(stubs, entries, view, flags, info, t);
      next, stubs := m', stubs';
      link := link[t := head];
      head := t;
      view := Superseded(view, flags, info, t);
    }

    /** Ordinal 10: no comparison; the table is marked so that nothing binds to it by itself. */
    method RegisterPinned(t: int) returns (code: int)
      requires Valid() && (t != 0 ==> Candidate(t))
      modifies this`head, this`link, this`flags, this`view
      ensures Valid()
      ensures code == if t == 0 || old(link[t]) != 0x41C0_0000 then -214 else 0
      ensures code != 0 ==> head == old(head) && link == old(link) && flags == old(flags) && view == old(view)
      ensures code == 0 ==> view == View([t] + old(view).order, old(view).lists[t := []])
      ensures code == 0 ==> flags == old(flags)[t := old(flags[t]) / 2 * 2 + 1]
    {
      hide Shaped, Generations, GivenUp, Chain, Threaded, From, AllBound;
      if t == 0 || link[t] != MAGIC { return ILLEGAL_LIBRARY; }
      var marked := flags[t] / 2 * 2 + 1;
      Unregistered(view, flags, info, t);
      PinnedShaped(view, flags, info, t, marked);
      PinnedGenerations(view, flags, info, t, marked);
      PinnedGivenUp(view, flags, info, t, marked);
      PinnedThreads(next, stubs, entries, view, t);
      ChainPush(link, link[t := head], head, view.order, t);
      HeadIsNoMagic(link, head, view, flags, info);
      flags := flags[t := marked];
      link := link[t := head];
      head := t;
      view := View([t] + view.order, view.lists[t := []]);
      code := 0;
    }

    /** `a` is an import table bound to nothing yet. */
    ghost predicate Unbound(a: int)
      reads this
    {
      && 0 < a && a in info && a in next && a in flags && a in stubs && a !in view.lists
      && forall u :: u in view.lists ==> a !in view.lists[u]
    }

    /** One table of `bind`: the first exporter of its library that is not pinned, from the head on. */
    method Bind(a: int) returns (unbound: int)
      requires Valid() && Unbound(a)
      modifies this`next, this`stubs, this`view
      ensures Valid() && next.Keys == old(next.Keys)
      ensures var e := Exporter(old(view), flags, info, a);
        if flags[a] % 8 != 0 then unbound == 0 && view == old(view) && next == old(next) && stubs == old(stubs)
        else if e.None? then unbound == 1 && view == old(view) && next == old(next) && stubs == old(stubs)
        else
          && unbound == 0 && e.value in old(view).lists && e.value in entries
          && view == old(view).(lists := old(view).lists[e.value := [a] + old(view).lists[e.value]])
          && stubs == old(stubs)[a := BoundStubs(old(stubs)[a], entries[e.value])]
    {
      hide Shaped, Generations, GivenUp, Chain, Threaded, From, AllBound, BoundStubs, Exporter, Distinct;
      unbound := 0;
      if flags[a] % 8 != 0 { return; }
      var exporter := head;
      ghost var i := 0;
      assert view.order[0..] == view.order;
      while exporter != 0
        invariant Valid() && view == old(view) && next == old(next) && stubs == old(stubs)
        invariant 0 <= i <= |view.order| && Chain(link, exporter, view.order[i..])
        invariant forall k :: 0 <= k < i ==> !Links(flags, info, view.order[k], a)
        decreases |view.order| - i
      {
        AtTable(link, exporter, view, flags, info, i);
        Listed(view, flags, info, i);
        TableFlags(view, flags, info, exporter);
        if info[exporter].tag == info[a].tag && info[exporter].major == info[a].major && flags[exporter] % 2 == 0 {
          ExporterIs(view, flags, info, a, i);
          EntriesOf(entries, link, view, exporter);
          BindShaped(view, flags, info, exporter, a);
          BindThreads(next, view, flags, info, exporter, a);
          BindBound(stubs, entries, view, exporter, a);
          ShapedDistinct(view, flags, info);
          BindGivenUp(view, flags, info, a, i);
          GenerationsOf(view, view.(lists := view.lists[exporter := [a] + view.lists[exporter]]), flags, info);
          var bound := BindTable(stubs[a], entries[exporter]);
          stubs := stubs[a := bound];
          next := next[a := next[exporter]][exporter := a];
          view := view.(lists := view.lists[exporter := [a] + view.lists[exporter]]);
          return;
        }
        exporter := link[exporter];
        i := i + 1;
      }
      WalkEnd(link, view, i);
      ExporterIs(view, flags, info, a, i);
      unbound := 1;
    }

    /** `bind`: every import table whose magic lies in a module's text; the answer is how many found no exporter. */
    method BindText(imports: set<int>, start: int, end: int) returns (unbound: nat)
      requires Valid() && forall a :: a in Found(imports, start, end) ==> Unbound(a)
      modifies this`next, this`stubs, this`view
      ensures Valid()
      ensures view == BoundAll(old(view), flags, info, Found(imports, start, end))
      ensures stubs == StubsAll(old(stubs), old(view), flags, info, entries, Found(imports, start, end))
      ensures unbound == Missing(old(view), flags, info, Found(imports, start, end))
    {
      hide Shaped, Generations, GivenUp, Chain, Threaded, From, AllBound, BoundStubs, Exporter, Distinct, Found;
      hide BoundAll, StubsAll, Missing, BoundTo;
      unbound := 0;
      var at := start;
      ghost var k: nat := 0;
      NothingFound(imports, start, view, stubs, flags, info, entries);
      while at < end
        invariant Valid() && at == start + 4 * k && (k > 0 ==> at - end < 4)
        invariant next.Keys == old(next.Keys) && stubs.Keys == old(stubs.Keys)
        invariant view == BoundAll(old(view), flags, info, Found(imports, start, at))
        invariant stubs == StubsAll(old(stubs), old(view), flags, info, entries, Found(imports, start, at))
        invariant unbound == Missing(old(view), flags, info, Found(imports, start, at))
        decreases end - at
      {
        FoundMore(imports, start, k);
        assert Found(imports, start, at) + [] == Found(imports, start, at);
        if at in imports {
          ghost var s := Found(imports, start, at);
          FoundHere(imports, start, end, k);
          FoundBelow(imports, start, at);
          StillUnbound(old(view), flags, info, s, at);
          BoundMore(old(view), flags, info, s, at);
          var n := Bind(at);
          StubsMore(old(stubs), old(view), flags, info, entries, s, at);
          unbound := unbound + n;
        }
        at := at + 4;
        k := k + 1;
      }
      FoundWhole(imports, start, end, at);
    }

    /**
     A module sets the pin bit of an import table of its own, once that is bound: supersession leaves it where it is.
     */
    method PinClient(a: int, ghost u: int)
      requires Valid() && u in view.lists && a in view.lists[u]
      modifies this`flags
      ensures Valid() && a in old(flags) && flags == old(flags)[a := old(flags[a]) / 2 * 2 + 1]
    {
      hide Chain, Threaded, AllBound, Shaped, Generations, GivenUp;
      Client(view, flags, info, u, a);
      ClientPinned(view, flags, info, u, a, flags[a] / 2 * 2 + 1);
      flags := flags[a := flags[a] / 2 * 2 + 1];
    }
  }

  lemma Client(v: View, flags: map<int, int>, info: map<int, Header>, u: int, a: int)
    requires Shaped(v, flags, info) && u in v.lists && a in v.lists[u]
    ensures a in flags && a !in v.lists && a !in v.order
  {
    assert OwnList(v.lists, flags, info, u);
    assert forall i :: 0 <= i < |v.order| ==> v.order[i] in Elements(v.order);
  }

  /** Pinning a client takes it out of what supersession may move, and changes no table. */
  lemma ClientPinned(v: View, flags: map<int, int>, info: map<int, Header>, u: int, a: int, marked: int)
    requires Shaped(v, flags, info) && Generations(v, flags, info) && GivenUp(v, flags, info)
    requires u in v.lists && a in v.lists[u] && a in flags && marked % 2 == 1
    ensures var f := flags[a := marked]; Shaped(v, f, info) && Generations(v, f, info) && GivenUp(v, f, info)
  {
    var f := flags[a := marked];
    Client(v, flags, info, u, a);
    forall t | t in v.lists
      ensures OwnList(v.lists, f, info, t)
    {
      assert OwnList(v.lists, flags, info, t);
    }
    hide Unpinned, Shaped, OwnList;
    forall i, j | 0 <= i < j < |v.order| && v.order[j] in v.lists && Superseding(f, info, v.order[i], v.order[j])
      ensures Unpinned(f, v.lists[v.order[j]]) == []
    {
      assert v.order[i] in v.order;
      FewerUnpinned(flags, v.lists[v.order[j]], a, marked);
    }
    assert forall i :: 0 <= i < |v.order| ==> v.order[i] != a;
  }

  lemma {:induction false} FewerUnpinned(flags: map<int, int>, s: seq<int>, a: int, marked: int)
    requires marked % 2 == 1 && Unpinned(flags, s) == []
    ensures Unpinned(flags[a := marked], s) == []
  {
    if s != [] { FewerUnpinned(flags, s[1..], a, marked); }
  }

  // ----- binding a module's imports -----------------------------------------------------------------------

  /** The import tables the scan of a text meets, a word at a time. */
  function Found(imports: set<int>, start: int, end: int): seq<int>
    decreases end - start
  {
    if start >= end then [] else (if start in imports then [start] else []) + Found(imports, start + 4, end)
  }

  /** The exporter an import table is bound to, unless its flags say it is not for the binder. */
  ghost function BoundTo(v: View, flags: map<int, int>, info: map<int, Header>, a: int): Option<int> {
    if a in flags && flags[a] % 8 == 0 then Exporter(v, flags, info, a) else None
  }

  ghost function BoundAll(v: View, flags: map<int, int>, info: map<int, Header>, s: seq<int>): View {
    if s == [] then v
    else
      var a := s[|s| - 1];
      var w, e := BoundAll(v, flags, info, s[..|s| - 1]), BoundTo(v, flags, info, a);
      if e.Some? && e.value in w.lists then w.(lists := w.lists[e.value := [a] + w.lists[e.value]]) else w
  }

  ghost function StubsAll(stubs: map<int, seq<Stub>>, v: View, flags: map<int, int>, info: map<int, Header>,
                          entries: map<int, seq<int>>, s: seq<int>): map<int, seq<Stub>> {
    if s == [] then stubs
    else
      var a := s[|s| - 1];
      var r, e := StubsAll(stubs, v, flags, info, entries, s[..|s| - 1]), BoundTo(v, flags, info, a);
      if e.Some? && e.value in entries && a in r then r[a := BoundStubs(r[a], entries[e.value])] else r
  }

  /** How many of the tables the binder looks at find no exporter. */
  ghost function Missing(v: View, flags: map<int, int>, info: map<int, Header>, s: seq<int>): nat {
    if s == [] then 0
    else
      var a := s[|s| - 1];
      Missing(v, flags, info, s[..|s| - 1])
      + if a in flags && flags[a] % 8 == 0 && Exporter(v, flags, info, a).None? then 1 else 0
  }

  /** The tables among `s` bound to `u`. */
  ghost function Importers(v: View, flags: map<int, int>, info: map<int, Header>, s: seq<int>, u: int): seq<int> {
    if s == [] then []
    else
      Importers(v, flags, info, s[..|s| - 1], u)
      + if BoundTo(v, flags, info, s[|s| - 1]) == Some(u) then [s[|s| - 1]] else []
  }

  /** Every table the scan met hangs in front of its exporter's clients, the last met first, and no other list moved. */
  lemma {:induction false} BoundAllLists(v: View, flags: map<int, int>, info: map<int, Header>, s: seq<int>, u: int)
    requires u in v.lists
    ensures var w := BoundAll(v, flags, info, s);
      w.order == v.order && w.lists.Keys == v.lists.Keys
      && w.lists[u] == Reverse(Importers(v, flags, info, s, u)) + v.lists[u]
  {
    hide BoundTo, Reverse;
    if s == [] {
      assert Reverse([]) == [] by { ReverseEmpty(); }
    } else {
      var a, rest := s[|s| - 1], Importers(v, flags, info, s[..|s| - 1], u);
      BoundAllLists(v, flags, info, s[..|s| - 1], u);
      ReverseSnoc(rest, a);
      assert [a] + (Reverse(rest) + v.lists[u]) == [a] + Reverse(rest) + v.lists[u];
      assert rest + [] == rest;
    }
  }

  lemma ReverseEmpty()
    ensures Reverse([]) == []
  {
  }

  lemma {:induction false} BoundAllHolds(v: View, flags: map<int, int>, info: map<int, Header>, s: seq<int>)
    ensures var w := BoundAll(v, flags, info, s);
      w.order == v.order && w.lists.Keys == v.lists.Keys
      && forall u, x :: u in w.lists && x in w.lists[u] ==> x in v.lists[u] || x in s
  {
    hide BoundTo;
    if s != [] {
      BoundAllHolds(v, flags, info, s[..|s| - 1]);
      assert s == s[..|s| - 1] + [s[|s| - 1]];
    }
  }

  lemma NothingFound(imports: set<int>, start: int, v: View, stubs: map<int, seq<Stub>>, flags: map<int, int>,
                     info: map<int, Header>, entries: map<int, seq<int>>)
    ensures Found(imports, start, start) == [] && BoundAll(v, flags, info, []) == v
    ensures StubsAll(stubs, v, flags, info, entries, []) == stubs && Missing(v, flags, info, []) == 0
  {
  }

  lemma {:induction false} FoundMore(imports: set<int>, start: int, k: nat)
    ensures Found(imports, start, start + 4 * (k + 1)) ==
      Found(imports, start, start + 4 * k) + if start + 4 * k in imports then [start + 4 * k] else []
    decreases k
  {
    if k > 0 {
      FoundMore(imports, start + 4, k - 1);
    } else {
      assert Found(imports, start + 4, start + 4) == [];
    }
  }

  lemma {:induction false} FoundBelow(imports: set<int>, start: int, end: int)
    ensures forall x {:trigger x in Found(imports, start, end)} :: x in Found(imports, start, end) ==> start <= x < end
    decreases end - start
  {
    if start < end {
      FoundBelow(imports, start + 4, end);
      var g := Found(imports, start + 4, end);
      forall x {:trigger x in Found(imports, start, end)} | x in Found(imports, start, end)
        ensures start <= x < end
      {
        assert x == start || x in g;
      }
    }
  }

  lemma {:induction false} FoundHere(imports: set<int>, start: int, end: int, k: nat)
    requires start + 4 * k < end && start + 4 * k in imports
    ensures start + 4 * k in Found(imports, start, end)
    decreases k
  {
    if k > 0 { FoundHere(imports, start + 4, end, k - 1); }
  }

  /** The scan's last word may reach past the end. */
  lemma {:induction false} FoundWhole(imports: set<int>, start: int, end: int, at: int)
    requires at >= end && (at - end < 4 || at == start) && (at - start) % 4 == 0 && start <= at
    ensures Found(imports, start, at) == Found(imports, start, end)
    decreases at - start
  {
    if start < end { FoundWhole(imports, start + 4, end, at); }
  }

  /** The scan meets exactly the tables a whole number of words from the start. */
  lemma {:induction false} FoundIff(imports: set<int>, start: int, end: int, x: int)
    ensures x in Found(imports, start, end) <==> x in imports && start <= x < end && (x - start) % 4 == 0
    decreases end - start
  {
    if start < end {
      FoundIff(imports, start + 4, end, x);
      OneWordOn(x - start);
      var g := Found(imports, start + 4, end);
      assert x in Found(imports, start, end) <==> (x == start && start in imports) || x in g;
    }
  }

  lemma OneWordOn(d: int)
    ensures d % 4 == 0 <==> (d - 4) % 4 == 0
    ensures 0 < d < 4 ==> d % 4 != 0
  {
  }

  /** It meets each once, in address order. */
  lemma {:induction false} FoundAscends(imports: set<int>, start: int, end: int, i: int, j: int)
    requires 0 <= i < j < |Found(imports, start, end)|
    ensures Found(imports, start, end)[i] < Found(imports, start, end)[j]
    decreases end - start
  {
    var g := Found(imports, start + 4, end);
    FoundBelow(imports, start + 4, end);
    if start !in imports {
      FoundAscends(imports, start + 4, end, i, j);
    } else {
      assert g[j - 1] in g;
      if i > 0 { FoundAscends(imports, start + 4, end, i - 1, j - 1); }
    }
  }

  /** After the binder each table met has its stubs bound to its exporter's entries, and no other stub has changed. */
  lemma {:induction false} StubsAllAt(stubs: map<int, seq<Stub>>, v: View, flags: map<int, int>, info: map<int, Header>,
                                      entries: map<int, seq<int>>, s: seq<int>, a: int)
    requires Distinct(s) && a in stubs
    ensures var r, e := StubsAll(stubs, v, flags, info, entries, s), BoundTo(v, flags, info, a);
      && r.Keys == stubs.Keys
      && r[a] == if a in s && e.Some? && e.value in entries then BoundStubs(stubs[a], entries[e.value]) else stubs[a]
  {
    hide BoundStubs, BoundTo;
    if s != [] {
      StubsAllAt(stubs, v, flags, info, entries, s[..|s| - 1], a);
      assert s == s[..|s| - 1] + [s[|s| - 1]];
    }
  }

  /** The tables the binder looks at and finds no exporter for. */
  ghost function Unlinked(v: View, flags: map<int, int>, info: map<int, Header>, s: seq<int>): set<int> {
    set a | a in s && a in flags && flags[a] % 8 == 0
      && forall j :: 0 <= j < |v.order| ==> !Links(flags, info, v.order[j], a)
  }

  lemma {:induction false} MissingCounts(v: View, flags: map<int, int>, info: map<int, Header>, s: seq<int>)
    requires Distinct(s) && Generations(v, flags, info)
    ensures Missing(v, flags, info, s) == |Unlinked(v, flags, info, s)|
  {
    if s != [] {
      var a, rest := s[|s| - 1], s[..|s| - 1];
      MissingCounts(v, flags, info, rest);
      UnlinkedMore(v, flags, info, rest, a);
      assert s == rest + [a];
    }
  }

  lemma UnlinkedMore(v: View, flags: map<int, int>, info: map<int, Header>, s: seq<int>, a: int)
    requires a !in s && Generations(v, flags, info)
    ensures var more := if a in flags && flags[a] % 8 == 0 && Exporter(v, flags, info, a).None? then {a} else {};
      Unlinked(v, flags, info, s + [a]) == Unlinked(v, flags, info, s) + more && a !in Unlinked(v, flags, info, s)
  {
    ExporterIsNewest(v, flags, info, a);
    hide Exporter, Links, Generations;
    assert forall x :: x in s + [a] <==> x in s || x == a;
  }

  lemma BoundMore(v: View, flags: map<int, int>, info: map<int, Header>, s: seq<int>, a: int)
    ensures var w, e := BoundAll(v, flags, info, s), BoundTo(v, flags, info, a);
      BoundAll(v, flags, info, s + [a]) ==
      if e.Some? && e.value in w.lists then w.(lists := w.lists[e.value := [a] + w.lists[e.value]]) else w
    ensures Missing(v, flags, info, s + [a]) == Missing(v, flags, info, s)
      + if a in flags && flags[a] % 8 == 0 && Exporter(v, flags, info, a).None? then 1 else 0
    ensures Exporter(BoundAll(v, flags, info, s), flags, info, a) == Exporter(v, flags, info, a)
    ensures a in flags ==>
      BoundTo(v, flags, info, a) == if flags[a] % 8 == 0 then Exporter(v, flags, info, a) else None
  {
    assert (s + [a])[..|s|] == s;
    BoundAllHolds(v, flags, info, s);
  }

  lemma StubsMore(stubs: map<int, seq<Stub>>, v: View, flags: map<int, int>, info: map<int, Header>,
                  entries: map<int, seq<int>>, s: seq<int>, a: int)
    ensures var r, e := StubsAll(stubs, v, flags, info, entries, s), BoundTo(v, flags, info, a);
      StubsAll(stubs, v, flags, info, entries, s + [a]) ==
      if e.Some? && e.value in entries && a in r then r[a := BoundStubs(r[a], entries[e.value])] else r
  {
    assert (s + [a])[..|s|] == s;
  }

  lemma StillUnbound(v: View, flags: map<int, int>, info: map<int, Header>, s: seq<int>, a: int)
    requires a !in v.lists && a !in s && forall u :: u in v.lists ==> a !in v.lists[u]
    ensures var w := BoundAll(v, flags, info, s); a !in w.lists && forall u :: u in w.lists ==> a !in w.lists[u]
  {
    BoundAllHolds(v, flags, info, s);
  }

  // ----- binding an import ------------------------------------------------------------------------------------

  /** `e` exports the library `a` wants and may be linked automatically. */
  ghost predicate Links(flags: map<int, int>, info: map<int, Header>, e: int, a: int) {
    Same(info, e, a) && !IsPinned(flags, e)
  }

  ghost function FirstLinking(order: seq<int>, flags: map<int, int>, info: map<int, Header>, a: int): Option<int> {
    if order == [] then None
    else if Links(flags, info, order[0], a) then Some(order[0])
    else FirstLinking(order[1..], flags, info, a)
  }

  ghost function Exporter(v: View, flags: map<int, int>, info: map<int, Header>, a: int): Option<int> {
    FirstLinking(v.order, flags, info, a)
  }

  lemma {:induction false} FirstLinkingAt(order: seq<int>, flags: map<int, int>, info: map<int, Header>, a: int, i: int)
    requires 0 <= i <= |order| && (forall k :: 0 <= k < i ==> !Links(flags, info, order[k], a))
    requires i < |order| ==> Links(flags, info, order[i], a)
    ensures FirstLinking(order, flags, info, a) == if i < |order| then Some(order[i]) else None
    decreases |order|
  {
    if i > 0 { FirstLinkingAt(order[1..], flags, info, a, i - 1); }
  }

  lemma ExporterIs(v: View, flags: map<int, int>, info: map<int, Header>, a: int, i: int)
    requires 0 <= i <= |v.order| && (forall k :: 0 <= k < i ==> !Links(flags, info, v.order[k], a))
    requires i < |v.order| ==> Links(flags, info, v.order[i], a)
    ensures Exporter(v, flags, info, a) == if i < |v.order| then Some(v.order[i]) else None
  {
    FirstLinkingAt(v.order, flags, info, a, i);
  }

  /** The exporter an import binds to has the greatest minor of all it could have been linked to. */
  lemma ExporterIsNewest(v: View, flags: map<int, int>, info: map<int, Header>, a: int)
    requires Generations(v, flags, info)
    ensures Exporter(v, flags, info, a).None? <==> forall j :: 0 <= j < |v.order| ==> !Links(flags, info, v.order[j], a)
    ensures Exporter(v, flags, info, a).Some? ==>
      var e := Exporter(v, flags, info, a).value;
      && e in v.order && Links(flags, info, e, a)
      && forall j :: 0 <= j < |v.order| && Links(flags, info, v.order[j], a) && v.order[j] != e ==>
        info[v.order[j]].minor < info[e].minor
  {
    var i := 0;
    while i < |v.order| && !Links(flags, info, v.order[i], a)
      invariant 0 <= i <= |v.order| && forall k :: 0 <= k < i ==> !Links(flags, info, v.order[k], a)
    {
      i := i + 1;
    }
    ExporterIs(v, flags, info, a, i);
    if i < |v.order| {
      forall j | 0 <= j < |v.order| && Links(flags, info, v.order[j], a) && v.order[j] != v.order[i]
        ensures info[v.order[j]].minor < info[v.order[i]].minor
      {
        assert Same(info, v.order[i], v.order[j]);
      }
    }
  }

  lemma TableFlags(v: View, flags: map<int, int>, info: map<int, Header>, t: int)
    requires Shaped(v, flags, info) && t in v.lists
    ensures t in flags && t in info && 0 < t
  {
    assert OwnList(v.lists, flags, info, t);
  }

  lemma EntriesOf(entries: map<int, seq<int>>, link: map<int, int>, v: View, t: int)
    requires t in v.lists && forall u :: u in v.lists ==> u in entries && u in link && link[u] != MAGIC
    ensures t in entries
  {
  }

  lemma BindShaped(v: View, flags: map<int, int>, info: map<int, Header>, e: int, a: int)
    requires Shaped(v, flags, info) && e in v.lists && !IsPinned(flags, e)
    requires 0 < a && a in flags && a !in v.lists && forall u :: u in v.lists ==> a !in v.lists[u]
    ensures Shaped(v.(lists := v.lists[e := [a] + v.lists[e]]), flags, info)
  {
    var lists := v.lists[e := [a] + v.lists[e]];
    assert OwnList(v.lists, flags, info, e);
    TailDistinct(e, v.lists[e]);
    ConsDistinct(a, v.lists[e]);
    ConsDistinct(e, lists[e]);
    forall u | u in lists
      ensures OwnList(lists, flags, info, u)
    {
      assert OwnList(v.lists, flags, info, u);
    }
    forall u, x | u in lists && x in lists[u]
      ensures (x == a && u == e) || x in v.lists[u]
    {
    }
  }

  lemma ShapedDistinct(v: View, flags: map<int, int>, info: map<int, Header>)
    requires Shaped(v, flags, info)
    ensures Distinct(v.order)
  {
  }

  /** The first linkable exporter is no superseded one, so an import bound to it is where it may stay. */
  lemma BindGivenUp(v: View, flags: map<int, int>, info: map<int, Header>, a: int, e: int)
    requires GivenUp(v, flags, info) && 0 <= e < |v.order| && v.order[e] in v.lists && Distinct(v.order)
    requires (forall k :: 0 <= k < e ==> !Links(flags, info, v.order[k], a)) && Same(info, v.order[e], a)
    ensures GivenUp(v.(lists := v.lists[v.order[e] := [a] + v.lists[v.order[e]]]), flags, info)
  {
    hide Unpinned;
    var w := v.(lists := v.lists[v.order[e] := [a] + v.lists[v.order[e]]]);
    forall i, j | 0 <= i < j < |w.order| && Same(info, w.order[i], w.order[j]) && !IsPinned(flags, w.order[i])
      && w.order[j] in w.lists
      ensures Unpinned(flags, w.lists[w.order[j]]) == []
    {
      assert j == e ==> Same(info, v.order[i], a);
    }
  }

  lemma GenerationsOf(v: View, w: View, flags: map<int, int>, info: map<int, Header>)
    requires Generations(v, flags, info) && w.order == v.order
    ensures Generations(w, flags, info)
  {
  }

  lemma BindThreads(n: map<int, int>, v: View, flags: map<int, int>, info: map<int, Header>, e: int, a: int)
    requires Shaped(v, flags, info) && Threaded(n, v.lists) && e in v.lists
    requires 0 < a && a in n && a !in v.lists && forall u :: u in v.lists ==> a !in v.lists[u]
    ensures e in n && Threaded(n[a := n[e]][e := a], v.lists[e := [a] + v.lists[e]])
  {
    hide From;
    FromCell(n, e, v.lists[e]);
    var m := n[a := n[e]][e := a];
    forall u | u in v.lists
      ensures From(m, u, if u == e then [a] + v.lists[e] else v.lists[u])
    {
      assert OwnList(v.lists, flags, info, u);
      FromCell(n, u, v.lists[u]);
      if u == e {
        FromPush(n, m, e, v.lists[e], a);
      } else {
        FromFrame(n, m, u, v.lists[u]);
      }
    }
  }

  lemma BindBound(stubs: map<int, seq<Stub>>, entries: map<int, seq<int>>, v: View, e: int, a: int)
    requires AllBound(stubs, entries, v.lists) && e in v.lists && e in entries && a in stubs
    requires forall u :: u in v.lists ==> a !in v.lists[u]
    ensures AllBound(stubs[a := BoundStubs(stubs[a], entries[e])], entries, v.lists[e := [a] + v.lists[e]])
  {
    RebindForgets(stubs[a], entries[e], entries[e]);
    var stubs', lists := stubs[a := BoundStubs(stubs[a], entries[e])], v.lists[e := [a] + v.lists[e]];
    forall u, x {:trigger x in lists[u]} | u in lists && x in lists[u]
      ensures u in entries && x in stubs' && BoundStubs(stubs'[x], entries[u]) == stubs'[x]
    {
      if x != a { assert x in v.lists[u]; }
    }
  }

  // ----- pinned registration --------------------------------------------------------------------------------------

  lemma PinnedShaped(v: View, flags: map<int, int>, info: map<int, Header>, t: int, marked: int)
    requires Shaped(v, flags, info) && t !in v.lists && (forall u :: u in v.lists ==> t !in v.lists[u])
    requires 0 < t < MAGIC && t in info && t in flags && marked % 2 == 1
    ensures Shaped(View([t] + v.order, v.lists[t := []]), flags[t := marked], info)
  {
    var w := View([t] + v.order, v.lists[t := []]);
    assert Elements(w.order) == Elements(v.order) + {t};
    ConsDistinct(t, v.order);
    forall u | u in w.lists
      ensures OwnList(w.lists, flags[t := marked], info, u)
    {
      if u != t { assert OwnList(v.lists, flags, info, u); }
    }
  }

  lemma PinnedGenerations(v: View, flags: map<int, int>, info: map<int, Header>, t: int, marked: int)
    requires Generations(v, flags, info) && t in flags && marked % 2 == 1 && t !in v.order
    ensures Generations(View([t] + v.order, v.lists[t := []]), flags[t := marked], info)
  {
    var o := [t] + v.order;
    forall i, j | 0 <= i < j < |o| && Same(info, o[i], o[j]) && !IsPinned(flags[t := marked], o[i])
      ensures info[o[i]].minor > info[o[j]].minor
    {
      assert o[i] == v.order[i - 1] && o[j] == v.order[j - 1];
      assert !IsPinned(flags, v.order[i - 1]);
    }
  }

  lemma {:induction false} SameUnpinned(flags: map<int, int>, s: seq<int>, t: int, marked: int)
    requires t in flags && t !in s
    ensures Unpinned(flags[t := marked], s) == Unpinned(flags, s)
  {
    if s != [] {
      assert s[0] in s;
      SameUnpinned(flags, s[1..], t, marked);
    }
  }

  /** A pinned table takes nothing over, and brings no clients. */
  lemma PinnedGivenUp(v: View, flags: map<int, int>, info: map<int, Header>, t: int, marked: int)
    requires GivenUp(v, flags, info) && t in flags && marked % 2 == 1 && t !in v.order && t !in v.lists
    requires forall u :: u in v.lists ==> t !in v.lists[u]
    ensures GivenUp(View([t] + v.order, v.lists[t := []]), flags[t := marked], info)
  {
    hide Unpinned;
    var w, f := View([t] + v.order, v.lists[t := []]), flags[t := marked];
    forall i, j | 0 <= i < j < |w.order| && Same(info, w.order[i], w.order[j]) && !IsPinned(f, w.order[i])
      && w.order[j] in w.lists
      ensures Unpinned(f, w.lists[w.order[j]]) == []
    {
      assert w.order[i] == v.order[i - 1] && w.order[j] == v.order[j - 1];
      assert !IsPinned(flags, v.order[i - 1]);
      SameUnpinned(flags, v.lists[v.order[j - 1]], t, marked);
    }
  }

  lemma PinnedThreads(n: map<int, int>, stubs: map<int, seq<Stub>>, entries: map<int, seq<int>>, v: View, t: int)
    requires Threaded(n, v.lists) && AllBound(stubs, entries, v.lists) && t in n && n[t] == 0
    ensures Threaded(n, v.lists[t := []]) && AllBound(stubs, entries, v.lists[t := []])
  {
    var lists := v.lists[t := []];
    forall u, x {:trigger x in lists[u]} | u in lists && x in lists[u]
      ensures u in entries && x in stubs && BoundStubs(stubs[x], entries[u]) == stubs[x]
    {
      assert x in v.lists[u];
    }
  }

  lemma Unregistered(v: View, flags: map<int, int>, info: map<int, Header>, t: int)
    requires Shaped(v, flags, info) && t !in v.lists
    ensures t !in v.order
  {
    assert forall i :: 0 <= i < |v.order| ==> v.order[i] in Elements(v.order);
  }

  /** No client is a registered table's cell, and the list heads are table addresses or null. */
  lemma HeadIsNoMagic(link: map<int, int>, head: int, v: View, flags: map<int, int>, info: map<int, Header>)
    requires Shaped(v, flags, info) && Chain(link, head, v.order)
    ensures head != MAGIC
  {
    if v.order != [] { Listed(v, flags, info, 0); }
  }
}
