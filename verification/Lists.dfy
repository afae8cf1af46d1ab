/**
 Lists threaded through one word of each element: what following the links visits.
 */
module Lists {

  ghost predicate Distinct(s: seq<int>) {
    forall i, j :: 0 <= i < j < |s| ==> s[i] != s[j]
  }

  function Reverse(s: seq<int>): (r: seq<int>)
    ensures |r| == |s|
  {
    if s == [] then [] else Reverse(s[1..]) + [s[0]]
  }

  lemma {:induction false} ReverseKeeps(s: seq<int>)
    ensures multiset(Reverse(s)) == multiset(s)
  {
    if s != [] {
      ReverseKeeps(s[1..]);
      assert s == [s[0]] + s[1..];
    }
  }

  lemma ReverseHolds(s: seq<int>, x: int)
    ensures x in Reverse(s) <==> x in s
  {
    ReverseKeeps(s);
    assert x in multiset(Reverse(s)) <==> x in multiset(s);
  }

  // ----- lists threaded through one word ------------------------------------------------------

  /** From cell `c`, the links lead through exactly `s` and then to null. */
  ghost predicate From(n: map<int, int>, c: int, s: seq<int>)
    decreases |s|
  {
    c in n && if s == [] then n[c] == 0 else s[0] != 0 && n[c] == s[0] && From(n, s[0], s[1..])
  }

  /** A list whose first element is held in a variable rather than a cell. */
  ghost predicate Chain(n: map<int, int>, h: int, s: seq<int>) {
    if s == [] then h == 0 else h != 0 && h == s[0] && From(n, h, s[1..])
  }

  lemma {:induction false} FromFrame(n: map<int, int>, m: map<int, int>, c: int, s: seq<int>)
    requires From(n, c, s) && c in m && m[c] == n[c]
    requires forall x :: x in s && x in n ==> x in m && m[x] == n[x]
    ensures From(m, c, s)
    decreases |s|
  {
    if s != [] {
      assert s[0] in s;
      FromFrame(n, m, s[0], s[1..]);
    }
  }

  lemma {:induction false} FromHolds(n: map<int, int>, c: int, s: seq<int>)
    requires From(n, c, s)
    ensures forall x :: x in s ==> x in n && x != 0
    decreases |s|
  {
    if s != [] {
      FromHolds(n, s[0], s[1..]);
      assert forall x :: x in s ==> x == s[0] || x in s[1..];
    }
  }

  ghost function Tail(c: int, s: seq<int>): int {
    if s == [] then c else s[|s| - 1]
  }

  /** Linking list `b` behind list `a`. */
  lemma {:induction false} FromJoin(n: map<int, int>, m: map<int, int>, c: int, a: seq<int>, h: int, b: seq<int>)
    requires From(n, c, a) && Distinct([c] + a) && Chain(m, h, b)
    requires Tail(c, a) in m && m[Tail(c, a)] == h
    requires forall y :: y in [c] + a && y != Tail(c, a) ==> y in m && y in n && m[y] == n[y]
    ensures From(m, c, a + b)
    decreases |a|
  {
    if a == [] {
      assert a + b == b;
    } else {
      assert (a + b)[1..] == a[1..] + b;
      assert c in [c] + a && a[0] in a;
      assert ([c] + a)[1..] == [a[0]] + a[1..];
      assert forall i :: 0 <= i < |a| ==> ([a[0]] + a[1..])[i] == ([c] + a)[i + 1];
      assert c != Tail(c, a) by { assert ([c] + a)[0] == c && ([c] + a)[|a|] == a[|a| - 1]; }
      FromJoin(n, m, a[0], a[1..], h, b);
    }
  }

  /** Linking `x` behind the last cell. */
  lemma FromAppend(n: map<int, int>, m: map<int, int>, c: int, s: seq<int>, x: int)
    requires From(n, c, s) && Distinct([c] + s) && x != 0
    requires x in m && m[x] == 0 && Tail(c, s) in m && m[Tail(c, s)] == x
    requires forall y :: y in [c] + s && y != Tail(c, s) ==> y in m && y in n && m[y] == n[y]
    ensures From(m, c, s + [x])
  {
    assert [x][1..] == [];
    FromJoin(n, m, c, s, x, [x]);
  }

  lemma ReverseDistinct(s: seq<int>)
    requires Distinct(s)
    ensures Distinct(Reverse(s)) && forall x :: x in Reverse(s) <==> x in s
  {
    var r := Reverse(s);
    forall x
      ensures x in r <==> x in s
    {
      ReverseHolds(s, x);
    }
    forall i, j | 0 <= i < j < |r|
      ensures r[i] != r[j]
    {
      ReverseAt(s, i);
      ReverseAt(s, j);
    }
  }

  lemma {:induction false} ReverseAt(s: seq<int>, i: int)
    requires 0 <= i < |s|
    ensures Reverse(s)[i] == s[|s| - 1 - i]
  {
    if i < |s| - 1 { ReverseAt(s[1..], i); }
  }

  lemma {:induction false} ReverseSnoc(s: seq<int>, x: int)
    ensures Reverse(s + [x]) == [x] + Reverse(s)
  {
    if s == [] {
      assert [x][1..] == [];
    } else {
      assert (s + [x])[1..] == s[1..] + [x];
      ReverseSnoc(s[1..], x);
    }
  }

  lemma ChainFrame(n: map<int, int>, m: map<int, int>, h: int, s: seq<int>)
    requires Chain(n, h, s) && forall x :: x in s && x in n ==> x in m && m[x] == n[x]
    ensures Chain(m, h, s)
  {
    if s != [] {
      assert s[0] in s;
      FromFrame(n, m, h, s[1..]);
    }
  }

  lemma ChainPush(n: map<int, int>, m: map<int, int>, h: int, s: seq<int>, x: int)
    requires Chain(n, h, s) && x != 0 && x in m && m[x] == h && x !in s
    requires forall y :: y in s && y in n ==> y in m && m[y] == n[y]
    ensures Chain(m, x, [x] + s)
  {
    assert ([x] + s)[1..] == s;
    if s != [] {
      assert s[0] in s;
      FromFrame(n, m, h, s[1..]);
    }
  }

  /** The rest of the list survives a write to cells outside it. */
  lemma RestFrame(m: map<int, int>, m': map<int, int>, client: int, rest: seq<int>)
    requires client in m && From(m, client, rest) && forall x :: x in rest && x in m ==> x in m' && m'[x] == m[x]
    ensures Chain(m', m[client], rest)
  {
    if rest != [] {
      assert rest[0] in rest;
      FromFrame(m, m', rest[0], rest[1..]);
    }
  }

  lemma AtClient(m: map<int, int>, client: int, s: seq<int>)
    requires Chain(m, client, s) && client != 0
    ensures s != [] && client == s[0] && client in m && From(m, client, s[1..])
  {
  }

  lemma FromCell(m: map<int, int>, c: int, s: seq<int>)
    requires From(m, c, s)
    ensures c in m
  {
  }

  lemma ConsDistinct(c: int, s: seq<int>)
    requires Distinct(s) && c !in s
    ensures Distinct([c] + s)
  {
  }

  lemma TailDistinct(c: int, s: seq<int>)
    requires Distinct([c] + s)
    ensures Distinct(s) && c !in s
  {
    var l := [c] + s;
    assert forall i :: 0 <= i < |s| ==> l[i + 1] == s[i];
    assert l[0] == c;
  }

  lemma DistinctConcat(a: seq<int>, b: seq<int>)
    requires Distinct(a) && Distinct(b) && forall x :: x in a ==> x !in b
    ensures Distinct(a + b)
  {
    assert forall i :: 0 <= i < |a| ==> a[i] in a;
    assert forall i :: 0 <= i < |b| ==> b[i] in b;
  }

  /** Linking `x` in right behind cell `c`. */
  lemma FromPush(n: map<int, int>, m: map<int, int>, c: int, s: seq<int>, x: int)
    requires From(n, c, s) && x != 0 && x != c && x !in s && c !in s && c in m && x in m && m[c] == x && m[x] == n[c]
    requires forall y :: y in s && y in n ==> y in m && m[y] == n[y]
    ensures From(m, c, [x] + s)
  {
    assert ([x] + s)[1..] == s;
    if s != [] {
      assert s[0] in s;
      FromFrame(n, m, s[0], s[1..]);
    }
  }

  lemma ChainEmpty(n: map<int, int>, h: int, s: seq<int>)
    requires Chain(n, h, s)
    ensures h == 0 <==> s == []
  {
  }

  ghost predicate Only(n: map<int, int>, m: map<int, int>, touched: set<int>) {
    m.Keys == n.Keys && forall x :: x in n && x !in touched ==> m[x] == n[x]
  }

  ghost function Elements(s: seq<int>): set<int> {
    set x | x in s
  }

  lemma EmptyUntouched(m: map<int, int>, d: map<int, int>, u: int)
    requires From(m, u, []) && From(d, u, []) && Only(m, d, {u})
    ensures d == m
  {
    forall x | x in m
      ensures d[x] == m[x]
    {
    }
  }

  /** The link that leads to element `k`: the head's own word, or the element before. */
  function Cell(head: int, s: seq<int>, k: nat): int
    requires k <= |s|
  {
    if k == 0 then head else s[k - 1]
  }

  lemma {:induction false} CellAt(n: map<int, int>, c: int, s: seq<int>, k: nat)
    requires From(n, c, s) && k <= |s|
    ensures Cell(c, s, k) in n && n[Cell(c, s, k)] == if k < |s| then s[k] else 0
    ensures k < |s| ==> s[k] != 0
    decreases |s|
  {
    if k > 0 {
      CellAt(n, s[0], s[1..], k - 1);
      assert Cell(s[0], s[1..], k - 1) == Cell(c, s, k);
    }
  }

  /** Writing the link before element `k` with the link after it leaves the list without that element. */
  lemma {:induction false} Unlink(n: map<int, int>, m: map<int, int>, c: int, s: seq<int>, k: nat)
    requires From(n, c, s) && Distinct([c] + s) && k < |s| && s[k] in n
    requires m == n[Cell(c, s, k) := n[s[k]]]
    ensures From(m, c, s[..k] + s[k + 1..])
    decreases |s|
  {
    TailDistinct(c, s);
    assert s[0] in s && s == [s[0]] + s[1..];
    var rest := s[..k] + s[k + 1..];
    if k == 0 {
      TailDistinct(s[0], s[1..]);
      assert rest == s[1..];
      FromCell(n, s[0], rest);
      RestFrame(n, m, s[0], rest);
    } else {
      assert s[1..][k - 1] == s[k] && Cell(s[0], s[1..], k - 1) == Cell(c, s, k) == s[k - 1];
      assert s[k - 1] in s;
      Unlink(n, m, s[0], s[1..], k - 1);
      assert rest[0] == s[0] && rest[1..] == s[1..][..k - 1] + s[1..][k..];
    }
  }

  lemma DistinctWithout(s: seq<int>, k: nat)
    requires Distinct(s) && k < |s|
    ensures Distinct(s[..k] + s[k + 1..])
    ensures forall x :: x in s[..k] + s[k + 1..] <==> x in s && x != s[k]
  {
    var t := s[..k] + s[k + 1..];
    forall i, j | 0 <= i < j < |t|
      ensures t[i] != t[j]
    {
      assert t[i] == if i < k then s[i] else s[i + 1];
      assert t[j] == if j < k then s[j] else s[j + 1];
    }
    forall x | x in t
      ensures x in s && x != s[k]
    {
      var i :| 0 <= i < |t| && t[i] == x;
      assert x == if i < k then s[i] else s[i + 1];
    }
    forall x | x in s && x != s[k]
      ensures x in t
    {
      var i :| 0 <= i < |s| && s[i] == x;
      assert x == if i < k then t[i] else t[i - 1];
    }
  }

  lemma AppendDistinct(s: seq<int>, x: int)
    requires Distinct(s) && x !in s
    ensures Distinct(s + [x])
  {
  }

  /** Clearing the word of a record off the list leaves the list. */
  lemma Detached(n: map<int, int>, c: int, s: seq<int>, x: int)
    requires From(n, c, s) && x != c && x !in s
    ensures From(n[x := 0], c, s)
  {
    FromFrame(n, n[x := 0], c, s);
  }

  /** Linking `x` in before element `k`. */
  lemma {:induction false} InsertAt(n: map<int, int>, m: map<int, int>, c: int, s: seq<int>, k: nat, x: int)
    requires From(n, c, s) && Distinct([c] + s) && k <= |s| && x != 0 && x != c && x !in s
    requires Cell(c, s, k) in n && m == n[x := n[Cell(c, s, k)]][Cell(c, s, k) := x]
    ensures From(m, c, s[..k] + [x] + s[k..])
    decreases |s|
  {
    TailDistinct(c, s);
    var t := s[..k] + [x] + s[k..];
    if k == 0 {
      assert t == [x] + s;
      FromPush(n, m, c, s, x);
    } else {
      assert s == [s[0]] + s[1..] && s[0] in s && s[k - 1] in s;
      assert Cell(s[0], s[1..], k - 1) == Cell(c, s, k);
      InsertAt(n, m, s[0], s[1..], k - 1, x);
      assert t[0] == s[0] && t[1..] == s[1..][..k - 1] + [x] + s[1..][k - 1..];
    }
  }

  lemma DistinctInsert(s: seq<int>, k: nat, x: int)
    requires Distinct(s) && k <= |s| && x !in s
    ensures Distinct(s[..k] + [x] + s[k..])
    ensures forall y :: y in s[..k] + [x] + s[k..] <==> y in s || y == x
  {
    var t := s[..k] + [x] + s[k..];
    assert forall i :: 0 <= i < |t| ==> t[i] == if i < k then s[i] else if i == k then x else s[i - 1];
    assert t[k] == x;
    forall y | y in s
      ensures y in t
    {
      var i :| 0 <= i < |s| && s[i] == y;
      assert y == if i < k then t[i] else t[i + 1];
    }
  }
}
