/** Doubly linked lists with an end pointer (the EEL_DLLIST template in e_util.h). The nodes are
    numbered, and may be in only one of the lists that share their link fields. */
module LinkedLists {
  import opened Values

  type Node = nat
  type Ptr = Option<Node>

  ghost predicate Distinct(s: seq<Node>) {
    forall i, j :: 0 <= i < j < |s| ==> s[i] != s[j]
  }

  function At(s: seq<Node>, i: int): Ptr {
    if 0 <= i < |s| then Some(s[i]) else None
  }

  /** Going forward from the first node, and backward from the last one, leads through `s`. */
  ghost predicate Linked(first: Ptr, last: Ptr, next: map<Node, Ptr>, prev: map<Node, Ptr>, s: seq<Node>) {
    && first == At(s, 0) && last == At(s, |s| - 1) && Distinct(s)
    && (forall i :: 0 <= i < |s| ==> s[i] in next && next[s[i]] == At(s, i + 1))
    && (forall i :: 0 <= i < |s| ==> s[i] in prev && prev[s[i]] == At(s, i - 1))
  }

  function Without(s: seq<Node>, c: Node): (r: seq<Node>)
    ensures c !in r && forall x :: x in r ==> x in s
    ensures c !in s ==> r == s
  {
    if s == [] then []
    else if s[0] == c then Without(s[1..], c)
    else [s[0]] + Without(s[1..], c)
  }

  lemma {:induction false} WithoutAt(s: seq<Node>, k: nat)
    requires k < |s| && Distinct(s)
    ensures Without(s, s[k]) == s[..k] + s[k + 1..]
  {
    hide Distinct;
    HeadApart(s, k);
    if k > 0 {
      WithoutAt(s[1..], k - 1);
      assert s[1..][k - 1] == s[k] && s[1..][..k - 1] == s[1..k] && s[1..][k..] == s[k + 1..];
      assert s[..k] == [s[0]] + s[1..k];
    }
  }

  lemma HeadApart(s: seq<Node>, k: nat)
    requires k < |s| && Distinct(s)
    ensures s[0] !in s[1..] && Distinct(s[1..]) && (k > 0 ==> s[0] != s[k])
  {
  }

  lemma LinkedLink(next: map<Node, Ptr>, prev: map<Node, Ptr>, next': map<Node, Ptr>, prev': map<Node, Ptr>,
                   s: seq<Node>, c: Node)
    requires s != [] && Linked(At(s, 0), At(s, |s| - 1), next, prev, s) && c !in s
    requires next' == next[s[|s| - 1] := Some(c)][c := None] && prev' == prev[c := Some(s[|s| - 1])]
    ensures Linked(At(s, 0), Some(c), next', prev', s + [c])
  {
    var r := s + [c];
    forall i | 0 <= i < |r| ensures r[i] in next' && next'[r[i]] == At(r, i + 1) {
      if i < |s| - 1 { assert next[s[i]] == Some(s[i + 1]) && s[i] != s[|s| - 1]; }
    }
    forall i | 0 <= i < |r| ensures r[i] in prev' && prev'[r[i]] == At(r, i - 1) {
      if i < |s| { assert r[i] == s[i]; }
    }
  }

  /** The forward link of node number `j`, when number `k` has been unlinked. */
  lemma UnlinkedNext(next: map<Node, Ptr>, s: seq<Node>, k: nat, j: nat)
    requires Distinct(s) && k < |s| && j < |s| && j != k && s[j] in next && next[s[j]] == At(s, j + 1)
    ensures var next' := (if k > 0 then next[s[k - 1] := At(s, k + 1)] else next)[s[k] := None];
      s[j] in next' && next'[s[j]] == At(s, if j + 1 == k then k + 1 else j + 1)
  {
    assert s[j] != s[k];
    if k > 0 { assert s[j] == s[k - 1] <==> j == k - 1; }
  }

  lemma UnlinkedPrev(prev: map<Node, Ptr>, s: seq<Node>, k: nat, j: nat)
    requires Distinct(s) && k < |s| && j < |s| && j != k && s[j] in prev && prev[s[j]] == At(s, j - 1)
    ensures var prev' := (if k + 1 < |s| then prev[s[k + 1] := At(s, k - 1)] else prev)[s[k] := None];
      s[j] in prev' && prev'[s[j]] == At(s, if j == k + 1 then k - 1 else j - 1)
  {
    assert s[j] != s[k];
    if k + 1 < |s| { assert s[j] == s[k + 1] <==> j == k + 1; }
  }

  lemma DistinctWithout(s: seq<Node>, k: nat)
    requires Distinct(s) && k < |s|
    ensures Distinct(s[..k] + s[k + 1..])
  {
    var r := s[..k] + s[k + 1..];
    forall i, j | 0 <= i < j < |r| ensures r[i] != r[j] {
      var i', j' := if i < k then i else i + 1, if j < k then j else j + 1;
      assert r[i] == s[i'] && r[j] == s[j'];
    }
  }

  /** What unlinking node `k` comes to. */
  lemma LinkedUnlink(next: map<Node, Ptr>, prev: map<Node, Ptr>, next': map<Node, Ptr>, prev': map<Node, Ptr>,
                     s: seq<Node>, k: nat)
    requires Linked(At(s, 0), At(s, |s| - 1), next, prev, s) && k < |s|
    requires next' == (if k > 0 then next[s[k - 1] := At(s, k + 1)] else next)[s[k] := None]
    requires prev' == (if k + 1 < |s| then prev[s[k + 1] := At(s, k - 1)] else prev)[s[k] := None]
    ensures var r := s[..k] + s[k + 1..];
      Linked(At(r, 0), At(r, |r| - 1), next', prev', r)
  {
    hide Distinct, At;
    var r := s[..k] + s[k + 1..];
    DistinctWithout(s, k);
    forall i | 0 <= i < |r|
      ensures r[i] in next' && next'[r[i]] == At(r, i + 1) && r[i] in prev' && prev'[r[i]] == At(r, i - 1)
    {
      AtWithout(s, k, i);
      var j := if i < k then i else i + 1;
      UnlinkedNext(next, s, k, j);
      UnlinkedPrev(prev, s, k, j);
    }
  }

  lemma AtWithout(s: seq<Node>, k: nat, i: nat)
    requires k < |s| && i < |s| - 1
    ensures var r, j := s[..k] + s[k + 1..], if i < k then i else i + 1;
      && r[i] == s[j]
      && At(r, i + 1) == At(s, if j + 1 == k then k + 1 else j + 1)
      && At(r, i - 1) == At(s, if j == k + 1 then k - 1 else j - 1)
  {
  }

  /** The link fields of all nodes. */
  class Links {
    var next: map<Node, Ptr>
    var prev: map<Node, Ptr>

    constructor ()
      ensures next == map[] && prev == map[]
    {
      next, prev := map[], map[];
    }
  }

  /** Nodes that are neither in `s` nor equal to `c` have the links that they had. */
  twostate predicate OthersKept(links: Links, s: seq<Node>, c: Node)
    reads links
  {
    && (forall x :: x in old(links.next) && x !in s && x != c ==>
          x in links.next && links.next[x] == old(links.next)[x])
    && (forall x :: x in old(links.prev) && x !in s && x != c ==>
          x in links.prev && links.prev[x] == old(links.prev)[x])
  }

  class DLList {
    var first: Ptr
    var last: Ptr

    constructor ()
      ensures first == None && last == None
    {
      first, last := None, None;
    }

    ghost predicate Holds(links: Links, s: seq<Node>)
      reads this, links
    {
      Linked(first, last, links.next, links.prev, s)
    }

    /** `push`: `c` becomes the first node. */
    method Push(links: Links, c: Node, ghost s: seq<Node>)
      requires Holds(links, s) && c !in s
      modifies this, links
      ensures Holds(links, [c] + s)
      ensures OthersKept(links, s, c)
    {
      if first.Some? {
        links.next := links.next[c := first];
        links.prev := links.prev[c := None];
        links.prev := links.prev[first.value := Some(c)];
        first := Some(c);
      } else {
        first := Some(c);
        last := Some(c);
        links.next := links.next[c := None];
        links.prev := links.prev[c := None];
      }
    }

    /** `link`: `c` becomes the last node. What is known if `c` is in the list already, or the list is
        broken, is where its ends are and what comes before `c`. */
    method Link(links: Links, c: Node, ghost s: seq<Node>)
      modifies this, links
      ensures old(Holds(links, s)) && c !in s ==> Holds(links, s + [c]) && OthersKept(links, s, c)
      ensures last == Some(c) && first == (if old(last).Some? then old(first) else Some(c))
      ensures c in links.prev && links.prev[c] == old(last)
    {
      ghost var n := |s| - 1;
      if Holds(links, s) && c !in s && s != [] {
        LinkedLink(links.next, links.prev, links.next[s[n] := Some(c)][c := None], links.prev[c := last], s, c);
      }
      if last.Some? {
        links.next := links.next[last.value := Some(c)];
        links.prev := links.prev[c := last];
        links.next := links.next[c := None];
        last := Some(c);
      } else {
        first := Some(c);
        last := Some(c);
        links.next := links.next[c := None];
        links.prev := links.prev[c := None];
      }
    }

    /** `unlink`: `c` is taken out of the nodes `s`, wherever it is. They should be those of this
        list; if they are those of another one, then it is the ends of this list that change. */
    method Unlink(links: Links, c: Node, ghost s: seq<Node>)
      requires (Holds(links, s) || Chained(links.next, links.prev, s)) && c in s
      modifies this, links
      ensures old(Holds(links, s)) ==> Holds(links, Without(s, c))
      ensures Chained(links.next, links.prev, Without(s, c))
      ensures first == (if s[0] == c then At(Without(s, c), 0) else old(first))
      ensures last == (if s[|s| - 1] == c then At(Without(s, c), |s| - 2) else old(last))
      ensures OthersKept(links, s, c)
      ensures c in links.next && links.next[c] == None && c in links.prev && links.prev[c] == None
    {
      hide Linked, At;
      ghost var k := Position(s, c);
      ChainOf(first, last, links.next, links.prev, s);
      LinkedAt(At(s, 0), At(s, |s| - 1), links.next, links.prev, s, k);
      WithoutAt(s, k);
      var p, n := links.prev[c], links.next[c];
      ghost var next' := (if k > 0 then links.next[s[k - 1] := n] else links.next)[c := None];
      ghost var prev' := (if k + 1 < |s| then links.prev[s[k + 1] := p] else links.prev)[c := None];
      LinkedUnlink(links.next, links.prev, next', prev', s, k);
      EndsAre(s, k);
      if p.Some? {
        assert k > 0 && p.value == s[k - 1] != c;
        links.next := links.next[p.value := n];
      } else {
        first := n;
      }
      if n.Some? {
        links.prev := links.prev[n.value := p];
        links.next := links.next[c := None];
      } else {
        last := p;
        assert links.next == links.next[c := None];
      }
      links.prev := links.prev[c := None];
    }
  }

  /** The links of the nodes `s`, without the list that they belong to. */
  ghost predicate Chained(next: map<Node, Ptr>, prev: map<Node, Ptr>, s: seq<Node>) {
    Linked(At(s, 0), At(s, |s| - 1), next, prev, s)
  }

  lemma ChainOf(first: Ptr, last: Ptr, next: map<Node, Ptr>, prev: map<Node, Ptr>, s: seq<Node>)
    requires Linked(first, last, next, prev, s) || Chained(next, prev, s)
    ensures Chained(next, prev, s)
    ensures Linked(first, last, next, prev, s) <==> first == At(s, 0) && last == At(s, |s| - 1)
  {
  }

  /** Which node is the first one, and the last one. */
  lemma EndsAre(s: seq<Node>, k: nat)
    requires Distinct(s) && k < |s|
    ensures s[0] == s[k] <==> k == 0
    ensures s[|s| - 1] == s[k] <==> k == |s| - 1
    ensures var r := s[..k] + s[k + 1..]; At(r, |r| - 1) == At(r, |s| - 2)
  {
  }

  lemma Position(s: seq<Node>, c: Node) returns (k: nat)
    requires c in s
    ensures k < |s| && s[k] == c
  {
    k :| 0 <= k < |s| && s[k] == c;
  }

  lemma LinkedAt(first: Ptr, last: Ptr, next: map<Node, Ptr>, prev: map<Node, Ptr>, s: seq<Node>, k: nat)
    requires Linked(first, last, next, prev, s) && k < |s|
    ensures first == At(s, 0) && last == At(s, |s| - 1) && Distinct(s)
    ensures s[k] in next && next[s[k]] == (if k + 1 < |s| then Some(s[k + 1]) else None) == At(s, k + 1)
    ensures s[k] in prev && prev[s[k]] == (if k > 0 then Some(s[k - 1]) else None) == At(s, k - 1)
    ensures (k > 0 ==> s[k - 1] != s[k]) && (k + 1 < |s| ==> s[k + 1] != s[k])
    ensures var r := s[..k] + s[k + 1..];
      && At(r, 0) == (if k > 0 then first else next[s[k]])
      && At(r, |r| - 1) == (if k + 1 < |s| then last else prev[s[k]])
  {
  }

  /** A list none of whose nodes was touched is as it was. */
  lemma ListKept(first: Ptr, last: Ptr, next: map<Node, Ptr>, prev: map<Node, Ptr>, next': map<Node, Ptr>,
                 prev': map<Node, Ptr>, s: seq<Node>)
    requires Linked(first, last, next, prev, s)
    requires forall x :: x in s ==>
               (x in next && x in prev ==> x in next' && next'[x] == next[x] && x in prev' && prev'[x] == prev[x])
    ensures Linked(first, last, next', prev', s)
  {
    forall i | 0 <= i < |s|
      ensures s[i] in next' && next'[s[i]] == At(s, i + 1) && s[i] in prev' && prev'[s[i]] == At(s, i - 1)
    {
      assert s[i] in next && s[i] in prev;
    }
  }
}
