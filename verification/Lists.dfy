/** Lists of nodes that a script edits in place: removing, cutting, keeping, inserting after. */
module Lists {

  predicate AreDistinct<T(==)>(nodes: seq<T>) {
    forall i, j :: 0 <= i < j < |nodes| ==> nodes[i] != nodes[j]
  }

  ghost function NodesOf<T>(nodes: seq<T>): set<T> {
    set n | n in nodes
  }

  /** `list.remove(x)`: the first occurrence goes. */
  function Remove<T(==)>(nodes: seq<T>, x: T): seq<T> {
    if nodes == [] then [] else if nodes[0] == x then nodes[1..] else [nodes[0]] + Remove(nodes[1..], x)
  }

  lemma {:induction false} RemoveAt<T>(nodes: seq<T>, i: nat)
    requires i < |nodes| && AreDistinct(nodes)
    ensures Remove(nodes, nodes[i]) == nodes[..i] + nodes[i + 1..]
  {
    var y, tail := nodes[0], nodes[1..];
    assert nodes == [y] + tail;
    if i > 0 {
      RemoveAt(tail, i - 1);
      RemoveCons(y, tail, nodes[i]);
      CutCons(y, tail, i - 1, i);
      assert Cut(tail, i - 1, i) == tail[..i - 1] + tail[i..];
      assert Cut(nodes, i, i + 1) == nodes[..i] + nodes[i + 1..];
    }
  }

  lemma CutCons<T>(y: T, tail: seq<T>, i: nat, j: nat)
    requires i <= j <= |tail|
    ensures Cut([y] + tail, i + 1, j + 1) == [y] + Cut(tail, i, j)
  {
    assert ([y] + tail)[..i + 1] == [y] + tail[..i] && ([y] + tail)[j + 1..] == tail[j..];
  }

  /** The nodes not in a set, in order. */
  ghost function Keep<T>(nodes: seq<T>, gone: set<T>): seq<T> {
    if nodes == [] then [] else (if nodes[0] in gone then [] else [nodes[0]]) + Keep(nodes[1..], gone)
  }

  lemma {:induction false} KeepConcat<T>(a: seq<T>, b: seq<T>, gone: set<T>)
    ensures Keep(a + b, gone) == Keep(a, gone) + Keep(b, gone)
  {
    if a == [] {
      assert a + b == b;
    } else {
      assert (a + b)[1..] == a[1..] + b;
      KeepConcat(a[1..], b, gone);
    }
  }

  lemma {:induction false} KeepAll<T>(a: seq<T>, gone: set<T>)
    requires forall n :: n in a ==> n !in gone
    ensures Keep(a, gone) == a
  {
    if a != [] {
      assert a[0] in a;
      KeepAll(a[1..], gone);
    }
  }

  lemma {:induction false} KeepNone<T>(a: seq<T>, gone: set<T>)
    requires forall n :: n in a ==> n in gone
    ensures Keep(a, gone) == []
  {
    if a != [] {
      assert a[0] in a;
      KeepNone(a[1..], gone);
    }
  }

  lemma {:induction false} KeepTwice<T>(nodes: seq<T>, gone: set<T>, more: set<T>)
    ensures Keep(Keep(nodes, gone), more) == Keep(nodes, gone + more)
  {
    if nodes == [] {
    } else {
      KeepTwice(nodes[1..], gone, more);
      var tail := Keep(nodes[1..], gone);
      if nodes[0] in gone {
        assert Keep(nodes, gone) == tail;
      } else {
        assert Keep(nodes, gone) == [nodes[0]] + tail && ([nodes[0]] + tail)[1..] == tail;
      }
    }
  }

  ghost function Stretch<T>(nodes: seq<T>, i: nat, j: nat): set<T>
    requires i <= j <= |nodes|
  {
    set k | i <= k < j :: nodes[k]
  }

  function Cut<T(==)>(nodes: seq<T>, i: nat, j: nat): seq<T>
    requires i <= j <= |nodes|
  {
    nodes[..i] + nodes[j..]
  }

  lemma CutDistinct<T>(nodes: seq<T>, i: nat, j: nat)
    requires i <= j <= |nodes| && AreDistinct(nodes)
    ensures AreDistinct(Cut(nodes, i, j))
  {
  }

  /** Removing a stretch of distinct nodes is keeping the others. */
  lemma CutIsKeep<T>(nodes: seq<T>, i: nat, j: nat)
    requires i <= j <= |nodes| && AreDistinct(nodes)
    ensures Cut(nodes, i, j) == Keep(nodes, Stretch(nodes, i, j))
  {
    var gone, a, b, c := Stretch(nodes, i, j), nodes[..i], nodes[i..j], nodes[j..];
    ThreeParts(nodes, i, j);
    KeepOutside(nodes, i, j);
    KeepStretch(nodes, i, j);
    KeepThree(a, b, c, gone);
  }

  lemma ThreeParts<T>(nodes: seq<T>, i: nat, j: nat)
    requires i <= j <= |nodes|
    ensures nodes == nodes[..i] + (nodes[i..j] + nodes[j..])
  {
  }

  lemma KeepThree<T>(a: seq<T>, b: seq<T>, c: seq<T>, gone: set<T>)
    requires Keep(a, gone) == a && Keep(b, gone) == [] && Keep(c, gone) == c
    ensures Keep(a + (b + c), gone) == a + c
  {
    KeepConcat(a, b + c, gone);
    KeepConcat(b, c, gone);
    assert [] + c == c;
  }

  lemma KeepOutside<T>(nodes: seq<T>, i: nat, j: nat)
    requires i <= j <= |nodes| && AreDistinct(nodes)
    ensures Keep(nodes[..i], Stretch(nodes, i, j)) == nodes[..i]
    ensures Keep(nodes[j..], Stretch(nodes, i, j)) == nodes[j..]
  {
    KeepAll(nodes[..i], Stretch(nodes, i, j));
    KeepAll(nodes[j..], Stretch(nodes, i, j));
  }

  lemma KeepStretch<T>(nodes: seq<T>, i: nat, j: nat)
    requires i <= j <= |nodes|
    ensures Keep(nodes[i..j], Stretch(nodes, i, j)) == []
  {
    forall n | n in nodes[i..j]
      ensures n in Stretch(nodes, i, j)
    {
      var k :| 0 <= k < j - i && nodes[i..j][k] == n;
      assert nodes[i + k] == n;
    }
    KeepNone(nodes[i..j], Stretch(nodes, i, j));
  }

  /** A list is what is left of distinct nodes after some are gone. */
  ghost predicate IsLeft<T>(start: seq<T>, list: seq<T>, gone: set<T>) {
    AreDistinct(list) && list == Keep(start, gone) && NodesOf(list) <= NodesOf(start)
  }

  lemma CutIsLeft<T>(start: seq<T>, list: seq<T>, gone: set<T>, i: nat, j: nat)
    requires i <= j <= |list| && IsLeft(start, list, gone)
    ensures IsLeft(start, Cut(list, i, j), gone + Stretch(list, i, j))
  {
    CutIsKeep(list, i, j);
    CutDistinct(list, i, j);
    KeepTwice(start, gone, Stretch(list, i, j));
  }

  /** `anchor.addnext(x)`. */
  function InsertAfter<T(==)>(nodes: seq<T>, anchor: T, x: T): seq<T> {
    if nodes == [] then []
    else if nodes[0] == anchor then [anchor, x] + nodes[1..]
    else [nodes[0]] + InsertAfter(nodes[1..], anchor, x)
  }

  /** `x` lands right after the anchor, wherever that is. */
  lemma {:induction false} InsertAfterAt<T>(front: seq<T>, anchor: T, back: seq<T>, x: T)
    requires anchor !in front
    ensures InsertAfter(front + [anchor] + back, anchor, x) == front + [anchor, x] + back
  {
    var nodes := front + [anchor] + back;
    if front == [] {
      assert nodes[1..] == back;
    } else {
      assert nodes[1..] == front[1..] + [anchor] + back;
      InsertAfterAt(front[1..], anchor, back, x);
    }
  }

  /** `anchor.addprevious(x)`. */
  function InsertBefore<T(==)>(nodes: seq<T>, anchor: T, x: T): seq<T> {
    if nodes == [] then []
    else if nodes[0] == anchor then [x] + nodes
    else [nodes[0]] + InsertBefore(nodes[1..], anchor, x)
  }

  /** `x` lands right before the anchor, wherever that is. */
  lemma {:induction false} InsertBeforeAt<T>(front: seq<T>, anchor: T, back: seq<T>, x: T)
    requires anchor !in front
    ensures InsertBefore(front + [anchor] + back, anchor, x) == front + [x, anchor] + back
  {
    var nodes := front + [anchor] + back;
    if front != [] {
      assert nodes[1..] == front[1..] + [anchor] + back;
      InsertBeforeAt(front[1..], anchor, back, x);
    }
  }

  /** Removing passes over a stretch that does not hold the node. */
  lemma {:induction false} RemoveBeyond<T>(front: seq<T>, back: seq<T>, x: T)
    requires x !in front
    ensures Remove(front + back, x) == front + Remove(back, x)
  {
    if front == [] {
      assert front + back == back;
    } else {
      assert (front + back)[1..] == front[1..] + back;
      RemoveBeyond(front[1..], back, x);
    }
  }

  lemma {:induction false} RemoveWithin<T>(a: seq<T>, b: seq<T>, x: T)
    requires x in a
    ensures Remove(a + b, x) == Remove(a, x) + b
  {
    if a[0] == x {
      assert (a + b)[1..] == a[1..] + b;
    } else {
      assert (a + b)[1..] == a[1..] + b && x in a[1..];
      RemoveWithin(a[1..], b, x);
    }
  }

  lemma KeepCons<T>(y: T, tail: seq<T>, gone: set<T>)
    ensures Keep([y] + tail, gone) == (if y in gone then [] else [y]) + Keep(tail, gone)
  {
    assert ([y] + tail)[1..] == tail;
  }

  /** Removing one more node from what is kept. */
  lemma {:induction false} RemoveKept<T>(nodes: seq<T>, gone: set<T>, x: T)
    requires AreDistinct(nodes) && x in nodes && x !in gone
    ensures x in Keep(nodes, gone)
    ensures Remove(Keep(nodes, gone), x) == Keep(nodes, gone + {x})
  {
    var y, tail := nodes[0], nodes[1..];
    assert nodes == [y] + tail;
    if y == x {
      RemoveKeptHead(tail, gone, x);
    } else {
      RemoveKept(tail, gone, x);
      RemoveKeptTail(y, tail, gone, x);
    }
  }

  lemma RemoveKeptHead<T>(tail: seq<T>, gone: set<T>, x: T)
    requires x !in tail && x !in gone
    ensures x in Keep([x] + tail, gone)
    ensures Remove(Keep([x] + tail, gone), x) == Keep([x] + tail, gone + {x})
  {
    KeepCons(x, tail, gone);
    KeepCons(x, tail, gone + {x});
    RemoveCons(x, Keep(tail, gone), x);
    KeepSame(tail, gone, gone + {x});
  }

  lemma RemoveKeptTail<T>(y: T, tail: seq<T>, gone: set<T>, x: T)
    requires y != x && x in Keep(tail, gone)
    requires Remove(Keep(tail, gone), x) == Keep(tail, gone + {x})
    ensures x in Keep([y] + tail, gone)
    ensures Remove(Keep([y] + tail, gone), x) == Keep([y] + tail, gone + {x})
  {
    KeepCons(y, tail, gone);
    KeepCons(y, tail, gone + {x});
    RemoveCons(y, Keep(tail, gone), x);
    if y in gone {
      assert Keep([y] + tail, gone) == Keep(tail, gone);
      assert Keep([y] + tail, gone + {x}) == Keep(tail, gone + {x});
    }
  }

  lemma RemoveCons<T>(y: T, tail: seq<T>, x: T)
    ensures Remove([y] + tail, x) == if y == x then tail else [y] + Remove(tail, x)
  {
    assert ([y] + tail)[1..] == tail;
  }

  lemma {:induction false} KeepSame<T>(nodes: seq<T>, gone: set<T>, more: set<T>)
    requires forall n :: n in nodes ==> (n in gone <==> n in more)
    ensures Keep(nodes, gone) == Keep(nodes, more)
  {
    if nodes != [] {
      assert nodes[0] in nodes;
      KeepSame(nodes[1..], gone, more);
    }
  }

  lemma {:induction false} KeepMembers<T>(nodes: seq<T>, gone: set<T>)
    ensures forall n :: n in Keep(nodes, gone) <==> n in nodes && n !in gone
  {
    if nodes != [] {
      KeepMembers(nodes[1..], gone);
      assert nodes == [nodes[0]] + nodes[1..];
    }
  }
}
