/**
 SnapshotList (snapshot.h): the circular doubly linked list of live snapshots.
 */
module Snapshots {
  class SnapshotImpl {
    var number: nat
    var prev: SnapshotImpl
    var next: SnapshotImpl

    constructor (n: nat)
      ensures number == n && prev == this && next == this
    {
      number, prev, next := n, this, this;
    }
  }

  predicate NonDecreasing(s: seq<nat>) {
    forall i, j :: 0 <= i < j < |s| ==> s[i] <= s[j]
  }

  lemma NonDecreasingAppend(s: seq<nat>, n: nat)
    requires NonDecreasing(s) && forall x :: x in s ==> x <= n
    ensures NonDecreasing(s + [n])
  {
    assert forall i :: 0 <= i < |s| ==> s[i] in s;
  }

  class SnapshotList {
    const list: SnapshotImpl               // dummy head
    ghost var nodes: seq<SnapshotImpl>     // oldest first

    // The ring position i, counting the head as both ends.
    ghost function Ring(i: nat): SnapshotImpl
      reads this
      requires i <= |nodes| + 1
    {
      if i == 0 || i == |nodes| + 1 then list else nodes[i - 1]
    }

    // Neighbours on the ring point at each other.
    ghost predicate Linked(i: nat)
      reads this, list, nodes
      requires i <= |nodes|
    {
      Ring(i).next == Ring(i + 1) && Ring(i + 1).prev == Ring(i)
    }

    ghost predicate Valid()
      reads this, list, nodes
    {
      list !in nodes &&
      (forall i, j :: 0 <= i < j < |nodes| ==> nodes[i] != nodes[j]) &&
      (forall i :: 0 <= i <= |nodes| ==> Linked(i))
    }

    // The live snapshot numbers, in list order.
    ghost function Numbers(): (s: seq<nat>)
      reads this, nodes
      ensures |s| == |nodes|
    {
      seq(|nodes|, i requires 0 <= i < |nodes| reads this, nodes => nodes[i].number)
    }

    constructor ()
      ensures Valid() && nodes == [] && fresh(list)
    {
      list := new SnapshotImpl(0);
      nodes := [];
    }

    method Empty() returns (b: bool)
      requires Valid()
      ensures b == (nodes == [])
    {
      assert Linked(0);
      b := list.next == list;
    }

    // With numbers handed out in non-decreasing order the oldest is the least.
    method Oldest() returns (s: SnapshotImpl)
      requires Valid() && nodes != []
      ensures s == nodes[0]
      ensures NonDecreasing(Numbers()) ==> forall n :: n in Numbers() ==> s.number <= n
    {
      assert Linked(0);
      s := list.next;
      assert Numbers()[0] == s.number;
    }

    // smallest_snapshot of a compaction: no live snapshot is below it.
    method SmallestSnapshot(lastSequence: nat) returns (n: nat)
      requires Valid()
      ensures n == if Numbers() == [] then lastSequence else Numbers()[0]
      ensures NonDecreasing(Numbers()) ==> forall x :: x in Numbers() ==> n <= x
    {
      var none := Empty();
      if none {
        n := lastSequence;
      } else {
        var oldest := Oldest();
        n := oldest.number;
      }
    }

    // Appends at the newest end; the order survives because LastSequence never goes back.
    method New(seqno: nat) returns (s: SnapshotImpl)
      requires Valid()
      modifies this, list, nodes
      ensures Valid() && fresh(s) && nodes == old(nodes) + [s]
      ensures Numbers() == old(Numbers()) + [seqno] && list.number == old(list.number)
      ensures NonDecreasing(old(Numbers())) && (forall x :: x in old(Numbers()) ==> x <= seqno) ==> NonDecreasing(Numbers())
    {
      ghost var n, numbers := |nodes|, Numbers();
      assert Linked(n);
      s := new SnapshotImpl(seqno);
      s.next := list;
      s.prev := list.prev;
      s.prev.next := s;
      s.next.prev := s;
      nodes := nodes + [s];
      forall i | 0 <= i <= n + 1 ensures Linked(i) {
        if i < n { assert old(Linked(i)); }
      }
      assert Numbers() == numbers + [seqno];
      if NonDecreasing(numbers) && forall x :: x in numbers ==> x <= seqno { NonDecreasingAppend(numbers, seqno); }
    }

    method Delete(s: SnapshotImpl, ghost k: nat)
      requires Valid() && k < |nodes| && nodes[k] == s
      modifies this, list, nodes
      ensures Valid() && nodes == old(nodes)[..k] + old(nodes)[k + 1..]
      ensures Numbers() == old(Numbers())[..k] + old(Numbers())[k + 1..]
    {
      assert Linked(k) && Linked(k + 1);
      s.prev.next := s.next;
      s.next.prev := s.prev;
      ghost var was := nodes;
      nodes := nodes[..k] + nodes[k + 1..];
      assert forall i :: 0 <= i < |nodes| ==> nodes[i] == was[if i < k then i else i + 1];
      forall i | 0 <= i <= |nodes| ensures Linked(i) {
        if i < k { assert old(Linked(i)); } else if i > k { assert old(Linked(i + 1)); }
      }
    }
  }
}
