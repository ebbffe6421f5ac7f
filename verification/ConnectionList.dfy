/** src/connection_list.c: the intrusive doubly linked list of open connections. */
module ConnectionList {
  import opened EntryHeader
  import opened Connection

  /** s without its k-th element. */
  function Without<T>(s: seq<T>, k: nat): seq<T>
    requires k < |s|
  {
    s[..k] + s[k + 1..]
  }

  /** The 16-bit count of n nodes. */
  function Counted(n: nat): nat { n % U16 }

  lemma CountDown(n: nat)
    requires n > 0
    ensures (Counted(n) + U16 - 1) % U16 == Counted(n - 1)
  {
  }

  class ConnectionList {
    var head: Connection?
    var tail: Connection?
    var count: nat                 // a 16-bit counter

    ghost var nodes: seq<Connection>

    ghost predicate Valid()
      reads this, nodes`previous, nodes`next
    {
      && count == Counted(|nodes|)
      && Distinct()
      && (nodes == [] ==> head == null && tail == null)
      && (nodes != [] ==>
            && head == nodes[0] && tail == nodes[|nodes| - 1]
            && head.previous == null && tail.next == null)
      && (forall i: nat {:trigger nodes[i].next} :: i + 1 < |nodes| ==> nodes[i].next == nodes[i + 1])
      && (forall i: nat {:trigger nodes[i].previous} :: 0 < i < |nodes| ==> nodes[i].previous == nodes[i - 1])
    }

    ghost predicate Distinct()
      reads this
    {
      forall i: nat, j: nat :: i < j < |nodes| ==> nodes[i] != nodes[j]
    }

    /** connection_list_open. */
    constructor ()
      ensures Valid() && nodes == []
    {
      head, tail, count, nodes := null, null, 0, [];
    }

    /** connection_list_append.  Appending to an empty list writes no links, so the list is
        well linked afterwards exactly when it was not empty or the node's links were null. */
    method Append(connection: Connection)
      requires Valid() && connection !in nodes
      modifies `head, `tail, `count, `nodes, connection`previous, connection`next, nodes`next
      ensures nodes == old(nodes) + [connection]
      ensures Valid() <==> old(nodes) != [] || old(connection.previous == null && connection.next == null)
    {
      count := (count + 1) % U16;
      if head == null {
        head, tail := connection, connection;
        nodes := nodes + [connection];
        return;
      }
      connection.previous := tail;
      connection.next := null;
      tail.next := connection;
      tail := connection;
      nodes := nodes + [connection];
    }

    /** The links lead past the node at position k, which is still counted among the nodes. */
    ghost predicate Cut(k: nat)
      reads this, nodes`previous, nodes`next
      requires k < |nodes|
    {
      && nodes[k].previous == (if k > 0 then nodes[k - 1] else null)
      && nodes[k].next == (if k + 1 < |nodes| then nodes[k + 1] else null)
      && head == (if k == 0 then nodes[k].next else nodes[0])
      && tail == (if k == |nodes| - 1 then nodes[k].previous else nodes[|nodes| - 1])
      && (|nodes| > 1 ==> head != null && head.previous == null && tail != null && tail.next == null)
      && (0 < k < |nodes| - 1 ==> nodes[k - 1].next == nodes[k + 1] && nodes[k + 1].previous == nodes[k - 1])
      && (forall j: nat {:trigger nodes[j].next} :: j + 1 < |nodes| && j != k && j + 1 != k ==>
            nodes[j].next == nodes[j + 1] && nodes[j + 1].previous == nodes[j])
    }

    lemma CutLinks(k: nat, after: seq<Connection>, i: nat)
      requires k < |nodes| && Cut(k) == true && after == Without(nodes, k) && i + 1 < |after|
      ensures after[i].next == after[i + 1] && after[i + 1].previous == after[i]
    {
      if i + 1 == k {
        assert after[i] == nodes[k - 1] && after[i + 1] == nodes[k + 1];
      } else {
        var j := if i < k then i else i + 1;
        assert after[i] == nodes[j] && after[i + 1] == nodes[j + 1];
        assert nodes[j].next == nodes[j + 1];
      }
    }

    lemma CutEnds(k: nat, after: seq<Connection>)
      requires k < |nodes| && Cut(k) == true && Distinct() && after == Without(nodes, k)
      ensures |after| == |nodes| - 1
      ensures after == [] ==> head == null && tail == null && nodes[k].previous == null && nodes[k].next == null
      ensures after != [] ==>
                && head == after[0] && tail == after[|after| - 1]
                && head.previous == null && tail.next == null
      ensures forall i: nat, j: nat :: i < j < |after| ==> after[i] != after[j]
    {
    }

    /** The code of connection_list_remove, in terms of the list before it. */
    method Unlink(connection: Connection, ghost k: nat)
      requires Valid() && k < |nodes| && nodes[k] == connection
      modifies `head, `tail, `count, nodes`previous, nodes`next
      ensures count == (old(count) + U16 - 1) % U16
      ensures connection.previous == old(connection.previous) && connection.next == old(connection.next)
      ensures Cut(k) == true
    {
      hide Counted;
      assert k > 0 ==> nodes[k].previous == nodes[k - 1];
      assert k + 1 < |nodes| ==> nodes[k].next == nodes[k + 1];
      count := (count + U16 - 1) % U16;
      if connection == tail {
        assert connection.next == null;
        tail := connection.previous;
      } else {
        connection.next.previous := connection.previous;
      }
      if connection == head {
        assert connection.previous == null;
        head := connection.next;
      } else {
        connection.previous.next := connection.next;
      }
    }

    /** connection_list_remove; the removed node keeps its own links. */
    method Remove(connection: Connection, ghost k: nat)
      requires Valid() && k < |nodes| && nodes[k] == connection
      modifies `head, `tail, `count, `nodes, nodes`previous, nodes`next
      ensures Valid() && nodes == Without(old(nodes), k)
      ensures connection.previous == old(connection.previous) && connection.next == old(connection.next)
      ensures old(|nodes|) == 1 ==> connection.previous == null && connection.next == null
    {
      hide Counted, Cut, Without;
      CountDown(|nodes|);
      Unlink(connection, k);
      ghost var after := Without(nodes, k);
      CutEnds(k, after);
      forall i: nat {:trigger after[i].next} | i + 1 < |after| ensures after[i].next == after[i + 1] {
        CutLinks(k, after, i);
      }
      forall i: nat {:trigger after[i].previous} | 0 < i < |after| ensures after[i].previous == after[i - 1] {
        CutLinks(k, after, i - 1);
      }
      nodes := after;
    }
  }

  /** A node that was removed while others were on the list keeps its links, and breaks an empty
      list when it is appended again. */
  method StaleNodeBreaks(list: ConnectionList, a: Connection, b: Connection)
    requires list.Valid() && list.nodes == [] && a != b
    requires a.previous == null && a.next == null
    modifies list, a`previous, a`next, b`previous, b`next
    ensures list.nodes == [a] && !list.Valid()
  {
    list.Append(a);
    list.Append(b);
    list.Remove(a, 0);
    list.Remove(b, 0);
    list.Append(a);
  }
}
