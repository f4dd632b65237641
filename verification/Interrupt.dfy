/** The tracked connections of an outbound group, and their interruption. */
module Interrupt {
  import opened Nodes

  /** A dialled connection and the outbound it was dialled through. */
  datatype Conn = Conn(id: nat, via: Outbound)

  /** An element of the tracked list; `handle` stands for the list element a wrapped connection holds. */
  datatype Item = Item(handle: nat, conn: Conn, isExternal: bool)

  predicate Covered(item: Item, interruptExternal: bool) {
    !item.isExternal || interruptExternal
  }

  function CoveredOf(items: seq<Item>, all: bool): seq<Item> {
    if items == [] then []
    else CoveredOf(items[..|items| - 1], all) + if Covered(items[|items| - 1], all) then [items[|items| - 1]] else []
  }

  function SparedOf(items: seq<Item>, all: bool): seq<Item> {
    if items == [] then []
    else SparedOf(items[..|items| - 1], all) + if Covered(items[|items| - 1], all) then [] else [items[|items| - 1]]
  }

  function ConnsOf(items: seq<Item>): seq<Conn> {
    if items == [] then [] else ConnsOf(items[..|items| - 1]) + [items[|items| - 1].conn]
  }

  ghost predicate DistinctHandles(items: seq<Item>) {
    forall i, j :: 0 <= i < j < |items| ==> items[i].handle != items[j].handle
  }

  /** `list.Remove`: drops the element if it is still in the list. */
  function DropHandle(items: seq<Item>, handle: nat): seq<Item> {
    if items == [] then []
    else if items[|items| - 1].handle == handle then items[..|items| - 1]
    else DropHandle(items[..|items| - 1], handle) + [items[|items| - 1]]
  }

  function DropAll(items: seq<Item>, toDelete: seq<Item>): seq<Item> {
    if toDelete == [] then items
    else DropHandle(DropAll(items, toDelete[..|toDelete| - 1]), toDelete[|toDelete| - 1].handle)
  }

  lemma {:induction false} SplitMembers(items: seq<Item>, all: bool)
    ensures forall x :: x in CoveredOf(items, all) <==> x in items && Covered(x, all)
    ensures forall x :: x in SparedOf(items, all) <==> x in items && !Covered(x, all)
    ensures |CoveredOf(items, all)| + |SparedOf(items, all)| == |items|
  {
    if items != [] {
      var init, last := items[..|items| - 1], items[|items| - 1];
      assert items == init + [last];
      SplitMembers(init, all);
    }
  }

  lemma {:induction false} DropHandleMembers(items: seq<Item>, handle: nat)
    requires DistinctHandles(items)
    ensures forall x :: x in DropHandle(items, handle) <==> x in items && x.handle != handle
    ensures DistinctHandles(DropHandle(items, handle))
  {
    if items != [] {
      var init, last := items[..|items| - 1], items[|items| - 1];
      assert items == init + [last];
      assert forall x :: x in init ==> x.handle != last.handle;
      DropHandleMembers(init, handle);
      var d := DropHandle(init, handle);
      assert forall i :: 0 <= i < |d| ==> d[i] in d;
      assert forall i, j :: 0 <= i < j < |d| + 1 ==> (d + [last])[i].handle != (d + [last])[j].handle;
    }
  }

  /** Dropping from a list extended by an element outside `toDelete` leaves that element at the end. */
  lemma {:induction false} DropAllKeepsLast(items: seq<Item>, last: Item, toDelete: seq<Item>)
    requires forall x :: x in toDelete ==> x.handle != last.handle
    ensures DropAll(items + [last], toDelete) == DropAll(items, toDelete) + [last]
  {
    if toDelete != [] {
      var k := |toDelete| - 1;
      assert toDelete[k] in toDelete;
      DropAllKeepsLast(items, last, toDelete[..k]);
      var d := DropAll(items, toDelete[..k]);
      assert (d + [last])[..|d|] == d;
    }
  }

  lemma {:induction false} DropAllMembers(items: seq<Item>, toDelete: seq<Item>)
    requires DistinctHandles(items)
    ensures DistinctHandles(DropAll(items, toDelete))
    ensures forall x :: x in DropAll(items, toDelete) <==>
      x in items && forall y :: y in toDelete ==> y.handle != x.handle
  {
    if toDelete != [] {
      var init, last := toDelete[..|toDelete| - 1], toDelete[|toDelete| - 1];
      assert toDelete == init + [last];
      DropAllMembers(items, init);
      DropHandleMembers(DropAll(items, init), last.handle);
    }
  }

  lemma DropAllAppend(items: seq<Item>, toDelete: seq<Item>, last: Item)
    ensures DropAll(items, toDelete + [last]) == DropHandle(DropAll(items, toDelete), last.handle)
  {
    assert (toDelete + [last])[..|toDelete|] == toDelete;
  }

  lemma DropLast(items: seq<Item>, last: Item)
    ensures DropHandle(items + [last], last.handle) == items
  {
    assert (items + [last])[..|items|] == items;
  }

  lemma SplitAppend(items: seq<Item>, last: Item, all: bool)
    ensures CoveredOf(items + [last], all) == CoveredOf(items, all) + if Covered(last, all) then [last] else []
    ensures SparedOf(items + [last], all) == SparedOf(items, all) + if Covered(last, all) then [] else [last]
    ensures ConnsOf(items + [last]) == ConnsOf(items) + [last.conn]
  {
    assert (items + [last])[..|items|] == items;
  }

  /** Removing the collected elements one by one leaves exactly the spared ones, in order. */
  lemma {:induction false} DropCoveredLeavesSpared(items: seq<Item>, all: bool)
    requires DistinctHandles(items)
    ensures DropAll(items, CoveredOf(items, all)) == SparedOf(items, all)
  {
    if items != [] {
      var init, last := items[..|items| - 1], items[|items| - 1];
      assert items == init + [last];
      var covered := CoveredOf(init, all);
      SplitAppend(init, last, all);
      DropCoveredLeavesSpared(init, all);
      CoveredApart(init, last, all);
      DropAllKeepsLast(init, last, covered);
      if Covered(last, all) {
        DropAllAppend(items, covered, last);
        DropLast(SparedOf(init, all), last);
        assert SparedOf(init, all) + [] == SparedOf(init, all);
      } else {
        assert covered + [] == covered;
      }
    }
  }

  lemma CoveredApart(init: seq<Item>, last: Item, all: bool)
    requires DistinctHandles(init + [last])
    ensures forall x :: x in CoveredOf(init, all) ==> x.handle != last.handle
  {
    SplitMembers(init, all);
    var items := init + [last];
    forall x | x in init ensures x.handle != last.handle {
      var i :| 0 <= i < |init| && init[i] == x;
      assert items[i].handle != items[|init|].handle;
    }
  }

  class Group {
    var connections: seq<Item>
    var nextHandle: nat
    var closed: seq<Conn>

    /** Handles are never reused. */
    ghost predicate Valid()
      reads this
    {
      DistinctHandles(connections) && forall x :: x in connections ==> x.handle < nextHandle
    }

    constructor ()
      ensures Valid() && connections == [] && closed == [] && nextHandle == 0
    {
      connections, nextHandle, closed := [], 0, [];
    }

    /** `NewConn` and `NewPacketConn`: the connection is tracked at the end of the list. */
    method NewConn(conn: Conn, isExternal: bool) returns (handle: nat)
      requires Valid()
      modifies this
      ensures Valid() && handle == old(nextHandle) && nextHandle == handle + 1
      ensures connections == old(connections) + [Item(handle, conn, isExternal)] && closed == old(closed)
    {
      handle := nextHandle;
      nextHandle := nextHandle + 1;
      connections := connections + [Item(handle, conn, isExternal)];
    }

    /** Closing a wrapped connection: it leaves the list if it was still there, and is closed in any case. */
    method CloseConn(handle: nat, conn: Conn)
      requires Valid()
      modifies this
      ensures Valid() && nextHandle == old(nextHandle)
      ensures connections == DropHandle(old(connections), handle) && closed == old(closed) + [conn]
      ensures forall x :: x in connections <==> x in old(connections) && x.handle != handle
    {
      DropHandleMembers(connections, handle);
      connections := DropHandle(connections, handle);
      closed := closed + [conn];
    }

    /** The first pass: closes the covered connections and collects their elements. */
    method CloseCovered(interruptExternalConnections: bool) returns (toDelete: seq<Item>)
      modifies `closed
      ensures toDelete == CoveredOf(connections, interruptExternalConnections)
      ensures closed == old(closed) + ConnsOf(toDelete)
    {
      toDelete := [];
      for i := 0 to |connections|
        invariant toDelete == CoveredOf(connections[..i], interruptExternalConnections)
        invariant closed == old(closed) + ConnsOf(toDelete)
      {
        var element := connections[i];
        assert connections[..i + 1] == connections[..i] + [element];
        SplitAppend(connections[..i], element, interruptExternalConnections);
        SplitAppend(toDelete, element, interruptExternalConnections);
        if !element.isExternal || interruptExternalConnections {
          closed := closed + [element.conn];
          toDelete := toDelete + [element];
        }
      }
      assert connections[..|connections|] == connections;
    }

    /** Closes and untracks exactly the covered connections, in list order, and keeps the rest in order. */
    method Interrupt(interruptExternalConnections: bool)
      requires Valid()
      modifies this
      ensures Valid() && nextHandle == old(nextHandle)
      ensures connections == SparedOf(old(connections), interruptExternalConnections)
      ensures closed == old(closed) + ConnsOf(CoveredOf(old(connections), interruptExternalConnections))
    {
      var toDelete := CloseCovered(interruptExternalConnections);
      for i := 0 to |toDelete|
        invariant connections == DropAll(old(connections), toDelete[..i]) && nextHandle == old(nextHandle)
        invariant closed == old(closed) + ConnsOf(toDelete)
      {
        assert toDelete[..i + 1] == toDelete[..i] + [toDelete[i]];
        DropAllAppend(old(connections), toDelete[..i], toDelete[i]);
        connections := DropHandle(connections, toDelete[i].handle);
      }
      assert toDelete[..|toDelete|] == toDelete;
      DropCoveredLeavesSpared(old(connections), interruptExternalConnections);
      DropAllMembers(old(connections), toDelete);
    }
  }
}
