/** Orders, the doubly linked FIFO queue of one price level, and the pool its nodes are recycled through. */
module OrderQueues {
  import opened Types
  import opened FlatBook
  import opened Levels
  import opened MatchingLaws
  import Decimal

  class Order {
    const id: string
    const user: string
    const side: Side
    const typ: OrderType
    const tif: TimeInForce
    const price: int
    const quantity: int
    var filledQty: int
    var status: Status

    /** The book's sequence number when the order came to rest. */
    ghost var arrival: nat
    /** The queue the order rests in, if any, and the node that carries it there. */
    ghost var queue: OrderQueue?
    ghost var node: OrderNode?

    constructor (id: string, user: string, side: Side, typ: OrderType, tif: TimeInForce, price: int, quantity: int)
      ensures View() == OrderView(id, user, side, typ, tif, price, quantity, 0, Created, 0)
      ensures queue == null
    {
      node := null;
      this.id, this.user, this.side, this.typ, this.tif := id, user, side, typ, tif;
      this.price, this.quantity, filledQty, status := price, quantity, 0, Created;
      arrival, queue := 0, null;
    }

    ghost function View(): OrderView
      reads this
    {
      OrderView(id, user, side, typ, tif, price, quantity, filledQty, status, arrival)
    }

    function Remaining(): int
      reads this
    {
      quantity - filledQty
    }

    predicate IsFilled()
      reads this
    {
      Remaining() <= 0
    }

    /** An order that rests nowhere can be marked without touching any queue. */
    method MarkCancelled()
      requires queue == null
      modifies this`status
      ensures View() == old(View()).(status := Cancelled)
      ensures forall q: OrderQueue {:trigger q.Valid()} ::
        old(allocated(q)) && old(q.Valid()) ==> q.Valid() && unchanged(q)
    {
      status := Cancelled;
    }
  }

  class OrderNode {
    var order: Order?
    var next: OrderNode?
    var prev: OrderNode?

    /** The queue the node is linked into, if any, and its place there. */
    ghost var queue: OrderQueue?
    ghost var place: int

    constructor ()
      ensures order == null && next == null && prev == null && queue == null
    {
      order, next, prev, queue := null, null, null, null;
    }
  }

  /** The shared pool of unused nodes. */
  class NodePool {
    var free: set<OrderNode>

    constructor ()
      ensures Valid() && free == {}
    {
      free := {};
    }

    /** A pooled node is cleared and linked into no queue. */
    ghost predicate Valid()
      reads this, free
    {
      forall n :: n in free ==> n.order == null && n.next == null && n.prev == null && n.queue == null
    }

    /** An unused node: one that was put back, or a new one. Which of the two is not specified. */
    method Get() returns (n: OrderNode)
      requires Valid()
      modifies this
      ensures forall q: OrderQueue {:trigger q.Valid()} ::
        old(allocated(q)) && old(q.Valid()) ==> q.Valid() && unchanged(q)
      ensures Valid() && free == old(free) - {n}
      ensures n in old(free) || fresh(n)
      ensures n.order == null && n.next == null && n.prev == null && n.queue == null
    {
      if * {
        n := new OrderNode();
      } else if free != {} {
        n :| n in free;
        free := free - {n};
      } else {
        n := new OrderNode();
      }
    }

    /** Clear an unlinked node and put it back. */
    method Recycle(n: OrderNode)
      requires Valid() && n.queue == null
      modifies this, n`order, n`next, n`prev
      ensures forall q: OrderQueue {:trigger q.Valid()} ::
        old(allocated(q)) && old(q.Valid()) ==> q.Valid() && unchanged(q)
      ensures Valid() && free == old(free) + {n}
    {
      n.order := null;
      n.next := null;
      n.prev := null;
      free := free + {n};
    }
  }

  class OrderQueue {
    var head: OrderNode?
    var tail: OrderNode?
    var volume: int
    var len: int

    /** The price level this queue was created for. */
    ghost const side: Side
    ghost const price: int

    /** The linked nodes, the orders they carry, and those orders' values, front first. */
    ghost var nodes: seq<OrderNode>
    ghost var orders: seq<Order>
    ghost var contents: seq<OrderView>

    /** The links, in both directions, run along `nodes`, and so do increasing places: no node occurs twice. */
    ghost predicate Linked()
      reads this`head, this`tail, this`nodes, nodes`next, nodes`prev, nodes`queue, nodes`place
    {
      && head == (if nodes == [] then null else nodes[0])
      && tail == (if nodes == [] then null else nodes[|nodes| - 1])
      && (forall i {:trigger nodes[i]} :: 0 <= i < |nodes| ==> nodes[i].queue == this)
      && (nodes != [] ==> nodes[0].prev == null && nodes[|nodes| - 1].next == null)
      && (forall i {:trigger nodes[i].next} :: 0 <= i < |nodes| - 1 ==>
            nodes[i].next == nodes[i + 1] && nodes[i].place < nodes[i + 1].place)
      && (forall i {:trigger nodes[i].prev} :: 0 < i < |nodes| ==> nodes[i].prev == nodes[i - 1])
    }

    /** Node i carries order i. */
    ghost predicate Carries()
      reads this`nodes, this`orders, nodes`order, orders`node
    {
      && |nodes| == |orders|
      && (forall i {:trigger nodes[i].order} :: 0 <= i < |nodes| ==> nodes[i].order == orders[i])
      && (forall i {:trigger orders[i]} :: 0 <= i < |orders| ==> orders[i].node == nodes[i])
    }

    /** The orders rest here, have the recorded values, and the caches agree with them. */
    ghost predicate Counted()
      reads this`orders, this`contents, this`volume, this`len, orders
    {
      && |contents| == |orders|
      && (forall i :: 0 <= i < |orders| ==> orders[i].queue == this && orders[i].View() == contents[i])
      && len == |orders|
      && volume == Depth(contents)
    }

    ghost predicate Valid()
      reads this, nodes, orders
    {
      Linked() && Carries() && Counted()
    }

    lemma Lengths()
      requires Valid()
      ensures len == |contents| == |orders| == |nodes|
      ensures head == if nodes == [] then null else nodes[0]
    {
    }

    constructor (ghost side: Side, ghost price: int)
      ensures Valid() && contents == [] && nodes == [] && orders == []
      ensures this.side == side && this.price == price
    {
      head, tail, volume, len := null, null, 0, 0;
      this.side, this.price := side, price;
      nodes, orders, contents := [], [], [];
    }

    lemma {:induction false} PlacesIncrease(i: nat, j: nat)
      requires Linked() && i < j < |nodes|
      ensures nodes[i].place < nodes[j].place
      decreases j - i
    {
      assert nodes[i].next == nodes[i + 1];
      if i + 1 < j {
        PlacesIncrease(i + 1, j);
      }
    }

    /** The node at one position stands at no other. */
    lemma Apart(i: nat)
      requires Linked() && i < |nodes|
      ensures forall j {:trigger nodes[j]} :: 0 <= j < |nodes| && j != i ==> nodes[j] != nodes[i]
    {
      forall j {:trigger nodes[j]} | 0 <= j < |nodes| && j != i
        ensures nodes[j] != nodes[i]
      {
        if j < i {
          PlacesIncrease(j, i);
        } else {
          PlacesIncrease(i, j);
        }
      }
    }

    /** Push's pointer work: hang a cleared node behind the tail. */
    method Hook(node: OrderNode, order: Order)
      requires Linked() && node !in nodes
      modifies this`head, this`tail, nodes`next, node`order, node`next, node`prev
      ensures node.order == order && node.next == null && node.prev == old(tail)
      ensures tail == node && head == if nodes == [] then node else old(head)
      ensures forall k {:trigger nodes[k].next} :: 0 <= k < |nodes| ==>
        nodes[k].next == if k == |nodes| - 1 then node else old(nodes[k].next)
    {
      if nodes != [] {
        Apart(|nodes| - 1);
      }
      node.order := order;
      node.next := null;
      node.prev := null;
      if tail == null {
        head := node;
        tail := node;
      } else {
        tail.next := node;
        node.prev := tail;
        tail := node;
      }
    }

    method LinkLast(node: OrderNode, order: Order)
      requires Linked() && node.queue == null
      modifies this`head, this`tail, this`nodes, nodes`next, node
      ensures forall q: OrderQueue {:trigger q.Valid()} ::
        old(allocated(q)) && q != this && old(q.Valid()) ==> q.Valid() && unchanged(q)
      ensures Linked() && nodes == old(nodes) + [node] && node.order == order
    {
      hide OrderQueue.Carries;
      hide OrderQueue.Counted;
      ghost var was := nodes;
      assert node !in nodes;
      Hook(node, order);
      node.queue, node.place := this, if nodes == [] then 0 else nodes[|nodes| - 1].place + 1;
      nodes := nodes + [node];
      forall i | 0 <= i < |nodes| - 1
        ensures nodes[i].next == nodes[i + 1] && nodes[i].place < nodes[i + 1].place
      {
        assert i + 1 < |was| ==> old(was[i].next) == was[i + 1];
      }
    }

    /** Pop's pointer work: move the head on. */
    method Advance()
      requires Linked() && head != null
      modifies this`head, this`tail, nodes`prev
      ensures head == old(head.next)
      ensures tail == if |nodes| > 1 then old(tail) else null
      ensures forall k {:trigger nodes[k].prev} :: 0 <= k < |nodes| ==>
        nodes[k].prev == if k == 1 then null else old(nodes[k].prev)
    {
      Apart(0);
      if |nodes| > 1 {
        Apart(1);
      }
      assert head.next == if |nodes| > 1 then nodes[1] else null;
      head := head.next;
      if head != null {
        head.prev := null;
      } else {
        tail := null;
      }
    }

    method DropHead()
      requires Linked() && head != null
      modifies this`head, this`tail, this`nodes, nodes`prev, head`queue
      ensures Linked() && nodes == Delete(old(nodes), 0)
      ensures old(nodes)[0].queue == null
    {
      Front();
      hide OrderQueue.Linked;
      hide Delete;
      ghost var node := head;
      Apart(0);
      AllQueued();
      Advance();
      node.queue := null;
      nodes := Delete(nodes, 0);
      Relinked(0);
    }

    lemma Front()
      requires Linked() && nodes != []
      ensures head == nodes[0] && nodes[0].prev == null
      ensures tail == nodes[|nodes| - 1] && nodes[|nodes| - 1].next == null
    {
    }

    method UnlinkFirst()
      requires Linked() && head != null
      modifies this`head, this`tail, this`nodes, nodes`prev, head`queue
      ensures forall q: OrderQueue {:trigger q.Valid()} ::
        old(allocated(q)) && q != this && old(q.Valid()) ==> q.Valid() && unchanged(q)
      ensures Linked() && nodes == Delete(old(nodes), 0)
      ensures old(nodes)[0].queue == null
    {
      hide OrderQueue.Carries;
      hide OrderQueue.Counted;
      DropHead();
    }

    /** Remove's pointer work: join the neighbours of a node, or move the ends past it. */
    method Bypass(node: OrderNode, ghost i: nat)
      requires Linked() && i < |nodes| && nodes[i] == node
      modifies this`head, this`tail, nodes`next, nodes`prev
      ensures head == if i > 0 then old(head) else node.next
      ensures tail == if i + 1 < |nodes| then old(tail) else node.prev
      ensures forall k {:trigger nodes[k].next} :: 0 <= k < |nodes| ==>
        nodes[k].next == if k == i - 1 then old(node.next) else old(nodes[k].next)
      ensures forall k {:trigger nodes[k].prev} :: 0 <= k < |nodes| ==>
        nodes[k].prev == if k == i + 1 then old(node.prev) else old(nodes[k].prev)
    {
      Apart(i);
      if i > 0 {
        Apart(i - 1);
      }
      if i + 1 < |nodes| {
        Apart(i + 1);
      }
      assert node.prev == if i > 0 then nodes[i - 1] else null;
      assert node.next == if i + 1 < |nodes| then nodes[i + 1] else null;
      if node.prev != null {
        node.prev.next := node.next;
      } else {
        head := node.next;
      }
      if node.next != null {
        node.next.prev := node.prev;
      } else {
        tail := node.prev;
      }
    }

    method DropNode(node: OrderNode, ghost i: nat)
      requires Linked() && i < |nodes| && nodes[i] == node
      modifies this`head, this`tail, this`nodes, nodes`next, nodes`prev, node`queue
      ensures Linked() && nodes == Delete(old(nodes), i)
      ensures node.queue == null
    {
      hide OrderQueue.Linked;
      hide Delete;
      Apart(i);
      AllQueued();
      Bypass(node, i);
      node.queue := null;
      nodes := Delete(nodes, i);
      Relinked(i);
    }

    lemma AllResting()
      requires Counted()
      ensures forall k :: 0 <= k < |orders| ==> orders[k].queue == this
    {
    }

    lemma AllQueued()
      requires Linked()
      ensures forall k :: 0 <= k < |nodes| ==> nodes[k].queue == this
    {
    }

    /** With node i bypassed and out of the list, what is left is linked. */
    twostate lemma Relinked(i: nat)
      requires old(Linked()) && i < |old(nodes)| && nodes == Delete(old(nodes), i)
      requires unchanged(old(nodes)`place)
      requires forall k :: 0 <= k < |old(nodes)| && k != i ==> old(nodes)[k].queue == this
      requires head == if i > 0 then old(head) else old(nodes[i].next)
      requires tail == if i + 1 < |old(nodes)| then old(tail) else old(nodes[i].prev)
      requires forall k {:trigger old(nodes)[k].next} :: 0 <= k < |old(nodes)| ==>
        old(nodes)[k].next == if k == i - 1 then old(nodes[i].next) else old(nodes[k].next)
      requires forall k {:trigger old(nodes)[k].prev} :: 0 <= k < |old(nodes)| ==>
        old(nodes)[k].prev == if k == i + 1 then old(nodes[i].prev) else old(nodes[k].prev)
      ensures Linked()
    {
      NextRelinked(i);
      PrevRelinked(i);
      EndsRelinked(i);
      QueueRelinked(i);
      hide Delete;
    }

    twostate lemma QueueRelinked(i: nat)
      requires i < |old(nodes)| && nodes == Delete(old(nodes), i)
      requires forall k :: 0 <= k < |old(nodes)| && k != i ==> old(nodes)[k].queue == this
      ensures forall k {:trigger nodes[k]} :: 0 <= k < |nodes| ==> nodes[k].queue == this
    {
      ghost var was := old(nodes);
      forall k {:trigger nodes[k]} | 0 <= k < |nodes|
        ensures nodes[k].queue == this
      {
        assert nodes[k] == was[if k < i then k else k + 1];
      }
    }

    twostate lemma EndsRelinked(i: nat)
      requires old(Linked()) && i < |old(nodes)| && nodes == Delete(old(nodes), i)
      requires head == if i > 0 then old(head) else old(nodes[i].next)
      requires tail == if i + 1 < |old(nodes)| then old(tail) else old(nodes[i].prev)
      ensures head == if nodes == [] then null else nodes[0]
      ensures tail == if nodes == [] then null else nodes[|nodes| - 1]
    {
    }

    /** With node i bypassed, every node points to the one after it in what is left. */
    twostate lemma NextRelinked(i: nat)
      requires old(Linked()) && i < |old(nodes)| && nodes == Delete(old(nodes), i)
      requires unchanged(old(nodes)`place)
      requires forall k {:trigger old(nodes)[k].next} :: 0 <= k < |old(nodes)| ==>
        old(nodes)[k].next == if k == i - 1 then old(nodes[i].next) else old(nodes[k].next)
      ensures forall k {:trigger nodes[k].next} {:trigger nodes[k].place} :: 0 <= k < |nodes| - 1 ==>
        nodes[k].next == nodes[k + 1] && nodes[k].place < nodes[k + 1].place
      ensures nodes != [] ==> nodes[|nodes| - 1].next == null
    {
      ghost var was := old(nodes);
      forall k {:trigger nodes[k].next} {:trigger nodes[k].place} | 0 <= k < |nodes| - 1
        ensures nodes[k].next == nodes[k + 1] && nodes[k].place < nodes[k + 1].place
      {
        if k == i - 1 {
          assert was[k].next == old(was[i].next) == was[i + 1];
          assert old(was[k].next) == was[i];
        } else if k < i {
          assert was[k].next == old(was[k].next) == was[k + 1];
        } else {
          assert was[k + 1].next == old(was[k + 1].next) == was[k + 2];
        }
      }
      if nodes != [] {
        var last := if i == |was| - 1 then |was| - 2 else |was| - 1;
        assert nodes[|nodes| - 1] == was[last] && was[last].next == null;
      }
    }

    /** And to the one before it. */
    twostate lemma PrevRelinked(i: nat)
      requires old(Linked()) && i < |old(nodes)| && nodes == Delete(old(nodes), i)
      requires forall k {:trigger old(nodes)[k].prev} :: 0 <= k < |old(nodes)| ==>
        old(nodes)[k].prev == if k == i + 1 then old(nodes[i].prev) else old(nodes[k].prev)
      ensures forall k {:trigger nodes[k].prev} :: 0 < k < |nodes| ==> nodes[k].prev == nodes[k - 1]
      ensures nodes != [] ==> nodes[0].prev == null
    {
      ghost var was := old(nodes);
      forall k {:trigger nodes[k].prev} | 0 < k < |nodes|
        ensures nodes[k].prev == nodes[k - 1]
      {
        if k == i {
          assert was[i + 1].prev == old(was[i].prev) == was[i - 1];
        } else if k < i {
          assert was[k].prev == old(was[k].prev) == was[k - 1];
        } else {
          assert was[k + 1].prev == old(was[k + 1].prev) == was[k];
        }
      }
      if nodes != [] {
        assert nodes[0] == was[if i == 0 then 1 else 0];
      }
    }

    method Unlink(node: OrderNode, ghost i: nat)
      requires Linked() && i < |nodes| && nodes[i] == node
      modifies this`head, this`tail, this`nodes, nodes`next, nodes`prev, node`queue
      ensures forall q: OrderQueue {:trigger q.Valid()} ::
        old(allocated(q)) && q != this && old(q.Valid()) ==> q.Valid() && unchanged(q)
      ensures Linked() && nodes == Delete(old(nodes), i)
      ensures node.queue == null
    {
      hide OrderQueue.Carries;
      hide OrderQueue.Counted;
      DropNode(node, i);
    }

    /** Push's bookkeeping. */
    method CountIn(order: Order, ghost node: OrderNode)
      requires Counted() && order.queue == null
      modifies this`volume, this`len, this`orders, this`contents, order`queue, order`node
      ensures forall q: OrderQueue {:trigger q.Valid()} ::
        old(allocated(q)) && q != this && old(q.Valid()) ==> q.Valid() && unchanged(q)
      ensures Counted() && order.node == node
      ensures orders == old(orders) + [order] && contents == old(contents) + [order.View()]
    {
      hide OrderQueue.Linked;
      hide OrderQueue.Carries;
      volume := volume + order.Remaining();
      len := len + 1;
      DepthAppend(contents, order.View());
      order.queue, order.node := this, node;
      orders, contents := orders + [order], contents + [order.View()];
    }

    /** Pop's and Remove's bookkeeping. */
    method CountOut(order: Order, ghost i: nat)
      requires Counted() && i < |orders| && orders[i] == order
      requires forall j :: 0 <= j < |orders| && j != i ==> orders[j] != order
      modifies this`volume, this`len, this`orders, this`contents, order`queue
      ensures forall q: OrderQueue {:trigger q.Valid()} ::
        old(allocated(q)) && q != this && old(q.Valid()) ==> q.Valid() && unchanged(q)
      ensures Counted() && order.queue == null
      ensures orders == Delete(old(orders), i) && contents == Delete(old(contents), i)
    {
      hide OrderQueue.Linked;
      hide OrderQueue.Carries;
      hide Depth;
      volume := volume - order.Remaining();
      len := len - 1;
      DepthDelete(contents, i);
      order.queue := null;
      orders, contents := Delete(orders, i), Delete(contents, i);
    }

    method Push(order: Order, pool: NodePool) returns (ghost node: OrderNode)
      requires Valid() && pool.Valid()
      requires order.queue == null
      modifies this, nodes, order`queue, order`node, pool, pool.free
      ensures forall q: OrderQueue {:trigger q.Valid()} ::
        old(allocated(q)) && q != this && old(q.Valid()) ==> q.Valid() && unchanged(q)
      ensures Valid() && pool.Valid()
      ensures contents == old(contents) + [order.View()]
      ensures orders == old(orders) + [order]
      ensures nodes == old(nodes) + [node]
      ensures (node in old(pool.free) || fresh(node)) && pool.free == old(pool.free) - {node}
    {
      var n := pool.Get();
      Append(n, order);
      node := n;
    }

    /** A new queue that holds one order. */
    static method WithOrder(ghost side: Side, order: Order, pool: NodePool)
      returns (q: OrderQueue, ghost node: OrderNode)
      requires pool.Valid() && order.queue == null
      modifies order`queue, order`node, pool, pool.free
      ensures forall r: OrderQueue {:trigger r.Valid()} ::
        old(allocated(r)) && r != q && old(r.Valid()) ==> r.Valid() && unchanged(r)
      ensures fresh(q) && q.Valid() && pool.Valid()
      ensures q.side == side && q.price == order.price
      ensures q.contents == [order.View()] && q.orders == [order] && q.nodes == [node]
      ensures (node in old(pool.free) || fresh(node)) && pool.free == old(pool.free) - {node}
    {
      q := new OrderQueue(side, order.price);
      hide OrderQueue.Valid;
      node := q.Push(order, pool);
    }

    /** Push without the pool. */
    method Append(node: OrderNode, order: Order)
      requires Valid() && node.queue == null && order.queue == null
      modifies this, nodes, node, order`queue, order`node
      ensures forall q: OrderQueue {:trigger q.Valid()} ::
        old(allocated(q)) && q != this && old(q.Valid()) ==> q.Valid() && unchanged(q)
      ensures Valid()
      ensures nodes == old(nodes) + [node] && orders == old(orders) + [order]
      ensures contents == old(contents) + [order.View()]
    {
      hide OrderQueue.Linked;
      hide OrderQueue.Counted;
      AllQueued();
      AllResting();
      LinkLast(node, order);
      CountIn(order, node);
    }

    method Pop(pool: NodePool) returns (r: Order?)
      requires Valid() && pool.Valid()
      modifies this, nodes, orders`queue, pool
      ensures forall q: OrderQueue {:trigger q.Valid()} ::
        old(allocated(q)) && q != this && old(q.Valid()) ==> q.Valid() && unchanged(q)
      ensures Valid() && pool.Valid()
      ensures old(contents) == [] ==>
        && r == null && contents == [] && nodes == [] && orders == []
        && pool.free == old(pool.free)
      ensures old(contents) != [] ==>
        && r == old(orders[0]) && r.queue == null
        && contents == Delete(old(contents), 0) && orders == Delete(old(orders), 0) && nodes == Delete(old(nodes), 0)
        && pool.free == old(pool.free) + {old(nodes[0])}
    {
      if head == null {
        return null;
      }
      var node := head;
      var order := TakeFirst();
      pool.Recycle(node);
      return order;
    }

    /** Dropping the same position from nodes and orders keeps them paired. */
    twostate lemma StillCarries(i: nat)
      requires old(Carries()) && i < |old(nodes)|
      requires nodes == Delete(old(nodes), i)
      requires orders == Delete(old(orders), i)
      requires unchanged(old(nodes)`order) && unchanged(old(orders)`node)
      ensures Carries()
    {
      forall j | 0 <= j < |nodes|
        ensures nodes[j].order == orders[j] && orders[j].node == nodes[j]
      {
        var k := if j < i then j else j + 1;
        assert nodes[j] == old(nodes)[k] && orders[j] == old(orders)[k];
        assert old(nodes[k].order) == orders[j] && old(orders[k].node) == nodes[j];
      }
    }

    /** Pop without the pool. */
    method TakeFirst() returns (order: Order)
      requires Valid() && head != null
      modifies this, nodes, orders`queue
      ensures forall q: OrderQueue {:trigger q.Valid()} ::
        old(allocated(q)) && q != this && old(q.Valid()) ==> q.Valid() && unchanged(q)
      ensures Valid()
      ensures contents == Delete(old(contents), 0) && nodes == Delete(old(nodes), 0)
      ensures orders == Delete(old(orders), 0)
      ensures order == old(orders[0]) && order.queue == null
      ensures old(nodes[0]).queue == null && old(nodes[0]) !in nodes
    {
      hide OrderQueue.Linked;
      hide OrderQueue.Counted;
      hide Delete;
      var node := head;
      Lengths();
      Apart(0);
      Single(0);
      GoneFrom(nodes, 0);
      UnlinkFirst();
      order := node.order;
      CountOut(order, 0);
      StillCarries(0);
    }

    method Remove(id: string, pool: NodePool) returns (r: Order?)
      requires Valid() && pool.Valid()
      modifies this, nodes, orders`queue, pool
      ensures forall q: OrderQueue {:trigger q.Valid()} ::
        old(allocated(q)) && q != this && old(q.Valid()) ==> q.Valid() && unchanged(q)
      ensures Valid() && pool.Valid()
      ensures var i := Find(old(contents), id);
        if i == |old(contents)| then
          r == null && contents == old(contents) && orders == old(orders) && nodes == old(nodes) &&
            pool.free == old(pool.free)
        else
          && r == old(orders)[i] && r.queue == null
          && contents == Delete(old(contents), i)
          && orders == Delete(old(orders), i)
          && nodes == Delete(old(nodes), i)
          && pool.free == old(pool.free) + {old(nodes)[i]}
    {
      var node := head;
      ghost var i := 0;
      while node != null
        invariant 0 <= i <= |nodes|
        invariant node == if i < |nodes| then nodes[i] else null
        invariant forall j :: 0 <= j < i ==> contents[j].id != id
        decreases |nodes| - i
      {
        if node.order.id == id {
          assert i == Find(contents, id);
          r := Detach(node, i, pool);
          return;
        }
        node := node.next;
        i := i + 1;
      }
      return null;
    }

    /** The order with this identifier, if the queue holds it. */
    method FindOrder(id: string) returns (r: Order?)
      requires Valid()
      ensures var i := Find(contents, id);
        if i == |contents| then r == null else r != null && r in orders && r.View() == contents[i]
    {
      var n := head;
      ghost var i := 0;
      while n != null
        invariant 0 <= i <= |nodes|
        invariant n == if i < |nodes| then nodes[i] else null
        invariant forall j :: 0 <= j < i ==> contents[j].id != id
        decreases |nodes| - i
      {
        if n.order.id == id {
          assert i == Find(contents, id);
          return n.order;
        }
        n := n.next;
        i := i + 1;
      }
      return null;
    }

    /** Take the order with this identifier out and mark it cancelled. */
    method Cancel(id: string, pool: NodePool) returns (r: Order?)
      requires Valid() && pool.Valid()
      modifies this, nodes, orders, pool
      ensures forall q: OrderQueue {:trigger q.Valid()} ::
        old(allocated(q)) && q != this && old(q.Valid()) ==> q.Valid() && unchanged(q)
      ensures Valid() && pool.Valid()
      ensures var i := Find(old(contents), id);
        if i == |old(contents)| then r == null && contents == old(contents)
        else
          && r != null && r in old(orders) && r.queue == null
          && r.View() == old(contents)[i].(status := Cancelled)
          && contents == Delete(old(contents), i)
      ensures forall n :: n in nodes ==> n in old(nodes)
      ensures forall n :: n in pool.free ==> n in old(pool.free) || n in old(nodes)
      ensures forall o :: o in orders ==> o in old(orders)
    {
      Lengths();
      r := Remove(id, pool);
      if r != null {
        r.MarkCancelled();
      }
    }

    /** Remove's work once the node is found. */
    method Detach(node: OrderNode, ghost i: nat, pool: NodePool) returns (r: Order)
      requires Valid() && pool.Valid()
      requires i < |nodes| && nodes[i] == node
      modifies this, nodes, orders`queue, pool
      ensures forall q: OrderQueue {:trigger q.Valid()} ::
        old(allocated(q)) && q != this && old(q.Valid()) ==> q.Valid() && unchanged(q)
      ensures Valid() && pool.Valid()
      ensures r == old(orders)[i] && r.queue == null
      ensures contents == Delete(old(contents), i)
      ensures orders == Delete(old(orders), i)
      ensures nodes == Delete(old(nodes), i)
      ensures pool.free == old(pool.free) + {node}
    {
      r := TakeOut(node, i);
      pool.Recycle(node);
    }

    /** Remove without the search and the pool. */
    method TakeOut(node: OrderNode, ghost i: nat) returns (order: Order)
      requires Valid() && i < |nodes| && nodes[i] == node
      modifies this, nodes, orders`queue
      ensures forall q: OrderQueue {:trigger q.Valid()} ::
        old(allocated(q)) && q != this && old(q.Valid()) ==> q.Valid() && unchanged(q)
      ensures Valid()
      ensures contents == Delete(old(contents), i)
      ensures orders == Delete(old(orders), i)
      ensures nodes == Delete(old(nodes), i)
      ensures order == old(orders)[i] && order.queue == null
      ensures node.queue == null && node !in nodes
    {
      hide OrderQueue.Linked;
      hide OrderQueue.Counted;
      hide Delete;
      Lengths();
      Apart(i);
      Single(i);
      GoneFrom(nodes, i);
      Unlink(node, i);
      order := node.order;
      CountOut(order, i);
      StillCarries(i);
    }

    /** One trade of the matching loop: the taker takes what it can from the order at the front. */
    method FillHead(taker: Order, symbol: string) returns (trade: Trade)
      requires Valid() && orders != [] && taker.queue == null
      modifies this`volume, this`contents, orders`filledQty, taker`filledQty
      ensures forall q: OrderQueue {:trigger q.Valid()} ::
        old(allocated(q)) && q != this && old(q.Valid()) ==> q.Valid() && unchanged(q)
      ensures Valid()
      ensures var t, m := old(taker.View()), old(contents)[0]; var q := TradeQty(t, m);
        && trade == MakeTrade(symbol, t, m, q)
        && taker.View() == Fill(t, q)
        && contents == old(contents)[0 := Fill(m, q)]
    {
      hide Depth;
      hide Decimal.Mul;
      hide OrderQueue.Linked;
      hide OrderQueue.Carries;
      HeadOrder();
      var maker := head.order;
      var tradeQty := taker.Remaining();
      var makerRemaining := maker.Remaining();
      if tradeQty > makerRemaining {
        tradeQty := makerRemaining;
      }
      var tradePrice := maker.price;
      var quoteQty := Decimal.Mul(tradePrice, tradeQty);
      trade := Trade(taker.id, maker.id, taker.user, maker.user, symbol, tradePrice, tradeQty, quoteQty, taker.side);
      hide OrderQueue.Counted;
      AddFill(taker, maker, tradeQty);
    }

    /** Add one fill to the taker and to the order at the front, and take it off the cached volume. */
    method AddFill(taker: Order, maker: Order, quantity: int)
      requires Valid() && orders != [] && maker == orders[0] && taker.queue == null
      modifies this`volume, this`contents, maker`filledQty, taker`filledQty
      ensures forall q: OrderQueue {:trigger q.Valid()} ::
        old(allocated(q)) && q != this && old(q.Valid()) ==> q.Valid() && unchanged(q)
      ensures Valid()
      ensures taker.View() == Fill(old(taker.View()), quantity)
      ensures contents == old(contents)[0 := Fill(old(contents)[0], quantity)]
    {
      hide Depth;
      hide OrderQueue.Linked;
      hide OrderQueue.Carries;
      Single(0);
      DepthUpdate(contents, Fill(contents[0], quantity));
      taker.filledQty := taker.filledQty + quantity;
      maker.filledQty := maker.filledQty + quantity;
      volume := volume - quantity;
      contents := contents[0 := maker.View()];
    }

    /** One trade with the front order, which leaves the queue when nothing remains of it. */
    method TradeHead(taker: Order, symbol: string, pool: NodePool) returns (trade: Trade)
      requires Valid() && pool.Valid() && contents != [] && taker.queue == null
      modifies this, nodes, orders, taker`filledQty, pool
      ensures forall q: OrderQueue {:trigger q.Valid()} ::
        old(allocated(q)) && q != this && old(q.Valid()) ==> q.Valid() && unchanged(q)
      ensures Valid() && pool.Valid()
      ensures var t, m := old(taker.View()), old(contents)[0]; var q := TradeQty(t, m);
        && trade == MakeTrade(symbol, t, m, q)
        && taker.View() == Fill(t, q)
        && contents == FillLevel(old(contents), q)
      ensures forall n :: n in nodes ==> n in old(nodes)
      ensures forall o :: o in orders ==> o in old(orders)
      ensures forall n :: n in pool.free ==> n in old(pool.free) || n in old(nodes)
      ensures old(orders[0]).IsFilled() ==> old(orders[0]).status == Filled && old(orders[0]).queue == null
    {
      var maker := head.order;
      trade := FillHead(taker, symbol);
      if maker.IsFilled() {
        var retired := RetireHead(pool);
      }
    }

    lemma HeadOrder()
      requires Valid() && orders != []
      ensures head != null && head.order == orders[0]
    {
    }

    /** The order at one position stands at no other. */
    lemma Single(i: nat)
      requires Linked() && Carries() && i < |orders|
      ensures forall j :: 0 <= j < |orders| && j != i ==> orders[j] != orders[i]
    {
      Apart(i);
    }

    /** Take the completely filled order off the front. */
    method RetireHead(pool: NodePool) returns (maker: Order)
      requires Valid() && pool.Valid() && orders != []
      modifies this, nodes, orders`queue, orders`status, pool
      ensures forall q: OrderQueue {:trigger q.Valid()} ::
        old(allocated(q)) && q != this && old(q.Valid()) ==> q.Valid() && unchanged(q)
      ensures Valid() && pool.Valid()
      ensures maker == old(orders[0]) && maker.status == Filled && maker.queue == null
      ensures contents == Delete(old(contents), 0) && orders == Delete(old(orders), 0) && nodes == Delete(old(nodes), 0)
      ensures pool.free == old(pool.free) + {old(nodes[0])}
    {
      maker := MarkFilled();
      assert Delete(contents, 0) == Delete(old(contents), 0);
      var _ := Pop(pool);
    }

    method MarkFilled() returns (maker: Order)
      requires Valid() && orders != []
      modifies this`contents, orders`status
      ensures forall q: OrderQueue {:trigger q.Valid()} ::
        old(allocated(q)) && q != this && old(q.Valid()) ==> q.Valid() && unchanged(q)
      ensures Valid() && maker == orders[0] && maker.status == Filled
      ensures contents == old(contents)[0 := old(contents)[0].(status := Filled)]
    {
      maker := head.order;
      Single(0);
      maker.status := Filled;
      contents := contents[0 := maker.View()];
    }
  }

  /** What stands nowhere else is gone once it is deleted. */
  lemma GoneFrom(nodes: seq<OrderNode>, i: nat)
    requires i < |nodes| && forall j :: 0 <= j < |nodes| && j != i ==> nodes[j] != nodes[i]
    ensures nodes[i] !in Delete(nodes, i)
  {
  }

  lemma {:induction false} DepthAppend(ms: seq<OrderView>, o: OrderView)
    ensures Depth(ms + [o]) == Depth(ms) + o.Remaining()
  {
    if ms != [] {
      assert (ms + [o])[1..] == ms[1..] + [o];
      DepthAppend(ms[1..], o);
    }
  }

  lemma DepthUpdate(ms: seq<OrderView>, o: OrderView)
    requires ms != []
    ensures Depth(ms[0 := o]) == Depth(ms) - ms[0].Remaining() + o.Remaining()
  {
    assert ms[0 := o][1..] == ms[1..];
  }

  lemma {:induction false} DepthDelete(ms: seq<OrderView>, i: nat)
    requires i < |ms|
    ensures Depth(Delete(ms, i)) == Depth(ms) - ms[i].Remaining()
  {
    if i > 0 {
      assert Delete(ms, i)[1..] == Delete(ms[1..], i - 1);
      assert ms[1..][i - 1] == ms[i];
      DepthDelete(ms[1..], i - 1);
    } else {
      assert Delete(ms, 0) == ms[1..];
    }
  }
}
