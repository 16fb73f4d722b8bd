/** The timers of one batch, in the one queue of the batch: what is queued, seen timer by
    timer instead of id by id. The queue is sized so that it always has room for all of them. */
module BatchTimer {
  import opened TimerNodes
  import opened TimerQueues

  /** What the queue holds for a timer; the id of a periodic timer stays its own while its
      handler runs. */
  datatype Timer =
    | Off
    | Armed(id: nat, next: nat, period: nat, handler: Handler)
    | Running(id: nat, period: nat, handler: Handler)

  class BatchTimers {
    const tq: TimerQueue
    const nodes: seq<TimerNode>

    /** The view, timer by timer; the timer whose handler is running, or -1, and its node. */
    ghost var view: seq<Timer>
    ghost var current: int
    ghost var held: HNode?

    ghost predicate QueueOk()
      reads tq, tq.heap, tq.idsArr, tq.nodesMpool, tq.nodesMpool.Nodes, tq.nodesMpool.Taken, tq.timers.Values
    {
      tq.Valid() && tq.Steady() && tq.maxHeapSize == |nodes|
    }

    /** A timer's node and the queue say what the view says. */
    ghost predicate NodeOk(i: nat)
      requires i < |nodes| == |view|
      reads this`view, tq`timers, tq`limbo, nodes[i]
    {
      var n := nodes[i];
      n.owner == i &&
      match view[i]
      case Off => true
      case Armed(id, next, period, handler) =>
        && id in tq.timers && tq.timers[id] == n && n.timerId == id
        && n.nextTimer == next && n.period == period && n.handler == handler
      case Running(id, period, handler) =>
        id in tq.limbo && n.timerId == id && n.period == period > 0 && n.handler == handler
    }

    /** An id of the queue is that of an armed timer. */
    ghost predicate IdOk(id: nat)
      requires id in tq.timers && |nodes| == |view|
      reads this`view, tq`timers
    {
      var i := tq.timers[id].owner;
      i < |nodes| && nodes[i] == tq.timers[id] && view[i].Armed? && view[i].id == id
    }

    ghost predicate ViewOk()
      reads this`view, tq`timers, tq`limbo, nodes
    {
      && |nodes| == |view|
      && (forall i :: 0 <= i < |nodes| ==> nodes[i] in nodes && NodeOk(i))
      && (forall id :: id in tq.timers ==> IdOk(id))
    }

    /** At most one handler runs. */
    ghost predicate HeldOk()
      reads this, tq`limbo, tq`lent, nodes, held
    {
      && |nodes| == |view| && -1 <= current < |nodes|
      && (forall i :: 0 <= i < |view| && view[i].Running? ==> i == current)
      && (held == null <==> current == -1)
      && (current == -1 ==> tq.limbo == {} && tq.lent == {})
      && (current != -1 ==>
           && tq.lent == {held} && held.ctx == nodes[current]
           && (if view[current].Running? then tq.limbo == {view[current].id} && held.nodeId == view[current].id
               else tq.limbo == {} && nodes[current].period == 0))
    }

    ghost predicate Ok()
      reads this, nodes, held, tq, tq.heap, tq.idsArr, tq.nodesMpool, tq.nodesMpool.Nodes, tq.nodesMpool.Taken
      reads tq.timers.Values
    {
      QueueOk() && ViewOk() && HeldOk()
    }

    /** All objects the timers are made of. */
    ghost function Own(): (own: set<object>)
      reads this, tq, tq.nodesMpool
    {
      {this, tq, tq.heap, tq.idsArr, tq.nodesMpool} + (set n: object | n in nodes) + tq.nodesMpool.Nodes
    }

    /** What the timers are made of now they were made of before, or it has been allocated since. */
    twostate predicate OwnsOnlyNew()
      reads this, tq, tq.nodesMpool
    {
      forall o :: o in Own() ==> o in old(Own()) || fresh(o)
    }

    constructor (tq: TimerQueue, nodes: seq<TimerNode>)
      requires tq.Valid() && tq.Steady() && tq.maxHeapSize == |nodes| && tq.timers == map[] && tq.limbo == {}
      requires tq.lent == {}
      requires forall i :: 0 <= i < |nodes| ==> nodes[i].owner == i
      ensures Ok() && this.tq == tq && this.nodes == nodes
      ensures |view| == |nodes| && (forall i :: 0 <= i < |view| ==> view[i] == Off) && current == -1
    {
      this.tq, this.nodes := tq, nodes;
      view, current, held := seq(|nodes|, _ => Off), -1, null;
    }

    /** A timer that is not armed is not queued. */
    lemma Unqueued(i: nat)
      requires ViewOk() && i < |view| && !view[i].Armed?
      ensures nodes[i] !in tq.timers.Values
    {
      assert NodeOk(i);
      forall id | id in tq.timers ensures tq.timers[id] != nodes[i] {
        assert IdOk(id);
      }
    }

    ghost function RunningNodes(): (s: set<TimerNode>)
      requires HeldOk()
      reads this, tq`limbo, tq`lent, nodes, held
      ensures |s| == |tq.limbo|
    {
      if current != -1 && view[current].Running? then {nodes[current]} else {}
    }

    /** While one timer is off, fewer ids than timers are in use. */
    lemma FewerIds(i: nat)
      requires ViewOk() && HeldOk() && i < |view| && view[i].Off?
      ensures |tq.timers| + |tq.limbo| < |nodes|
    {
      var running := RunningNodes();
      Unqueued(i);
      assert NodeOk(i);
      if current != -1 && view[current].Running? {
        Unqueued(current);
        assert NodeOk(current);
      }
      forall id | id in tq.timers ensures tq.timers[id].timerId == id && tq.timers[id] in nodes {
        assert IdOk(id) && NodeOk(tq.timers[id].owner);
      }
      Fewer(tq.timers, running, nodes[i], nodes);
    }

    /** The queue has room for every timer that is off. */
    lemma RoomFor(i: nat)
      requires Ok() && i < |view| && view[i].Off?
      ensures tq.currHeapSize < tq.maxHeapSize && tq.CanSchedule()
    {
      FewerIds(i);
      hide BatchTimers.ViewOk, BatchTimers.HeldOk;
      tq.QueuedPlusLimbo();
      var ids := tq.timers.Keys + tq.limbo;
      tq.SteadyHasFreshId(ids);
    }

    /** The fields of a timer that is not queued are filled in. */
    method Prepare(n: TimerNode, next: nat, period: nat, handler: Handler)
      requires QueueOk() && n !in tq.timers.Values
      modifies n`nextTimer, n`period, n`handler
      ensures QueueOk() && tq.CanSchedule() == old(tq.CanSchedule())
      ensures n.nextTimer == next && n.period == period && n.handler == handler
    {
      hide TimerQueue.Valid, TimerQueue.Steady, TimerQueue.CanSchedule;
      tq.SetNextTimer(n, next);
      n.period := period;
      n.handler := handler;
    }

    method Schedule(n: TimerNode) returns (id: int)
      requires QueueOk() && tq.CanSchedule() && tq.currHeapSize < tq.maxHeapSize
      requires n.period == 0 || n.period >= RESOLUTION
      modifies tq, tq.heap, tq.idsArr, tq.nodesMpool, tq.nodesMpool.Nodes, n`timerId
      ensures QueueOk() && id >= 0 && id !in old(tq.timers) && tq.timers == old(tq.timers)[id := n]
      ensures tq.limbo == old(tq.limbo) && tq.lent == old(tq.lent) && tq.OwnsOnlyNew() && tq.LentKept()
      ensures n.timerId == id
    {
      hide TimerQueue.Valid, TimerQueue.Steady, TimerQueue.CanSchedule, TimerQueue.OwnsOnlyNew, TimerQueue.LentKept;
      id := tq.ScheduleTimer(n);
    }

    /** The view after one timer's node has changed and the queue gained or lost that timer. */
    twostate lemma ViewKept(new i: nat)
      requires old(ViewOk() && HeldOk()) && i < |nodes| == |view| && view == old(view)[i := view[i]]
      requires forall j :: 0 <= j < |nodes| && j != i ==> unchanged(nodes[j])
      requires NodeOk(i) && forall id :: id in tq.timers && tq.timers[id] == nodes[i] ==> IdOk(id)
      requires forall id :: id in tq.timers && tq.timers[id] != nodes[i] ==>
        id in old(tq.timers) && tq.timers[id] == old(tq.timers)[id]
      requires forall id :: id in old(tq.timers) && old(tq.timers)[id] != nodes[i] ==>
        id in tq.timers && tq.timers[id] == old(tq.timers)[id]
      requires tq.limbo == old(tq.limbo)
      ensures ViewOk()
    {
      forall j | 0 <= j < |nodes| ensures nodes[j] in nodes && NodeOk(j) {
        assert old(NodeOk(j));
      }
      forall id | id in tq.timers ensures IdOk(id) {
        if tq.timers[id] != nodes[i] {
          assert old(IdOk(id));
        }
      }
    }

    /** Arming timer i, seen in the view. */
    twostate lemma ArmedKeeps(new i: nat, new id: nat)
      requires old(ViewOk() && HeldOk()) && i < |nodes| && old(view)[i].Off?
      requires view == old(view)[i := Armed(id, nodes[i].nextTimer, nodes[i].period, nodes[i].handler)]
      requires nodes[i].timerId == id
      requires nodes[i].period != 0 ==> i != current
      requires forall n :: n in nodes && n != nodes[i] ==> unchanged(n)
      requires id !in old(tq.timers) && tq.timers == old(tq.timers)[id := nodes[i]]
      requires tq.limbo == old(tq.limbo) && tq.lent == old(tq.lent)
      requires old(held) != null ==> old(held).nodeId == old(held.nodeId) && old(held).ctx == old(held.ctx)
      requires current == old(current) && held == old(held)
      ensures ViewOk() && HeldOk()
    {
      WasUnqueued(i);
      forall j | 0 <= j < |nodes| && j != i ensures unchanged(nodes[j]) {
        assert old(NodeOk(i)) && old(NodeOk(j));
      }
      assert IdOk(id) by {
        assert old(NodeOk(i));
      }
      ViewKept(i);
    }

    twostate lemma WasUnqueued(new i: nat)
      requires old(ViewOk()) && i < |nodes| && !old(view)[i].Armed?
      ensures nodes[i] !in old(tq.timers.Values)
    {
      assert old(NodeOk(i));
      forall id | id in old(tq.timers) ensures old(tq.timers)[id] != nodes[i] {
        assert old(IdOk(id));
      }
    }

    lemma SizesAndHeld()
      requires Ok()
      ensures tq.lent <= tq.nodesMpool.Taken <= tq.nodesMpool.Nodes
      ensures |nodes| == |view| && -1 <= current < |view|
      ensures tq.lent == if held == null then {} else {held}
    {
    }

    method PrepareAndSchedule(n: TimerNode, next: nat, period: nat, handler: Handler) returns (id: int)
      requires QueueOk() && n !in tq.timers.Values && tq.CanSchedule() && tq.currHeapSize < tq.maxHeapSize
      requires period == 0 || period >= RESOLUTION
      modifies n, tq, tq.heap, tq.idsArr, tq.nodesMpool, tq.nodesMpool.Nodes
      ensures QueueOk() && id >= 0 && id !in old(tq.timers) && tq.timers == old(tq.timers)[id := n]
      ensures tq.limbo == old(tq.limbo) && tq.lent == old(tq.lent) && tq.OwnsOnlyNew() && tq.LentKept()
      ensures n.timerId == id && n.nextTimer == next && n.period == period && n.handler == handler
    {
      hide BatchTimers.QueueOk, TimerQueue.CanSchedule;
      Prepare(n, next, period, handler);
      id := Schedule(n);
    }

    /** A timer that is off goes into the queue, under a new id. */
    method Arm(i: nat, next: nat, period: nat, handler: Handler) returns (id: int)
      requires Ok() && i < |view| && view[i].Off? && (period == 0 || (period >= RESOLUTION && i != current))
      modifies Own()
      ensures Ok() && OwnsOnlyNew() && id >= 0 && view == old(view)[i := Armed(id, next, period, handler)]
      ensures current == old(current) && held == old(held)
    {
      hide BatchTimers.QueueOk, TimerQueue.CanSchedule, BatchTimers.ViewOk, BatchTimers.HeldOk;
      RoomFor(i);
      Unqueued(i);
      SizesAndHeld();
      id := PrepareAndSchedule(nodes[i], next, period, handler);
      view := view[i := Armed(id, next, period, handler)];
      ArmedKeeps(i, id);
    }

    lemma Queued(i: nat)
      requires QueueOk() && ViewOk() && i < |view| && view[i].Armed?
      ensures view[i].id in tq.timers && tq.timers[view[i].id] == nodes[i] && view[i].id !in tq.limbo
      ensures view[i].id < tq.maxHeapSize
      ensures nodes[i].timerId == view[i].id && nodes[i].nextTimer == view[i].next
      ensures nodes[i].period == view[i].period && nodes[i].handler == view[i].handler
    {
      assert NodeOk(i);
    }

    /** Disarming timer i, seen in the view. */
    twostate lemma DisarmedKeeps(new i: nat)
      requires old(ViewOk() && HeldOk()) && i < |nodes| && old(view)[i].Armed? && view == old(view)[i := Off]
      requires forall n :: n in nodes ==> unchanged(n)
      requires tq.timers == old(tq.timers) - {old(view)[i].id}
      requires tq.limbo == old(tq.limbo) && tq.lent == old(tq.lent)
      requires old(held) != null ==> old(held).nodeId == old(held.nodeId) && old(held).ctx == old(held.ctx)
      requires current == old(current) && held == old(held)
      ensures ViewOk() && HeldOk()
    {
      assert old(NodeOk(i));
      assert forall id :: id in tq.timers ==> tq.timers[id] != nodes[i] by {
        forall id | id in tq.timers ensures tq.timers[id] != nodes[i] {
          assert old(IdOk(id));
        }
      }
      ViewKept(i);
    }

    /** An armed timer is taken out of the queue. */
    method Disarm(ghost i: nat, id: int) returns (r: int)
      requires Ok() && i < |view| && view[i].Armed? && view[i].id == id
      modifies Own()
      ensures Ok() && OwnsOnlyNew() && r == 0 && view == old(view)[i := Off]
      ensures current == old(current) && held == old(held)
    {
      hide BatchTimers.QueueOk, BatchTimers.ViewOk, BatchTimers.HeldOk;
      SizesAndHeld();
      Queued(i);
      r := Withdraw(id);
      view := view[i := Off];
      DisarmedKeeps(i);
    }

    method Withdraw(id: int) returns (r: int)
      requires QueueOk() && id in tq.timers && id !in tq.limbo && id < tq.maxHeapSize
      modifies tq, tq.heap, tq.idsArr, tq.nodesMpool, tq.nodesMpool.Taken
      ensures QueueOk() && tq.OwnsOnlyNew() && r == 0 && tq.timers == old(tq.timers) - {id}
      ensures tq.limbo == old(tq.limbo) && tq.lent == old(tq.lent) && tq.LentKept()
    {
      hide TimerQueue.Valid, TimerQueue.Steady;
      var c := tq.CancelTimer(id);
      r := c.r;
    }

    /** Whether no armed timer is due before timer i. */
    ghost predicate First(i: nat)
      reads this`view
    {
      i < |view| && view[i].Armed? && forall j :: 0 <= j < |view| && view[j].Armed? ==> view[i].next <= view[j].next
    }

    lemma NearestInView(id: nat, t: TimerNode)
      requires QueueOk() && ViewOk() && tq.IsNearest(tq.timers, id, t)
      ensures t.owner < |nodes| && nodes[t.owner] == t && First(t.owner) && view[t.owner].id == id
    {
      assert IdOk(id);
      var i := t.owner;
      assert NodeOk(i);
      forall j | 0 <= j < |view| && view[j].Armed? ensures view[i].next <= view[j].next {
        Queued(j);
      }
    }

    /** tq_empty, and tq_time_to_nearest_timer. */
    method Nearest() returns (empty: bool, time: nat)
      requires Ok()
      ensures empty ==> forall j :: 0 <= j < |view| ==> !view[j].Armed?
      ensures !empty ==> exists i: nat :: First(i) && view[i].next == time
    {
      hide BatchTimers.QueueOk, BatchTimers.ViewOk, BatchTimers.HeldOk, BatchTimers.First;
      SizesAndHeld();
      empty := Empty();
      if empty {
        forall j | 0 <= j < |view| ensures !view[j].Armed? {
          if view[j].Armed? {
            Queued(j);
          }
        }
        return true, 0;
      }
      time := TimeToNearest();
      ghost var id :| id in tq.timers && tq.timers[id].nextTimer == time && tq.IsNearest(tq.timers, id, tq.timers[id]);
      NearestInView(id, tq.timers[id]);
      Queued(tq.timers[id].owner);
    }

    method Empty() returns (empty: bool)
      requires QueueOk()
      ensures empty <==> tq.timers == map[]
    {
      tq.QueuedPlusLimbo();
      empty := tq.currHeapSize == 0;
    }

    method TimeToNearest() returns (time: nat)
      requires QueueOk() && tq.timers != map[]
      ensures exists id ::
        id in tq.timers && tq.timers[id].nextTimer == time && tq.IsNearest(tq.timers, id, tq.timers[id])
    {
      hide TimerQueue.Valid;
      time := tq.TimeToNearestTimer();
      ghost var id :| id in tq.timers && tq.timers[id].nextTimer == time;
      assert tq.IsNearest(tq.timers, id, tq.timers[id]);
    }

    /** Popping timer i for dispatch, seen in the view. */
    twostate lemma PoppedKeeps(new i: nat, new node: HNode)
      requires old(ViewOk() && HeldOk()) && old(current) == -1 && i < |nodes| && old(view)[i].Armed?
      requires view == old(view)[i := Popped(old(view)[i])] && current == i && held == node
      requires forall n :: n in nodes ==> unchanged(n)
      requires tq.timers == old(tq.timers) - {old(view)[i].id} && tq.lent == {node}
      requires tq.limbo == if nodes[i].period != 0 then {old(view)[i].id} else {}
      requires node.nodeId == old(view)[i].id && node.ctx == nodes[i]
      ensures ViewOk() && HeldOk()
    {
      assert old(NodeOk(i));
      forall id | id in tq.timers ensures tq.timers[id] != nodes[i] && IdOk(id) {
        assert old(IdOk(id));
      }
      forall j | 0 <= j < |nodes| ensures nodes[j] in nodes && NodeOk(j) {
        assert old(NodeOk(j));
      }
    }

    method Pop() returns (node: HNode, tnode: TimerNode, ghost id: nat)
      requires QueueOk() && tq.timers != map[] && tq.limbo == {} && tq.lent == {}
      modifies tq, tq.heap, tq.idsArr
      ensures QueueOk() && tq.OwnsOnlyNew() && node.ctx == tnode && tq.lent == {node}
      ensures node.nodeId == id && old(tq.IsNearest(tq.timers, id, tnode)) && tq.timers == old(tq.timers) - {id}
      ensures tq.limbo == if old(tnode.period) != 0 then {id} else {}
    {
      hide TimerQueue.Valid, TimerQueue.Steady;
      ghost var before := tq.entries;
      node, tnode := tq.BeginDispatch();
      id := before[0].id;
    }

    /** The node that is popped is that of a first timer. */
    method PopFirst() returns (node: HNode, i: nat)
      requires QueueOk() && ViewOk() && tq.timers != map[] && tq.limbo == {} && tq.lent == {}
      modifies tq, tq.heap, tq.idsArr
      ensures QueueOk() && tq.OwnsOnlyNew() && tq.lent == {node} && old(First(i)) && i < |nodes| == |view|
      ensures view[i].Armed? && tq.timers == old(tq.timers) - {view[i].id}
      ensures node.ctx == nodes[i] && node.nodeId == view[i].id && nodes[i].handler == view[i].handler
      ensures tq.limbo == if nodes[i].period != 0 then {view[i].id} else {}
    {
      hide BatchTimers.QueueOk, BatchTimers.ViewOk, BatchTimers.First;
      SizesOnly();
      var tnode;
      ghost var id;
      node, tnode, id := Pop();
      i := tnode.owner;
      WasNearest(id, tnode);
    }

    lemma SizesOnly()
      requires ViewOk()
      ensures |nodes| == |view|
    {
    }

    /** The first half of tq_dispatch_nearest_timer. */
    method Begin() returns (node: HNode, i: nat)
      requires Ok() && current == -1 && exists j :: 0 <= j < |view| && view[j].Armed?
      modifies Own()
      ensures Ok() && OwnsOnlyNew() && old(First(i)) && current == i < |nodes| && held == node
      ensures view == old(view)[i := Popped(old(view)[i])] && nodes[i].handler == old(view)[i].handler
    {
      hide BatchTimers.QueueOk, BatchTimers.ViewOk, BatchTimers.HeldOk, BatchTimers.First;
      hide Popped;
      NoneHeld();
      SomeQueued();
      node, i := PopFirst();
      view, current, held := view[i := Popped(view[i])], i, node;
      PoppedKeeps(i, node);
    }

    lemma SomeQueued()
      requires QueueOk() && ViewOk() && exists j :: 0 <= j < |view| && view[j].Armed?
      ensures tq.timers != map[]
    {
      var j :| 0 <= j < |view| && view[j].Armed?;
      Queued(j);
    }

    lemma NoneHeld()
      requires HeldOk() && current == -1
      ensures tq.limbo == {} && tq.lent == {} && held == null
    {
    }

    twostate lemma WasNearest(new id: nat, new t: TimerNode)
      requires old(QueueOk() && ViewOk()) && allocated(t)
      requires old(allocated(t) && tq.IsNearest(tq.timers, id, t))
      requires view == old(view)
      requires forall n :: n in nodes ==> unchanged(n)
      ensures t.owner < |nodes| && nodes[t.owner] == t && old(First(t.owner)) && old(view)[t.owner].id == id
      ensures t.period == old(view)[t.owner].period && t.handler == old(view)[t.owner].handler
    {
      assert old(IdOk(id));
      var i := t.owner;
      assert old(NodeOk(i));
      forall j | 0 <= j < |old(view)| && old(view)[j].Armed? ensures old(view)[i].next <= old(view)[j].next {
        assert old(NodeOk(j));
      }
    }

    lemma HeldNode()
      requires QueueOk() && ViewOk() && HeldOk() && current != -1
      ensures held != null && tq.lent == {held} && held.ctx == nodes[current] && nodes[current].owner == current
      ensures !view[current].Running? ==> nodes[current].period == 0 && tq.limbo == {}
      ensures view[current].Running? ==>
        && nodes[current].timerId == view[current].id == held.nodeId && tq.limbo == {view[current].id}
        && nodes[current].period == view[current].period > 0 && nodes[current].handler == view[current].handler
        && nodes[current] !in tq.timers.Values && view[current].id !in tq.timers
    {
      assert NodeOk(current);
      if view[current].Running? {
        Unqueued(current);
      }
    }

    method Settle(node: HNode, tnode: TimerNode, nowTime: nat, rval: int) returns (r: int)
      requires QueueOk() && tq.lent == {node} && node.ctx == tnode
      requires tnode.period != 0 ==>
        tnode.timerId == node.nodeId && tq.limbo == {node.nodeId} && tnode !in tq.timers.Values
      requires tnode.period == 0 ==> tq.limbo == {}
      modifies tq, tq.heap, tq.idsArr, tq.nodesMpool, node, tnode`nextTimer
      ensures QueueOk() && tq.OwnsOnlyNew() && tq.lent == {} && tq.limbo == {} && r == rval
      ensures rval == 0 && tnode.period != 0 ==>
        tnode.nextTimer == nowTime + tnode.period && tq.timers == old(tq.timers)[tnode.timerId := tnode]
      ensures !(rval == 0 && tnode.period != 0) ==>
        tnode.nextTimer == old(tnode.nextTimer) && tq.timers == old(tq.timers)
    {
      hide TimerQueue.Valid, TimerQueue.Steady;
      tq.LimboInRange();
      r := tq.EndDispatch(node, tnode, nowTime, rval);
    }

    /** The end of a dispatch, seen in the view. */
    twostate lemma FinishedKeeps(nowTime: nat, new rval: int)
      requires old(ViewOk() && HeldOk()) && 0 <= old(current) < |nodes| && current == -1 && held == null
      requires view == old(view)[old(current) := Finished(old(view)[old(current)], nowTime, rval)]
      requires forall n :: n in nodes && n != nodes[old(current)] ==> unchanged(n)
      requires var n := nodes[old(current)];
        && n.timerId == old(n.timerId) && n.period == old(n.period) && n.handler == old(n.handler)
        && (if rval == 0 && n.period != 0 then
              && n.nextTimer == nowTime + n.period && n.timerId >= 0 && n.timerId !in old(tq.timers)
              && tq.timers == old(tq.timers)[n.timerId := n]
            else n.nextTimer == old(n.nextTimer) && tq.timers == old(tq.timers))
      requires tq.limbo == {} && tq.lent == {}
      ensures ViewOk() && HeldOk()
    {
      var c := old(current);
      assert old(NodeOk(c));
      forall j | 0 <= j < |nodes| ensures nodes[j] in nodes && NodeOk(j) {
        assert old(NodeOk(j));
      }
      forall id | id in tq.timers ensures IdOk(id) {
        if id in old(tq.timers) {
          assert old(IdOk(id));
        }
      }
    }

    /** The second half of tq_dispatch_nearest_timer, given what the handler returned. */
    method Finish(node: HNode, i: nat, nowTime: nat, rval: int) returns (r: int)
      requires Ok() && current == i && held == node
      modifies Own()
      ensures Ok() && OwnsOnlyNew() && current == -1 && r == rval
      ensures view == old(view)[i := Finished(old(view)[i], nowTime, rval)]
    {
      hide BatchTimers.QueueOk, BatchTimers.ViewOk, BatchTimers.HeldOk;
      SizesAndHeld();
      HeldNode();
      r := Settle(node, nodes[i], nowTime, rval);
      view, current, held := view[current := Finished(view[current], nowTime, rval)], -1, null;
      FinishedKeeps(nowTime, rval);
    }
  }

  /** What is left in the view of a timer that is being dispatched. */
  function Popped(t: Timer): Timer {
    if t.Armed? && t.period != 0 then Running(t.id, t.period, t.handler) else Off
  }

  /** What the dispatch leaves in the view once the handler has returned. */
  ghost function Finished(t: Timer, nowTime: nat, rval: int): Timer {
    if !t.Running? then t
    else if rval == 0 then Armed(t.id, nowTime + t.period, t.period, t.handler) else Off
  }

  lemma Fewer(timers: map<nat, TimerNode>, running: set<TimerNode>, off: TimerNode, nodes: seq<TimerNode>)
    requires forall id :: id in timers ==> timers[id].timerId == id && timers[id] in nodes
    requires running !! timers.Values && off !in timers.Values && off !in running && off in nodes
    requires forall t :: t in running ==> t in nodes
    ensures |timers| + |running| < |nodes|
  {
    ValuesCardinality(timers);
    NodeSetCardinality(nodes);
    var used := timers.Values + running + {off};
    assert |used| == |timers.Values| + |running| + 1;
    CardinalitySubset(used, NodeSetOf(nodes));
  }

  ghost function NodeSetOf(s: seq<TimerNode>): set<TimerNode> {
    set t | t in s
  }

  lemma {:induction false} NodeSetCardinality(s: seq<TimerNode>)
    ensures |NodeSetOf(s)| <= |s|
  {
    if s != [] {
      NodeSetCardinality(s[1..]);
      assert NodeSetOf(s) == {s[0]} + NodeSetOf(s[1..]);
    }
  }

  lemma CardinalitySubset<T>(a: set<T>, b: set<T>)
    requires a <= b
    ensures |a| <= |b|
  {
    assert b == a + (b - a);
  }

  /** Timers that know their ids are queued at most once. */
  lemma {:induction false} ValuesCardinality(m: map<nat, TimerNode>)
    requires forall id :: id in m ==> m[id].timerId == id
    ensures |m.Values| == |m|
  {
    if m == map[] {
      assert m.Values == {};
    } else {
      var id :| id in m;
      var rest := m - {id};
      ValuesCardinality(rest);
      assert m.Values == rest.Values + {m[id]} by {
        forall t | t in m.Values ensures t in rest.Values + {m[id]} {
          var k :| k in m && m[k] == t;
          assert k == id || (k in rest && rest[k] == t);
        }
      }
      assert m[id] !in rest.Values;
      assert |m.Keys| == |rest.Keys + {id}|;
    }
  }
}
