/** A queue of one slot, while the handler of its only timer runs. */
module SmallQueue {
  import opened TimerNodes
  import opened IdCursor
  import opened TimerQueues

  method WithOneTimer() returns (q: TimerQueue, t: TimerNode)
    ensures fresh(q) && fresh(q.heap) && fresh(q.idsArr) && fresh(q.nodesMpool) && fresh(q.nodesMpool.Nodes) && fresh(t)
    ensures q.Valid() && q.Steady() && q.maxHeapSize == 1 && q.limbo == {} && q.lent == {}
    ensures t.timerId == 0 && t.period == 1000 && q.timers == map[0 := t]
  {
    hide TimerQueue.Valid, TimerQueue.Steady, TimerQueue.CanSchedule;
    var queue := TimerQueue.TqInit(1, 10, 1, 8, 4096);
    q := queue;
    t := new TimerNode(0);
    t.period := 1000;
    EmptyQueue(q);
    var id := q.ScheduleTimer(t);
    q.LimboInRange();
  }

  lemma EmptyQueue(q: TimerQueue)
    requires q.Valid() && q.Steady() && q.timers == map[] && q.limbo == {} && q.maxHeapSize > 0
    ensures q.CanSchedule() && q.currHeapSize == 0
  {
    q.CanScheduleExactly();
    q.QueuedPlusLimbo();
  }

  /** A handler that cancels its own periodic timer is led to a heap slot that is out of use, and one
      that schedules another timer is given an id past the end of the index. */
  method InItsHandler() returns (q: TimerQueue, node: HNode, cancelled: Cancelled)
    ensures fresh(q) && q.Valid() && q.lent == {node} && node.nodeId == 0 && q.limbo == {0} && q.timers == map[]
    ensures cancelled == StaleSlot
    ensures !q.CanSchedule() && Next(q.IdsNow()).1 == q.maxHeapSize == 1
  {
    hide TimerQueue.Valid, TimerQueue.Steady, TimerQueue.CanSchedule, Next;
    var queue, t := WithOneTimer();
    q := queue;
    assert 0 in q.timers;
    Owned(q);
    var tnode;
    node, tnode := q.BeginDispatch();
    NothingQueued(q);
    cancelled := q.CancelTimer(0);
    NothingQueued(q);
    q.CanScheduleExactly();
  }

  lemma Owned(q: TimerQueue)
    requires q.Valid()
    ensures q.nodesMpool.Taken <= q.nodesMpool.Nodes
  {
  }

  lemma NothingQueued(q: TimerQueue)
    requires q.Valid() && q.timers == map[]
    ensures q.currHeapSize == 0
  {
    q.QueuedPlusLimbo();
  }
}
