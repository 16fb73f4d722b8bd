/** heap.c and timer_queue.c: a binary heap of pool nodes with an index from timer ids to
    slots. The abstract value is the map `timers` from ids to timers, next to `limbo`, the
    ids kept reserved for periodic timers whose handler is running. */
module TimerQueues {
  import opened TimerNodes
  import opened MemoryPool
  import opened HeapOrder
  import opened IdCursor

  const RESOLUTION: nat := 9

  /** What a call that takes a timer id comes to: an answer, or a read one past the end of the index,
      or a read of a heap slot that is out of use. */
  datatype Cancelled = Answer(r: int) | PastIndex | StaleSlot

  ghost function Ids(s: seq<Entry>): set<nat> {
    set e | e in s :: e.id
  }

  /** timer_node_comparator. */
  predicate Less(left: HNode, right: HNode)
    requires left.ctx != null && right.ctx != null
    reads left, right, left.ctx, right.ctx
  {
    left.ctx.nextTimer < right.ctx.nextTimer
  }

  class TimerQueue {
    var heap: array<HNode?>
    var maxHeapSize: nat
    var currHeapSize: nat
    var heapIncreaseStep: nat
    var idsArr: array<int>
    var idsLast: nat
    var idsMinFree: nat
    var idsMinFreeRestore: nat
    const nodesMpool: MPool

    /** The queued entries by slot; the queued timers by id; the ids in limbo; and the pool
        nodes that are neither free nor queued. */
    ghost var entries: seq<Entry>
    ghost var timers: map<nat, TimerNode>
    ghost var limbo: set<nat>
    ghost var lent: set<HNode>

    constructor (initialHeapSize: nat, increaseStep: nat, pool: MPool)
      requires initialHeapSize > 0 && pool.Valid() && pool.increaseStep > 0 && pool.Taken == {}
      ensures Valid() && Steady() && timers == map[] && limbo == {} && lent == {}
      ensures fresh(heap) && fresh(idsArr) && nodesMpool == pool
      ensures maxHeapSize == initialHeapSize && heapIncreaseStep == increaseStep
    {
      heap := new HNode?[initialHeapSize];
      idsArr := new int[initialHeapSize](_ => -1);
      maxHeapSize, currHeapSize, heapIncreaseStep := initialHeapSize, 0, increaseStep;
      idsLast, idsMinFree, idsMinFreeRestore := 0, 0, 0;
      nodesMpool := pool;
      entries, timers, limbo, lent := [], map[], {}, {};
    }

    /** tq_init: null where the source reports an error. `chunk` is nine tenths of a page. */
    static method TqInit(initialSize: nat, increaseStep: nat, nodesNum: int, nodeSize: nat,
                         chunk: nat) returns (tq: TimerQueue?)
      ensures tq == null <==> initialSize == 0 || nodeSize == 0 || nodesNum <= 0 || Aligned(nodeSize) > chunk
      ensures tq != null ==>
        fresh(tq) && fresh(tq.heap) && fresh(tq.idsArr) && fresh(tq.nodesMpool) && fresh(tq.nodesMpool.Nodes)
      ensures tq != null ==> tq.Valid() && tq.Steady() && tq.timers == map[] && tq.limbo == {} && tq.lent == {}
      ensures tq != null ==> tq.maxHeapSize == initialSize && tq.heapIncreaseStep == increaseStep
    {
      tq := null;
      if initialSize == 0 {
        return;
      }
      var pool := new MPool();
      var r := pool.Init(nodeSize, nodesNum, chunk);
      if r == -1 {
        return;
      }
      assert pool.Taken == {};
      tq := new TimerQueue(initialSize, increaseStep, pool);
    }

    /** The arrays agree with the entries: slot i holds entry i and its id points back to i. */
    ghost predicate Placed(v: seq<Entry>, hole: int)
      reads this`heap, this`idsArr, this`maxHeapSize, heap, idsArr
    {
      && heap.Length == idsArr.Length == maxHeapSize
      && |v| <= maxHeapSize
      && (forall i :: 0 <= i < |v| ==> v[i].id < maxHeapSize)
      && (forall i :: 0 <= i < |v| && i != hole ==> heap[i] == v[i].node && idsArr[v[i].id] == i)
      && (0 <= hole < |v| ==> forall i :: 0 <= i < |v| && i != hole ==> v[i].id != v[hole].id)
    }

    ghost predicate EntryOk(e: Entry)
      reads this`timers, this`limbo, this`lent, nodesMpool`Taken, e.node, e.timer
    {
      && e.id !in limbo && e.id in timers && timers[e.id] == e.timer
      && e.node in nodesMpool.Taken && e.node !in lent
      && e.node.nodeId == e.id && e.node.ctx == e.timer && e.timer.nextTimer == e.key
    }

    /** Every entry of v is one of the queue's own: its node and timer say what it says. */
    ghost predicate AllOk(v: seq<Entry>)
      reads this`timers, this`limbo, this`lent, nodesMpool`Taken, nodesMpool.Taken, timers.Values
    {
      forall e :: e in v ==> e.node in nodesMpool.Taken && e.id in timers && e.timer == timers[e.id] && EntryOk(e)
    }

    /** Ids outside `keys` have the index entries they had in `ids`. */
    ghost predicate Kept(ids: seq<int>, keys: set<nat>)
      reads this`idsArr, idsArr
    {
      |ids| == idsArr.Length && forall id :: 0 <= id < |ids| && id !in keys ==> idsArr[id] == ids[id]
    }

    /** heap_put_node_to_slot. */
    method PutNodeToSlot(slot: nat, nd: HNode)
      requires slot < heap.Length && 0 <= nd.nodeId < idsArr.Length
      modifies heap, idsArr
      ensures heap[..] == old(heap[..])[slot := nd]
      ensures idsArr[..] == old(idsArr[..])[nd.nodeId := slot]
    {
      heap[slot] := nd;
      idsArr[nd.nodeId] := slot;
    }

    /** A sift in progress: v is the heap with the target already in the hole. */
    ghost predicate Sifting(v: seq<Entry>, hole: int, ids: seq<int>, keys: set<nat>)
      reads this, heap, idsArr, nodesMpool, nodesMpool.Taken, timers.Values
    {
      Placed(v, hole) && AllOk(v) && Ids(v) == keys && Kept(ids, keys)
    }

    /** One step of a sift: the node at `src` moves into the hole, the hole moves to `src`. */
    method MoveIntoHole(hole: nat, src: nat, ghost v: seq<Entry>, ghost ids: seq<int>, ghost keys: set<nat>)
      requires Placed(v, hole) && Kept(ids, keys)
      requires hole < |v| && src < |v| && hole != src
      requires v[src].id in keys && v[src].node.nodeId == v[src].id
      modifies heap, idsArr
      ensures Placed(Swap(v, hole, src), src) && Kept(ids, keys)
    {
      PutNodeToSlot(hole, heap[src]);
      ghost var w := Swap(v, hole, src);
      assert idsArr[..][v[src].id] == hole;
      forall i | 0 <= i < |w| && i != src
        ensures heap[i] == w[i].node && idsArr[w[i].id] == i
      {
        assert heap[..][i] == heap[i] && idsArr[..][w[i].id] == idsArr[w[i].id];
      }
      forall id | 0 <= id < idsArr.Length && id !in keys
        ensures idsArr[id] == ids[id]
      {
        assert idsArr[..][id] == idsArr[id];
      }
    }

    method ShiftNode(hole: nat, src: nat, ghost v: seq<Entry>, ghost ids: seq<int>, ghost keys: set<nat>)
      requires Sifting(v, hole, ids, keys)
      requires hole < |v| && src < |v| && hole != src
      modifies heap, idsArr
      ensures Sifting(Swap(v, hole, src), src, ids, keys)
    {
      assert v[src] in v;
      SwapKeeps(v, hole, src);
      MoveIntoHole(hole, src, v, ids, keys);
    }

    lemma SwapKeeps(v: seq<Entry>, i: nat, j: nat)
      requires i < |v| && j < |v| && AllOk(v)
      ensures Ids(Swap(v, i, j)) == Ids(v) && AllOk(Swap(v, i, j))
    {
      SwapMembers(v, i, j);
    }

    /** The end of a sift: the target goes into the hole. */
    method FillHole(hole: nat, target: HNode, ghost v: seq<Entry>, ghost ids: seq<int>, ghost keys: set<nat>)
      requires hole < |v| && Sifting(v, hole, ids, keys) && target == v[hole].node
      modifies heap, idsArr, `entries
      ensures Sifting(v, -1, ids, keys) && entries == v
    {
      assert v[hole] in v;
      PutNodeToSlot(hole, target);
      assert idsArr[..][v[hole].id] == hole;
      forall i | 0 <= i < |v|
        ensures heap[i] == v[i].node && idsArr[v[i].id] == i
      {
        assert heap[..][i] == heap[i] && idsArr[..][v[i].id] == idsArr[v[i].id];
      }
      forall id | 0 <= id < idsArr.Length && id !in keys
        ensures idsArr[id] == ids[id]
      {
        assert idsArr[..][id] == idsArr[id];
      }
      entries := v;
    }

    lemma NodeOf(v: seq<Entry>, i: nat)
      requires AllOk(v) && i < |v|
      ensures v[i].node.ctx == v[i].timer && v[i].timer.nextTimer == v[i].key
    {
      assert v[i] in v;
    }

    /** filter_up. */
    method FilterUp(index: nat, ghost ids: seq<int>, ghost keys: set<nat>)
      requires index < |entries| && Sifting(entries, -1, ids, keys)
      modifies heap, idsArr, `entries
      ensures entries == SiftUp(old(entries), index)
      ensures Sifting(entries, -1, ids, keys)
    {
      hide TimerQueue.AllOk, TimerQueue.Kept, Ids;
      var currPos: nat := index;
      var target := heap[index];
      ghost var v := entries;
      while currPos > 0
        invariant currPos < |v| && target == v[currPos].node
        invariant SiftUp(v, currPos) == SiftUp(old(entries), index)
        invariant Sifting(v, currPos, ids, keys)
        decreases currPos
      {
        var parentPos: nat := (currPos - 1) / 2;
        NodeOf(v, parentPos);
        NodeOf(v, currPos);
        if Less(heap[parentPos], target) {
          break;
        }
        ShiftNode(currPos, parentPos, v, ids, keys);
        v := Swap(v, currPos, parentPos);
        currPos := parentPos;
      }
      FillHole(currPos, target, v, ids, keys);
    }

    /** filter_down. */
    method FilterDown(index: nat, ghost ids: seq<int>, ghost keys: set<nat>)
      requires index < |entries| == currHeapSize && Sifting(entries, -1, ids, keys)
      modifies heap, idsArr, `entries
      ensures entries == SiftDown(old(entries), index)
      ensures Sifting(entries, -1, ids, keys)
    {
      hide TimerQueue.AllOk, TimerQueue.Kept, Ids;
      var currPos := index;
      var target := heap[index];
      ghost var v := entries;
      var childPos := 2 * index + 1;
      while childPos < currHeapSize
        invariant currPos < |v| == currHeapSize && target == v[currPos].node && childPos == 2 * currPos + 1
        invariant SiftDown(v, currPos) == SiftDown(old(entries), index)
        invariant Sifting(v, currPos, ids, keys)
        decreases currHeapSize - currPos
      {
        childPos := SelectChild(childPos, v, currPos);
        NodeOf(v, childPos);
        NodeOf(v, currPos);
        if Less(target, heap[childPos]) {
          break;
        }
        ShiftNode(currPos, childPos, v, ids, keys);
        v := Swap(v, currPos, childPos);
        currPos := childPos;
        childPos := 2 * currPos + 1;
      }
      FillHole(currPos, target, v, ids, keys);
    }

    /** The smaller of the two children, the left one on a tie. */
    method SelectChild(left: nat, ghost v: seq<Entry>, ghost pos: nat) returns (c: nat)
      requires left == 2 * pos + 1 < |v| == currHeapSize && Placed(v, pos) && AllOk(v)
      ensures c == Child(v, pos)
    {
      c := left;
      assert v[left] in v && (left + 1 < |v| ==> v[left + 1] in v);
      if left + 1 < currHeapSize && Less(heap[left + 1], heap[left]) {
        c := left + 1;
      }
    }

    /** The last node of the heap takes over `slot`. */
    method MoveLastNode(slot: nat)
      requires Placed(entries, -1) && AllOk(entries)
      requires slot < |entries| - 1 == currHeapSize
      modifies heap, idsArr, `entries
      ensures entries == MoveLast(old(entries), slot)
      ensures Sifting(entries, -1, old(idsArr[..]), Ids(old(entries)) - {old(entries)[slot].id})
    {
      ghost var ids := idsArr[..];
      ghost var keys := Ids(entries) - {entries[slot].id};
      var moved := heap[currHeapSize];
      ghost var t := MoveLast(entries, slot);
      MoveLastMembers(entries, slot);
      assert entries[currHeapSize] in entries && t[slot] in t;
      assert Placed(t, slot) && Kept(ids, keys);
      FillHole(slot, moved, t, ids, keys);
    }

    /** Up when smaller than the parent, down otherwise; at the root always down. */
    method Reheapify(slot: nat, ghost ids: seq<int>, ghost keys: set<nat>)
      requires slot < |entries| == currHeapSize && Sifting(entries, -1, ids, keys)
      modifies heap, idsArr, `entries
      ensures Sifting(entries, -1, ids, keys)
      ensures var t := old(entries);
        entries == if t[slot].key < t[Parent(slot)].key then SiftUp(t, slot) else SiftDown(t, slot)
    {
      var parentSlot := Parent(slot);
      assert entries[slot] in entries && entries[parentSlot] in entries;
      if Less(heap[slot], heap[parentSlot]) {
        FilterUp(slot, ids, keys);
      } else {
        FilterDown(slot, ids, keys);
      }
    }

    method DropLastSlot(ghost ids: seq<int>, ghost keys: set<nat>)
      requires Placed(entries, -1) && AllOk(entries) && entries != []
      requires ids == idsArr[..] && keys == Ids(entries) - {entries[|entries| - 1].id}
      modifies `entries
      ensures entries == old(entries)[..|old(entries)| - 1]
      ensures Sifting(entries, -1, ids, keys)
    {
      hide TimerQueue.Placed, TimerQueue.AllOk, TimerQueue.Kept, Ids;
      LastDropped(ids, keys);
      entries := entries[..|entries| - 1];
    }

    lemma LastDropped(ids: seq<int>, keys: set<nat>)
      requires Placed(entries, -1) && AllOk(entries) && entries != []
      requires ids == idsArr[..] && keys == Ids(entries) - {entries[|entries| - 1].id}
      ensures var v := entries[..|entries| - 1]; Placed(v, -1) && AllOk(v) && Ids(v) == keys && Kept(ids, keys)
    {
      DropLastMembers(entries);
    }

    method FillSlot(slot: nat, ghost ids: seq<int>, ghost keys: set<nat>)
      requires Placed(entries, -1) && AllOk(entries)
      requires slot < |entries| - 1 == currHeapSize
      requires ids == idsArr[..] && keys == Ids(entries) - {entries[slot].id}
      modifies heap, idsArr, `entries
      ensures entries == RemoveAt(old(entries), slot)
      ensures Sifting(entries, -1, ids, keys)
    {
      MoveLastNode(slot);
      Reheapify(slot, ids, keys);
    }

    /** The array part of heap_remove_node. */
    method RemoveSlot(slot: nat, ghost ids: seq<int>, ghost keys: set<nat>)
      requires Placed(entries, -1) && AllOk(entries)
      requires slot < |entries| == currHeapSize
      requires ids == idsArr[..] && keys == Ids(entries) - {entries[slot].id}
      modifies heap, idsArr, `entries, `currHeapSize
      ensures currHeapSize == old(currHeapSize) - 1 == |entries|
      ensures entries == RemoveAt(old(entries), slot)
      ensures Sifting(entries, -1, ids, keys)
    {
      currHeapSize := currHeapSize - 1;
      if slot < currHeapSize {
        FillSlot(slot, ids, keys);
      } else {
        DropLastSlot(ids, keys);
      }
    }

    /** An index entry is non-negative exactly for the ids in use. */
    ghost predicate Indexed(used: set<nat>)
      reads this`idsArr, idsArr
    {
      IndexedIn(idsArr[..], used)
    }

    /** A popped periodic timer leaves behind the slot it was popped from, the root. */
    ghost predicate LimboAtRoot()
      reads this`idsArr, idsArr, this`limbo
    {
      LimboIn(idsArr[..], limbo)
    }

    /** Every free id is ahead of the cursor or not below the remembered minimum. */
    ghost predicate CursorOk()
      reads this`idsArr, idsArr, this`idsLast, this`idsMinFree
    {
      CursorIn(idsArr[..], idsLast, idsMinFree)
    }

    /** The remembered minimum is a free id the cursor has passed, or says that there is none.
        This holds until the heap grows for the first time. */
    ghost predicate Steady()
      reads this`idsArr, idsArr, this`idsLast, this`idsMinFree
    {
      SteadyIn(idsArr[..], idsLast, idsMinFree)
    }

    /** What heap_get_node_id needs in order to find a free id. */
    ghost predicate FreshIdAvailable()
      reads this`idsArr, idsArr, this`idsLast, this`idsMinFree
    {
      FreshIn(idsArr[..], idsLast, idsMinFree)
    }

    /** The cursors and the index, as a value. */
    ghost function IdsNow(): IdState
      reads this`idsArr, idsArr, this`idsLast, this`idsMinFree
    {
      IdState(idsArr[..], idsLast, idsMinFree)
    }

    /** The cursor moves on past the ids in use. */
    method ScanIds()
      requires idsLast < idsArr.Length == maxHeapSize
      modifies `idsLast
      ensures idsLast == Scan(old(idsArr[..]), old(idsLast) + 1) <= maxHeapSize
    {
      ghost var ids := idsArr[..];
      idsLast := idsLast + 1;
      while idsLast < maxHeapSize && idsArr[idsLast] >= 0
        modifies `idsLast
        invariant idsLast <= maxHeapSize && Scan(ids, idsLast) == Scan(ids, old(idsLast) + 1)
      {
        idsLast := idsLast + 1;
      }
    }

    /** heap_get_node_id. */
    method GetNodeId() returns (id: nat)
      requires idsLast < idsArr.Length == maxHeapSize
      modifies `idsLast, `idsMinFree
      ensures (IdsNow(), id) == Next(old(IdsNow()))
    {
      hide Scan;
      ScanIds();
      if idsLast == maxHeapSize && idsMinFree < maxHeapSize {
        idsLast := idsMinFree;
        idsMinFree := maxHeapSize;
      }
      id := idsLast;
    }

    /** release_node_id. */
    method ReleaseNodeId(nodeId: nat, ghost used: set<nat>)
      requires nodeId < idsArr.Length && CursorOk() && Indexed(used)
      modifies idsArr, `idsMinFree, `idsMinFreeRestore
      ensures IdsNow() == Release(old(IdsNow()), nodeId)
      ensures CursorOk() && Indexed(used - {nodeId})
      ensures old(Steady()) ==> Steady()
    {
      idsArr[nodeId] := -1;
      if nodeId < idsMinFree && nodeId <= idsLast {
        idsMinFreeRestore := idsMinFree;
        idsMinFree := nodeId;
      }
    }

    /** With an id to spare and no growth so far, an id is available. */
    lemma SteadyHasFreshId(used: set<nat>)
      requires Steady() && CursorOk() && Indexed(used) && |used| < idsArr.Length
      ensures FreshIdAvailable()
    {
      var id := SpareId(used, idsArr.Length);
      assert IsFreeIn(idsArr[..], id);
    }

    /** The invariant of heap.c: arrays, entries and the map of timers tell the same story,
        the entries are in heap order, and the index and its cursors are consistent. */
    ghost predicate HeapOk()
      reads this, heap, idsArr, nodesMpool, nodesMpool.Taken, timers.Values
    {
      && currHeapSize == |entries|
      && Placed(entries, -1) && AllOk(entries) && Ids(entries) == timers.Keys
      && Ordered(entries) && CursorOk() && LimboAtRoot() && Indexed(timers.Keys + limbo) && timers.Keys !! limbo
    }

    /** Pool conservation: every node is free, queued or lent. */
    ghost predicate Accounted()
      reads this`entries, this`lent, nodesMpool, nodesMpool.Nodes
    {
      && nodesMpool.Valid() && nodesMpool.increaseStep > 0
      && lent <= nodesMpool.Taken && |nodesMpool.Taken| == |entries| + |lent|
    }

    ghost predicate Valid()
      reads this, heap, idsArr, nodesMpool, nodesMpool.Nodes, nodesMpool.Taken, timers.Values
    {
      HeapOk() && Accounted()
    }

    /** The removed entry leaves the map; its node is lent out; its id stays reserved or not. */
    ghost method Retire(node: HNode, id: nat, reserve: bool)
      requires AllOk(entries) && id in timers && Ids(entries) == timers.Keys - {id}
      requires node.nodeId == id && node in nodesMpool.Taken && node !in lent
      modifies `timers, `limbo, `lent
      ensures timers == old(timers) - {id} && lent == old(lent) + {node}
      ensures limbo == old(Reserved(id, reserve))
      ensures AllOk(entries) && Ids(entries) == timers.Keys
    {
      timers, lent := timers - {id}, lent + {node};
      limbo := Reserved(id, reserve);
      forall e | e in entries ensures e.id in timers && e.timer == timers[e.id] && EntryOk(e) {
        assert e.id in Ids(entries);
      }
    }

    /** Between the two halves of a removal: the entry has left the heap but not yet the map. */
    ghost predicate Detached(node: HNode, id: nat)
      reads this, heap, idsArr, nodesMpool, nodesMpool.Taken, timers.Values, node
    {
      && currHeapSize == |entries|
      && Placed(entries, -1) && AllOk(entries)
      && id in timers && Ids(entries) == timers.Keys - {id}
      && Ordered(entries) && CursorOk() && LimboAtRoot() && Indexed(timers.Keys + limbo) && timers.Keys !! limbo
      && node in nodesMpool.Taken && node !in lent && node.nodeId == id
    }

    /** Sifting changes no index entry from free to used or back, so it leaves the index and
        its cursors consistent. */
    lemma SiftKeepsIds(ids: seq<int>, keys: set<nat>, used: set<nat>)
      requires Placed(entries, -1) && Ids(entries) == keys && Kept(ids, keys) && keys <= used
      requires IndexedIn(ids, used) && LimboIn(ids, limbo) && keys !! limbo
      ensures Indexed(used) && LimboAtRoot()
      ensures forall id :: 0 <= id < |ids| && id !in keys ==> idsArr[id] == ids[id]
      ensures CursorIn(ids, idsLast, idsMinFree) ==> CursorOk()
      ensures SteadyIn(ids, idsLast, idsMinFree) ==> Steady()
    {
      forall id | 0 <= id < idsArr.Length
        ensures idsArr[id] >= 0 <==> id in used
      {
        if id in keys {
          var e :| e in entries && e.id == id;
          var i :| 0 <= i < |entries| && entries[i] == e;
        }
      }
    }

    /** The array part of a removal, with what it means for the index. */
    method RemoveIndexed(slot: nat, ghost ids: seq<int>, ghost keys: set<nat>, ghost used: set<nat>)
      requires Placed(entries, -1) && AllOk(entries)
      requires slot < |entries| == currHeapSize
      requires ids == idsArr[..] && keys == Ids(entries) - {entries[slot].id}
      requires keys <= used && IndexedIn(ids, used) && LimboIn(ids, limbo) && keys !! limbo
      requires CursorIn(ids, idsLast, idsMinFree)
      modifies heap, idsArr, `entries, `currHeapSize
      ensures currHeapSize == |entries| && entries == RemoveAt(old(entries), slot)
      ensures Placed(entries, -1) && AllOk(entries) && Ids(entries) == keys
      ensures Indexed(used) && LimboAtRoot() && CursorOk()
      ensures SteadyIn(ids, idsLast, idsMinFree) ==> Steady()
      ensures idsArr[old(entries)[slot].id] == slot
    {
      ghost var id := entries[slot].id;
      assert ids[id] == slot;
      RemoveSlot(slot, ids, keys);
      SiftKeepsIds(ids, keys, used);
    }

    method Detach(slot: nat, ghost id: nat, ghost used: set<nat>) returns (node: HNode)
      requires HeapOk() && slot < currHeapSize && id == entries[slot].id && used == timers.Keys + limbo
      modifies heap, idsArr, `entries, `currHeapSize
      ensures entries == RemoveAt(old(entries), slot) && node == old(entries)[slot].node
      ensures Detached(node, id)
      ensures idsArr[id] == slot && (old(Steady()) ==> Steady())
    {
      hide RemoveAt, Ordered;
      assert entries[slot] in entries;
      node := heap[slot];
      RemoveAtKeepsOrder(entries, slot);
      RemoveIndexed(slot, idsArr[..], Ids(entries) - {id}, used);
    }

    /** The ids in use after a removal. */
    ghost function Reserved(id: nat, reserve: bool): set<nat>
      reads this`limbo
    {
      if reserve then limbo + {id} else limbo
    }

    method KeepId(node: HNode, ghost id: nat)
      requires Detached(node, id) && idsArr[id] == 0
      modifies `timers, `limbo, `lent
      ensures HeapOk()
      ensures timers == old(timers) - {id} && lent == old(lent) + {node} && limbo == old(Reserved(id, true))
    {
      Retire(node, id, true);
      assert timers.Keys + limbo == old(timers.Keys + limbo);
    }

    method FreeId(node: HNode, id: nat)
      requires Detached(node, id)
      modifies idsArr, `timers, `limbo, `lent, `idsMinFree, `idsMinFreeRestore
      ensures HeapOk() && (old(Steady()) ==> Steady())
      ensures timers == old(timers) - {id} && lent == old(lent) + {node} && limbo == old(Reserved(id, false))
    {
      ghost var used := timers.Keys + limbo;
      assert id !in limbo;
      ReleaseNodeId(id, used);
      assert Placed(entries, -1) && LimboAtRoot();
      Retire(node, id, false);
      assert timers.Keys + limbo == used - {id};
    }

    lemma DetachedNode(node: HNode, id: nat)
      requires Detached(node, id)
      ensures node.nodeId == id < idsArr.Length
    {
    }

    /** heap_remove_node. Only heap_pop, which removes the root, asks to keep the id. */
    method RemoveNode(slot: nat, reserve: bool) returns (removed: HNode)
      requires HeapOk() && slot < currHeapSize && (reserve ==> slot == 0)
      modifies heap, idsArr, `entries, `currHeapSize, `timers, `limbo, `lent, `idsMinFree, `idsMinFreeRestore
      ensures HeapOk() && (old(Steady()) ==> Steady())
      ensures entries == RemoveAt(old(entries), slot)
      ensures removed == old(entries)[slot].node && lent == old(lent) + {removed}
      ensures timers == old(timers) - {old(entries)[slot].id}
      ensures limbo == old(Reserved(entries[slot].id, reserve))
    {
      hide TimerQueue.HeapOk, TimerQueue.Steady, TimerQueue.Detached, RemoveAt;
      SizeFits();
      ghost var id := entries[slot].id;
      removed := Detach(slot, id, timers.Keys + limbo);
      DetachedNode(removed, id);
      if reserve {
        KeepId(removed, removed.nodeId);
      } else {
        FreeId(removed, removed.nodeId);
      }
    }

    /** heap_increase. The cursors are left as they are, ids_min_free included. */
    method HeapIncrease() returns (r: int)
      requires heap.Length == idsArr.Length == maxHeapSize
      modifies `heap, `idsArr, `maxHeapSize
      ensures r == if heapIncreaseStep == 0 then -1 else 0
      ensures r == -1 ==> unchanged(this)
      ensures r == 0 ==> fresh(heap) && fresh(idsArr) && maxHeapSize == old(maxHeapSize) + heapIncreaseStep
      ensures heap.Length == idsArr.Length == maxHeapSize
      ensures forall i :: 0 <= i < old(maxHeapSize) ==> heap[i] == old(heap[i]) && idsArr[i] == old(idsArr[i])
      ensures forall i :: old(maxHeapSize) <= i < maxHeapSize ==> heap[i] == null
      ensures IdsNow() == IdCursor.Grow(old(IdsNow()), if r == 0 then heapIncreaseStep else 0)
    {
      if heapIncreaseStep == 0 {
        return -1;
      }
      var newSize := maxHeapSize + heapIncreaseStep;
      var newHeap := new HNode?[newSize](_ => null);
      var newIds := new int[newSize](_ => -1);
      forall i | 0 <= i < maxHeapSize {
        newHeap[i] := heap[i];
      }
      forall i | 0 <= i < maxHeapSize {
        newIds[i] := idsArr[i];
      }
      heap, idsArr, maxHeapSize := newHeap, newIds, newSize;
      return 0;
    }

    /** A full heap has no id in limbo. */
    lemma QueuedPlusLimbo()
      requires HeapOk()
      ensures |timers| == |entries| && |entries| + |limbo| <= maxHeapSize
    {
      IdsCardinality(entries);
      BelowCardinality(timers.Keys + limbo, maxHeapSize);
    }

    /** Growing keeps the invariant, and the new ids are ahead of the cursor. */
    method Grow() returns (r: int)
      requires HeapOk()
      modifies `heap, `idsArr, `maxHeapSize
      ensures HeapOk()
      ensures r == if heapIncreaseStep == 0 then -1 else 0
      ensures r == -1 ==> unchanged(this)
      ensures r == 0 ==>
        fresh(heap) && fresh(idsArr) && maxHeapSize == old(maxHeapSize) + heapIncreaseStep && FreshIdAvailable()
    {
      hide TimerQueue.AllOk, Ids, Ordered;
      ghost var ids := IdsNow();
      r := HeapIncrease();
      if r == 0 {
        GrowIsFresh(ids, heapIncreaseStep);
      }
    }

    /** A new entry at the end of the heap, before it is sifted. */
    ghost method Admit(e: Entry)
      requires AllOk(entries) && Ids(entries) == timers.Keys && e.id !in timers
      requires e.node in nodesMpool.Taken && e.node in lent && e.node.nodeId == e.id && e.node.ctx == e.timer
      requires e.timer.nextTimer == e.key
      modifies `entries, `timers, `limbo, `lent
      ensures entries == old(entries) + [e] && timers == old(timers)[e.id := e.timer]
      ensures lent == old(lent) - {e.node} && limbo == old(limbo) - {e.id}
      ensures AllOk(entries) && Ids(entries) == timers.Keys
    {
      assert forall f :: f in entries ==> f.id in Ids(entries);
      entries, timers := entries + [e], timers[e.id := e.timer];
      lent, limbo := lent - {e.node}, limbo - {e.id};
    }

    /** The new entry is in place at the end of the heap; what is in use grows by its id. */
    lemma InsertKeepsIds(ids: seq<int>, keys: set<nat>, used: set<nat>, id: nat)
      requires Placed(entries, -1) && Ids(entries) == keys && Kept(ids, keys)
      requires id in keys && id < |ids| && keys <= used + {id}
      requires IndexedIn(ids, used) && LimboIn(ids, limbo) && keys !! limbo
      ensures Indexed(used + {id}) && LimboAtRoot()
      ensures CursorButIn(ids, idsLast, idsMinFree, id) ==> CursorOk()
      ensures SteadyIn(ids, idsLast, idsMinFree) && idsMinFree != id ==> Steady()
    {
      forall f | 0 <= f < idsArr.Length
        ensures idsArr[f] >= 0 <==> f in used + {id}
      {
        if f in keys {
          var e :| e in entries && e.id == f;
          var i :| 0 <= i < |entries| && entries[i] == e;
        }
      }
    }

    /** The array part of heap_push, once the entry has been admitted. */
    method Climb(nd: HNode, last: nat, ghost ids: seq<int>, ghost keys: set<nat>)
      requires last + 1 == |entries| && nd == entries[last].node
      requires Sifting(entries, last, ids, keys)
      modifies heap, idsArr, `entries
      ensures entries == SiftUp(old(entries), last)
      ensures Sifting(entries, -1, ids, keys)
    {
      FillHole(last, nd, entries, ids, keys);
      FilterUp(last, ids, keys);
    }

    lemma SiftStart(nd: HNode, ids: seq<int>)
      requires entries != [] && currHeapSize == |entries| - 1 && nd == entries[currHeapSize].node
      requires Placed(entries, currHeapSize) && AllOk(entries) && ids == idsArr[..]
      ensures Sifting(entries, currHeapSize, ids, Ids(entries)) && nd.nodeId >= 0
      ensures nd.nodeId in Ids(entries) && nd.nodeId < |ids|
    {
      assert entries[currHeapSize] in entries;
      assert entries[currHeapSize].node.nodeId == entries[currHeapSize].id && entries[currHeapSize].id in Ids(entries);
    }

    /** The same, with what it means for the index. */
    method SiftIn(nd: HNode, ghost ids: seq<int>, ghost used: set<nat>)
      requires entries != [] && currHeapSize == |entries| - 1 && nd == entries[currHeapSize].node
      requires Placed(entries, currHeapSize) && AllOk(entries)
      requires ids == idsArr[..] && Ids(entries) <= used + {nd.nodeId}
      requires IndexedIn(ids, used) && LimboIn(ids, limbo) && Ids(entries) !! limbo
      requires CursorButIn(ids, idsLast, idsMinFree, nd.nodeId)
      modifies heap, idsArr, `entries, `currHeapSize
      ensures currHeapSize == |entries| && entries == SiftUp(old(entries), |old(entries)| - 1)
      ensures Placed(entries, -1) && AllOk(entries) && Ids(entries) == Ids(old(entries))
      ensures Indexed(used + {nd.nodeId}) && LimboAtRoot() && CursorOk()
      ensures SteadyIn(ids, idsLast, idsMinFree) && idsMinFree != nd.nodeId ==> Steady()
    {
      hide TimerQueue.AllOk, TimerQueue.Placed, TimerQueue.Kept, Ids, Ordered, IndexedIn, LimboIn, CursorButIn;
      hide SteadyIn, SiftUp;
      hide TimerQueue.Steady, TimerQueue.CursorOk, TimerQueue.Indexed, TimerQueue.LimboAtRoot;
      ghost var keys := Ids(entries);
      SiftStart(nd, ids);
      Climb(nd, currHeapSize, ids, keys);
      currHeapSize := currHeapSize + 1;
      InsertKeepsIds(ids, keys, used, nd.nodeId);
    }

    lemma AppendOrder(s: seq<Entry>, e: Entry)
      requires Ordered(s)
      ensures Ordered(SiftUp(s + [e], |s|))
    {
      var t := s + [e];
      assert forall i :: 0 < i < |t| && i != |s| ==> t[Parent(i)].key <= t[i].key;
      SiftUpOrders(t, |s|);
    }

    /** Admit, with what it means for the ids in use. */
    ghost method AdmitIndexed(e: Entry, ids: seq<int>, used: set<nat>)
      requires Placed(entries, -1) && AllOk(entries) && Ids(entries) == timers.Keys && |entries| < maxHeapSize
      requires used == timers.Keys + limbo && timers.Keys !! limbo && LimboIn(ids, limbo)
      requires e.id !in timers && e.id < maxHeapSize
      requires e.node in nodesMpool.Taken && e.node in lent && e.node.nodeId == e.id && e.node.ctx == e.timer
      requires e.timer.nextTimer == e.key
      modifies `entries, `timers, `limbo, `lent
      ensures entries == old(entries) + [e] && timers == old(timers)[e.id := e.timer]
      ensures lent == old(lent) - {e.node} && limbo == old(limbo) - {e.id}
      ensures Placed(entries, |entries| - 1) && AllOk(entries) && Ids(entries) == timers.Keys
      ensures timers.Keys + limbo == used + {e.id} && timers.Keys !! limbo && LimboIn(ids, limbo)
    {
      assert forall f :: f in entries ==> f.id in Ids(entries);
      Admit(e);
    }

    /** heap_push after the id is known: `nd` carries it, and it is free or in limbo. */
    method Insert(nd: HNode, ghost e: Entry, ghost ids: seq<int>, ghost used: set<nat>)
      requires currHeapSize == |entries| < maxHeapSize
      requires Placed(entries, -1) && AllOk(entries) && Ids(entries) == timers.Keys && Ordered(entries)
      requires ids == idsArr[..] && used == timers.Keys + limbo && timers.Keys !! limbo
      requires LimboIn(ids, limbo) && IndexedIn(ids, used) && CursorButIn(ids, idsLast, idsMinFree, e.id)
      requires e.id < maxHeapSize && e.id !in timers
      requires nd in nodesMpool.Taken && nd in lent && nd.nodeId == e.id && nd == e.node
      requires nd.ctx == e.timer && e.timer.nextTimer == e.key
      modifies heap, idsArr, `entries, `currHeapSize, `timers, `limbo, `lent
      ensures HeapOk()
      ensures entries == SiftUp(old(entries) + [e], |old(entries)|)
      ensures timers == old(timers)[e.id := e.timer] && lent == old(lent) - {nd} && limbo == old(limbo) - {e.id}
      ensures SteadyIn(ids, idsLast, idsMinFree) && idsMinFree != e.id ==> Steady()
    {
      AppendOrder(entries, e);
      AdmitIndexed(e, ids, used);
      SiftIn(nd, ids, used);
    }

    /** A fresh id for a node that is not queued. */
    method AssignId(nd: HNode) returns (id: nat)
      requires HeapOk() && nd in lent && FreshIdAvailable()
      modifies `idsLast, `idsMinFree, nd`nodeId
      ensures nd.nodeId == id < maxHeapSize && id !in timers && id !in limbo
      ensures AllOk(entries) && CursorButIn(idsArr[..], idsLast, idsMinFree, id)
      ensures old(Steady()) ==> SteadyIn(idsArr[..], idsLast, idsMinFree) && idsMinFree != id
    {
      hide TimerQueue.HeapOk, TimerQueue.AllOk, TimerQueue.FreshIdAvailable, TimerQueue.Steady, FreshIn, CursorIn;
      hide CursorButIn, SteadyIn, Next;
      NextIsFree(IdsNow());
      CursorFacts();
      id := GetNodeId();
      FreeIsNew(id);
      nd.nodeId := id;
      LentNodeChanged(nd);
    }

    lemma CursorFacts()
      requires HeapOk() && FreshIdAvailable()
      ensures idsLast < idsArr.Length == maxHeapSize && AllOk(entries)
      ensures CursorIn(idsArr[..], idsLast, idsMinFree) && FreshIn(idsArr[..], idsLast, idsMinFree)
      ensures Steady() ==> SteadyIn(idsArr[..], idsLast, idsMinFree)
    {
    }

    twostate lemma FreeIsNew(new id: nat)
      requires old(HeapOk()) && IsFreeIn(old(idsArr[..]), id) && idsArr == old(idsArr)
      requires unchanged(`timers, `limbo, `maxHeapSize)
      ensures id < maxHeapSize && id !in timers && id !in limbo
    {
    }

    /** With an id in limbo the arrays are not full. */
    lemma RoomForKept(id: nat)
      requires HeapOk() && id in limbo
      ensures |entries| < maxHeapSize && id < maxHeapSize && id !in timers
      ensures CursorButIn(idsArr[..], idsLast, idsMinFree, id)
      ensures Steady() ==> SteadyIn(idsArr[..], idsLast, idsMinFree) && idsMinFree != id
    {
      QueuedPlusLimbo();
      assert |limbo| > 0;
    }

    /** heap_push asked to keep the node id: a periodic timer goes back under its own id. */
    method PushKept(nd: HNode, ghost e: Entry)
      requires HeapOk() && e.id in limbo
      requires nd in nodesMpool.Taken && nd in lent && nd.nodeId == e.id && nd == e.node
      requires nd.ctx == e.timer && e.timer.nextTimer == e.key
      modifies heap, idsArr, `entries, `currHeapSize, `timers, `limbo, `lent
      ensures HeapOk() && (old(Steady()) ==> Steady())
      ensures entries == SiftUp(old(entries) + [e], |old(entries)|)
      ensures timers == old(timers)[e.id := e.timer] && lent == old(lent) - {nd} && limbo == old(limbo) - {e.id}
    {
      hide TimerQueue.AllOk, Ids, Ordered;
      RoomForKept(e.id);
      Insert(nd, e, idsArr[..], timers.Keys + limbo);
    }

    /** heap_push of a new timer's node, with room in the arrays. */
    method PushFresh(nd: HNode, timer: TimerNode) returns (id: nat)
      requires HeapOk() && currHeapSize < maxHeapSize && FreshIdAvailable()
      requires nd in nodesMpool.Taken && nd in lent && nd.ctx == timer
      modifies heap, idsArr, `entries, `currHeapSize, `timers, `limbo, `lent, `idsLast, `idsMinFree, nd`nodeId
      ensures HeapOk() && (old(Steady()) ==> Steady())
      ensures id !in old(timers) && id !in old(limbo)
      ensures entries == SiftUp(old(entries) + [Entry(nd, id, timer, timer.nextTimer)], |old(entries)|)
      ensures timers == old(timers)[id := timer] && lent == old(lent) - {nd} && limbo == old(limbo)
    {
      hide TimerQueue.AllOk, Ids, Ordered;
      id := AssignId(nd);
      Insert(nd, Entry(nd, id, timer, timer.nextTimer), idsArr[..], timers.Keys + limbo);
    }

    lemma SizeFits()
      requires HeapOk()
      ensures currHeapSize == |entries| <= maxHeapSize
    {
    }

    /** heap_push of a new timer's node: the arrays grow only when the heap is full. */
    method PushNew(nd: HNode, timer: TimerNode) returns (id: int)
      requires HeapOk() && (currHeapSize < maxHeapSize ==> FreshIdAvailable())
      requires nd in nodesMpool.Taken && nd in lent && nd.ctx == timer
      modifies `heap, `idsArr, `maxHeapSize, `entries, `currHeapSize, `timers, `limbo, `lent, `idsLast, `idsMinFree
      modifies heap, idsArr, nd`nodeId
      ensures HeapOk() && heapIncreaseStep == old(heapIncreaseStep)
      ensures id == -1 <==> old(currHeapSize == maxHeapSize && heapIncreaseStep == 0)
      ensures id == -1 ==> unchanged(this) && unchanged(nd)
      ensures id != -1 ==> id >= 0 && id !in old(timers) && id !in old(limbo)
      ensures id != -1 ==> entries == SiftUp(old(entries) + [Entry(nd, id, timer, timer.nextTimer)], |old(entries)|)
      ensures id != -1 ==> |entries| == |old(entries)| + 1
      ensures id != -1 ==> timers == old(timers)[id := timer] && lent == old(lent) - {nd} && limbo == old(limbo)
      ensures heap == old(heap) || fresh(heap)
      ensures idsArr == old(idsArr) || fresh(idsArr)
      ensures old(currHeapSize < maxHeapSize) ==> maxHeapSize == old(maxHeapSize) && (old(Steady()) ==> Steady())
    {
      hide TimerQueue.HeapOk, TimerQueue.FreshIdAvailable, TimerQueue.Steady;
      SizeFits();
      if currHeapSize >= maxHeapSize {
        var r := Grow();
        if r == -1 {
          return -1;
        }
      }
      id := PushFresh(nd, timer);
    }

    // ---------------------------------------------------------------- timer_queue.c

    /** Nodes that are lent out may change without harm to the queue. */
    twostate lemma LentNodeChanged(new nd: HNode)
      requires old(AllOk(entries)) && (nd in old(lent) || nd !in old(nodesMpool.Taken))
      requires entries == old(entries) && timers == old(timers) && limbo == old(limbo) && lent <= old(lent) + {nd}
      requires old(nodesMpool.Taken) - {nd} <= nodesMpool.Taken
      requires forall t :: t in timers.Values ==> unchanged(t)
      requires forall n :: n in old(nodesMpool.Taken) && n != nd ==> unchanged(n)
      ensures AllOk(entries)
    {
      forall e | e in entries
        ensures e.node in nodesMpool.Taken && e.id in timers && e.timer == timers[e.id] && EntryOk(e)
      {
        assert old(EntryOk(e)) && e.node != nd && e.timer in timers.Values;
      }
    }

    /** The pool cares about nothing but links and block marks. */
    twostate lemma PoolUntouched()
      requires old(nodesMpool.Valid()) && unchanged(nodesMpool)
      requires forall n :: n in nodesMpool.Nodes ==> n.next == old(n.next) && n.memBlockStart == old(n.memBlockStart)
      ensures nodesMpool.Valid()
    {
    }

    /** A node from the pool. */
    method Lend() returns (nd: HNode)
      requires Valid()
      modifies nodesMpool, NodeSet(nodesMpool.Free)`next, `lent
      ensures Valid() && fresh(nodesMpool.Nodes - old(nodesMpool.Nodes))
      ensures nd !in old(lent) && lent == old(lent) + {nd} && (nd in old(nodesMpool.Free) || fresh(nd))
    {
      hide TimerQueue.HeapOk;
      nd := nodesMpool.TakeObj();
      lent := lent + {nd};
      Lent(nd);
    }

    /** The queue after a node has been taken from the pool. */
    twostate lemma Lent(new nd: HNode)
      requires old(Valid()) && unchanged(`heap, `idsArr, `entries, `timers, `limbo, `currHeapSize, `maxHeapSize)
      requires unchanged(`idsLast, `idsMinFree) && heap[..] == old(heap[..]) && idsArr[..] == old(idsArr[..])
      requires nodesMpool.Valid() && nodesMpool.increaseStep == old(nodesMpool.increaseStep)
      requires nd !in old(nodesMpool.Taken) && nodesMpool.Taken == old(nodesMpool.Taken) + {nd}
      requires lent == old(lent) + {nd}
      requires forall n :: n in old(nodesMpool.Taken) ==> unchanged(n)
      requires forall t :: t in timers.Values ==> unchanged(t)
      ensures Valid()
    {
      LentNodeChanged(nd);
    }

    method SetCtx(nd: HNode, tnode: TimerNode)
      requires Valid() && nd in lent
      modifies nd`ctx
      ensures Valid() && nd.ctx == tnode
    {
      nd.ctx := tnode;
      LentNodeChanged(nd);
    }

    method NodeReset(nd: HNode)
      requires Valid() && nd in lent
      modifies nd`nodeId, nd`ctx, nd`next
      ensures Valid() && nd.nodeId == 0 && nd.ctx == null && nd.next == null
    {
      nd.nodeId, nd.ctx, nd.next := 0, null, null;
      LentNodeChanged(nd);
    }

    method GiveBack(nd: HNode)
      requires Valid() && nd in lent
      modifies nodesMpool`freeListHead, nodesMpool`freeListSize, nodesMpool`Free, nodesMpool`Taken, nd`next, `lent
      ensures Valid() && lent == old(lent) - {nd} && nodesMpool.Taken == old(nodesMpool.Taken) - {nd}
    {
      var r := nodesMpool.ReturnObj(nd);
      lent := lent - {nd};
      LentNodeChanged(nd);
    }

    /** node_reset and mpool_return_obj. */
    method ReturnNode(nd: HNode)
      requires Valid() && nd in lent
      modifies nodesMpool`freeListHead, nodesMpool`freeListSize, nodesMpool`Free, nodesMpool`Taken, nd`nodeId, nd`ctx
      modifies nd`next, `lent
      ensures Valid() && lent == old(lent) - {nd} && Steady() == old(Steady())
      ensures nodesMpool.Taken == old(nodesMpool.Taken) - {nd}
    {
      hide TimerQueue.Valid;
      NodeReset(nd);
      GiveBack(nd);
    }

    /** What tq_schedule_timer needs when the heap is not full: an id it can find. */
    ghost predicate CanSchedule()
      reads this`idsArr, idsArr, this`idsLast, this`idsMinFree, this`currHeapSize, this`maxHeapSize
    {
      currHeapSize < maxHeapSize ==> FreshIdAvailable()
    }

    /** What the queue owns now it owned before, or it has been allocated since. */
    twostate predicate OwnsOnlyNew()
      reads this`heap, this`idsArr, nodesMpool`Nodes
    {
      && (heap == old(heap) || fresh(heap)) && (idsArr == old(idsArr) || fresh(idsArr))
      && fresh(nodesMpool.Nodes - old(nodesMpool.Nodes))
    }

    /** The nodes in running handlers are left alone. */
    twostate predicate LentKept()
      reads this`lent, lent
    {
      forall n :: n in old(lent) && n in lent ==> n.nodeId == old(n.nodeId) && n.ctx == old(n.ctx)
    }

    /** heap_push of a node taken for `tnode`; on failure the node stays lent out for ever. */
    method PushLent(nd: HNode, tnode: TimerNode) returns (id: int)
      requires Valid() && CanSchedule() && nd in lent && nd.ctx == tnode
      modifies `heap, `idsArr, `maxHeapSize, `entries, `currHeapSize, `timers, `limbo, `lent, `idsLast, `idsMinFree
      modifies heap, idsArr, nd`nodeId
      ensures Valid() && heapIncreaseStep == old(heapIncreaseStep) && LentKept()
      ensures id == -1 <==> old(currHeapSize == maxHeapSize && heapIncreaseStep == 0)
      ensures id == -1 ==> timers == old(timers) && limbo == old(limbo) && lent == old(lent) && entries == old(entries)
      ensures id != -1 ==> id >= 0 && id !in old(timers) && id !in old(limbo)
      ensures id != -1 ==> timers == old(timers)[id := tnode] && limbo == old(limbo) && lent == old(lent) - {nd}
      ensures (heap == old(heap) || fresh(heap)) && (idsArr == old(idsArr) || fresh(idsArr))
      ensures old(currHeapSize < maxHeapSize) ==> maxHeapSize == old(maxHeapSize) && (old(Steady()) ==> Steady())
    {
      hide TimerQueue.HeapOk;
      id := PushNew(nd, tnode);
      PoolUntouched();
    }

    method SetTimerId(tnode: TimerNode, id: int)
      requires Valid()
      modifies tnode`timerId
      ensures Valid() && tnode.timerId == id
      ensures Steady() == old(Steady()) && CanSchedule() == old(CanSchedule())
    {
      tnode.timerId := id;
      forall e | e in entries
        ensures e.node in nodesMpool.Taken && e.id in timers && e.timer == timers[e.id] && EntryOk(e)
      {
        assert old(EntryOk(e));
      }
    }

    lemma LentNotFree()
      requires Valid()
      ensures lent !! NodeSet(nodesMpool.Free) && NodeSet(nodesMpool.Free) <= nodesMpool.Nodes
    {
    }

    method LendFor(tnode: TimerNode) returns (nd: HNode)
      requires Valid()
      modifies nodesMpool, NodeSet(nodesMpool.Free)`next, NodeSet(nodesMpool.Free)`ctx, `lent
      ensures Valid() && fresh(nodesMpool.Nodes - old(nodesMpool.Nodes)) && nd.ctx == tnode && LentKept()
      ensures nd !in old(lent) && lent == old(lent) + {nd} && (nd in old(nodesMpool.Free) || fresh(nd))
      ensures Steady() == old(Steady()) && CanSchedule() == old(CanSchedule())
    {
      hide TimerQueue.Valid, TimerQueue.Steady, TimerQueue.CanSchedule;
      LentNotFree();
      nd := Lend();
      SetCtx(nd, tnode);
    }

    /** The node taken for `tnode` is queued; a full heap that may not grow loses it. */
    method Enqueue(tnode: TimerNode) returns (id: int)
      requires Valid() && CanSchedule()
      modifies this, heap, idsArr, nodesMpool, nodesMpool.Nodes`nodeId, nodesMpool.Nodes`ctx, nodesMpool.Nodes`next
      ensures Valid() && heapIncreaseStep == old(heapIncreaseStep) && OwnsOnlyNew() && LentKept()
      ensures id == -1 <==> old(currHeapSize == maxHeapSize && heapIncreaseStep == 0)
      ensures limbo == old(limbo)
      ensures id == -1 ==> timers == old(timers) && |lent| == |old(lent)| + 1
      ensures id != -1 ==> id >= 0 && id !in old(timers) && id !in old(limbo)
      ensures id != -1 ==> timers == old(timers)[id := tnode] && lent == old(lent)
      ensures old(currHeapSize < maxHeapSize) ==> maxHeapSize == old(maxHeapSize) && (old(Steady()) ==> Steady())
    {
      hide TimerQueue.Valid, TimerQueue.Steady, TimerQueue.CanSchedule;
      LentNotFree();
      var nd := LendFor(tnode);
      id := PushLent(nd, tnode);
    }

    method EnqueueAndTell(tnode: TimerNode) returns (id: int)
      requires Valid() && CanSchedule()
      modifies this, heap, idsArr, nodesMpool, nodesMpool.Nodes`nodeId, nodesMpool.Nodes`ctx, nodesMpool.Nodes`next
      modifies tnode`timerId
      ensures Valid() && heapIncreaseStep == old(heapIncreaseStep) && OwnsOnlyNew() && LentKept()
      ensures id == -1 <==> old(currHeapSize == maxHeapSize && heapIncreaseStep == 0)
      ensures tnode.timerId == id && limbo == old(limbo)
      ensures id == -1 ==> timers == old(timers) && |lent| == |old(lent)| + 1
      ensures id != -1 ==> id >= 0 && id !in old(timers) && id !in old(limbo)
      ensures id != -1 ==> timers == old(timers)[id := tnode] && lent == old(lent)
      ensures old(currHeapSize < maxHeapSize) ==> maxHeapSize == old(maxHeapSize) && (old(Steady()) ==> Steady())
    {
      hide TimerQueue.Valid;
      id := Enqueue(tnode);
      SetTimerId(tnode, id);
    }

    /** tq_schedule_timer. A period below the resolution is refused. */
    method ScheduleTimer(tnode: TimerNode) returns (id: int)
      requires Valid() && CanSchedule()
      modifies this, heap, idsArr, nodesMpool, nodesMpool.Nodes`nodeId, nodesMpool.Nodes`ctx, nodesMpool.Nodes`next
      modifies tnode`timerId
      ensures Valid() && heapIncreaseStep == old(heapIncreaseStep) && OwnsOnlyNew() && LentKept()
      ensures tnode.timerId == id && limbo == old(limbo)
      ensures var refused := 0 < old(tnode.period) < RESOLUTION;
        && (id == -1 <==> refused || old(currHeapSize == maxHeapSize && heapIncreaseStep == 0))
        && (id == -1 ==> timers == old(timers) && |lent| == |old(lent)| + if refused then 0 else 1)
      ensures id != -1 ==> id >= 0 && id !in old(timers) && id !in old(limbo)
      ensures id != -1 ==> timers == old(timers)[id := tnode] && lent == old(lent)
      ensures old(currHeapSize < maxHeapSize) ==> maxHeapSize == old(maxHeapSize) && (old(Steady()) ==> Steady())
    {
      hide TimerQueue.Valid;
      SetTimerId(tnode, -1);
      if tnode.period != 0 && tnode.period < RESOLUTION {
        return -1;
      }
      id := EnqueueAndTell(tnode);
    }

    lemma QueuedNode(slot: nat)
      requires HeapOk() && slot < |entries|
      ensures currHeapSize == |entries|
      ensures entries[slot].node in nodesMpool.Taken && entries[slot].node !in lent
    {
      assert entries[slot] in entries && EntryOk(entries[slot]);
    }

    /** heap_remove_node seen with the pool: the node is now lent out. */
    method Withdraw(slot: nat, reserve: bool) returns (node: HNode)
      requires Valid() && slot < currHeapSize && (reserve ==> slot == 0)
      modifies heap, idsArr, `entries, `currHeapSize, `timers, `limbo, `lent, `idsMinFree, `idsMinFreeRestore
      ensures Valid() && (old(Steady()) ==> Steady())
      ensures entries == RemoveAt(old(entries), slot)
      ensures node == old(entries)[slot].node && node !in old(lent) && lent == old(lent) + {node}
      ensures node in nodesMpool.Taken
      ensures timers == old(timers) - {old(entries)[slot].id}
      ensures limbo == old(Reserved(entries[slot].id, reserve))
    {
      hide TimerQueue.HeapOk, TimerQueue.Accounted, TimerQueue.Steady, RemoveAt;
      SizeFits();
      QueuedNode(slot);
      node := RemoveNode(slot, reserve);
      OneMoreLent(slot, node);
    }

    /** A queued node has become a lent one. */
    twostate lemma OneMoreLent(new slot: nat, new node: HNode)
      requires old(Accounted()) && unchanged(nodesMpool) && slot < |old(entries)|
      requires entries == RemoveAt(old(entries), slot)
      requires node in nodesMpool.Taken && node !in old(lent) && lent == old(lent) + {node}
      requires forall n :: n in nodesMpool.Nodes ==> n.next == old(n.next) && n.memBlockStart == old(n.memBlockStart)
      ensures Accounted()
    {
      OneMore(old(lent), node);
      PoolUntouched();
    }

    /** Removing a slot and giving its node back to the pool. */
    method Discard(slot: nat)
      requires Valid() && slot < currHeapSize
      modifies heap, idsArr, `entries, `currHeapSize, `timers, `limbo, `lent, `idsMinFree, `idsMinFreeRestore
      modifies nodesMpool`freeListHead, nodesMpool`freeListSize, nodesMpool`Free, nodesMpool`Taken
      modifies nodesMpool.Taken`nodeId, nodesMpool.Taken`ctx, nodesMpool.Taken`next
      ensures Valid() && (old(Steady()) ==> Steady())
      ensures entries == RemoveAt(old(entries), slot)
      ensures timers == old(timers) - {old(entries)[slot].id} && limbo == old(limbo) && lent == old(lent) && LentKept()
      ensures nodesMpool.Taken <= old(nodesMpool.Taken)
    {
      hide TimerQueue.Valid;
      var node := Withdraw(slot, false);
      ReturnNode(node);
    }

    /** tq_cancel_timer. The guard lets one id past the end of the index through, and a handler
        that cancels its own periodic timer while nothing is queued is led to a slot out of use. */
    method CancelTimer(timerId: int) returns (c: Cancelled)
      requires Valid()
      modifies heap, idsArr, `entries, `currHeapSize, `timers, `limbo, `lent, `idsMinFree, `idsMinFreeRestore
      modifies nodesMpool`freeListHead, nodesMpool`freeListSize, nodesMpool`Free, nodesMpool`Taken
      modifies nodesMpool.Taken`nodeId, nodesMpool.Taken`ctx, nodesMpool.Taken`next
      ensures Valid() && (old(Steady()) ==> Steady())
      ensures c == (if timerId == old(maxHeapSize) then PastIndex
                    else if timerId in old(limbo) && old(currHeapSize) == 0 then StaleSlot
                    else Answer(if timerId in old(timers) then 0 else -1))
      ensures timers == old(timers) - {timerId} && limbo == old(limbo) && lent == old(lent) && LentKept()
    {
      if timerId < 0 || timerId > maxHeapSize {
        return Answer(-1);
      }
      if timerId >= idsArr.Length {
        return PastIndex;
      }
      var nodeSlot := idsArr[timerId];
      if nodeSlot < 0 {
        return Answer(-1);
      }
      SlotOf(timerId);
      if nodeSlot >= currHeapSize {
        return StaleSlot;
      }
      if timerId != heap[nodeSlot].nodeId {
        return Answer(-1);
      }
      Discard(nodeSlot);
      return Answer(0);
    }

    /** Where the index leads for an id in use: to its entry, or to the root for one in limbo. It
        leads to a slot in use unless the id is in limbo and nothing is queued. */
    lemma SlotOf(id: nat)
      requires Valid() && id < maxHeapSize && idsArr[id] >= 0
      ensures id in timers || id in limbo
      ensures id in limbo ==> id !in timers && idsArr[id] == 0
      ensures currHeapSize == |entries| && (idsArr[id] < |entries| <==> !(id in limbo && currHeapSize == 0))
      ensures idsArr[id] < |entries| ==>
        && entries[idsArr[id]] in entries
        && heap[idsArr[id]] != null && heap[idsArr[id]].nodeId == entries[idsArr[id]].id
        && (id in timers <==> entries[idsArr[id]].id == id)
    {
      if id in timers {
        assert id in Ids(entries);
        var e :| e in entries && e.id == id;
        var i :| 0 <= i < |entries| && entries[i] == e;
      }
      if idsArr[id] < |entries| {
        assert entries[idsArr[id]] in entries;
      }
    }

    /** An id is free unless those of queued timers and those in limbo fill up the index. */
    lemma NoneFreeExactly()
      requires HeapOk()
      ensures (forall id: nat :: !IsFreeIn(idsArr[..], id)) <==> |timers| + |limbo| == maxHeapSize
    {
      hide TimerQueue.AllOk, Ordered, TimerQueue.CursorOk, TimerQueue.LimboAtRoot;
      QueuedPlusLimbo();
      var used := timers.Keys + limbo;
      assert |used| == |timers| + |limbo|;
      if |used| < maxHeapSize {
        var spare := SpareId(used, maxHeapSize);
        assert IsFreeIn(idsArr[..], spare);
      }
      if id: nat :| IsFreeIn(idsArr[..], id) {
        BelowCardinality(used + {id}, maxHeapSize);
      }
    }

    /** Before the heap first grows a new timer can be queued, except when ids in limbo fill up an
        index whose heap has room. The id answered then is one past the end of the index. */
    lemma CanScheduleExactly()
      requires Valid() && Steady()
      ensures CanSchedule() <==> currHeapSize == maxHeapSize || |timers| + |limbo| < maxHeapSize
      ensures var id := Next(IdsNow()).1;
        id <= maxHeapSize && (id == maxHeapSize <==> |timers| + |limbo| == maxHeapSize)
    {
      QueuedPlusLimbo();
      NoneFreeExactly();
      IdFound(IdsNow());
      NextIsFree(IdsNow());
      hide TimerQueue.HeapOk, TimerQueue.Accounted, TimerQueue.FreshIdAvailable, FreshIn, CursorIn, SteadyIn, Next;
    }

    /** An entry's id leads to its timer, and its key is the timer's. */
    lemma EntryTimer(slot: nat)
      requires HeapOk() && slot < |entries|
      ensures entries[slot].id in timers && timers[entries[slot].id] == entries[slot].timer
      ensures entries[slot].key == entries[slot].timer.nextTimer
      ensures heap[slot] != null && heap[slot].ctx == entries[slot].timer && heap[slot].nodeId == entries[slot].id
    {
      assert entries[slot] in entries && EntryOk(entries[slot]);
    }

    /** Every id in the map is some entry's. */
    lemma TimerEntry(id: nat) returns (slot: nat)
      requires HeapOk() && id in timers
      ensures slot < |entries| && entries[slot].id == id && entries[slot].timer == timers[id]
      ensures entries[slot].key == timers[id].nextTimer
    {
      assert id in Ids(entries);
      var e :| e in entries && e.id == id;
      slot :| 0 <= slot < |entries| && entries[slot] == e;
      EntryTimer(slot);
    }

    /** The entry at the root carries a timer that is due first. */
    lemma NearestIsRoot()
      requires HeapOk() && entries != []
      ensures forall id :: id in timers ==> entries[0].key <= timers[id].nextTimer
    {
      forall id | id in timers ensures entries[0].key <= timers[id].nextTimer {
        var slot := TimerEntry(id);
        RootIsMinimum(entries, slot);
      }
    }

    /** tq_time_to_nearest_timer. */
    method TimeToNearestTimer() returns (time: nat)
      requires Valid()
      ensures timers == map[] ==> time == ULONG_MAX
      ensures timers != map[] ==> exists id :: id in timers && timers[id].nextTimer == time
      ensures forall id :: id in timers ==> time <= timers[id].nextTimer
    {
      QueuedPlusLimbo();
      if currHeapSize == 0 {
        return ULONG_MAX;
      }
      EntryTimer(0);
      NearestIsRoot();
      time := heap[0].ctx.nextTimer;
    }

    /** What the root entry is to the map of timers. */
    ghost predicate IsNearest(m: map<nat, TimerNode>, id: nat, tnode: TimerNode)
      reads m.Values, tnode
    {
      id in m && m[id] == tnode && forall other :: other in m ==> tnode.nextTimer <= m[other].nextTimer
    }

    lemma RootIsNearest()
      requires HeapOk() && entries != []
      ensures heap[0] != null && heap[0].ctx == entries[0].timer && heap[0].nodeId == entries[0].id
      ensures IsNearest(timers, entries[0].id, entries[0].timer)
    {
      EntryTimer(0);
      NearestIsRoot();
    }

    /** tq_remove_nearest_timer. */
    method RemoveNearestTimer() returns (r: int, tnode: TimerNode?, ghost id: nat)
      requires Valid()
      modifies heap, idsArr, `entries, `currHeapSize, `timers, `limbo, `lent, `idsMinFree, `idsMinFreeRestore
      modifies nodesMpool`freeListHead, nodesMpool`freeListSize, nodesMpool`Free, nodesMpool`Taken
      modifies nodesMpool.Taken`nodeId, nodesMpool.Taken`ctx, nodesMpool.Taken`next
      ensures Valid() && (old(Steady()) ==> Steady()) && limbo == old(limbo) && lent == old(lent)
      ensures r == if old(timers) == map[] then -1 else 0
      ensures r == -1 ==> timers == old(timers)
      ensures r == 0 ==> old(entries != [] && IsNearest(timers, entries[0].id, entries[0].timer))
      ensures r == 0 ==> tnode == old(entries)[0].timer && id == old(entries)[0].id && timers == old(timers) - {id}
    {
      id := 0;
      QueuedPlusLimbo();
      if currHeapSize == 0 {
        return -1, null, 0;
      }
      RootIsNearest();
      hide TimerQueue.Valid, TimerQueue.IsNearest;
      tnode := heap[0].ctx;
      id := heap[0].nodeId;
      Discard(0);
      r := 0;
    }

    lemma NearestAtRoot()
      requires Valid() && timers != map[]
      ensures currHeapSize == |entries| > 0 && heap.Length > 0
      ensures heap[0] != null && heap[0].ctx == entries[0].timer && IsNearest(timers, entries[0].id, entries[0].timer)
      ensures heap[0] == entries[0].node && heap[0].nodeId == entries[0].id && heap[0] in nodesMpool.Taken
    {
      QueuedPlusLimbo();
      RootIsNearest();
      EntryTimer(0);
      assert entries[0] in entries;
    }

    /** The first half of tq_dispatch_nearest_timer: the root is popped, and a periodic
        timer's id stays reserved while its handler runs. */
    method BeginDispatch() returns (node: HNode, tnode: TimerNode)
      requires Valid() && timers != map[]
      modifies heap, idsArr, `entries, `currHeapSize, `timers, `limbo, `lent, `idsMinFree, `idsMinFreeRestore
      ensures Valid() && (old(Steady()) ==> Steady())
      ensures old(entries != [] && IsNearest(timers, entries[0].id, entries[0].timer))
      ensures node.nodeId == old(entries)[0].id && node.ctx == tnode == old(entries)[0].timer
      ensures node !in old(lent) && lent == old(lent) + {node} && node in nodesMpool.Taken
      ensures timers == old(timers) - {old(entries)[0].id}
      ensures limbo == old(Reserved(entries[0].id, entries[0].timer.period != 0))
    {
      hide TimerQueue.Valid, TimerQueue.Steady, TimerQueue.IsNearest;
      NearestAtRoot();
      var topNode := heap[0];
      node := Withdraw(0, topNode.ctx.period != 0);
      tnode := node.ctx;
    }

    /** Changing the key of a timer that is not queued. */
    method SetNextTimer(tnode: TimerNode, next: nat)
      requires Valid() && tnode !in timers.Values
      modifies tnode`nextTimer
      ensures Valid() && tnode.nextTimer == next && Steady() == old(Steady())
    {
      tnode.nextTimer := next;
      forall e | e in entries
        ensures e.node in nodesMpool.Taken && e.id in timers && e.timer == timers[e.id] && EntryOk(e)
      {
        assert old(EntryOk(e)) && timers[e.id] in timers.Values;
      }
    }

    method Requeue(node: HNode, tnode: TimerNode, ghost id: nat)
      requires Valid() && node in lent && node.ctx == tnode && node.nodeId == id && id in limbo
      modifies heap, idsArr, `entries, `currHeapSize, `timers, `limbo, `lent
      ensures Valid() && (old(Steady()) ==> Steady())
      ensures timers == old(timers)[id := tnode] && limbo == old(limbo) - {id} && lent == old(lent) - {node}
    {
      hide TimerQueue.HeapOk;
      PushKept(node, Entry(node, id, tnode, tnode.nextTimer));
      PoolUntouched();
    }

    /** An id in limbo has been released in the index. */
    twostate lemma ReleasedFromLimbo(new id: nat)
      requires old(HeapOk()) && id !in old(timers) && limbo == old(limbo) - {id}
      requires unchanged(`entries, `timers, `currHeapSize, `heap, `idsArr, `maxHeapSize, `lent)
      requires heap[..] == old(heap[..])
      requires nodesMpool.Taken == old(nodesMpool.Taken) && forall n :: n in old(nodesMpool.Taken) ==> unchanged(n)
      requires forall t :: t in old(timers.Values) ==> unchanged(t)
      requires id < idsArr.Length && idsArr[..] == old(idsArr[..])[id := -1]
      requires CursorOk() && Indexed(timers.Keys + old(limbo) - {id})
      ensures HeapOk()
    {
      assert timers.Keys + limbo == timers.Keys + old(limbo) - {id};
      assert forall i :: 0 <= i < idsArr.Length && i != id ==> idsArr[i] == old(idsArr[..])[i];
      forall e | e in entries
        ensures e.node in nodesMpool.Taken && e.id in timers && e.timer == timers[e.id] && EntryOk(e)
      {
        assert old(EntryOk(e)) && e.timer in timers.Values;
      }
    }

    twostate lemma PoolStillAccounted()
      requires old(Accounted()) && unchanged(`entries, `lent, nodesMpool)
      requires forall n :: n in nodesMpool.Nodes ==> n.next == old(n.next) && n.memBlockStart == old(n.memBlockStart)
      ensures Accounted()
    {
      PoolUntouched();
    }

    lemma IdInUse(id: nat)
      requires HeapOk() && id < maxHeapSize
      ensures idsArr.Length == maxHeapSize && CursorOk() && Indexed(timers.Keys + limbo)
    {
    }

    /** The id of a queued timer has been released in the index. */
    lemma ReleasedInUse(id: nat)
      requires id in timers && id < idsArr.Length && idsArr[id] < 0
      ensures !HeapOk()
    {
    }

    /** release_kept_timer_id, for ids in limbo. Free ids are released again without harm; the id
        of a queued timer is released too, and then the index no longer says that it is in use. The
        guard lets one id past the end of the index through. */
    method ReleaseKeptTimerId(timerId: int) returns (c: Cancelled)
      requires Valid()
      modifies idsArr, `limbo, `idsMinFree, `idsMinFreeRestore
      ensures c == if timerId == maxHeapSize then PastIndex else Answer(if 0 <= timerId < maxHeapSize then 0 else -1)
      ensures limbo == old(limbo) - {timerId}
      ensures c == Answer(0) ==> IdsNow() == Release(old(IdsNow()), timerId)
      ensures c != Answer(0) ==> IdsNow() == old(IdsNow())
      ensures Valid() <==> timerId !in old(timers)
      ensures Valid() && old(Steady()) ==> Steady()
    {
      hide TimerQueue.HeapOk, TimerQueue.Accounted, TimerQueue.CursorOk, TimerQueue.Indexed, TimerQueue.Steady;
      LimboInRange();
      if timerId < 0 || timerId > maxHeapSize {
        return Answer(-1);
      }
      if timerId >= idsArr.Length {
        return PastIndex;
      }
      IdInUse(timerId);
      ghost var used := timers.Keys + limbo;
      ReleaseNodeId(timerId, used);
      limbo := limbo - {timerId};
      if timerId in timers {
        ReleasedInUse(timerId);
      } else {
        ReleasedFromLimbo(timerId);
        PoolStillAccounted();
      }
      c := Answer(0);
    }

    lemma LimboInRange()
      requires Valid()
      ensures limbo !! timers.Keys && idsArr.Length == maxHeapSize && forall id :: id in limbo || id in timers ==>
        id < maxHeapSize
    {
    }

    /** The second half of tq_dispatch_nearest_timer, given what the handler returned. A handler that
        succeeds does not queue its own periodic timer; one that fails may, and may change the timer's
        id, but not to that of a queued timer. */
    method EndDispatch(node: HNode, tnode: TimerNode, nowTime: nat, rval: int) returns (r: int)
      requires Valid() && node in lent && node.ctx == tnode
      requires tnode.period != 0 && rval == 0 ==> node.nodeId in limbo && tnode !in timers.Values
      requires tnode.period != 0 && rval != 0 ==> tnode.timerId !in timers
      modifies heap, idsArr, `entries, `currHeapSize, `timers, `limbo, `lent, `idsMinFree, `idsMinFreeRestore
      modifies nodesMpool`freeListHead, nodesMpool`freeListSize, nodesMpool`Free, nodesMpool`Taken
      modifies node`nodeId, node`ctx, node`next, tnode`nextTimer
      ensures Valid() && (old(Steady()) ==> Steady()) && r == rval && lent == old(lent) - {node}
      ensures rval == 0 && tnode.period != 0 ==>
        && tnode.nextTimer == nowTime + tnode.period
        && timers == old(timers)[old(node.nodeId) := tnode] && limbo == old(limbo) - {old(node.nodeId)}
      ensures !(rval == 0 && tnode.period != 0) ==> tnode.nextTimer == old(tnode.nextTimer) && timers == old(timers)
      ensures rval != 0 && tnode.period != 0 ==> limbo == old(limbo) - {tnode.timerId}
      ensures tnode.period == 0 ==> limbo == old(limbo)
    {
      hide TimerQueue.Valid;
      if rval == 0 && tnode.period != 0 {
        SetNextTimer(tnode, nowTime + tnode.period);
        Requeue(node, tnode, node.nodeId);
        return 0;
      }
      if tnode.period != 0 {
        var released := ReleaseKeptTimerId(tnode.timerId);
      }
      ReturnNode(node);
      return rval;
    }

    /** The scan of tq_cancel_timers at one slot that holds the timer. */
    method CancelAt(index: nat, ghost tnode: TimerNode)
      requires Valid() && index < currHeapSize && entries[index].timer == tnode
      requires forall i :: 0 <= i < index ==> entries[i].timer != tnode
      modifies heap, idsArr, `entries, `currHeapSize, `timers, `limbo, `lent, `idsMinFree, `idsMinFreeRestore
      modifies nodesMpool`freeListHead, nodesMpool`freeListSize, nodesMpool`Free, nodesMpool`Taken
      modifies nodesMpool.Taken`nodeId, nodesMpool.Taken`ctx, nodesMpool.Taken`next
      ensures Valid() && (old(Steady()) ==> Steady()) && limbo == old(limbo) && lent == old(lent)
      ensures currHeapSize == old(currHeapSize) - 1 == |entries|
      ensures forall i :: 0 <= i < index && i < |entries| ==> entries[i].timer != tnode
      ensures exists id :: id in old(timers) && old(timers)[id] == tnode && timers == old(timers) - {id}
      ensures nodesMpool.Taken <= old(nodesMpool.Taken)
    {
      forall i | 0 <= i < |entries| && entries[i].timer == tnode ensures entries[i].key == entries[index].key {
        EntryTimer(i);
        EntryTimer(index);
      }
      CancelScanStaysClean(entries, index, tnode);
      EntryTimer(index);
      ghost var id := entries[index].id;
      Discard(index);
      assert id in old(timers) && old(timers)[id] == tnode && timers == old(timers) - {id};
    }

    /** One round of the scan of tq_cancel_timers. */
    method ScanSlot(index: nat, tnode: TimerNode, ghost before: map<nat, TimerNode>,
                    counter: nat) returns (index': nat, counter': nat)
      requires Valid() && index < currHeapSize && CancelledSome(before, timers, tnode, counter)
      requires forall i :: 0 <= i < index ==> entries[i].timer != tnode
      modifies heap, idsArr, `entries, `currHeapSize, `timers, `limbo, `lent, `idsMinFree, `idsMinFreeRestore
      modifies nodesMpool`freeListHead, nodesMpool`freeListSize, nodesMpool`Free, nodesMpool`Taken
      modifies nodesMpool.Taken`nodeId, nodesMpool.Taken`ctx, nodesMpool.Taken`next
      ensures Valid() && (old(Steady()) ==> Steady()) && limbo == old(limbo) && lent == old(lent)
      ensures nodesMpool.Taken <= old(nodesMpool.Taken) && index' <= currHeapSize == |entries|
      ensures currHeapSize - index' == old(currHeapSize) - index - 1
      ensures forall i :: 0 <= i < index' ==> entries[i].timer != tnode
      ensures CancelledSome(before, timers, tnode, counter')
    {
      EntryTimer(index);
      index', counter' := index, counter;
      if heap[index].ctx == tnode {
        ghost var now := timers;
        CancelAt(index, tnode);
        CancelOne(before, now, timers, tnode, counter);
        counter' := counter + 1;
      } else {
        index' := index + 1;
      }
    }

    /** tq_cancel_timers. */
    method CancelTimers(tnode: TimerNode) returns (counter: nat)
      requires Valid()
      modifies heap, idsArr, `entries, `currHeapSize, `timers, `limbo, `lent, `idsMinFree, `idsMinFreeRestore
      modifies nodesMpool`freeListHead, nodesMpool`freeListSize, nodesMpool`Free, nodesMpool`Taken
      modifies nodesMpool.Taken`nodeId, nodesMpool.Taken`ctx, nodesMpool.Taken`next
      ensures Valid() && (old(Steady()) ==> Steady()) && limbo == old(limbo) && lent == old(lent)
      ensures timers == old(timers) - OfTimer(old(timers), tnode)
      ensures counter == |OfTimer(old(timers), tnode)|
    {
      var index: nat := 0;
      counter := 0;
      NoneCancelled(timers, tnode);
      hide TimerQueue.Accounted, TimerQueue.AllOk, TimerQueue.Placed, CancelledSome;
      while index < currHeapSize
        invariant Valid() && (old(Steady()) ==> Steady()) && limbo == old(limbo) && lent == old(lent)
        invariant index <= currHeapSize == |entries| && nodesMpool.Taken <= old(nodesMpool.Taken)
        invariant forall i :: 0 <= i < index ==> entries[i].timer != tnode
        invariant CancelledSome(old(timers), timers, tnode, counter)
        decreases currHeapSize - index
      {
        index, counter := ScanSlot(index, tnode, old(timers), counter);
      }
      NoneLeft(tnode);
      AllCancelled(old(timers), timers, tnode, counter);
    }

    lemma NoneLeft(tnode: TimerNode)
      requires HeapOk() && forall i :: 0 <= i < |entries| ==> entries[i].timer != tnode
      ensures forall id :: id in timers ==> timers[id] != tnode
    {
      forall id | id in timers ensures timers[id] != tnode {
        var slot := TimerEntry(id);
      }
    }
  }

  const ULONG_MAX: nat := 0xffff_ffff_ffff_ffff

  /** The ids under which a timer is queued. */
  ghost function OfTimer(m: map<nat, TimerNode>, tnode: TimerNode): set<nat> {
    set id | id in m && m[id] == tnode
  }

  /** `counter` of the timer's ids, and no others, have left the map. */
  ghost predicate CancelledSome(before: map<nat, TimerNode>, now: map<nat, TimerNode>, tnode: TimerNode, counter: int) {
    exists gone: set<nat> :: gone <= OfTimer(before, tnode) && now == before - gone && counter == |gone|
  }

  lemma NoneCancelled(m: map<nat, TimerNode>, tnode: TimerNode)
    ensures CancelledSome(m, m, tnode, 0)
  {
    var gone: set<nat> := {};
    assert gone <= OfTimer(m, tnode) && m == m - gone && |gone| == 0;
  }

  lemma CancelOne(before: map<nat, TimerNode>, now: map<nat, TimerNode>, next: map<nat, TimerNode>, tnode: TimerNode,
                  counter: int)
    requires CancelledSome(before, now, tnode, counter)
    requires exists id :: id in now && now[id] == tnode && next == now - {id}
    ensures CancelledSome(before, next, tnode, counter + 1)
  {
    var gone: set<nat> :| gone <= OfTimer(before, tnode) && now == before - gone && counter == |gone|;
    var id :| id in now && now[id] == tnode && next == now - {id};
    var more := gone + {id};
    assert more <= OfTimer(before, tnode) && next == before - more && |more| == counter + 1;
  }

  lemma AllCancelled(before: map<nat, TimerNode>, now: map<nat, TimerNode>, tnode: TimerNode, counter: int)
    requires CancelledSome(before, now, tnode, counter)
    requires forall id :: id in now ==> now[id] != tnode
    ensures now == before - OfTimer(before, tnode) && counter == |OfTimer(before, tnode)|
  {
    var gone: set<nat> :| gone <= OfTimer(before, tnode) && now == before - gone && counter == |gone|;
    assert gone == OfTimer(before, tnode) by {
      forall id | id in OfTimer(before, tnode) ensures id in gone {
        assert id in gone || id in now;
      }
    }
  }

  lemma OneMore(s: set<HNode>, n: HNode)
    requires n !in s
    ensures |s + {n}| == |s| + 1
  {
  }

  lemma {:induction false} IdsCardinality(s: seq<Entry>)
    requires DistinctIds(s)
    ensures |Ids(s)| == |s|
  {
    if s != [] {
      var t := s[..|s| - 1];
      DropLastMembers(s);
      IdsCardinality(t);
      assert Ids(s) == Ids(t) + {s[|s| - 1].id};
    }
  }

  lemma {:induction false} BelowCardinality(used: set<nat>, n: nat)
    requires forall id :: id in used ==> id < n
    ensures |used| <= n
  {
    if n == 0 {
      assert used == {};
    } else {
      BelowCardinality(used - {n - 1}, n - 1);
    }
  }

  lemma {:induction false} SpareId(used: set<nat>, n: nat) returns (id: nat)
    requires |used| < n
    ensures id < n && id !in used
  {
    if n - 1 !in used {
      id := n - 1;
    } else {
      id := SpareId(used - {n - 1}, n - 1);
    }
  }

  lemma DropLastMembers(s: seq<Entry>)
    requires s != [] && DistinctIds(s)
    ensures forall e :: e in s[..|s| - 1] ==> e in s
    ensures DistinctIds(s[..|s| - 1]) && Ids(s[..|s| - 1]) == Ids(s) - {s[|s| - 1].id}
  {
    var t := s[..|s| - 1];
    assert s == t + [s[|s| - 1]];
  }

  lemma MoveLastMembers(s: seq<Entry>, slot: nat)
    requires slot < |s| - 1
    ensures forall e :: e in MoveLast(s, slot) ==> e in s
    ensures forall i :: 0 <= i < |s| && i != slot ==> s[i] in MoveLast(s, slot)
    ensures DistinctIds(s) ==> DistinctIds(MoveLast(s, slot)) && Ids(MoveLast(s, slot)) == Ids(s) - {s[slot].id}
  {
    var t := MoveLast(s, slot);
    forall i | 0 <= i < |s| && i != slot ensures s[i] in t {
      assert t[if i == |s| - 1 then slot else i] == s[i];
    }
  }

  ghost predicate IndexedIn(ids: seq<int>, used: set<nat>) {
    && (forall id :: id in used ==> id < |ids|)
    && (forall id :: 0 <= id < |ids| ==> (ids[id] >= 0 <==> id in used))
  }

  ghost predicate LimboIn(ids: seq<int>, limbo: set<nat>) {
    forall id :: id in limbo ==> id < |ids| && ids[id] == 0
  }

  ghost predicate DistinctIds(v: seq<Entry>) {
    forall i, j :: 0 <= i < j < |v| ==> v[i].id != v[j].id
  }
}
