/** mpool.c: a free list of nodes carved out of blocks taken from the system. */
module MemoryPool {
  import opened Arith
  import opened TimerNodes

  const PTR_ALIGN: nat := 8

  /** Object size rounded up to the pointer alignment. */
  function Aligned(size: nat): (r: nat)
    ensures size <= r < size + PTR_ALIGN && r % PTR_ALIGN == 0
  {
    (size + PTR_ALIGN - 1) / PTR_ALIGN * PTR_ALIGN
  }

  /** How many blocks one mpool_allocate call takes: rounded down, at least one. */
  function BlocksFor(numObj: nat, step: nat): nat
    requires step > 0
  {
    if numObj / step == 0 then 1 else numObj / step
  }

  /** The most whole blocks that come to no more than was asked for, or one block. */
  lemma WholeBlocks(numObj: nat, step: nat)
    requires step > 0
    ensures var got := Multiple(BlocksFor(numObj, step), step);
      if numObj < step then got == step else got <= numObj < got + step
  {
    MultipleIs(BlocksFor(numObj, step), step);
  }

  ghost predicate DistinctNodes(s: seq<HNode>) {
    forall i, j :: 0 <= i < j < |s| ==> s[i] != s[j]
  }

  ghost function NodeSet(s: seq<HNode>): set<HNode> {
    set n | n in s
  }

  ghost function NodeAt(s: seq<HNode>, i: nat): HNode? {
    if i < |s| then s[i] else null
  }

  /** A sequence without repetition has as many elements as its set. */
  lemma {:induction false} DistinctCardinality(s: seq<HNode>)
    requires DistinctNodes(s)
    ensures |NodeSet(s)| == |s|
  {
    if s == [] {
    } else {
      var t := s[..|s| - 1];
      DistinctCardinality(t);
      assert s == t + [s[|s| - 1]];
      assert s[|s| - 1] !in t;
      assert NodeSet(s) == NodeSet(t) + {s[|s| - 1]};
    }
  }

  lemma ReversedNodes(s: seq<HNode>, r: seq<HNode>)
    requires |r| == |s| && DistinctNodes(s)
    requires forall k :: 0 <= k < |s| ==> r[k] == s[|s| - 1 - k]
    ensures DistinctNodes(r) && NodeSet(r) == NodeSet(s)
  {
    forall n | n in s ensures n in r {
      var k :| 0 <= k < |s| && s[k] == n;
      assert r[|s| - 1 - k] == n;
    }
  }

  lemma SubsetCardinality(a: set<HNode>, b: set<HNode>)
    requires a <= b
    ensures |a| <= |b|
    ensures |a| == |b| ==> a == b
  {
    assert b == a + (b - a);
  }

  /** The list and the node set after n new nodes have been put at the head. */
  ghost predicate IsGrown(free: seq<HNode>, nodes: set<HNode>, free': seq<HNode>, nodes': set<HNode>, n: nat) {
    && |free'| == |free| + n && free'[n..] == free
    && nodes <= nodes' && |nodes'| == |nodes| + n
    && forall k :: 0 <= k < n ==> free'[k] in nodes' - nodes
  }

  lemma GrownTwice(f0: seq<HNode>, s0: set<HNode>, m: nat, f1: seq<HNode>, s1: set<HNode>, n: nat, f2: seq<HNode>,
                   s2: set<HNode>)
    requires IsGrown(f0, s0, f1, s1, m) && IsGrown(f1, s1, f2, s2, n)
    ensures IsGrown(f0, s0, f2, s2, m + n)
  {
    assert f2[m + n..] == f2[n..][m..];
    forall k | 0 <= k < m + n ensures f2[k] in s2 - s0 {
      if k >= n {
        assert f2[k] == f2[n..][k - n];
      }
    }
  }

  class MPool {
    var freeListHead: HNode?
    var freeListSize: nat
    var increaseStep: nat
    var blocksAllocNum: nat
    var objAllocNum: nat

    /** The free list from its head, the nodes handed out, every node ever carved, and the
        first node of every block. */
    ghost var Free: seq<HNode>
    ghost var Taken: set<HNode>
    ghost var Nodes: set<HNode>
    ghost var Blocks: seq<HNode>

    /** The list is null-terminated and acyclic; a node outside it has no successor, which is
        what makes it safe that mpool_add leaves the link alone on an empty list. */
    ghost predicate Linked()
      reads this, Nodes
    {
      && freeListSize == |Free|
      && freeListHead == NodeAt(Free, 0)
      && DistinctNodes(Free)
      && Taken <= Nodes
      && (forall i :: 0 <= i < |Free| ==> Free[i] in Nodes && Free[i] !in Taken)
      && (forall i {:trigger Free[i].next} :: 0 <= i < |Free| ==> Free[i].next == NodeAt(Free, i + 1))
      && (forall n :: n in Taken ==> n.next == null)
      && DistinctNodes(Blocks)
      && (forall n :: n in Blocks ==> n in Nodes)
      && (forall n :: n in Nodes ==> (n.memBlockStart <==> n in Blocks))
    }

    ghost predicate Valid()
      reads this, Nodes
    {
      && Linked()
      && blocksAllocNum == |Blocks|
      && objAllocNum == |Nodes|
      && objAllocNum == freeListSize + |Taken|
      && objAllocNum == Multiple(blocksAllocNum, increaseStep)
    }

    /** A zeroed pool, before mpool_init. */
    constructor ()
      ensures Valid() && Nodes == {} && Free == [] && increaseStep == 0 && Taken == {}
    {
      freeListHead, freeListSize, increaseStep, blocksAllocNum, objAllocNum := null, 0, 0, 0, 0;
      Free, Taken, Nodes, Blocks := [], {}, {}, [];
    }

    method Add(newItem: HNode)
      requires Linked() && newItem in Taken
      modifies `freeListHead, `freeListSize, `Free, `Taken, newItem`next
      ensures Linked() && Free == [newItem] + old(Free) && Taken == old(Taken) - {newItem}
    {
      if freeListHead != null {
        newItem.next := freeListHead;
      }
      freeListHead := newItem;
      freeListSize := freeListSize + 1;
      ghost var before := Free;
      Free, Taken := [newItem] + Free, Taken - {newItem};
      forall i | 0 <= i < |Free| ensures Free[i].next == NodeAt(Free, i + 1) {
        if i > 0 {
          assert Free[i] == before[i - 1] && before[i - 1] in before;
        }
      }
    }

    method Remove() returns (item: HNode?)
      requires Linked()
      modifies `freeListHead, `freeListSize, `Free, `Taken, NodeSet(Free)`next
      ensures Linked()
      ensures if old(Free) == [] then item == null && unchanged(this)
              else item == old(Free)[0] && Free == old(Free)[1..] && Taken == old(Taken) + {item}
    {
      item := freeListHead;
      if item != null {
        freeListHead := item.next;
        freeListSize := freeListSize - 1;
        ghost var before := Free;
        Free, Taken := Free[1..], Taken + {item};
        item.next := null;
        forall i | 0 <= i < |Free| ensures Free[i].next == NodeAt(Free, i + 1) {
          assert Free[i] == before[i + 1] && before[0] != before[i + 1];
        }
      }
    }

    method Carve(start: bool)
      requires Linked()
      modifies `freeListHead, `freeListSize, `Free, `Taken, `Nodes, `Blocks
      ensures Linked() && |Free| > 0 && Free[1..] == old(Free) && fresh(Free[0])
      ensures Taken == old(Taken) && Nodes == old(Nodes) + {Free[0]} && |Nodes| == |old(Nodes)| + 1
      ensures |Blocks| == |old(Blocks)| + if start then 1 else 0
    {
      var item := new HNode(start);
      Nodes, Taken := Nodes + {item}, Taken + {item};
      Blocks := Blocks + if start then [item] else [];
      NewNode(item);
      NewNodeIsNew(item);
      hide MPool.Linked;
      Add(item);
    }

    /** A node fresh from the system counts as handed out. */
    twostate lemma NewNode(new item: HNode)
      requires old(Linked()) && fresh(item) && item.next == null
      requires Nodes == old(Nodes) + {item} && Taken == old(Taken) + {item}
      requires Blocks == old(Blocks) + if item.memBlockStart then [item] else []
      requires unchanged(`freeListHead, `freeListSize, `Free) && forall n :: n in old(Nodes) ==> unchanged(n)
      ensures Linked()
    {
    }

    twostate lemma NewNodeIsNew(new item: HNode)
      requires fresh(item)
      ensures |old(Nodes) + {item}| == |old(Nodes)| + 1
    {
    }

    /** One block: increaseStep nodes, of which only the first may be handed back to the system. */
    method AllocateBlock()
      requires Linked() && increaseStep > 0
      modifies `freeListHead, `freeListSize, `Free, `Taken, `Nodes, `Blocks, `blocksAllocNum
      ensures Linked()
      ensures blocksAllocNum == old(blocksAllocNum) + 1 && |Blocks| == |old(Blocks)| + 1
      ensures Grown(old(Free), old(Nodes), increaseStep) && fresh(Nodes - old(Nodes)) && Taken == old(Taken)
    {
      blocksAllocNum := blocksAllocNum + 1;
      var i := 0;
      while i < increaseStep
        invariant i <= increaseStep && Linked()
        invariant blocksAllocNum == old(blocksAllocNum) + 1
        invariant |Blocks| == |old(Blocks)| + if i == 0 then 0 else 1
        invariant Grown(old(Free), old(Nodes), i) && fresh(Nodes - old(Nodes)) && Taken == old(Taken)
      {
        ghost var free, nodes := Free, Nodes;
        Carve(i == 0);
        i := i + 1;
        GrownTwice(old(Free), old(Nodes), i - 1, free, nodes, 1, Free, Nodes);
      }
    }

    /** n nodes have been added at the head of the list since it was `free`. */
    ghost predicate Grown(free: seq<HNode>, nodes: set<HNode>, n: nat)
      reads this
    {
      IsGrown(free, nodes, Free, Nodes, n)
    }

    /** The allocation loop of mpool_allocate. */
    method AllocateBlocks(num: nat) returns (objAllocated: nat)
      requires Linked() && increaseStep > 0 && blocksAllocNum == |Blocks|
      modifies `freeListHead, `freeListSize, `Free, `Taken, `Nodes, `Blocks, `blocksAllocNum
      ensures Linked() && blocksAllocNum == old(blocksAllocNum) + num == |Blocks|
      ensures objAllocated == Multiple(num, increaseStep)
      ensures Grown(old(Free), old(Nodes), objAllocated) && fresh(Nodes - old(Nodes)) && Taken == old(Taken)
    {
      objAllocated := 0;
      var i := 0;
      while i < num
        invariant i <= num && objAllocated == Multiple(i, increaseStep)
        invariant Linked() && blocksAllocNum == old(blocksAllocNum) + i == |Blocks|
        invariant Grown(old(Free), old(Nodes), objAllocated) && fresh(Nodes - old(Nodes)) && Taken == old(Taken)
      {
        ghost var free, nodes := Free, Nodes;
        AllocateBlock();
        GrownTwice(old(Free), old(Nodes), objAllocated, free, nodes, increaseStep, Free, Nodes);
        objAllocated := objAllocated + increaseStep;
        i := i + 1;
      }
    }

    /** mpool_allocate: numObj / increaseStep blocks, at least one. */
    method Allocate(numObj: nat) returns (r: int)
      requires Valid()
      modifies `freeListHead, `freeListSize, `Free, `Taken, `Nodes, `Blocks, `blocksAllocNum, `objAllocNum
      ensures Valid()
      ensures r == if numObj == 0 || increaseStep == 0 then -1 else 0
      ensures r == -1 ==> unchanged(this)
      ensures r == 0 ==> Grown(old(Free), old(Nodes), Multiple(BlocksFor(numObj, increaseStep), increaseStep))
      ensures r == 0 ==> var got := objAllocNum - old(objAllocNum);
        if numObj < increaseStep then got == increaseStep else got <= numObj < got + increaseStep
      ensures fresh(Nodes - old(Nodes)) && Taken == old(Taken)
    {
      if numObj == 0 || increaseStep == 0 {
        return -1;
      }
      var steps := BlocksFor(numObj, increaseStep);
      var objAllocated := AllocateBlocks(steps);
      objAllocNum := objAllocNum + objAllocated;
      MultipleAdd(old(blocksAllocNum), steps, increaseStep);
      WholeBlocks(numObj, increaseStep);
      return 0;
    }

    /** mpool_init on a zeroed pool; `chunk` is nine tenths of the page size. */
    method Init(objectSize: nat, numObj: int, chunk: nat) returns (r: int)
      requires Valid() && Nodes == {} && Free == [] && increaseStep == 0 && Taken == {}
      modifies this
      ensures fresh(Nodes) && Taken == {} && (r == 0 ==> Valid())
      ensures r == if objectSize == 0 || numObj <= 0 || Aligned(objectSize) > chunk then -1 else 0
      ensures r == 0 ==> increaseStep == chunk / Aligned(objectSize) > 0 && NodeSet(Free) == Nodes
      ensures r == 0 ==> objAllocNum == Multiple(BlocksFor(numObj, increaseStep), increaseStep)
      ensures r == 0 ==>
        if numObj < increaseStep then objAllocNum == increaseStep
        else objAllocNum <= numObj < objAllocNum + increaseStep
    {
      if objectSize == 0 || numObj < 0 {
        return -1;
      }
      var size := Aligned(objectSize);
      if size > chunk {
        return -1;
      }
      assert blocksAllocNum == 0 by {
        DistinctCardinality(Blocks);
        SubsetCardinality(NodeSet(Blocks), Nodes);
      }
      increaseStep := chunk / size;
      assert increaseStep > 0;
      r := Allocate(numObj);
      if r == 0 {
        DistinctCardinality(Free);
        SubsetCardinality(NodeSet(Free), Nodes);
      }
    }

    /** mpool_take_obj. */
    method TakeObj() returns (obj: HNode?)
      requires Valid()
      modifies `freeListHead, `freeListSize, `Free, `Taken, `Nodes, `Blocks, `blocksAllocNum, `objAllocNum
      modifies NodeSet(Free)`next
      ensures Valid() && fresh(Nodes - old(Nodes))
      ensures obj == null <==> old(Free) == [] && increaseStep == 0
      ensures obj != null ==> obj !in old(Taken) && Taken == old(Taken) + {obj}
      ensures obj == null ==> Taken == old(Taken)
      ensures old(Free) != [] ==> Nodes == old(Nodes) && Free == old(Free)[1..] && obj == old(Free)[0]
      ensures old(Free) == [] && increaseStep > 0 ==> |Nodes| == |old(Nodes)| + increaseStep && fresh(obj)
    {
      obj := Remove();
      if obj == null {
        assert increaseStep > 0 ==> BlocksFor(increaseStep, increaseStep) == 1;
        MultipleAdd(1, 0, increaseStep);
        var r := Allocate(increaseStep);
        if r == -1 {
          return null;
        }
        obj := Remove();
      }
    }

    /** mpool_return_obj. */
    method ReturnObj(item: HNode) returns (r: int)
      requires Valid() && item in Taken
      modifies `freeListHead, `freeListSize, `Free, `Taken, item`next
      ensures Valid() && r == 0 && Free == [item] + old(Free) && Taken == old(Taken) - {item}
    {
      Add(item);
      return 0;
    }

    lemma ListStarts()
      requires Linked()
      ensures freeListHead == NodeAt(Free, 0)
    {
    }

    /** What follows a node of the free list. */
    lemma ListGoesOn(i: nat)
      requires Linked() && i < |Free|
      ensures NodeAt(Free, i) == Free[i] && Free[i].next == NodeAt(Free, i + 1) && Free[i] !in Free[..i]
      ensures Free[i] in Nodes && forall n :: n in Free[..i] ==> n in Nodes
    {
    }

    /** The first loop of mpool_free: the block starts found along the list. */
    method CollectStarts() returns (starts: array<HNode?>, count: nat)
      requires Valid()
      ensures fresh(starts) && count <= starts.Length == blocksAllocNum
      ensures forall k :: 0 <= k < count ==> starts[k] != null && starts[k] in Free && starts[k].memBlockStart
      ensures forall j, k :: 0 <= j < k < count ==> starts[j] != starts[k]
      ensures forall n :: n in Free && n.memBlockStart ==> n in starts[..count]
    {
      hide MPool.Linked;
      ListStarts();
      starts := new HNode?[blocksAllocNum];
      count := 0;
      var item := freeListHead;
      ghost var i := 0;
      while item != null
        invariant 0 <= i <= |Free| && item == NodeAt(Free, i)
        invariant 0 <= count <= starts.Length
        invariant forall k :: 0 <= k < count ==> starts[k] != null && starts[k] in Free[..i] && starts[k].memBlockStart
        invariant forall j, k :: 0 <= j < k < count ==> starts[j] != starts[k]
        invariant forall n :: n in Free[..i] && n.memBlockStart ==> n in starts[..count]
        decreases |Free| - i
      {
        ListGoesOn(i);
        if item.memBlockStart {
          RoomForStart(starts[..count], item);
          ghost var before := starts[..count];
          starts[count] := item;
          count := count + 1;
          assert starts[..count] == before + [item];
        }
        assert Free[..i + 1] == Free[..i] + [Free[i]];
        item := item.next;
        i := i + 1;
      }
      assert Free[..i] == Free;
    }

    /** The second loop of mpool_free, from the last start found to the first. */
    method FreeStarts(starts: array<HNode?>, total: nat) returns (released: seq<HNode>)
      requires total <= starts.Length
      requires forall k :: 0 <= k < total ==> starts[k] != null
      ensures |released| == total
      ensures forall k :: 0 <= k < total ==> released[k] == starts[total - 1 - k]
    {
      released := [];
      var count := total;
      while count > 0
        invariant 0 <= count <= total && |released| == total - count
        invariant forall k :: 0 <= k < |released| ==> released[k] == starts[total - 1 - k]
      {
        count := count - 1;
        released := released + [starts[count]];
      }
    }

    /** All nodes are back: the starts found on the list are exactly the blocks' first nodes. */
    lemma AllStartsFound(found: seq<HNode>)
      requires Valid() && objAllocNum == freeListSize && DistinctNodes(found)
      requires forall n :: n in found ==> n in Free && n.memBlockStart
      requires forall n :: n in Free && n.memBlockStart ==> n in found
      ensures NodeSet(found) == NodeSet(Blocks) && |found| == blocksAllocNum
    {
      DistinctCardinality(Free);
      SubsetCardinality(NodeSet(Free), Nodes);
      forall n | n in Blocks ensures n in found {
        assert n in NodeSet(Free);
      }
      assert NodeSet(found) == NodeSet(Blocks);
      DistinctCardinality(found);
      DistinctCardinality(Blocks);
    }

    /** mpool_free: when every node is back, each block is released exactly once; otherwise
        nothing is. `released` lists the blocks in the order they are given back. */
    method ReleaseBlocks() returns (released: seq<HNode>)
      requires Valid()
      modifies this
      ensures old(objAllocNum != freeListSize || blocksAllocNum == 0) ==> released == [] && unchanged(this)
      ensures old(objAllocNum == freeListSize && blocksAllocNum != 0) ==>
        && DistinctNodes(released) && NodeSet(released) == NodeSet(old(Blocks))
        && |released| == old(blocksAllocNum)
        && Valid() && Nodes == {} && Free == [] && increaseStep == 0
    {
      if objAllocNum != freeListSize {
        return [];
      }
      if blocksAllocNum == 0 {
        return [];
      }
      var starts, count := CollectStarts();
      released := FreeStarts(starts, count);
      AllStartsFound(starts[..count]);
      ReversedNodes(starts[..count], released);
      Clear();
    }

    method Clear()
      modifies this
      ensures Valid() && Nodes == {} && Free == [] && increaseStep == 0
    {
      freeListHead, freeListSize, increaseStep, blocksAllocNum, objAllocNum := null, 0, 0, 0, 0;
      Free, Taken, Nodes, Blocks := [], {}, {}, [];
    }

    /** There is still a slot for one more block start. */
    lemma RoomForStart(found: seq<HNode?>, item: HNode)
      requires Valid() && item in Nodes && item.memBlockStart && item !in found
      requires forall j, k :: 0 <= j < k < |found| ==> found[j] != found[k]
      requires forall k :: 0 <= k < |found| ==> found[k] != null && found[k] in Nodes && found[k].memBlockStart
      ensures |found| < blocksAllocNum
    {
      var all: seq<HNode> := seq(|found|, k requires 0 <= k < |found| => found[k]) + [item];
      assert forall k :: 0 <= k < |found| ==> all[k] == found[k];
      DistinctCardinality(all);
      DistinctCardinality(Blocks);
      SubsetCardinality(NodeSet(all), NodeSet(Blocks));
    }
  }
}
