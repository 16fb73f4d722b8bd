/** heap.c, the pure part: what the sift loops and the removal of a slot do to the
    sequence of queued entries. The array code in TimerQueue is proved against these
    functions; the heap order is a fact about the functions. */
module HeapOrder {
  import opened TimerNodes

  /** One queued timer: the pool node that carries it, its id, the timer and its key. */
  datatype Entry = Entry(node: HNode, id: nat, timer: TimerNode, key: nat)

  function Parent(i: nat): nat {
    if i == 0 then 0 else (i - 1) / 2
  }

  ghost predicate Ordered(s: seq<Entry>) {
    forall i :: 0 < i < |s| ==> s[Parent(i)].key <= s[i].key
  }

  function Swap(s: seq<Entry>, i: nat, j: nat): (r: seq<Entry>)
    requires i < |s| && j < |s|
    ensures |r| == |s|
  {
    s[i := s[j]][j := s[i]]
  }

  /** filter_up: an equal parent is moved down too, only a strictly smaller one stops the climb. */
  function SiftUp(s: seq<Entry>, pos: nat): (r: seq<Entry>)
    requires pos < |s|
    ensures |r| == |s|
    decreases pos
  {
    if pos == 0 || s[Parent(pos)].key < s[pos].key then s
    else SiftUp(Swap(s, pos, Parent(pos)), Parent(pos))
  }

  /** The child filter_down compares with: the right one only when strictly smaller. */
  function Child(s: seq<Entry>, pos: nat): (c: nat)
    requires 2 * pos + 1 < |s|
    ensures c < |s| && (c == 2 * pos + 1 || c == 2 * pos + 2)
    ensures forall d :: (d == 2 * pos + 1 || d == 2 * pos + 2) && d < |s| ==> s[c].key <= s[d].key
  {
    var l := 2 * pos + 1;
    if l + 1 < |s| && s[l + 1].key < s[l].key then l + 1 else l
  }

  function SiftDown(s: seq<Entry>, pos: nat): (r: seq<Entry>)
    requires pos < |s|
    ensures |r| == |s|
    decreases |s| - pos
  {
    if 2 * pos + 1 >= |s| then s
    else
      var c := Child(s, pos);
      if s[pos].key < s[c].key then s else SiftDown(Swap(s, pos, c), c)
  }

  /** The heap with its last entry moved over the vacated slot. */
  function MoveLast(s: seq<Entry>, slot: nat): (t: seq<Entry>)
    requires slot < |s| - 1
    ensures |t| == |s| - 1
  {
    s[..|s| - 1][slot := s[|s| - 1]]
  }

  /** heap_remove_node: the last entry takes the vacated slot and is sifted up or down. */
  function RemoveAt(s: seq<Entry>, slot: nat): (r: seq<Entry>)
    requires slot < |s|
    ensures |r| == |s| - 1
  {
    if slot < |s| - 1 then
      var t := MoveLast(s, slot);
      if t[slot].key < t[Parent(slot)].key then SiftUp(t, slot) else SiftDown(t, slot)
    else s[..slot]
  }

  /** Every edge holds but the one above pos, and pos' children respect pos' parent. */
  ghost predicate OrderedExceptAbove(s: seq<Entry>, pos: nat)
    requires pos < |s|
  {
    && (forall i :: 0 < i < |s| && i != pos ==> s[Parent(i)].key <= s[i].key)
    && (forall i :: 0 < i < |s| && Parent(i) == pos && pos > 0 ==> s[Parent(pos)].key <= s[i].key)
  }

  /** Every edge holds but those below pos, and pos' children respect pos' parent. */
  ghost predicate OrderedExceptBelow(s: seq<Entry>, pos: nat)
    requires pos < |s|
  {
    && (forall i :: 0 < i < |s| && Parent(i) != pos ==> s[Parent(i)].key <= s[i].key)
    && (forall i :: 0 < i < |s| && Parent(i) == pos && pos > 0 ==> s[Parent(pos)].key <= s[i].key)
  }

  lemma SwapMembers(s: seq<Entry>, i: nat, j: nat)
    requires i < |s| && j < |s|
    ensures forall e :: e in Swap(s, i, j) <==> e in s
  {
    var t := Swap(s, i, j);
    forall e | e in s ensures e in t {
      var k :| 0 <= k < |s| && s[k] == e;
      assert t[if k == i then j else if k == j then i else k] == e;
    }
    forall e | e in t ensures e in s {
      var k :| 0 <= k < |t| && t[k] == e;
      assert s[if k == i then j else if k == j then i else k] == e;
    }
  }

  lemma {:induction false} SiftUpContents(s: seq<Entry>, pos: nat)
    requires pos < |s|
    ensures multiset(SiftUp(s, pos)) == multiset(s)
    decreases pos
  {
    if pos == 0 || s[Parent(pos)].key < s[pos].key {
    } else {
      SiftUpContents(Swap(s, pos, Parent(pos)), Parent(pos));
    }
  }

  lemma {:induction false} SiftDownContents(s: seq<Entry>, pos: nat)
    requires pos < |s|
    ensures multiset(SiftDown(s, pos)) == multiset(s)
    decreases |s| - pos
  {
    if 2 * pos + 1 >= |s| {
    } else {
      var c := Child(s, pos);
      if s[pos].key < s[c].key {
      } else {
        SiftDownContents(Swap(s, pos, c), c);
      }
    }
  }

  lemma {:induction false} SiftUpOrders(s: seq<Entry>, pos: nat)
    requires pos < |s| && OrderedExceptAbove(s, pos)
    ensures Ordered(SiftUp(s, pos))
    decreases pos
  {
    if pos == 0 || s[Parent(pos)].key < s[pos].key {
    } else {
      SiftUpOrders(Swap(s, pos, Parent(pos)), Parent(pos));
    }
  }

  lemma {:induction false} SiftDownOrders(s: seq<Entry>, pos: nat)
    requires pos < |s| && OrderedExceptBelow(s, pos)
    ensures Ordered(SiftDown(s, pos))
    decreases |s| - pos
  {
    if 2 * pos + 1 >= |s| {
    } else {
      var c := Child(s, pos);
      if s[pos].key < s[c].key {
      } else {
        SiftDownOrders(Swap(s, pos, c), c);
      }
    }
  }

  /** The root of an ordered heap is a minimum. */
  lemma {:induction false} RootIsMinimum(s: seq<Entry>, i: nat)
    requires Ordered(s) && i < |s|
    ensures s[0].key <= s[i].key
    decreases i
  {
    if i > 0 {
      RootIsMinimum(s, Parent(i));
    }
  }

  lemma MoveLastOrder(s: seq<Entry>, slot: nat)
    requires Ordered(s) && slot < |s| - 1
    ensures var t := MoveLast(s, slot);
      if t[slot].key < t[Parent(slot)].key then OrderedExceptAbove(t, slot) else OrderedExceptBelow(t, slot)
  {
    var t := MoveLast(s, slot);
    forall i | 0 < i < |t|
      ensures i != slot && Parent(i) != slot ==> t[Parent(i)].key <= t[i].key
      ensures Parent(i) == slot && slot > 0 ==> t[Parent(slot)].key <= t[i].key
    {
      assert s[Parent(i)].key <= s[i].key;
      assert Parent(i) < i;
      if Parent(i) == slot && slot > 0 {
        assert s[Parent(slot)].key <= s[slot].key;
      }
    }
  }

  lemma MoveLastContents(s: seq<Entry>, slot: nat)
    requires slot < |s| - 1
    ensures multiset(MoveLast(s, slot)) == multiset(s) - multiset{s[slot]}
  {
    var n := |s| - 1;
    assert s == s[..n] + [s[n]];
  }

  /** Removing a slot keeps the order ... */
  lemma RemoveAtKeepsOrder(s: seq<Entry>, slot: nat)
    requires Ordered(s) && slot < |s|
    ensures Ordered(RemoveAt(s, slot))
  {
    if slot < |s| - 1 {
      var t := MoveLast(s, slot);
      MoveLastOrder(s, slot);
      if t[slot].key < t[Parent(slot)].key {
        SiftUpOrders(t, slot);
      } else {
        SiftDownOrders(t, slot);
      }
    }
  }

  /** ... and takes away exactly that entry. */
  lemma RemoveAtContents(s: seq<Entry>, slot: nat)
    requires slot < |s|
    ensures multiset(RemoveAt(s, slot)) == multiset(s) - multiset{s[slot]}
  {
    if slot < |s| - 1 {
      var t := MoveLast(s, slot);
      MoveLastContents(s, slot);
      SiftUpContents(t, slot);
      SiftDownContents(t, slot);
    } else {
      assert s == s[..slot] + [s[slot]];
    }
  }

  lemma {:induction false} SiftDownLeavesEarlier(s: seq<Entry>, pos: nat, i: nat)
    requires i < pos < |s|
    ensures SiftDown(s, pos)[i] == s[i]
    decreases |s| - pos
  {
    if 2 * pos + 1 < |s| {
      var c := Child(s, pos);
      if s[pos].key >= s[c].key {
        SiftDownLeavesEarlier(Swap(s, pos, c), c, i);
      }
    }
  }

  lemma {:induction false} SiftUpFromEarlier(s: seq<Entry>, pos: nat, i: nat, bound: nat)
    requires i < bound && pos <= bound < |s|
    ensures SiftUp(s, pos)[i] in s[..bound] || SiftUp(s, pos)[i] == s[pos]
    decreases pos
  {
    if pos == 0 || s[Parent(pos)].key < s[pos].key {
      assert i < pos ==> s[i] in s[..bound];
      assert s[..bound][i] == s[i];
    } else {
      var t := Swap(s, pos, Parent(pos));
      SiftUpFromEarlier(t, Parent(pos), i, bound);
      assert t[Parent(pos)] == s[pos];
      if SiftUp(t, Parent(pos))[i] in t[..bound] {
        var j: nat :| j < bound && t[..bound][j] == SiftUp(t, Parent(pos))[i];
        assert t[j] == s[pos] || t[j] == s[..bound][if j == pos then Parent(pos) else j];
      }
    }
  }

  /** The cancel-all scan is safe although every removal re-heapifies: if no slot below the
      scan position holds the timer, none does after the timer's entry at that position
      has been removed, because another entry of the same timer has the same key. */
  lemma CancelScanStaysClean(s: seq<Entry>, slot: nat, timer: TimerNode)
    requires Ordered(s) && slot < |s| && s[slot].timer == timer
    requires forall i :: 0 <= i < slot ==> s[i].timer != timer
    requires forall i :: 0 <= i < |s| && s[i].timer == timer ==> s[i].key == s[slot].key
    ensures forall i :: 0 <= i < slot && i < |s| - 1 ==> RemoveAt(s, slot)[i].timer != timer
  {
    if slot < |s| - 1 {
      var t := MoveLast(s, slot);
      forall i | 0 <= i < slot
        ensures RemoveAt(s, slot)[i].timer != timer
      {
        if t[slot].key < t[Parent(slot)].key {
          assert t[Parent(slot)] == s[Parent(slot)] && s[Parent(slot)].key <= s[slot].key;
          assert t[slot] == s[|s| - 1];
          SiftUpFromEarlier(t, slot, i, slot);
          assert t[..slot] == s[..slot];
        } else {
          SiftDownLeavesEarlier(t, slot, i);
        }
      }
    }
  }
}
