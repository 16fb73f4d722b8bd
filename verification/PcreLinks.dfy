/** compile_regex of pcre_compile.c: while a group is open the links of its branches lead back to the
    branch before; when it is closed the chain is reversed in place. */
module PcreLinks {
  import opened Arith
  import opened PcreCode
  import opened PcreBytes
  import opened PcreBuffer

  /** Where branch i starts, counted from the start of the group. */
  function At(bodies: seq<seq<byte>>, i: nat): (a: nat)
    requires i <= |bodies|
    ensures a >= 3 * i
  {
    if i == 0 then 0 else At(bodies, i - 1) + 3 + |bodies[i - 1]|
  }

  lemma {:induction false} AtGrows(bodies: seq<seq<byte>>, i: nat, j: nat)
    requires i < j <= |bodies|
    ensures At(bodies, i) + 3 + |bodies[i]| <= At(bodies, j)
  {
    if i < j - 1 {
      AtGrows(bodies, i, j - 1);
    }
  }

  lemma {:induction false} AtPrefix(bodies: seq<seq<byte>>, n: nat, i: nat)
    requires i <= n <= |bodies|
    ensures At(bodies[..n], i) == At(bodies, i)
  {
    if i > 0 {
      AtPrefix(bodies, n, i - 1);
    }
  }

  /** The opcode of branch i: the group's own, or OP_ALT. */
  function BranchOp(op: byte, i: nat): byte {
    if i == 0 then op else OP_ALT
  }

  /** The link of a branch of an open group: back to the branch before, zero in the first. */
  function BackLink(bodies: seq<seq<byte>>, i: nat): nat
    requires i < |bodies|
  {
    if i == 0 then 0 else 3 + |bodies[i - 1]|
  }

  ghost predicate Body(s: seq<byte>, start: nat, op: byte, bodies: seq<seq<byte>>, i: nat)
    requires i < |bodies|
  {
    Holds(s, start + At(bodies, i), [BranchOp(op, i)]) && Holds(s, start + At(bodies, i) + 3, bodies[i])
  }

  ghost predicate Open(s: seq<byte>, start: nat, op: byte, bodies: seq<seq<byte>>, i: nat)
    requires i < |bodies|
  {
    Body(s, start, op, bodies, i) && Holds(s, start + At(bodies, i) + 1, Two(BackLink(bodies, i)))
  }

  ghost predicate Linked(s: seq<byte>, start: nat, op: byte, bodies: seq<seq<byte>>, i: nat)
    requires i < |bodies|
  {
    Body(s, start, op, bodies, i) && Holds(s, start + At(bodies, i) + 1, Two(3 + |bodies[i]|))
  }

  /** All branches up to the last one, with their links reversed. */
  function Chained(op: byte, bodies: seq<seq<byte>>): (b: seq<byte>)
    ensures |b| == At(bodies, |bodies|)
  {
    if bodies == [] then []
    else
      var n := |bodies| - 1;
      AtPrefix(bodies, n, n);
      Chained(op, bodies[..n]) + Segment(BranchOp(op, n), bodies[n])
  }

  lemma LinkedSegment(s: seq<byte>, start: nat, op: byte, bodies: seq<seq<byte>>, i: nat)
    requires i < |bodies|
    ensures Linked(s, start, op, bodies, i) <==> Holds(s, start + At(bodies, i), Segment(BranchOp(op, i), bodies[i]))
  {
    hide Holds, Two, At, Segment, BranchOp;
    SegmentHeld(s, start + At(bodies, i), BranchOp(op, i), bodies[i]);
  }

  lemma SegmentHeld(s: seq<byte>, at: nat, op: byte, body: seq<byte>)
    ensures Holds(s, at, Segment(op, body)) <==>
      Holds(s, at, [op]) && Holds(s, at + 1, Two(3 + |body|)) && Holds(s, at + 3, body)
  {
    hide Holds, Two;
    var link := Two(3 + |body|);
    HoldsJoined(s, at, [op], link);
    HoldsJoined(s, at, [op] + link, body);
  }

  lemma {:induction false} LinkedChain(s: seq<byte>, start: nat, op: byte, bodies: seq<seq<byte>>)
    requires start + At(bodies, |bodies|) <= |s|
    ensures Holds(s, start, Chained(op, bodies)) <==> forall i :: 0 <= i < |bodies| ==> Linked(s, start, op, bodies, i)
  {
    hide Holds, Linked;
    if bodies == [] {
      HoldsNothing(s, start);
    } else {
      var n := |bodies| - 1;
      AtPrefix(bodies, n, n);
      LinkedChain(s, start, op, bodies[..n]);
      LinkedSegment(s, start, op, bodies, n);
      HoldsJoined(s, start, Chained(op, bodies[..n]), Segment(BranchOp(op, n), bodies[n]));
      forall i | 0 <= i < n ensures Linked(s, start, op, bodies[..n], i) <==> Linked(s, start, op, bodies, i) {
        SameLinked(s, start, op, bodies, n, i);
      }
    }
  }

  lemma SameLinked(s: seq<byte>, start: nat, op: byte, bodies: seq<seq<byte>>, n: nat, i: nat)
    requires i < n <= |bodies|
    ensures Linked(s, start, op, bodies[..n], i) <==> Linked(s, start, op, bodies, i)
  {
    AtPrefix(bodies, n, i);
  }

  /** Nothing but the link fields of the branches differs. */
  ghost predicate OnlyLinks(s: seq<byte>, t: seq<byte>, start: nat, bodies: seq<seq<byte>>) {
    |s| == |t| && forall p :: 0 <= p < |s| && s[p] != t[p] ==>
      exists i :: 0 <= i < |bodies| && LinkField(start, bodies, i, p)
  }

  ghost predicate LinkField(start: nat, bodies: seq<seq<byte>>, i: nat, p: int)
    requires i < |bodies|
  {
    start + At(bodies, i) + 1 <= p < start + At(bodies, i) + 3
  }

  lemma OnlyThisLink(s: seq<byte>, t: seq<byte>, u: seq<byte>, start: nat, bodies: seq<seq<byte>>, i: nat)
    requires OnlyLinks(s, t, start, bodies) && i < |bodies|
    requires Same(t, u, start + At(bodies, i) + 1, start + At(bodies, i) + 3)
    ensures OnlyLinks(s, u, start, bodies)
  {
    forall p | 0 <= p < |s| && s[p] != u[p] ensures exists j :: 0 <= j < |bodies| && LinkField(start, bodies, j, p) {
      if t[p] != u[p] {
        assert LinkField(start, bodies, i, p);
      }
    }
  }

  /** A new link in branch i leaves the other branches as they were. */
  lemma OtherBranches(s: seq<byte>, t: seq<byte>, start: nat, op: byte, bodies: seq<seq<byte>>, i: nat, j: nat)
    requires i < |bodies| && j < |bodies| && i != j
    requires Same(s, t, start + At(bodies, i) + 1, start + At(bodies, i) + 3)
    ensures Open(s, start, op, bodies, j) ==> Open(t, start, op, bodies, j)
    ensures Linked(s, start, op, bodies, j) ==> Linked(t, start, op, bodies, j)
  {
    hide Holds, Same, Two, At, BranchOp, BackLink;
    if i < j {
      AtGrows(bodies, i, j);
    } else {
      AtGrows(bodies, j, i);
    }
    var from, to, at := start + At(bodies, i) + 1, start + At(bodies, i) + 3, start + At(bodies, j);
    if Body(s, start, op, bodies, j) {
      HoldsKept(s, t, from, to, at, [BranchOp(op, j)]);
      HoldsKept(s, t, from, to, at + 3, bodies[j]);
      if Open(s, start, op, bodies, j) {
        HoldsKept(s, t, from, to, at + 1, Two(BackLink(bodies, j)));
      }
      if Linked(s, start, op, bodies, j) {
        HoldsKept(s, t, from, to, at + 1, Two(3 + |bodies[j]|));
      }
    }
  }

  lemma NowLinked(s: seq<byte>, t: seq<byte>, start: nat, op: byte, bodies: seq<seq<byte>>, i: nat)
    requires i < |bodies| && Open(s, start, op, bodies, i)
    requires Same(s, t, start + At(bodies, i) + 1, start + At(bodies, i) + 3)
    requires Holds(t, start + At(bodies, i) + 1, Two(3 + |bodies[i]|))
    ensures Linked(t, start, op, bodies, i)
  {
  }

  /** A chain half reversed: the branches after i are linked, those up to i still open. */
  ghost predicate HalfReversed(s: seq<byte>, start: nat, op: byte, bodies: seq<seq<byte>>, i: nat) {
    && i < |bodies|
    && (forall j :: 0 <= j <= i ==> Open(s, start, op, bodies, j))
    && (forall j :: i < j < |bodies| ==> Linked(s, start, op, bodies, j))
  }

  lemma ReverseOne(s: seq<byte>, t: seq<byte>, start: nat, op: byte, bodies: seq<seq<byte>>, i: nat)
    requires HalfReversed(s, start, op, bodies, i) && Same(s, t, start + At(bodies, i) + 1, start + At(bodies, i) + 3)
    requires Holds(t, start + At(bodies, i) + 1, Two(3 + |bodies[i]|))
    ensures if i > 0 then HalfReversed(t, start, op, bodies, i - 1)
            else forall j :: 0 <= j < |bodies| ==> Linked(t, start, op, bodies, j)
  {
    hide Open, Linked, Holds, Same, At, Two;
    NowLinked(s, t, start, op, bodies, i);
    forall j | 0 <= j < |bodies| && j != i
      ensures Open(s, start, op, bodies, j) ==> Open(t, start, op, bodies, j)
      ensures Linked(s, start, op, bodies, j) ==> Linked(t, start, op, bodies, j)
    {
      OtherBranches(s, t, start, op, bodies, i, j);
    }
  }

  /** The loop that closes a group: the chain of back links is turned round. */
  method ReverseChain(buf: Buffer, last: nat, end: nat, ghost start: nat, ghost op: byte, ghost bodies: seq<seq<byte>>)
    requires bodies != [] && last == start + At(bodies, |bodies| - 1)
    requires end == start + At(bodies, |bodies|) <= buf.code.Length
    requires At(bodies, |bodies|) < 65536
    requires forall i :: 0 <= i < |bodies| ==> Open(buf.All(), start, op, bodies, i)
    modifies buf.code
    ensures Holds(buf.All(), start, Chained(op, bodies)) && OnlyLinks(old(buf.All()), buf.All(), start, bodies)
  {
    hide Open, Linked, Holds, Same, OnlyLinks, At, Two, Buffer.All;
    var branch := last;
    ghost var i := |bodies| - 1;
    Start(buf.All(), start, bodies);
    LastBranch(bodies);
    var branchLength: nat := end - branch;
    while true
      invariant 0 <= i < |bodies| && branch == start + At(bodies, i) && branchLength == 3 + |bodies[i]|
      invariant HalfReversed(buf.All(), start, op, bodies, i)
      invariant OnlyLinks(old(buf.All()), buf.All(), start, bodies)
      decreases i
    {
      ghost var was := buf.All();
      LinkAt(was, start, op, bodies, i, buf.code.Length);
      var prevLength := buf.GetLink(branch + 1, BackLink(bodies, i));
      buf.PutTwo(branch + 1, branchLength);
      ReverseOne(was, buf.All(), start, op, bodies, i);
      OnlyThisLink(old(buf.All()), was, buf.All(), start, bodies, i);
      branchLength := prevLength;
      if !(branchLength > 0) {
        break;
      }
      branch := branch - branchLength;
      i := i - 1;
    }
    LinkedChain(buf.All(), start, op, bodies);
  }

  lemma Start(s: seq<byte>, start: nat, bodies: seq<seq<byte>>)
    ensures OnlyLinks(s, s, start, bodies)
  {
  }

  lemma LastBranch(bodies: seq<seq<byte>>)
    requires bodies != []
    ensures At(bodies, |bodies|) == At(bodies, |bodies| - 1) + 3 + |bodies[|bodies| - 1]|
  {
  }

  /** The link of an open branch, and where it leads. */
  lemma LinkAt(s: seq<byte>, start: nat, op: byte, bodies: seq<seq<byte>>, i: nat, length: nat)
    requires i < |bodies| && Open(s, start, op, bodies, i) && At(bodies, |bodies|) < 65536 && |s| == length
    ensures Holds(s, start + At(bodies, i) + 1, Two(BackLink(bodies, i))) && BackLink(bodies, i) < 65536
    ensures start + At(bodies, i) + 3 <= length
    ensures i > 0 ==>
      At(bodies, i) == At(bodies, i - 1) + BackLink(bodies, i) && BackLink(bodies, i) == 3 + |bodies[i - 1]|
    ensures BackLink(bodies, i) == 0 <==> i == 0
  {
    AtGrows(bodies, i, |bodies|);
    if i > 0 {
      AtGrows(bodies, i - 1, |bodies|);
    }
  }

  // ---------------------------------------------------------------- closed groups

  /** The bodies of the branches of a group; the first one begins with the group's number. */
  function Bodies(skip: seq<byte>, alts: Alts): (b: seq<seq<byte>>)
    ensures |b| >= 1
    decreases alts
  {
    match alts
    case Only(ops) => [skip + OpsBytes(ops)]
    case Or(ops, more) => [skip + OpsBytes(ops)] + Bodies([], more)
  }

  lemma ChainedBack(op: byte, bodies: seq<seq<byte>>)
    requires bodies != []
    ensures var n := |bodies| - 1; Chained(op, bodies) == Chained(op, bodies[..n]) + Segment(BranchOp(op, n), bodies[n])
  {
  }

  lemma {:induction false} ChainedFront(op: byte, body: seq<byte>, rest: seq<seq<byte>>)
    ensures Chained(op, [body] + rest) == Segment(op, body) + Chained(OP_ALT, rest)
  {
    var all := [body] + rest;
    var n := |rest|;
    if rest == [] {
      assert all[..0] == [] && all[0] == body;
      assert Chained(op, all[..0]) == [];
    } else {
      hide Segment;
      var front := rest[..n - 1];
      ChainedFront(op, body, front);
      assert all[..n] == [body] + front && all[n] == rest[n - 1];
      ChainedBack(op, all);
      ChainedBack(OP_ALT, rest);
    }
  }

  lemma {:induction false} AltsChained(op: byte, skip: seq<byte>, alts: Alts)
    ensures AltsBytes(op, skip, alts) == Chained(op, Bodies(skip, alts))
    decreases alts
  {
    match alts
    case Only(ops) =>
      ChainedFront(op, skip + OpsBytes(ops), []);
    case Or(ops, more) =>
      AltsChained(OP_ALT, [], more);
      ChainedFront(op, skip + OpsBytes(ops), Bodies([], more));
  }

  /** The links of a closed group lead through the start of every branch, in order, to the KET. */
  method FindKet(buf: Buffer, start: nat, ghost op: byte,
                 ghost bodies: seq<seq<byte>>) returns (ket: nat, ghost visited: seq<nat>)
    requires bodies != [] && At(bodies, |bodies|) < 65536
    requires Holds(buf.All(), start, Closed(OP_KET, Chained(op, bodies)))
    ensures ket == start + At(bodies, |bodies|)
    ensures |visited| == |bodies| && forall i :: 0 <= i < |visited| ==> visited[i] == start + At(bodies, i)
  {
    hide Linked, Holds, At, Two, Buffer.All, Chained, Closed;
    ket := start;
    visited := [];
    ClosedParts(buf.All(), start, op, bodies);
    while true
      invariant |visited| < |bodies| && ket == start + At(bodies, |visited|)
      invariant forall i :: 0 <= i < |visited| ==> visited[i] == start + At(bodies, i)
      decreases |bodies| - |visited|
    {
      ghost var i := |visited|;
      NextLink(buf.All(), start, op, bodies, i);
      var link := buf.GetLink(ket + 1, 3 + |bodies[i]|);
      visited := visited + [ket];
      ket := ket + link;
      var b := buf.GetByte(ket, if i + 1 < |bodies| then OP_ALT else OP_KET);
      if b == OP_KET {
        break;
      }
    }
  }

  lemma ClosedParts(s: seq<byte>, start: nat, op: byte, bodies: seq<seq<byte>>)
    requires Holds(s, start, Closed(OP_KET, Chained(op, bodies)))
    ensures forall i :: 0 <= i < |bodies| ==> Linked(s, start, op, bodies, i)
    ensures Holds(s, start + At(bodies, |bodies|), [OP_KET]) && At(bodies, 0) == 0
  {
    hide Linked, Holds, Two;
    var chain := Chained(op, bodies);
    HoldsJoined(s, start, chain + [OP_KET], Two(|chain|));
    HoldsJoined(s, start, chain, [OP_KET]);
    HeldFits(s, start, chain);
    LinkedChain(s, start, op, bodies);
  }

  lemma HeldFits(s: seq<byte>, at: int, b: seq<byte>)
    requires Holds(s, at, b)
    ensures 0 <= at && at + |b| <= |s|
  {
  }

  lemma NextLink(s: seq<byte>, start: nat, op: byte, bodies: seq<seq<byte>>, i: nat)
    requires i < |bodies| && At(bodies, |bodies|) < 65536
    requires forall j :: 0 <= j < |bodies| ==> Linked(s, start, op, bodies, j)
    ensures Holds(s, start + At(bodies, i) + 1, Two(3 + |bodies[i]|)) && 3 + |bodies[i]| < 65536
    ensures At(bodies, i + 1) == At(bodies, i) + 3 + |bodies[i]|
    ensures i + 1 < |bodies| ==> Holds(s, start + At(bodies, i + 1), [OP_ALT])
  {
    AtGrows(bodies, i, |bodies|);
    assert Linked(s, start, op, bodies, i);
    if i + 1 < |bodies| {
      assert Linked(s, start, op, bodies, i + 1);
    }
  }

  /** The end of compile_regex: the chain is reversed and the KET filled in. */
  method CloseGroup(buf: Buffer, start: nat, last: nat, end: nat, ghost op: byte, ghost bodies: seq<seq<byte>>)
    requires bodies != [] && last == start + At(bodies, |bodies| - 1) && end == start + At(bodies, |bodies|)
    requires end + 3 <= buf.code.Length
    requires At(bodies, |bodies|) < 65536
    requires forall i :: 0 <= i < |bodies| ==> Open(buf.All(), start, op, bodies, i)
    modifies buf.code
    ensures Holds(buf.All(), start, Closed(OP_KET, Chained(op, bodies)))
    ensures Same(old(buf.All()), buf.All(), start, end + 3)
  {
    hide Open, Linked, Holds, Same, At, Two, Buffer.All, Chained, OnlyLinks;
    ghost var s0 := buf.All();
    ReverseChain(buf, last, end, start, op, bodies);
    ghost var s1 := buf.All();
    LinksWithin(s0, s1, start, bodies, end + 3);
    buf.PutByte(end, OP_KET);
    ghost var s2 := buf.All();
    SameWider(s1, s2, end, end + 1, start, end + 3);
    HoldsKept(s1, s2, end, end + 1, start, Chained(op, bodies));
    buf.PutTwo(end + 1, end - start);
    ghost var s3 := buf.All();
    SameWider(s2, s3, end + 1, end + 3, start, end + 3);
    HoldsKept(s2, s3, end + 1, end + 3, start, Chained(op, bodies));
    HoldsKept(s2, s3, end + 1, end + 3, end, [OP_KET]);
    SameTwice(s0, s1, s2, start, end + 3);
    SameTwice(s0, s2, s3, start, end + 3);
    HoldsJoined(s3, start, Chained(op, bodies), [OP_KET]);
    HoldsJoined(s3, start, Chained(op, bodies) + [OP_KET], Two(end - start));
  }

  lemma LinksWithin(s: seq<byte>, t: seq<byte>, start: nat, bodies: seq<seq<byte>>, end: nat)
    requires OnlyLinks(s, t, start, bodies) && start + At(bodies, |bodies|) <= end
    ensures Same(s, t, start, end)
  {
    forall p | 0 <= p < |s| && s[p] != t[p] ensures start <= p < end {
      var i :| 0 <= i < |bodies| && LinkField(start, bodies, i, p);
      AtGrows(bodies, i, |bodies|);
    }
  }
}
