/** loader.c: incrementing IPv6 addresses, the addresses of clients, and the address ranges of the
    sub-batches that a batch is cut into. */
module Addresses {
  import opened Arith

  type Address = s: seq<byte> | |s| == 16 witness [0, 0, 0, 0, 0, 0, 0, 0, 0, 0, 0, 0, 0, 0, 0, 0]

  // ---------------------------------------------------------------- big-endian numbers

  function Number(s: seq<byte>): nat {
    if s == [] then 0 else Number(s[..|s| - 1]) * 256 + s[|s| - 1]
  }

  function Limit(n: nat): nat {
    if n == 0 then 1 else Limit(n - 1) * 256
  }

  lemma {:induction false} NumberBelow(s: seq<byte>)
    ensures Number(s) < Limit(|s|)
  {
    if s != [] {
      NumberBelow(s[..|s| - 1]);
    }
  }

  ghost predicate AllOnes(s: seq<byte>) {
    forall i :: 0 <= i < |s| ==> s[i] == 255
  }

  /** The loop of ipv6_increment, from the last byte on: the sum's bytes and its carry. */
  function AddCarry(s: seq<byte>, carry: nat): (r: (seq<byte>, nat))
    requires carry <= 1
    ensures |r.0| == |s| && r.1 <= 1
  {
    if s == [] then ([], carry)
    else
      var t := carry + s[|s| - 1];
      var r := AddCarry(s[..|s| - 1], t / 256);
      (r.0 + [t % 256], r.1)
  }

  lemma NumberStep(s: seq<byte>, b: byte)
    ensures Number(s + [b]) == Number(s) * 256 + b && Limit(|s| + 1) == Limit(|s|) * 256
    ensures AllOnes(s + [b]) <==> AllOnes(s) && b == 255
  {
    assert (s + [b])[..|s|] == s && (s + [b])[|s|] == b;
  }

  /** It adds the carry to the number, and overflows exactly if the number is all ones. */
  lemma {:induction false} AddCarryAdds(s: seq<byte>, carry: nat)
    requires carry <= 1
    ensures var r := AddCarry(s, carry);
      && Number(r.0) + (if r.1 == 1 then Limit(|s|) else 0) == Number(s) + carry
      && (r.1 == 1 <==> carry == 1 && AllOnes(s))
  {
    hide Number, Limit, AllOnes;
    if s == [] {
      NumberOfNothing();
    } else {
      var n := |s| - 1;
      var t := carry + s[n];
      var r := AddCarry(s[..n], t / 256);
      AddCarryAdds(s[..n], t / 256);
      NumberStep(r.0, t % 256);
      assert s == s[..n] + [s[n]];
      NumberStep(s[..n], s[n]);
    }
  }

  lemma NumberOfNothing()
    ensures Number([]) == 0 && Limit(0) == 1 && AllOnes([])
  {
  }

  lemma CarryStep(s: seq<byte>, i: nat, carry: nat)
    requires 2 <= i < |s| && carry <= 1
    ensures var t := carry + s[i]; var r := AddCarry(s[2..i], t / 256);
      AddCarry(s[2..i + 1], carry) == (r.0 + [t % 256], r.1)
  {
    var low := s[2..i + 1];
    assert low[|low| - 1] == s[i] && low[..|low| - 1] == s[2..i];
  }

  lemma CarryOnly(carry: nat)
    requires carry <= 1
    ensures AddCarry([], carry) == ([], carry)
  {
  }

  /** The part of an address that is incremented: its low 112 bits. */
  function Low(a: Address): nat {
    Number(a[2..])
  }

  /** The carry loop, from the last byte down to the third. */
  method AddOne(src: array<byte>, dest: array<byte>) returns (temp: nat)
    requires src.Length == dest.Length == 16
    modifies dest
    ensures dest[2..] == AddCarry(old(src[2..]), 1).0 && temp == AddCarry(old(src[2..]), 1).1
    ensures dest[0] == old(dest[0]) && dest[1] == old(dest[1])
  {
    hide AddCarry;
    ghost var s := src[..];
    ghost var goal := AddCarry(s[2..], 1);
    temp := 1;
    var i := 15;
    assert s[2..16] == s[2..] && goal.0 + [] == goal.0 && dest[16..] == [];
    while i > 1
      invariant 1 <= i <= 15 && temp <= 1 && forall k :: 0 <= k <= i ==> src[k] == s[k]
      invariant goal.0 == AddCarry(s[2..i + 1], temp).0 + dest[i + 1..]
      invariant goal.1 == AddCarry(s[2..i + 1], temp).1
      invariant dest[0] == old(dest[0]) && dest[1] == old(dest[1])
    {
      ghost var tail := dest[i + 1..];
      CarryStep(s, i, temp);
      temp := temp + src[i];
      dest[i] := temp % 256;
      assert dest[i..] == [temp % 256] + tail;
      temp := temp / 256;
      assert AddCarry(s[2..i], temp).0 + [dest[i]] + tail == AddCarry(s[2..i], temp).0 + dest[i..];
      i := i - 1;
    }
    CarryOnly(temp);
    assert s[2..2] == [] && [] + dest[2..] == dest[2..];
  }

  /** ipv6_increment adds one to the low 112 bits, and fails exactly when they are all ones. The two
      addresses may be the same. */
  method Ipv6Increment(src: array<byte>, dest: array<byte>) returns (r: int)
    requires src.Length == dest.Length == 16
    modifies dest
    ensures r == if AllOnes(old(src[2..])) then -1 else 0
    ensures r == 0 ==> dest[..] == Incremented(old(src[..]))
  {
    hide AddCarry, AllOnes;
    ghost var s := src[..];
    assert src[2..] == s[2..];
    AddCarryAdds(s[2..], 1);
    var temp := AddOne(src, dest);
    if temp != 0 {
      return -1;
    }
    dest[1] := src[1];
    dest[0] := src[0];
    assert dest[2..] == AddCarry(s[2..], 1).0 && dest[..2] == s[..2];
    assert dest[..] == dest[..2] + dest[2..];
    r := 0;
  }

  function Incremented(a: Address): Address {
    a[..2] + AddCarry(a[2..], 1).0
  }

  lemma LastCarry(s: seq<byte>, b: byte, carry: nat)
    requires carry <= 1
    ensures var t := carry + b; var r := AddCarry(s, t / 256);
      AddCarry(s + [b], carry) == (r.0 + [t % 256], r.1)
  {
    assert (s + [b])[..|s|] == s;
  }

  lemma {:induction false} NoCarry(s: seq<byte>)
    ensures AddCarry(s, 0) == (s, 0)
  {
    hide AddCarry;
    if s == [] {
      CarryOnly(0);
    } else {
      var n := |s| - 1;
      NoCarry(s[..n]);
      LastCarry(s[..n], s[n], 0);
      assert s == s[..n] + [s[n]];
    }
  }

  lemma {:induction false} CarryBytes(s: seq<byte>, i: nat)
    requires i < |s| && s[i] < 255 && forall j :: i < j < |s| ==> s[j] == 255
    ensures AddCarry(s, 1) == (s[..i] + [s[i] + 1] + seq(|s| - 1 - i, _ => 0), 0)
  {
    hide AddCarry;
    var n := |s| - 1;
    assert s == s[..n] + [s[n]];
    LastCarry(s[..n], s[n], 1);
    if i == n {
      NoCarry(s[..n]);
      var zeros: seq<byte> := seq(|s| - 1 - i, _ => 0);
      assert zeros == [] && s[..n] + [s[n] + 1] + zeros == s[..n] + [s[n] + 1];
    } else {
      CarryBytes(s[..n], i);
      assert s[..n][..i] == s[..i];
      var front: seq<byte>, zeros: seq<byte> := s[..i] + [s[i] + 1], seq(n - 1 - i, _ => 0);
      assert front + zeros + [0] == front + seq(n - i, _ => 0);
    }
  }

  /** Byte by byte: of all bytes that are 255 up to the last one, zeros are left, and the one before them is
      one more. */
  lemma IncrementBytes(a: Address, i: nat)
    requires 2 <= i < 16 && a[i] < 255 && forall j :: i < j < 16 ==> a[j] == 255
    ensures Incremented(a) == a[..i] + [a[i] + 1] + seq(15 - i, _ => 0)
  {
    CarryBytes(a[2..], i - 2);
    assert a[..2] + a[2..][..i - 2] == a[..i];
  }

  lemma IncrementedIsNext(a: Address)
    requires !AllOnes(a[2..])
    ensures Incremented(a)[..2] == a[..2] && Low(Incremented(a)) == Low(a) + 1
    ensures Number(Incremented(a)) == Number(a) + 1
    ensures Low(a) + 1 < Limit(14)
  {
    AddCarryAdds(a[2..], 1);
    var b := Incremented(a);
    assert b[2..] == AddCarry(a[2..], 1).0 && b[..2] == a[..2];
    assert a == a[..2] + a[2..] && b == b[..2] + b[2..];
    NumberJoin(a[..2], a[2..]);
    NumberJoin(b[..2], b[2..]);
    NumberBelow(b[2..]);
  }

  lemma {:induction false} NumberJoin(s: seq<byte>, t: seq<byte>)
    ensures Number(s + t) == Number(s) * Limit(|t|) + Number(t)
  {
    hide Number, Limit;
    if t == [] {
      assert s + t == s;
      NumberOfNothing();
    } else {
      var front := t[..|t| - 1];
      NumberJoin(s, front);
      assert s + t == (s + front) + [t[|t| - 1]] && t == front + [t[|t| - 1]];
      NumberStep(s + front, t[|t| - 1]);
      NumberStep(front, t[|t| - 1]);
      Factor(Number(s), Limit(|front|));
    }
  }

  lemma Factor(a: nat, b: nat)
    ensures a * b * 256 == a * (b * 256)
  {
  }

  /** All ones is the largest of the 112-bit numbers. */
  lemma AllOnesIsLast(a: Address)
    ensures AllOnes(a[2..]) <==> Low(a) == Limit(14) - 1
  {
    AddCarryAdds(a[2..], 1);
    NumberBelow(AddCarry(a[2..], 1).0);
    NumberBelow(a[2..]);
  }

  // ---------------------------------------------------------------- clients and sub-batches

  const BATCHES_MAX_NUM: nat := 64

  /** The address `steps` after another one, in the same scope. */
  ghost predicate After(a: Address, b: Address, steps: nat) {
    b[..2] == a[..2] && Low(b) == Low(a) + steps && Number(b) == Number(a) + steps
  }

  /** An assignment of one in6_addr from the increment of another. */
  method Next(a: Address) returns (r: int, b: Address)
    ensures r == if Low(a) == Limit(14) - 1 then -1 else 0
    ensures r == 0 ==> After(a, b, 1)
  {
    hide Number, Limit;
    AllOnesIsLast(a);
    var src := new byte[16](i requires 0 <= i < 16 => a[i]);
    var dest := new byte[16](i requires 0 <= i < 16 => a[i]);
    assert src[..] == a && src[2..] == a[2..];
    r := Ipv6Increment(src, dest);
    b := dest[..];
    if r == 0 {
      IncrementedIsNext(a);
    }
  }

  /** n increments in a row: the loop of create_thr_subbatches over one sub-batch. */
  method Advance(a: Address, n: nat) returns (r: int, b: Address)
    ensures r == if Low(a) + n >= Limit(14) then -1 else 0
    ensures r == 0 ==> After(a, b, n)
  {
    hide Number, Limit;
    b := a;
    var k := 0;
    LowFits(a);
    while k < n
      invariant k <= n && After(a, b, k) && Low(b) < Limit(14)
    {
      var temp := b;
      r, b := Next(temp);
      if r == -1 {
        return;
      }
      LowFits(b);
      k := k + 1;
    }
    r := 0;
  }

  lemma LowFits(a: Address)
    ensures Low(a) < Limit(14)
  {
    NumberBelow(a[2..]);
  }

  /** ip_addr_str_allocate_init for all clients of a batch that do not share addresses: client j gets
      the address j after the lowest one. */
  method ClientAddresses(min: Address, n: nat) returns (r: int, addresses: seq<Address>)
    ensures r == if n > 0 && Low(min) + n - 1 >= Limit(14) then -1 else 0
    ensures r == 0 ==> |addresses| == n && forall j :: 0 <= j < n ==> After(min, addresses[j], j)
  {
    hide Number, Limit;
    addresses := [];
    var in6Prev, in6New := min, min;
    LowFits(min);
    r := 0;
    var clientIndex := 0;
    while clientIndex < n
      invariant r == 0 && clientIndex <= n && |addresses| == clientIndex
      invariant clientIndex > 0 ==> After(min, in6Prev, clientIndex - 1) && Low(in6Prev) < Limit(14)
      invariant forall j :: 0 <= j < clientIndex ==> After(min, addresses[j], j)
    {
      if clientIndex == 0 {
        in6Prev, in6New := min, min;
      } else {
        r, in6New := Next(in6Prev);
        if r == -1 {
          return;
        }
        LowFits(in6New);
      }
      in6Prev := in6New;
      addresses := addresses + [in6New];
      clientIndex := clientIndex + 1;
    }
  }

  /** The IPv6 ranges of create_thr_subbatches: each starts one after the end of the one before. */
  method SubbatchRanges6(min: Address, clientNumMax: nat,
                         subbatchesNum: int) returns (r: int, n: nat, mins: seq<Address>, maxs: seq<Address>)
    ensures n == if subbatchesNum > 0 then clientNumMax / subbatchesNum else 0
    ensures r == if 2 <= subbatchesNum <= BATCHES_MAX_NUM && subbatchesNum <= clientNumMax
                    && Low(min) + Multiple(subbatchesNum, n + 1) - 1 < Limit(14) then 0 else -1
    ensures r == 0 ==> |mins| == |maxs| == subbatchesNum
    ensures r == 0 ==> forall i :: 0 <= i < subbatchesNum ==>
      After(min, mins[i], Multiple(i, n + 1)) && After(min, maxs[i], Multiple(i, n + 1) + n)
  {
    hide Number, Limit, After, Multiple;
    n, mins, maxs := if subbatchesNum > 0 then clientNumMax / subbatchesNum else 0, [], [];
    if subbatchesNum < 2 || subbatchesNum > BATCHES_MAX_NUM {
      return -1, n, mins, maxs;
    }
    if clientNumMax < subbatchesNum {
      return -1, n, mins, maxs;
    }
    var i := 0;
    while i < subbatchesNum
      invariant 0 <= i <= subbatchesNum && |mins| == |maxs| == i
      invariant forall k :: 0 <= k < i ==>
        After(min, mins[k], Multiple(k, n + 1)) && After(min, maxs[k], Multiple(k, n + 1) + n)
    {
      MultipleStep(i, n + 1);
      var low := min;
      if i == 0 {
        AfterSelf(min);
      } else {
        r, low := Next(maxs[i - 1]);
        Steps(min, maxs[i - 1], low, Multiple(i - 1, n + 1) + n, 1, r == 0);
        if r == -1 {
          EarlyEnd(i, subbatchesNum, n + 1);
          return;
        }
      }
      var high;
      r, high := Advance(low, n);
      Steps(min, low, high, Multiple(i, n + 1), n, r == 0);
      if r == -1 {
        EarlyEnd(i, subbatchesNum, n + 1);
        return;
      }
      mins, maxs := mins + [low], maxs + [high];
      i := i + 1;
    }
    LowFits(maxs[i - 1]);
    MultipleStep(i, n + 1);
    Steps(min, maxs[i - 1], min, Multiple(i - 1, n + 1) + n, 0, false);
    r := 0;
  }

  lemma AfterSelf(a: Address)
    ensures After(a, a, 0)
  {
  }

  /** Steps add up; and an address that is steps away has its place below the limit. */
  lemma Steps(a: Address, b: Address, c: Address, m: nat, n: nat, more: bool)
    requires After(a, b, m) && (more ==> After(b, c, n))
    ensures more ==> After(a, c, m + n)
    ensures Low(b) == Low(a) + m
  {
  }

  lemma EarlyEnd(i: nat, k: nat, n: nat)
    requires i < k
    ensures Multiple(i, n) + n <= Multiple(k, n)
  {
    NextMultiple(i, k, n);
  }

  /** The IPv4 ranges: each starts where the one before ends. */
  method SubbatchRanges4(min: nat, clientNumMax: nat,
                         subbatchesNum: nat) returns (n: nat, mins: seq<nat>, maxs: seq<nat>)
    requires 2 <= subbatchesNum <= clientNumMax
    ensures n == clientNumMax / subbatchesNum && |mins| == |maxs| == subbatchesNum
    ensures forall i :: 0 <= i < subbatchesNum ==> mins[i] == min + Multiple(i, n) && maxs[i] == mins[i] + n
  {
    hide Multiple;
    n := clientNumMax / subbatchesNum;
    mins, maxs := [], [];
    var i := 0;
    while i < subbatchesNum
      invariant i <= subbatchesNum && |mins| == |maxs| == i
      invariant forall k :: 0 <= k < i ==> mins[k] == min + Multiple(k, n) && maxs[k] == mins[k] + n
    {
      var low := if i != 0 then maxs[i - 1] else min;
      MultipleStep(i, n);
      mins, maxs := mins + [low], maxs + [low + n];
      i := i + 1;
    }
  }

  lemma PlacesDistinct(n: nat, width: nat, i: nat, j: nat, i': nat, j': nat)
    requires j < n <= width && j' < n
    ensures Multiple(i, width) + j == Multiple(i', width) + j' <==> i == i' && j == j'
  {
    if i < i' {
      NextMultiple(i, i', width);
    } else if i' < i {
      NextMultiple(i', i, width);
    }
  }

  lemma {:induction false} SameNumber(s: seq<byte>, t: seq<byte>)
    requires |s| == |t| && Number(s) == Number(t)
    ensures s == t
  {
    if s != [] {
      var n := |s| - 1;
      SameNumber(s[..n], t[..n]);
      assert s == s[..n] + [s[n]] && t == t[..n] + [t[n]];
    }
  }

  /** The addresses of all clients: n of them in every sub-batch, from its lowest one on. */
  ghost predicate Assigned6(min: Address, n: nat, mins: seq<Address>, clients: seq<seq<Address>>) {
    && |clients| == |mins|
    && forall i :: 0 <= i < |mins| ==>
         && After(min, mins[i], Multiple(i, n + 1)) && |clients[i]| == n
         && forall j :: 0 <= j < n ==> After(mins[i], clients[i][j], j)
  }

  /** No two clients of a batch, in whatever sub-batches, have the same IPv6 address. */
  lemma AddressesDistinct6(min: Address, n: nat, mins: seq<Address>, clients: seq<seq<Address>>, i: nat, j: nat,
                           i': nat, j': nat)
    requires Assigned6(min, n, mins, clients) && i < |mins| && j < n && i' < |mins| && j' < n
    ensures clients[i][j] == clients[i'][j'] <==> i == i' && j == j'
  {
    hide Number, Multiple;
    PlacesDistinct(n, n + 1, i, j, i', j');
    assert After(mins[i], clients[i][j], j) && After(mins[i'], clients[i'][j'], j');
    if Number(clients[i][j]) == Number(clients[i'][j']) {
      SameNumber(clients[i][j], clients[i'][j']);
    }
  }

  /** Nor the same IPv4 address. */
  lemma AddressesDistinct4(min: nat, n: nat, mins: seq<nat>, i: nat, j: nat, i': nat, j': nat)
    requires forall k :: 0 <= k < |mins| ==> mins[k] == min + Multiple(k, n)
    requires i < |mins| && j < n && i' < |mins| && j' < n
    ensures mins[i] + j == mins[i'] + j' <==> i == i' && j == j'
  {
    hide Multiple;
    PlacesDistinct(n, n, i, j, i', j');
  }

  /** All sub-batches of a batch, with the addresses of all their clients. */
  method AssignAddresses6(min: Address, clientNumMax: nat,
                          subbatchesNum: int) returns (r: int, n: nat, mins: seq<Address>, clients: seq<seq<Address>>)
    ensures n == if subbatchesNum > 0 then clientNumMax / subbatchesNum else 0
    ensures r == if 2 <= subbatchesNum <= BATCHES_MAX_NUM && subbatchesNum <= clientNumMax
                    && Low(min) + Multiple(subbatchesNum, n + 1) - 1 < Limit(14) then 0 else -1
    ensures r == 0 ==> |mins| == subbatchesNum && Assigned6(min, n, mins, clients)
    ensures r == 0 ==>
      forall i, j, i', j' ::
        0 <= i < subbatchesNum && 0 <= j < n && 0 <= i' < subbatchesNum && 0 <= j' < n ==>
          (clients[i][j] == clients[i'][j'] <==> i == i' && j == j')
  {
    hide Number, Limit, Multiple, After;
    var maxs;
    r, n, mins, maxs := SubbatchRanges6(min, clientNumMax, subbatchesNum);
    clients := [];
    if r == -1 {
      return;
    }
    while |clients| < subbatchesNum
      invariant |clients| <= subbatchesNum && forall i :: 0 <= i < |clients| ==>
        |clients[i]| == n && forall j :: 0 <= j < n ==> After(mins[i], clients[i][j], j)
    {
      var k := |clients|;
      LowFits(maxs[k]);
      InRange(min, mins[k], maxs[k], Multiple(k, n + 1), n);
      var got, addresses := ClientAddresses(mins[k], n);
      clients := clients + [addresses];
    }
    forall i, j, i', j' | 0 <= i < subbatchesNum && 0 <= j < n && 0 <= i' < subbatchesNum && 0 <= j' < n
      ensures clients[i][j] == clients[i'][j'] <==> i == i' && j == j'
    {
      AddressesDistinct6(min, n, mins, clients, i, j, i', j');
    }
  }

  lemma InRange(min: Address, low: Address, high: Address, m: nat, n: nat)
    requires After(min, low, m) && After(min, high, m + n)
    ensures Low(low) + n == Low(high)
  {
  }

  /** The sub-batches together have at most as many clients as the batch, and fewer are missing than
      there are sub-batches. */
  lemma ClientsInSubbatches(clientNumMax: nat, k: nat)
    requires k > 0
    ensures Multiple(k, clientNumMax / k) <= clientNumMax < Multiple(k, clientNumMax / k) + k
  {
    MultipleIs(k, clientNumMax / k);
  }
}
