/** The code vector of pcre_compile.c: an array of bytes written through moving positions. */
module PcreBuffer {
  import opened Arith
  import opened PcreBytes

  /** The bytes b lie in s at a position. */
  ghost predicate Holds(s: seq<byte>, at: int, b: seq<byte>) {
    0 <= at && at + |b| <= |s| && s[at..at + |b|] == b
  }

  /** Only bytes from..to differ. */
  ghost predicate Same(s: seq<byte>, t: seq<byte>, from: int, to: int) {
    |s| == |t| && forall i :: 0 <= i < |s| && !(from <= i < to) ==> t[i] == s[i]
  }

  lemma SameTwice(s: seq<byte>, t: seq<byte>, u: seq<byte>, from: int, to: int)
    requires Same(s, t, from, to) && Same(t, u, from, to)
    ensures Same(s, u, from, to)
  {
  }

  lemma SameWider(s: seq<byte>, t: seq<byte>, from: int, to: int, from': int, to': int)
    requires Same(s, t, from, to) && (from >= to || (from' <= from && to <= to'))
    ensures Same(s, t, from', to')
  {
  }

  lemma SameSelf(s: seq<byte>, from: int, to: int)
    ensures Same(s, s, from, to)
  {
  }

  lemma HoldsKept(s: seq<byte>, t: seq<byte>, from: int, to: int, at: int, b: seq<byte>)
    requires Holds(s, at, b) && Same(s, t, from, to) && (at + |b| <= from || to <= at)
    ensures Holds(t, at, b)
  {
  }

  lemma HoldsJoined(s: seq<byte>, at: int, a: seq<byte>, b: seq<byte>)
    ensures Holds(s, at, a + b) <==> Holds(s, at, a) && Holds(s, at + |a|, b)
  {
    var n, m := |a|, |b|;
    if 0 <= at && at + n + m <= |s| {
      assert s[at..at + n + m] == s[at..at + n] + s[at + n..at + n + m];
      if s[at..at + n + m] == a + b {
        assert s[at..at + n] == s[at..at + n + m][..n] == a;
        assert s[at + n..at + n + m] == s[at..at + n + m][n..] == b;
      }
    }
  }

  lemma HoldsNothing(s: seq<byte>, at: int)
    ensures Holds(s, at, []) <==> 0 <= at <= |s|
  {
  }

  /** A buffer with room for the code of a pattern. */
  class Buffer {
    const code: array<byte>

    constructor (length: nat)
      ensures fresh(code) && code.Length == length
    {
      code := new byte[length](_ => 0);
    }

    ghost function All(): (s: seq<byte>)
      reads this, code
      ensures |s| == code.Length
    {
      code[..]
    }

    method PutByte(at: nat, v: byte)
      requires at < code.Length
      modifies code
      ensures Holds(All(), at, [v]) && Same(old(All()), All(), at, at + 1)
    {
      code[at] := v;
    }

    /** PUT and PUT2. */
    method PutTwo(at: nat, v: nat)
      requires at + 2 <= code.Length
      modifies code
      ensures Holds(All(), at, Two(v)) && Same(old(All()), All(), at, at + 2)
    {
      code[at] := v / 256 % 256;
      code[at + 1] := v % 256;
    }

    /** GET of a link that was not cut off. */
    method GetLink(at: nat, ghost v: nat) returns (link: nat)
      requires v < 65536 && Holds(All(), at, Two(v))
      ensures link == v
    {
      GetTwo(code[..], at, v);
      link := (code[at] as int) * 256 + code[at + 1] as int;
    }

    method GetByte(at: nat, ghost v: byte) returns (b: byte)
      requires Holds(All(), at, [v])
      ensures b == v
    {
      b := code[at];
      assert code[..][at..at + 1][0] == code[at];
    }

    /** memcpy of n bytes that lie before. */
    method Copy(to: nat, from: nat, n: nat, ghost b: seq<byte>)
      requires from + n <= to && to + n <= code.Length && |b| == n && Holds(All(), from, b)
      modifies code
      ensures Holds(All(), to, b) && Same(old(All()), All(), to, to + n)
    {
      var i := 0;
      while i < n
        invariant i <= n
        invariant forall k :: to <= k < to + i ==> code[k] == b[k - to]
        invariant forall k :: 0 <= k < code.Length && !(to <= k < to + i) ==> code[k] == old(code[k])
      {
        assert b[i] == old(code[..])[from..from + n][i];
        code[to + i] := code[from + i];
        i := i + 1;
      }
    }

    /** memmove of n bytes up by a few. */
    method MoveUp(from: nat, n: nat, shift: nat, ghost b: seq<byte>)
      requires from + n + shift <= code.Length && |b| == n && Holds(All(), from, b)
      modifies code
      ensures Holds(All(), from + shift, b) && Same(old(All()), All(), from, from + shift + n)
    {
      var i := n;
      while i > 0
        invariant 0 <= i <= n
        invariant forall k :: from + shift + i <= k < from + shift + n ==> code[k] == b[k - from - shift]
        invariant forall k :: 0 <= k < code.Length && !(from + shift + i <= k < from + shift + n) ==>
          code[k] == old(code[k])
      {
        i := i - 1;
        assert b[i] == old(code[..])[from..from + n][i];
        code[from + shift + i] := code[from + i];
      }
    }
  }
}
