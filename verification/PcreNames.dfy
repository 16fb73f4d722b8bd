/** The name table that pcre_compile.c builds for named groups, and the binary searches of
    pcre_get.c over it. */
module PcreNames {
  import opened Arith

  const ERR43: int := 43
  const PCRE_ERROR_NOSUBSTRING: int := -7

  /** A name and the number of its group; names consist of word characters, never of zeros. */
  datatype Entry = Entry(number: nat, name: seq<byte>)

  // ---------------------------------------------------------------- the order of names

  /** The order of strcmp: negative, zero or positive; a proper prefix comes first. */
  function Compare(a: seq<byte>, b: seq<byte>): (c: int)
    ensures c == 0 <==> a == b
    ensures -1 <= c <= 1
  {
    if a == [] then (if b == [] then 0 else -1)
    else if b == [] then 1
    else if a[0] < b[0] then -1
    else if a[0] > b[0] then 1
    else
      assert a == [a[0]] + a[1..] && b == [b[0]] + b[1..];
      Compare(a[1..], b[1..])
  }

  lemma {:induction false} CompareSwaps(a: seq<byte>, b: seq<byte>)
    ensures Compare(b, a) == -Compare(a, b)
  {
    if a != [] && b != [] {
      CompareSwaps(a[1..], b[1..]);
    }
  }

  lemma {:induction false} CompareTransitive(a: seq<byte>, b: seq<byte>, c: seq<byte>)
    requires Compare(a, b) <= 0 && Compare(b, c) <= 0
    ensures Compare(a, c) <= 0 && (Compare(a, c) == 0 ==> Compare(a, b) == 0 && Compare(b, c) == 0)
  {
    if a != [] && b != [] && c != [] && a[0] == b[0] == c[0] {
      CompareTransitive(a[1..], b[1..], c[1..]);
    }
  }

  /** The first byte that differs decides, and a proper prefix comes first. */
  ghost predicate Precedes(a: seq<byte>, b: seq<byte>) {
    exists i :: 0 <= i <= |a| && i < |b| && a[..i] == b[..i] && (i == |a| || a[i] < b[i])
  }

  lemma {:induction false} CompareDecides(a: seq<byte>, b: seq<byte>)
    ensures Compare(a, b) < 0 <==> Precedes(a, b)
    ensures Compare(a, b) > 0 <==> Precedes(b, a)
  {
    CompareSwaps(a, b);
    NegativePrecedes(a, b);
    NegativePrecedes(b, a);
  }

  lemma {:induction false} NegativePrecedes(a: seq<byte>, b: seq<byte>)
    ensures Compare(a, b) < 0 <==> Precedes(a, b)
  {
    if a == [] {
      assert b != [] ==> a[..0] == b[..0];
    } else if b != [] {
      if a[0] == b[0] {
        NegativePrecedes(a[1..], b[1..]);
        SameFirst(a, b);
        hide Precedes;
      } else if a[0] < b[0] {
        assert a[..0] == b[..0];
      }
    }
  }

  lemma SameFirst(a: seq<byte>, b: seq<byte>)
    requires a != [] && b != [] && a[0] == b[0]
    ensures Precedes(a, b) <==> Precedes(a[1..], b[1..])
  {
    var c, d := a[1..], b[1..];
    if i :| 0 <= i <= |c| && i < |d| && c[..i] == d[..i] && (i == |c| || c[i] < d[i]) {
      assert a[..i + 1] == [a[0]] + c[..i] && b[..i + 1] == [b[0]] + d[..i];
    }
    if i :| 0 <= i <= |a| && i < |b| && a[..i] == b[..i] && (i == |a| || a[i] < b[i]) {
      assert c[..i - 1] == a[..i][1..] && d[..i - 1] == b[..i][1..];
    }
  }

  ghost predicate Sorted(s: seq<Entry>) {
    forall i, j :: 0 <= i < j < |s| ==> Compare(s[i].name, s[j].name) <= 0
  }

  ghost predicate Unique(s: seq<Entry>) {
    forall i, j :: 0 <= i < j < |s| ==> s[i].name != s[j].name
  }

  ghost predicate Named(s: seq<Entry>, name: seq<byte>) {
    exists i :: 0 <= i < |s| && s[i].name == name
  }

  /** memcmp of the name with as many bytes of the slot, and the test for its end. */
  method CompareWithSlot(name: seq<byte>, slot: seq<byte>) returns (crc: int)
    requires 0 !in name
    ensures crc == Compare(name, slot)
  {
    crc := 0;
    var i := 0;
    while i < |name| && crc == 0
      invariant i <= |name| && i <= |slot| && -1 <= crc <= 1
      invariant crc == 0 ==> Compare(name[i..], slot[i..]) == Compare(name, slot)
      invariant crc != 0 ==> crc == Compare(name, slot)
      decreases |name| - i - (if crc == 0 then 0 else 1)
    {
      var c: int := if i < |slot| then slot[i] else 0;
      assert name[i] in name;
      assert name[i..][1..] == name[i + 1..];
      if i < |slot| {
        assert slot[i..][1..] == slot[i + 1..];
      }
      if name[i] < c {
        crc := -1;
      } else if name[i] > c {
        crc := 1;
      } else {
        i := i + 1;
      }
    }
    if crc == 0 && i < |slot| {
      crc := -1;
    }
  }

  // ---------------------------------------------------------------- the table

  /** How many entries do not come after the name: it is inserted behind them. */
  ghost predicate Place(s: seq<Entry>, name: seq<byte>, i: nat) {
    && i <= |s|
    && (forall j :: 0 <= j < i ==> Compare(s[j].name, name) <= 0)
    && (forall j :: i <= j < |s| ==> Compare(name, s[j].name) < 0)
  }

  function Inserted(s: seq<Entry>, i: nat, e: Entry): (t: seq<Entry>)
    requires i <= |s|
    ensures |t| == |s| + 1 && t[i] == e
    ensures forall j :: 0 <= j < i ==> t[j] == s[j]
    ensures forall j :: i < j < |t| ==> t[j] == s[j - 1]
  {
    s[..i] + [e] + s[i..]
  }

  lemma InsertKeepsSorted(s: seq<Entry>, e: Entry, i: nat)
    requires Sorted(s) && Place(s, e.name, i)
    ensures Sorted(Inserted(s, i, e))
  {
    hide Inserted, Compare;
    var t := Inserted(s, i, e);
    forall j, k | 0 <= j < k < |t| ensures Compare(t[j].name, t[k].name) <= 0 {
      if j == i {
        assert Compare(e.name, s[k - 1].name) < 0;
      } else if k != i {
        assert t[j] == s[if j < i then j else j - 1] && t[k] == s[if k < i then k else k - 1];
      }
    }
  }

  lemma InsertKeepsUnique(s: seq<Entry>, e: Entry, i: nat)
    requires Unique(s) && !Named(s, e.name) && i <= |s|
    ensures Unique(Inserted(s, i, e))
  {
    hide Inserted;
    var t := Inserted(s, i, e);
    forall j, k | 0 <= j < k < |t| ensures t[j].name != t[k].name {
      if j != i {
        assert t[j] == s[if j < i then j else j - 1];
      }
      if k != i {
        assert t[k] == s[if k < i then k else k - 1];
      }
    }
  }

  lemma InsertMembers(s: seq<Entry>, e: Entry, i: nat)
    requires i <= |s|
    ensures multiset(Inserted(s, i, e)) == multiset(s) + multiset{e}
  {
    assert s == s[..i] + s[i..];
  }

  class NameTable {
    const entries: array<Entry>
    var namesFound: nat

    ghost predicate Valid()
      reads this, entries
    {
      && namesFound <= entries.Length && Sorted(entries[..namesFound])
      && forall e :: e in entries[..namesFound] ==> 0 !in e.name
    }

    ghost function Entries(): seq<Entry>
      requires Valid()
      reads this, entries
    {
      entries[..namesFound]
    }

    /** Room for the names that the measuring pass has counted. */
    constructor (nameCount: nat)
      ensures Valid() && fresh(entries) && entries.Length == nameCount && Entries() == []
    {
      entries := new Entry[nameCount](_ => Entry(0, []));
      namesFound := 0;
    }

    /** Where a new name goes, or whether it is there already and may not be. */
    method FindPlace(name: seq<byte>, dupNames: bool) returns (i: nat, duplicate: bool)
      requires Valid() && 0 !in name
      ensures duplicate <==> Named(Entries(), name) && !dupNames
      ensures !duplicate ==> Place(Entries(), name, i)
    {
      hide Sorted, Compare, Place;
      i := 0;
      while i < namesFound
        invariant i <= namesFound
        invariant forall j :: 0 <= j < i ==> Compare(Entries()[j].name, name) <= 0
        invariant !dupNames ==> forall j :: 0 <= j < i ==> Entries()[j].name != name
      {
        assert Entries()[i] in Entries();
        var crc := CompareWithSlot(name, entries[i].name);
        CompareSwaps(name, Entries()[i].name);
        if crc == 0 && !dupNames {
          assert Entries()[i].name == name;
          return i, true;
        }
        if crc < 0 {
          break;
        }
        i := i + 1;
      }
      FoundPlace(Entries(), name, i);
      duplicate := false;
    }

    /** A named group in the emitting pass: a name that is there already is an error, unless
        duplicates are allowed, when they stay next to each other. */
    method Add(name: seq<byte>, number: nat, dupNames: bool) returns (error: int)
      requires Valid() && namesFound < entries.Length && 0 !in name
      modifies this, entries
      ensures Valid()
      ensures error == if old(Named(Entries(), name)) && !dupNames then ERR43 else 0
      ensures error != 0 ==> Entries() == old(Entries())
      ensures error == 0 ==>
        exists i: nat :: Place(old(Entries()), name, i) && Entries() == Inserted(old(Entries()), i, Entry(number, name))
      ensures error == 0 ==> multiset(Entries()) == old(multiset(Entries())) + multiset{Entry(number, name)}
      ensures !dupNames && old(Unique(Entries())) ==> Unique(Entries())
    {
      hide Sorted, Place, Named, Unique, Inserted, Compare;
      ghost var was := Entries();
      var i, duplicate := FindPlace(name, dupNames);
      if duplicate {
        return ERR43;
      }
      PlaceFits(was, name, i);
      InsertKeepsSorted(was, Entry(number, name), i);
      MakeRoom(i);
      entries[i] := Entry(number, name);
      namesFound := namesFound + 1;
      assert entries[..namesFound] == Inserted(was, i, Entry(number, name));
      InsertMembers(was, Entry(number, name), i);
      if !dupNames && Unique(was) {
        InsertKeepsUnique(was, Entry(number, name), i);
      }
      error := 0;
    }

    /** memmove of the slots from i on by one. */
    method MakeRoom(i: nat)
      requires i <= namesFound < entries.Length
      modifies entries
      ensures forall k :: 0 <= k < i ==> entries[k] == old(entries[k])
      ensures forall k :: i < k <= namesFound ==> entries[k] == old(entries[k - 1])
    {
      var j := namesFound;
      while j > i
        invariant i <= j <= namesFound
        invariant forall k :: 0 <= k < j ==> entries[k] == old(entries[k])
        invariant forall k :: j < k <= namesFound ==> entries[k] == old(entries[k - 1])
      {
        entries[j] := entries[j - 1];
        j := j - 1;
      }
    }

    /** pcre_get_stringnumber. */
    method GetStringNumber(stringName: seq<byte>) returns (r: int)
      requires Valid()
      ensures !Named(Entries(), stringName) ==> r == PCRE_ERROR_NOSUBSTRING
      ensures Named(Entries(), stringName) ==> exists e :: e in Entries() && e.name == stringName && r == e.number
    {
      var bot, top := 0, namesFound;
      while top > bot
        invariant 0 <= bot <= top <= namesFound
        invariant Outside(Entries(), stringName, bot, top)
        decreases top - bot
      {
        var mid := (top + bot) / 2;
        var c := Compare(stringName, entries[mid].name);
        if c == 0 {
          assert Entries()[mid] in Entries();
          return entries[mid].number;
        }
        Halve(Entries(), stringName, bot, top, mid);
        if c > 0 {
          bot := mid + 1;
        } else {
          top := mid;
        }
      }
      r := PCRE_ERROR_NOSUBSTRING;
    }

    /** pcre_get_stringtable_entries: the whole block of equal names, or -1. */
    method GetEntries(stringName: seq<byte>) returns (first: int, last: int)
      requires Valid()
      ensures first == -1 <==> !Named(Entries(), stringName)
      ensures first != -1 ==> 0 <= first <= last < namesFound
      ensures first != -1 ==> forall i :: 0 <= i < namesFound ==>
        (first <= i <= last <==> Entries()[i].name == stringName)
    {
      var bot, top := 0, namesFound;
      while top > bot
        invariant 0 <= bot <= top <= namesFound
        invariant Outside(Entries(), stringName, bot, top)
        decreases top - bot
      {
        var mid := (top + bot) / 2;
        var c := Compare(stringName, entries[mid].name);
        if c == 0 {
          assert Entries()[mid].name == stringName;
          first, last := Widen(mid, stringName);
          return;
        }
        Halve(Entries(), stringName, bot, top, mid);
        if c > 0 {
          bot := mid + 1;
        } else {
          top := mid;
        }
      }
      first, last := -1, -1;
    }

    /** From one entry with the name to the first and the last one. */
    method Widen(mid: nat, stringName: seq<byte>) returns (first: nat, last: nat)
      requires Valid() && mid < namesFound && Entries()[mid].name == stringName
      ensures first <= mid <= last < namesFound
      ensures forall i :: 0 <= i < namesFound ==> (first <= i <= last <==> Entries()[i].name == stringName)
    {
      first, last := mid, mid;
      while first > 0
        invariant first <= mid && forall i :: first <= i <= mid ==> Entries()[i].name == stringName
      {
        if Compare(stringName, entries[first - 1].name) != 0 {
          break;
        }
        first := first - 1;
      }
      while last < namesFound - 1
        invariant mid <= last < namesFound && forall i :: mid <= i <= last ==> Entries()[i].name == stringName
      {
        if Compare(stringName, entries[last + 1].name) != 0 {
          break;
        }
        last := last + 1;
      }
      BlockEnds(Entries(), stringName, first, last);
    }
  }

  lemma PlaceFits(s: seq<Entry>, name: seq<byte>, i: nat)
    requires Place(s, name, i)
    ensures i <= |s|
  {
  }

  /** Names equal to the searched one lie between bot and top only. */
  ghost predicate Outside(s: seq<Entry>, name: seq<byte>, bot: int, top: int) {
    forall i :: 0 <= i < |s| && s[i].name == name ==> bot <= i < top
  }

  lemma Halve(s: seq<Entry>, name: seq<byte>, bot: int, top: int, mid: int)
    requires Sorted(s) && 0 <= bot <= mid < top <= |s| && Outside(s, name, bot, top) && s[mid].name != name
    ensures var above := Compare(name, s[mid].name) > 0;
      Outside(s, name, if above then mid + 1 else bot, if above then top else mid)
  {
    CompareSwaps(name, s[mid].name);
    forall i | 0 <= i < |s| && s[i].name == name
      ensures if Compare(name, s[mid].name) > 0 then mid < i else i < mid
    {
      if i < mid {
        assert Compare(s[i].name, s[mid].name) <= 0;
      } else if i > mid {
        assert Compare(s[mid].name, s[i].name) <= 0;
      }
    }
  }

  lemma FoundPlace(s: seq<Entry>, name: seq<byte>, i: nat)
    requires Sorted(s) && i <= |s| && forall j :: 0 <= j < i ==> Compare(s[j].name, name) <= 0
    requires i < |s| ==> Compare(name, s[i].name) < 0
    ensures Place(s, name, i) && (Named(s, name) <==> exists j :: 0 <= j < i && s[j].name == name)
  {
    forall j | i <= j < |s| ensures Compare(name, s[j].name) < 0 {
      if j > i {
        CompareTransitive(name, s[i].name, s[j].name);
      }
    }
  }

  /** Equal names are adjacent: past an entry with another name there are no more. */
  lemma BlockEnds(s: seq<Entry>, name: seq<byte>, first: int, last: int)
    requires Sorted(s) && 0 <= first <= last < |s| && forall i :: first <= i <= last ==> s[i].name == name
    requires first > 0 ==> s[first - 1].name != name
    requires last < |s| - 1 ==> s[last + 1].name != name
    ensures forall i :: 0 <= i < |s| ==> (first <= i <= last <==> s[i].name == name)
  {
    forall i | 0 <= i < |s| && s[i].name == name ensures first <= i <= last {
      if i < first - 1 {
        CompareTransitive(s[i].name, s[first - 1].name, s[first].name);
      } else if i > last + 1 {
        CompareTransitive(s[last].name, s[last + 1].name, s[i].name);
      }
    }
  }
}
