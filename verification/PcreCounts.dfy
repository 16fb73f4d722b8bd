/** pcre_compile.c: recognising and reading the counts of a {n}, {n,} or {n,m} quantifier. */
module PcreCounts {
  import opened PcreCode

  const ERR4: int := 4
  const ERR5: int := 5

  predicate Digit(c: char) {
    '0' <= c <= '9'
  }

  /** Patterns end with a zero. */
  function CharAt(p: string, i: nat): char {
    if i < |p| then p[i] else '\0'
  }

  ghost predicate Digits(p: string, from: nat, to: nat) {
    from < to <= |p| && forall i :: from <= i < to ==> Digit(p[i])
  }

  function DigitValue(c: char): nat {
    if Digit(c) then (c - '0') as nat else 0
  }

  /** The decimal number that digits stand for. */
  function Value(digits: string): nat {
    if digits == "" then 0 else Value(digits[..|digits| - 1]) * 10 + DigitValue(digits[|digits| - 1])
  }

  /** A number in decimal notation. */
  function Decimal(n: nat): string {
    (if n < 10 then "" else Decimal(n / 10)) + ["0123456789"[n % 10]]
  }

  /** What is written in decimal notation, leading zeros or not, is read as the number it stands for. */
  lemma {:induction false} ReadsDecimal(n: nat, zeros: nat)
    ensures Value(Zeros(zeros) + Decimal(n)) == n && forall i :: 0 <= i < |Decimal(n)| ==> Digit(Decimal(n)[i])
  {
    var text := Zeros(zeros) + Decimal(n);
    var front := Zeros(zeros) + if n < 10 then "" else Decimal(n / 10);
    hide Value, DigitValue;
    assert text == front + ["0123456789"[n % 10]];
    OneMoreDigit(front, n % 10);
    if n < 10 {
      ReadsZeros(zeros);
      assert front == Zeros(zeros);
    } else {
      ReadsDecimal(n / 10, zeros);
    }
  }

  lemma OneMoreDigit(digits: string, d: nat)
    requires d < 10
    ensures Value(digits + ["0123456789"[d]]) == Value(digits) * 10 + d
  {
    assert (digits + ["0123456789"[d]])[..|digits|] == digits;
  }

  lemma DigitsAre(c: char)
    ensures Digit(c) <==> c in "0123456789"
  {
  }

  function Zeros(n: nat): string {
    seq(n, _ => '0')
  }

  lemma {:induction false} ReadsZeros(n: nat)
    ensures Value(Zeros(n)) == 0
  {
    if n > 0 {
      ReadsZeros(n - 1);
      assert Zeros(n)[..n - 1] == Zeros(n - 1);
    }
  }

  /** The first place from `from` on that holds no digit. */
  function DigitsEnd(p: string, from: nat): (e: nat)
    requires from <= |p|
    ensures from <= e <= |p| && !Digit(CharAt(p, e)) && forall i :: from <= i < e ==> Digit(p[i])
    decreases |p| - from
  {
    if from < |p| && Digit(p[from]) then DigitsEnd(p, from + 1) else from
  }

  // ---------------------------------------------------------------- the three forms

  ghost predicate Exactly(p: string, at: nat, i: nat) {
    Digits(p, at, i) && CharAt(p, i) == '}'
  }

  ghost predicate AtLeast(p: string, at: nat, i: nat) {
    Digits(p, at, i) && CharAt(p, i) == ',' && CharAt(p, i + 1) == '}'
  }

  ghost predicate Between(p: string, at: nat, i: nat, j: nat) {
    Digits(p, at, i) && CharAt(p, i) == ',' && Digits(p, i + 1, j) && CharAt(p, j) == '}'
  }

  ghost predicate Counted(p: string, at: nat) {
    (exists i: nat :: Exactly(p, at, i) || AtLeast(p, at, i)) || exists i: nat, j: nat :: Between(p, at, i, j)
  }

  /** A run of digits has only one end. */
  lemma {:induction false} OneEnd(p: string, from: nat, i: nat)
    requires Digits(p, from, i) && !Digit(CharAt(p, i))
    ensures DigitsEnd(p, from) == i
    decreases i - from
  {
    if from + 1 < i {
      OneEnd(p, from + 1, i);
    }
  }

  method SkipDigits(p: string, from: nat) returns (e: nat)
    requires from <= |p|
    ensures e == DigitsEnd(p, from)
  {
    e := from;
    while Digit(CharAt(p, e))
      invariant from <= e <= |p| && DigitsEnd(p, from) == DigitsEnd(p, e)
      decreases |p| - e
    {
      e := e + 1;
    }
  }

  lemma Forms(p: string, at: nat)
    requires at <= |p|
    ensures var e := DigitsEnd(p, at);
      Counted(p, at) <==> (
        e > at && (CharAt(p, e) == '}' || (CharAt(p, e) == ',' && (CharAt(p, e + 1) == '}' ||
          (e + 1 <= |p| && DigitsEnd(p, e + 1) > e + 1 && CharAt(p, DigitsEnd(p, e + 1)) == '}')))))
  {
    var e := DigitsEnd(p, at);
    forall i: nat | Exactly(p, at, i) || AtLeast(p, at, i) ensures i == e {
      OneEnd(p, at, i);
    }
    forall i: nat, j: nat | Between(p, at, i, j) ensures i == e && e + 1 <= |p| && j == DigitsEnd(p, e + 1) {
      OneEnd(p, at, i);
      OneEnd(p, i + 1, j);
    }
    if e > at && CharAt(p, e) == '}' {
      assert Exactly(p, at, e);
    }
    if e > at && CharAt(p, e) == ',' && CharAt(p, e + 1) == '}' {
      assert AtLeast(p, at, e);
    }
    if e > at && CharAt(p, e) == ',' && DigitsEnd(p, e + 1) > e + 1 && CharAt(p, DigitsEnd(p, e + 1)) == '}' {
      assert Between(p, at, e, DigitsEnd(p, e + 1));
    }
  }

  /** is_counted_repeat: whether the text after a '{' makes it a quantifier. */
  method IsCountedRepeat(p: string, at: nat) returns (b: bool)
    requires at <= |p|
    ensures b <==> Counted(p, at)
  {
    Forms(p, at);
    if !Digit(CharAt(p, at)) {
      return false;
    }
    var e := SkipDigits(p, at + 1);
    if CharAt(p, e) == '}' {
      return true;
    }
    if CharAt(p, e) != ',' {
      return false;
    }
    if CharAt(p, e + 1) == '}' {
      return true;
    }
    if !Digit(CharAt(p, e + 1)) {
      return false;
    }
    e := SkipDigits(p, e + 2);
    b := CharAt(p, e) == '}';
  }

  lemma NoDigits(p: string, from: nat)
    requires from <= |p|
    ensures Value(p[from..from]) == 0
  {
  }

  lemma ValueGrows(p: string, from: nat, e: nat)
    requires from <= e < |p|
    ensures Value(p[from..e + 1]) == Value(p[from..e]) * 10 + DigitValue(p[e])
  {
    var more := p[from..e + 1];
    assert more[..|more| - 1] == p[from..e] && more[|more| - 1] == p[e];
  }

  /** The value of the digits from `from` on, and where they end. */
  method ReadNumber(p: string, from: nat) returns (v: nat, e: nat)
    requires from <= |p|
    ensures e == DigitsEnd(p, from) && v == Value(p[from..e])
  {
    hide Value;
    v, e := 0, from;
    NoDigits(p, from);
    while Digit(CharAt(p, e))
      invariant from <= e <= |p| && DigitsEnd(p, from) == DigitsEnd(p, e)
      invariant v == Value(p[from..e])
      decreases |p| - e
    {
      ValueGrows(p, from, e);
      v := v * 10 + DigitValue(p[e]);
      e := e + 1;
    }
  }

  /** What a {n}, {n,} or {n,m} stands for, or the error: numbers up to 65535, in order. */
  ghost predicate Reads(minimum: nat, maximum: int, error: int, min: nat, max: int) {
    && (error == ERR5 <==> minimum > 65535 || maximum > 65535)
    && (error == ERR4 <==> minimum <= 65535 && 0 <= maximum <= 65535 && maximum < minimum)
    && (error == 0 || error == ERR4 || error == ERR5)
    && (error == 0 ==> min == minimum && max == maximum && RepeatOk(Times(min, max, false)))
  }

  /** read_repeat_counts, called after is_counted_repeat has said yes. */
  method ReadRepeatCounts(p: string, at: nat) returns (min: nat, max: int, error: int)
    requires at <= |p| && Counted(p, at)
    ensures forall i: nat :: Exactly(p, at, i) ==> Reads(Value(p[at..i]), Value(p[at..i]), error, min, max)
    ensures forall i: nat :: AtLeast(p, at, i) ==> Reads(Value(p[at..i]), -1, error, min, max)
    ensures forall i: nat, j: nat :: Between(p, at, i, j) ==>
      Reads(Value(p[at..i]), Value(p[i + 1..j]), error, min, max)
  {
    hide Value, DigitsEnd, Counted;
    Forms(p, at);
    Ends(p, at);
    var e;
    max, error := -1, 0;
    min, e := ReadNumber(p, at);
    if min > 65535 {
      return min, max, ERR5;
    }
    if CharAt(p, e) == '}' {
      max := min;
    } else {
      if CharAt(p, e + 1) != '}' {
        var m, f := ReadNumber(p, e + 1);
        max := m;
        if max > 65535 {
          return min, max, ERR5;
        }
        if max < min {
          return min, max, ERR4;
        }
      }
    }
  }

  /** In each of the forms the numbers end where their digits do. */
  lemma Ends(p: string, at: nat)
    requires at <= |p|
    ensures forall i: nat :: Exactly(p, at, i) ==> i == DigitsEnd(p, at)
    ensures forall i: nat :: AtLeast(p, at, i) ==> i == DigitsEnd(p, at)
    ensures forall i: nat, j: nat :: Between(p, at, i, j) ==>
      i == DigitsEnd(p, at) && i + 1 <= |p| && j == DigitsEnd(p, i + 1)
  {
    forall i: nat | Exactly(p, at, i) || AtLeast(p, at, i) ensures i == DigitsEnd(p, at) {
      OneEnd(p, at, i);
    }
    forall i: nat, j: nat | Between(p, at, i, j)
      ensures i == DigitsEnd(p, at) && i + 1 <= |p| && j == DigitsEnd(p, i + 1)
    {
      OneEnd(p, at, i);
      OneEnd(p, i + 1, j);
    }
  }
}
