/** The measuring pass of pcre_compile.c: the same walk over the pattern with a code pointer that is
    moved back after every item, adding up how far it has come. */
module PcreMeasure {
  import opened Arith
  import opened PcreCode
  import opened PcreBytes
  import opened PcreLength
  import opened PcreEmit
  import PcreBuffer
  import PcreDecode

  /** The code pointer of compile_branch, where the last item began, the item that a repeat would
      apply to (or -1), and the length so far. */
  datatype Walk = Walk(code: nat, lastCode: nat, previous: int, length: int)

  /** What compile_branch does at the top of its loop: the way since the last item is added, never
      less than nothing, and the item is moved to the start of the work space. */
  method Account(w: Walk, orig: nat) returns (v: Walk)
    requires orig <= w.code && (w.previous != -1 ==> orig <= w.previous <= w.code)
    ensures v.length == w.length + (if w.code < w.lastCode then 0 else w.code - w.lastCode)
    ensures v.lastCode == v.code
    ensures if w.previous == -1 then v.previous == -1 && v.code == orig
            else
              && v.previous == orig
              && v.code == orig + (if w.code < w.lastCode then w.lastCode else w.code) - w.previous
  {
    var code, previous := w.code, w.previous;
    if code < w.lastCode {
      code := w.lastCode;
    }
    var length := w.length + code - w.lastCode;
    if previous != -1 {
      if previous > orig {
        code := code - (previous - orig);
        previous := orig;
      }
    } else {
      code := orig;
    }
    v := Walk(code, code, previous, length);
  }

  /** How far a repeat item goes: opcode, count if there is one, character. */
  function RepLength(counted: bool): nat {
    if counted then 4 else 2
  }

  /** The repeat of a single character. */
  method MeasureCharacter(w: Walk, rep: Repeat, ghost s: Single) returns (v: Walk)
    requires RepeatOk(rep) && rep.Times? && 0 <= w.previous && w.code == w.previous + |SingleBytes(s)|
    ensures v.previous == -1 && v.lastCode == w.lastCode && v.length == w.length
    ensures v.code == w.previous + |OpsBytes(RepeatSingle(s, rep))|
  {
    RepLengths(s, rep);
    var code: nat := w.previous;
    if rep.max == 0 {
    } else if rep.min == 0 {
      code := code + RepLength(rep.max != -1 && rep.max != 1);
    } else if rep.min == 1 {
      if rep.max == -1 {
        code := code + RepLength(false);
      } else {
        code := w.code;
        if rep.max != 1 {
          code := code + RepLength(true);
        }
      }
    } else {
      code := code + RepLength(true);
      if rep.max != rep.min {
        code := code + RepLength(rep.max >= 0 && rep.max - rep.min != 1);
      }
    }
    v := w.(code := code, previous := -1);
  }

  lemma RepLengths(s: Single, rep: Repeat)
    requires RepeatOk(rep) && rep.Times?
    ensures forall kind: Kind, lazy :: |RepBytes(kind, lazy, s)| == RepLength(kind.Upto? || kind.Exact?)
    ensures var ops := RepeatSingle(s, rep);
      OpsBytes(ops) ==
        if ops.Nil? then [] else if ops.rest.Nil? then OpBytes(ops.op) else OpBytes(ops.op) + OpBytes(ops.rest.op)
  {
    RepeatedOps(s, rep);
  }

  /** The repeat of a group, which stands in the work space as an empty pair of brackets: the copies
      are not made but counted, from the length of the group. */
  method MeasureGroup(w: Walk, rep: Repeat, lengthPrevGroup: nat) returns (v: Walk)
    requires RepeatOk(rep) && rep.Times? && 0 <= w.previous && w.code == w.previous + 2 + 2 * LINK_SIZE
    ensures v.previous == -1 && v.lastCode == w.lastCode
    ensures v.length + (if v.code < w.code then 0 else v.code - w.code) ==
            w.length + GroupDelta(rep.min, rep.max, lengthPrevGroup)
    ensures v.code >= w.previous
  {
    hide Multiple;
    var code, length := w.code, w.length;
    var repeatMax := rep.max;
    var braLink := false;
    MultipleStep(1, lengthPrevGroup);
    if rep.min == 0 {
      if repeatMax == 0 {
        return w.(code := w.previous, previous := -1);
      }
      if repeatMax <= 1 {
        code := code + 1;
      } else {
        code := code + 2 + LINK_SIZE;
        braLink := true;
      }
      repeatMax := repeatMax - 1;
    } else {
      if rep.min > 1 {
        length := length + Multiple(rep.min - 1, lengthPrevGroup);
      }
      if repeatMax > 0 {
        repeatMax := repeatMax - rep.min;
      }
    }
    if repeatMax >= 0 {
      if repeatMax > 0 {
        length := length + (Multiple(repeatMax, lengthPrevGroup + 1 + 2 + 2 * LINK_SIZE) - 2 - 2 * LINK_SIZE);
      }
      if braLink {
        code := code + 1 + LINK_SIZE;
      }
    }
    v := Walk(code, w.lastCode, -1, length);
  }

  /** compile_branch with a length to add to. */
  method MeasureBranchPass(orig: nat, length0: int, b: Branch) returns (length: int)
    requires BranchOk(b)
    ensures length == length0 + MeasureBranch(b)
    decreases BranchSize(b), 0
  {
    hide Measure, GroupDelta, NestedLength, Multiple;
    var rest := b;
    var w := Walk(orig, orig, -1, length0);
    while rest.Then?
      invariant BranchOk(rest) && BranchSize(rest) <= BranchSize(b)
      invariant orig <= w.code && (w.previous != -1 ==> orig <= w.previous <= w.code)
      invariant w.length + (if w.code < w.lastCode then 0 else w.code - w.lastCode) + MeasureBranch(rest) ==
                length0 + MeasureBranch(b)
      decreases rest
    {
      w := Account(w, orig);
      w := MeasureItemPass(w, orig, rest.item, rest.rep);
      rest := rest.rest;
    }
    w := Account(w, orig);
    length := w.length;
  }

  /** One item and its repeat. */
  method MeasureItemPass(w0: Walk, orig: nat, item: Item, rep: Repeat) returns (w: Walk)
    requires ItemOk(item) && RepeatOk(rep) && w0.lastCode == w0.code >= orig
    ensures orig <= w.code && (w.previous != -1 ==> orig <= w.previous <= w.code)
    ensures w.length + (if w.code < w.lastCode then 0 else w.code - w.lastCode) == w0.length + MeasureItem(item, rep)
    decreases ItemSize(item), 1
  {
    hide Measure, GroupDelta, NestedLength, Multiple, RepeatSingle;
    match item {
      case One(s) =>
        SingleFits(s, rep);
        w := Walk(w0.code + |SingleBytes(s)|, w0.lastCode, w0.code, w0.length);
        if rep.Times? {
          w := Account(w, orig);
          w := MeasureCharacter(w, rep, s);
          Shrinks(s, rep);
        } else {
          OnceLength(s);
        }
      case Group(capturing, re) =>
        var lengthPrevGroup := MeasureRegexPass(w0.code, re, if capturing then 2 else 0);
        w := Walk(w0.code + 2 + 2 * LINK_SIZE, w0.lastCode, w0.code, w0.length + lengthPrevGroup - 2 - 2 * LINK_SIZE);
        if rep.Times? {
          w := Account(w, orig);
          w := MeasureGroup(w, rep, lengthPrevGroup);
        }
    }
  }

  /** A repeat other than {0} never takes fewer bytes than the character. */
  lemma Shrinks(s: Single, rep: Repeat)
    requires RepeatOk(rep) && rep.Times?
    ensures if rep.max == 0 then |OpsBytes(RepeatSingle(s, rep))| == 0
            else |SingleBytes(s)| <= |OpsBytes(RepeatSingle(s, rep))|
  {
    RepLengths(s, rep);
  }

  lemma OnceLength(s: Single)
    ensures |SingleBytes(s)| == MeasureItem(One(s), Once)
  {
  }

  /** compile_regex with a length to add to. */
  method MeasureRegexPass(start: nat, re: Regex, skipBytes: nat) returns (length: nat)
    requires RegexOk(re)
    ensures length == Measure(re) + skipBytes
    decreases RegexSize(re), 0
  {
    var sum: int := 2 + 2 * LINK_SIZE + skipBytes;
    var rest := re;
    while rest.Alt?
      invariant RegexOk(rest) && RegexSize(rest) <= RegexSize(re)
      invariant sum + Measure(rest) == 2 + 2 * LINK_SIZE + Measure(re) + skipBytes
      decreases rest
    {
      sum := MeasureBranchPass(start + 1 + LINK_SIZE + skipBytes, sum, rest.b);
      sum := sum + 1 + LINK_SIZE;
      rest := rest.more;
    }
    length := MeasureBranchPass(start + 1 + LINK_SIZE + skipBytes, sum, rest.b);
  }

  /** Both passes of pcre_compile. */
  method CompilePattern(re: Regex) returns (buf: PcreBuffer.Buffer?, used: nat, ghost code: Alts)
    requires RegexOk(re)
    ensures buf == null <==> 1 + Measure(re) > MAX_PATTERN_SIZE
    ensures buf != null ==> buf.code.Length == 1 + Measure(re) && used == |PatternBytes(re)| <= buf.code.Length
    ensures buf != null ==> PcreBuffer.Holds(buf.All(), 0, PatternBytes(re))
    ensures buf != null ==> ReadsAs(buf.All(), used, code) && PcreDecode.MeansPattern(code, re)
  {
    var length := MeasureRegexPass(0, re, 0);
    buf, used, code := Compile(re, 1 + length);
  }
}
