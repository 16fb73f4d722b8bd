/** parse_conf.c: a keyval looks for a keyword at word boundaries in a response that arrives in
    chunks, and then collects the value that follows, one character at a time. */
module KeyVals {
  const VALUE_SIZE: nat := 256
  const NUL: char := '\0'

  /** The alphanum_plus table: letters, digits, '@', '_' and '.'. */
  predicate Acceptable(c: char) {
    ('0' <= c <= '9') || ('A' <= c <= 'Z') || ('a' <= c <= 'z') || c == '@' || c == '_' || c == '.'
  }

  predicate IsQuote(c: char) {
    c == '"' || c == '\''
  }

  /** The fields of a keyval: matched characters of the keyword, the character before, the value
      so far and the quote it is in. */
  datatype State = State(index: nat, lastC: char, keyFound: bool, value: string, quote: char, valueFound: bool)

  const FRESH := State(0, NUL, false, "", NUL, false)

  function KeyStep(word: string, s: State, c: char): State
    requires s.index <= |word|
  {
    if s.index == 0 && (Acceptable(c) == Acceptable(s.lastC) || !Acceptable(c)) then s
    else if s.index == |word| then (if Acceptable(c) then s.(index := 0) else s.(keyFound := true))
    else if c != word[s.index] then s.(index := 0)
    else s.(index := s.index + 1)
  }

  function Added(s: State, c: char): State {
    if |s.value| < VALUE_SIZE - 1 then s.(value := s.value + [c]) else s
  }

  function ValueStep(s: State, c: char): State {
    if Acceptable(c) then Added(s, c)
    else if s.quote != NUL then (if s.quote == c then s.(valueFound := true) else Added(s, c))
    else if IsQuote(c) && s.value == "" then s.(quote := c)
    else if s.value != "" then s.(valueFound := true)
    else s
  }

  function Step(word: string, s: State, c: char): (t: State)
    requires s.index <= |word|
    ensures t.index <= |word| && |t.value| <= |s.value| + 1
  {
    if s.valueFound then s
    else if !s.keyFound then KeyStep(word, s, c).(lastC := c)
    else ValueStep(s, c)
  }

  /** The state after a whole text. */
  function Feed(word: string, s: State, data: string): (t: State)
    requires s.index <= |word|
    ensures t.index <= |word|
  {
    if data == "" then s else Step(word, Feed(word, s, data[..|data| - 1]), data[|data| - 1])
  }

  // ---------------------------------------------------------------- chunks

  /** How the text is cut into chunks makes no difference. */
  lemma {:induction false} FeedAppend(word: string, s: State, a: string, b: string)
    requires s.index <= |word|
    ensures Feed(word, s, a + b) == Feed(word, Feed(word, s, a), b)
  {
    if b == "" {
      assert a + b == a;
    } else {
      var rest := b[..|b| - 1];
      FeedAppend(word, s, a, rest);
      assert (a + b)[..|a + b| - 1] == a + rest;
    }
  }

  function Joined(chunks: seq<string>): string {
    if chunks == [] then "" else Joined(chunks[..|chunks| - 1]) + chunks[|chunks| - 1]
  }

  function FeedChunks(word: string, s: State, chunks: seq<string>): (t: State)
    requires s.index <= |word|
    ensures t.index <= |word|
  {
    if chunks == [] then s else Feed(word, FeedChunks(word, s, chunks[..|chunks| - 1]), chunks[|chunks| - 1])
  }

  lemma {:induction false} ChunksDoNotMatter(word: string, s: State, chunks: seq<string>)
    requires s.index <= |word|
    ensures FeedChunks(word, s, chunks) == Feed(word, s, Joined(chunks))
  {
    if chunks != [] {
      var rest := chunks[..|chunks| - 1];
      ChunksDoNotMatter(word, s, rest);
      FeedAppend(word, s, Joined(rest), chunks[|chunks| - 1]);
    }
  }

  // ---------------------------------------------------------------- finding the key

  /** A maximal run of accepted characters that equals the keyword ends right before p. */
  ghost predicate WordBefore(word: string, text: string, p: nat) {
    && |word| <= p <= |text| && text[p - |word|..p] == word
    && (p > |word| ==> !Acceptable(text[p - |word| - 1]))
  }

  /** ... and is followed by a character that is not accepted. */
  ghost predicate KeyEndsAt(word: string, text: string, p: nat) {
    p < |text| && !Acceptable(text[p]) && WordBefore(word, text, p)
  }

  ghost predicate Keyword(word: string) {
    word != "" && forall c :: c in word ==> Acceptable(c)
  }

  /** The length of the run of accepted characters at the end of the text. */
  ghost function RunLength(text: string): (n: nat)
    ensures n <= |text| && (forall i :: |text| - n <= i < |text| ==> Acceptable(text[i]))
    ensures n < |text| ==> !Acceptable(text[|text| - n - 1])
  {
    if text == "" || !Acceptable(text[|text| - 1]) then 0 else RunLength(text[..|text| - 1]) + 1
  }

  ghost predicate Prefix(word: string, a: string) {
    |a| <= |word| && a == word[..|a|]
  }

  lemma PrefixGrows(word: string, a: string, c: char)
    ensures Prefix(word, a + [c]) <==> Prefix(word, a) && |a| < |word| && c == word[|a|]
  {
    if |a| < |word| {
      assert word[..|a| + 1] == word[..|a|] + [word[|a|]];
      if Prefix(word, a + [c]) {
        assert a == (a + [c])[..|a|] && c == (a + [c])[|a|];
      }
    }
  }

  /** Where the matcher stands while the key has not been found. */
  ghost predicate Matching(word: string, text: string, s: State) {
    var n := RunLength(text);
    && s == FRESH.(index := s.index, lastC := s.lastC)
    && s.lastC == (if text == "" then NUL else text[|text| - 1])
    && s.index == if Prefix(word, text[|text| - n..]) then n else 0
  }

  lemma WordIsRun(word: string, text: string)
    requires Keyword(word)
    ensures WordBefore(word, text, |text|) <==> RunLength(text) == |word| && text[|text| - |word|..] == word
  {
    hide Acceptable, RunLength, WordBefore, Keyword;
    WordAtEnd(word, text);
    if WordBefore(word, text, |text|) {
      WordMakesRun(word, text);
    } else if RunLength(text) == |word| {
      RunFacts(text);
    }
  }

  lemma WordAtEnd(word: string, text: string)
    ensures WordBefore(word, text, |text|) <==>
      && |word| <= |text| && text[|text| - |word|..] == word
      && (|text| > |word| ==> !Acceptable(text[|text| - |word| - 1]))
  {
    hide Acceptable;
    if |word| <= |text| {
      assert text[|text| - |word|..|text|] == text[|text| - |word|..];
    }
  }

  lemma RunFacts(text: string)
    ensures var n := RunLength(text); n <= |text| && (n < |text| ==> !Acceptable(text[|text| - n - 1]))
  {
  }

  lemma WordMakesRun(word: string, text: string)
    requires Keyword(word) && |word| <= |text| && text[|text| - |word|..] == word
    requires |text| > |word| ==> !Acceptable(text[|text| - |word| - 1])
    ensures RunLength(text) == |word|
  {
    hide Acceptable;
    var start := |text| - |word|;
    forall i | start <= i < |text| ensures Acceptable(text[i]) {
      assert text[i] == text[start..][i - start] && word[i - start] in word;
    }
    RunAtLeast(text, |word|);
    if start > 0 {
      RunAtMost(text, |word|);
    }
  }

  lemma {:induction false} RunAtLeast(text: string, m: nat)
    requires m <= |text| && forall i :: |text| - m <= i < |text| ==> Acceptable(text[i])
    ensures RunLength(text) >= m
  {
    hide Acceptable;
    if m > 0 {
      RunAtLeast(text[..|text| - 1], m - 1);
    }
  }

  lemma {:induction false} RunAtMost(text: string, m: nat)
    requires m < |text| && !Acceptable(text[|text| - m - 1])
    ensures RunLength(text) <= m
  {
    hide Acceptable;
    if m > 0 {
      RunAtMost(text[..|text| - 1], m - 1);
    }
  }

  /** The run of accepted characters grows by an accepted character and starts over after another. */
  lemma RunGrows(text: string, c: char)
    ensures RunLength(text + [c]) == if Acceptable(c) then RunLength(text) + 1 else 0
  {
    assert (text + [c])[..|text|] == text;
  }

  /** One accepted character, seen from the run it continues or starts. */
  lemma StepInRun(word: string, s: State, run: string, c: char)
    requires Keyword(word) && !s.keyFound && !s.valueFound && Acceptable(c)
    requires s.index == (if Prefix(word, run) then |run| else 0) && (run != "" <==> Acceptable(s.lastC))
    ensures s.index <= |word|
    ensures Step(word, s, c) == s.(index := if Prefix(word, run + [c]) then |run| + 1 else 0, lastC := c)
  {
    hide Acceptable, Prefix;
    PrefixGrows(word, run, c);
    ShortPrefix(word, run);
  }

  lemma MatchingAccepted(word: string, text: string, c: char, s: State)
    requires Keyword(word) && Matching(word, text, s) && Acceptable(c)
    ensures s.index <= |word| && Matching(word, text + [c], Step(word, s, c))
  {
    hide Acceptable, Prefix, Keyword, Step, RunLength;
    var n, next := RunLength(text), text + [c];
    var run := text[|text| - n..];
    RunGrows(text, c);
    LastOfRun(text);
    assert next[|next| - (n + 1)..] == run + [c];
    StepInRun(word, s, run, c);
  }

  lemma ShortPrefix(word: string, run: string)
    requires Keyword(word)
    ensures (Prefix(word, run) ==> |run| <= |word|) && Prefix(word, "") && |word| > 0
  {
  }

  lemma LastOfRun(text: string)
    ensures RunLength(text) > 0 <==> text != "" && Acceptable(text[|text| - 1])
    ensures !Acceptable(NUL)
  {
  }

  lemma MatchingOther(word: string, text: string, c: char, s: State)
    requires Keyword(word) && Matching(word, text, s) && !Acceptable(c)
    ensures var t := Step(word, s, c);
      if WordBefore(word, text, |text|) then t == FRESH.(index := |word|, lastC := c, keyFound := true)
      else Matching(word, text + [c], t)
  {
    hide Acceptable;
    RunGrows(text, c);
    WordIsRun(word, text);
    if s.index < |word| {
      assert word[s.index] in word;
    } else {
      assert word[..|word|] == word;
    }
  }

  ghost predicate NoEnd(word: string, text: string) {
    forall p :: 0 <= p < |text| ==> !KeyEndsAt(word, text, p)
  }

  /** While no keyword has ended, the matcher stands where the text says. */
  lemma {:induction false} StillMatching(word: string, text: string)
    requires Keyword(word) && NoEnd(word, text)
    ensures Matching(word, text, Feed(word, FRESH, text))
  {
    hide Acceptable, Matching, WordBefore;
    if text == "" {
      NoTextYet(word);
    } else {
      var n := |text| - 1;
      var before, c := text[..n], text[n];
      assert text == before + [c];
      EndsEarlier(word, before, c);
      StillMatching(word, before);
      assert !KeyEndsAt(word, text, n);
      if Acceptable(c) {
        MatchingAccepted(word, before, c, Feed(word, FRESH, before));
      } else {
        MatchingOther(word, before, c, Feed(word, FRESH, before));
      }
    }
  }

  lemma NoTextYet(word: string)
    ensures Matching(word, "", FRESH)
  {
  }

  /** Nothing happens to the key after it has been found. */
  lemma {:induction false} KeyStaysFound(word: string, s: State, text: string)
    requires s.index <= |word| && s.keyFound
    ensures var t := Feed(word, s, text); t.keyFound && t.index == s.index && t.lastC == s.lastC
  {
    if text != "" {
      KeyStaysFound(word, s, text[..|text| - 1]);
    }
  }

  /** The state in which the value scan begins. */
  function KeySeen(word: string, c: char): State {
    FRESH.(index := |word|, lastC := c, keyFound := true)
  }

  /** The first place where the keyword ends is where the value scan begins. */
  lemma KeyFoundAt(word: string, text: string, p: nat)
    requires Keyword(word) && KeyEndsAt(word, text, p) && NoEnd(word, text[..p])
    ensures Feed(word, FRESH, text) == Feed(word, KeySeen(word, text[p]), text[p + 1..])
    ensures Feed(word, FRESH, text).keyFound
  {
    hide Acceptable;
    var before, head := text[..p], text[..p + 1];
    StillMatching(word, before);
    assert head[..p] == before;
    assert WordBefore(word, before, |before|) by {
      assert text[p - |word|..p] == before[p - |word|..];
    }
    MatchingOther(word, before, text[p], Feed(word, FRESH, before));
    FeedAppend(word, FRESH, head, text[p + 1..]);
    assert text == head + text[p + 1..];
    KeyStaysFound(word, KeySeen(word, text[p]), text[p + 1..]);
  }

  /** The key is found exactly when a maximal accepted run that equals the keyword is followed by
      a character that is not accepted. */
  lemma KeyFound(word: string, text: string)
    requires Keyword(word)
    ensures Feed(word, FRESH, text).keyFound <==> exists p: nat :: KeyEndsAt(word, text, p)
  {
    hide Acceptable, WordBefore;
    if NoEnd(word, text) {
      StillMatching(word, text);
    } else {
      var p := FirstEnd(word, text, |text|);
      KeyFoundAt(word, text, p);
    }
  }

  lemma {:induction false} FirstEnd(word: string, text: string, n: nat) returns (p: nat)
    requires n <= |text| && exists q :: 0 <= q < n && KeyEndsAt(word, text, q)
    ensures KeyEndsAt(word, text, p) && NoEnd(word, text[..p])
  {
    if exists q :: 0 <= q < n - 1 && KeyEndsAt(word, text, q) {
      p := FirstEnd(word, text, n - 1);
    } else {
      p := n - 1;
      forall q | 0 <= q < p ensures !KeyEndsAt(word, text[..p], q) {
        EndsInPrefix(word, text, p, q);
      }
    }
  }

  lemma EndsInPrefix(word: string, text: string, p: nat, q: nat)
    requires q < p <= |text|
    ensures KeyEndsAt(word, text[..p], q) <==> KeyEndsAt(word, text, q)
  {
    hide Acceptable;
    if |word| <= q {
      assert text[..p][q - |word|..q] == text[q - |word|..q];
    }
  }

  /** The places where a key ends in a text, and in the text without its last character. */
  lemma EndsEarlier(word: string, before: string, c: char)
    ensures NoEnd(word, before + [c]) ==> NoEnd(word, before)
    ensures KeyEndsAt(word, before + [c], |before|) <==> !Acceptable(c) && WordBefore(word, before, |before|)
  {
    hide Acceptable;
    var text := before + [c];
    assert text[..|before|] == before;
    forall q | 0 <= q < |before| ensures KeyEndsAt(word, before, q) <==> KeyEndsAt(word, text, q) {
      EndsInPrefix(word, text, |before|, q);
    }
    if |word| <= |before| {
      assert text[|before| - |word|..|before|] == before[|before| - |word|..];
    }
  }

  // ---------------------------------------------------------------- collecting the value

  /** The first place from `from` on that satisfies p, or the length of the text. */
  function First(text: string, from: nat, p: char -> bool): (i: nat)
    requires from <= |text|
    ensures from <= i <= |text| && (i < |text| ==> p(text[i]))
    ensures forall j :: from <= j < i ==> !p(text[j])
    decreases |text| - from
  {
    if from == |text| || p(text[from]) then from else First(text, from + 1, p)
  }

  lemma {:induction false} FirstGrows(text: string, c: char, from: nat, p: char -> bool)
    requires from <= |text|
    ensures var i := First(text, from, p);
      First(text + [c], from, p) == if i < |text| || p(c) then i else |text| + 1
    decreases |text| - from
  {
    if from < |text| && !p(text[from]) {
      FirstGrows(text, c, from + 1, p);
    } else if from == |text| {
      assert (text + [c])[from] == c;
    }
  }

  /** At most the 255 characters that fit before the terminator. */
  function Clip(s: string): string {
    if |s| < VALUE_SIZE then s else s[..VALUE_SIZE - 1]
  }

  lemma ClipGrows(s: string, c: char)
    ensures Clip(s + [c]) == if |Clip(s)| < VALUE_SIZE - 1 then Clip(s) + [c] else Clip(s)
    ensures Clip(s) == "" <==> s == ""
  {
  }

  const STARTS_VALUE := (c: char) => Acceptable(c) || IsQuote(c)
  const OUTSIDE := (c: char) => !Acceptable(c)

  function Closes(q: char): char -> bool {
    c => c == q
  }

  /** What has been collected, the quote it is in, and whether it has come to its end. */
  datatype Value = Value(text: string, quote: char, complete: bool)

  /** The value in a text after the key: a quoted string, or else a run of accepted characters,
      after anything that is neither. */
  ghost function ValueOf(rest: string): Value {
    var k := First(rest, 0, STARTS_VALUE);
    if k == |rest| then Value("", NUL, false)
    else if IsQuote(rest[k]) then Upto(rest, k + 1, Closes(rest[k]), rest[k])
    else Upto(rest, k, OUTSIDE, NUL)
  }

  ghost function Upto(rest: string, from: nat, end: char -> bool, quote: char): Value
    requires from <= |rest|
  {
    var e := First(rest, from, end);
    Value(Clip(rest[from..e]), quote, e < |rest|)
  }

  lemma UptoGrows(rest: string, c: char, from: nat, end: char -> bool, quote: char)
    requires from <= |rest|
    ensures var v, w := Upto(rest, from, end, quote), Upto(rest + [c], from, end, quote);
      v.quote == quote &&
      if v.complete then w == v
      else if end(c) then w == v.(complete := true)
      else w == v.(text := if |v.text| < VALUE_SIZE - 1 then v.text + [c] else v.text)
  {
    hide Clip;
    FirstGrows(rest, c, from, end);
    var e := First(rest, from, end);
    assert (rest + [c])[from..e] == rest[from..e];
    if e == |rest| {
      ClipGrows(rest[from..], c);
      assert rest[from..e] == rest[from..] && (rest + [c])[from..|rest| + 1] == rest[from..] + [c];
    }
  }

  /** One more character of the value, as ValueStep sees it. */
  function Grown(v: Value, c: char): Value {
    if v.complete then v
    else if Acceptable(c) || (v.quote != NUL && v.quote != c) then
      v.(text := if |v.text| < VALUE_SIZE - 1 then v.text + [c] else v.text)
    else if v.quote != NUL || v.text != "" then v.(complete := true)
    else if IsQuote(c) then v.(quote := c)
    else v
  }

  lemma ValueGrows(rest: string, c: char)
    ensures ValueOf(rest + [c]) == Grown(ValueOf(rest), c)
  {
    hide Acceptable, IsQuote, Upto;
    var next := rest + [c];
    FirstGrows(rest, c, 0, STARTS_VALUE);
    QuotesAreOther(c);
    var k := First(rest, 0, STARTS_VALUE);
    if k < |rest| {
      assert next[k] == rest[k];
      QuotesAreOther(rest[k]);
      if IsQuote(rest[k]) {
        UptoGrows(rest, c, k + 1, Closes(rest[k]), rest[k]);
      } else {
        UptoGrows(rest, c, k, OUTSIDE, NUL);
        UptoStarted(rest, k);
      }
    } else {
      UptoNothing(next, c);
    }
  }

  lemma QuotesAreOther(c: char)
    ensures IsQuote(c) ==> !Acceptable(c) && c != NUL
  {
  }

  lemma UptoStarted(rest: string, k: nat)
    requires k < |rest| && Acceptable(rest[k])
    ensures Upto(rest, k, OUTSIDE, NUL).text != ""
  {
  }

  /** The value starts with the last character of the text. */
  lemma UptoNothing(next: string, c: char)
    requires |next| > 0 && next[|next| - 1] == c
    ensures IsQuote(c) ==> Upto(next, |next|, Closes(c), c) == Value("", c, false)
    ensures Acceptable(c) ==> Upto(next, |next| - 1, OUTSIDE, NUL) == Value([c], NUL, false)
  {
    if Acceptable(c) {
      assert First(next, |next| - 1, OUTSIDE) == |next|;
      assert next[|next| - 1..|next|] == [c];
    }
  }

  function Collected(s: State, v: Value): State {
    s.(value := v.text, quote := v.quote, valueFound := v.complete)
  }

  /** The value scan collects exactly the value in the text after the key. */
  lemma {:induction false} ValueCollected(word: string, s: State, rest: string)
    requires s.index <= |word| && s.keyFound && !s.valueFound && s.value == "" && s.quote == NUL
    ensures Feed(word, s, rest) == Collected(s, ValueOf(rest))
  {
    hide Acceptable, ValueOf;
    if rest == "" {
      NoValueYet();
    } else {
      var n := |rest| - 1;
      ValueCollected(word, s, rest[..n]);
      ValueGrows(rest[..n], rest[n]);
      assert rest == rest[..n] + [rest[n]];
      QuotesAreOther(rest[n]);
    }
  }

  lemma NoValueYet()
    ensures ValueOf("") == Value("", NUL, false)
  {
  }

  /** A keyval that has scanned a whole text, in whatever chunks: the value belongs to the first
      place where the keyword ends, and without such a place there is none. */
  lemma Scanned(word: string, chunks: seq<string>)
    requires Keyword(word)
    ensures var text, t := Joined(chunks), FeedChunks(word, FRESH, chunks);
      && (t.keyFound <==> exists p: nat :: KeyEndsAt(word, text, p))
      && (t.keyFound ==> exists p: nat :: KeyEndsAt(word, text, p) && NoEnd(word, text[..p])
                                          && t == Collected(KeySeen(word, text[p]), ValueOf(text[p + 1..])))
      && (!t.keyFound ==> t.value == "" && !t.valueFound)
  {
    hide WordBefore, Acceptable, NoEnd, ValueOf, Matching;
    var text := Joined(chunks);
    ChunksDoNotMatter(word, FRESH, chunks);
    KeyFound(word, text);
    if Feed(word, FRESH, text).keyFound {
      var p := FirstEnd(word, text, |text|);
      KeyFoundAt(word, text, p);
      ValueCollected(word, KeySeen(word, text[p]), text[p + 1..]);
    } else {
      NoKeyNoValue(word, text);
    }
  }

  lemma NoKeyNoValue(word: string, text: string)
    requires Keyword(word) && !Feed(word, FRESH, text).keyFound
    ensures Feed(word, FRESH, text).value == "" && !Feed(word, FRESH, text).valueFound
  {
    if !NoEnd(word, text) {
      var p: nat :| p < |text| && KeyEndsAt(word, text, p);
      KeyFound(word, text);
    } else {
      StillMatching(word, text);
    }
  }

  /** A flush at the end of the text accepts a key exactly when it has been found, or stands
      complete at the very end. */
  lemma FlushAccepts(word: string, text: string)
    requires Keyword(word)
    ensures var t := Feed(word, FRESH, text);
      t.keyFound || t.index == |word| <==> (exists p: nat :: KeyEndsAt(word, text, p)) || WordBefore(word, text, |text|)
  {
    KeyFound(word, text);
    if NoEnd(word, text) {
      StillMatching(word, text);
      WordIsRun(word, text);
      FlushOfRun(word, text, Feed(word, FRESH, text));
    }
  }

  lemma FlushOfRun(word: string, text: string, s: State)
    requires Keyword(word) && Matching(word, text, s)
    ensures s.index == |word| <==> RunLength(text) == |word| && text[|text| - |word|..] == word
  {
    var n := RunLength(text);
    if n == |word| {
      assert word[..n] == word;
    }
  }

  // ---------------------------------------------------------------- the scanner

  class KeyVal {
    const word: string
    const buf: array<char>
    var keyIndex: nat
    var lastC: char
    var keyFound: bool
    var valueIndex: nat
    var quote: char
    var valueFound: bool

    /** The value is a string of its own, terminated inside the buffer. */
    ghost predicate Valid()
      reads this, buf
    {
      keyIndex <= |word| && buf.Length == VALUE_SIZE && valueIndex < VALUE_SIZE && buf[valueIndex] == NUL
    }

    ghost function Now(): State
      requires Valid()
      reads this, buf
    {
      State(keyIndex, lastC, keyFound, buf[..valueIndex], quote, valueFound)
    }

    /** kv_create of zeroed memory. */
    constructor (word: string)
      ensures Valid() && fresh(buf) && this.word == word && Now() == FRESH
    {
      this.word := word;
      buf := new char[VALUE_SIZE](_ => NUL);
      keyIndex, lastC, keyFound, valueIndex, quote, valueFound := 0, NUL, false, 0, NUL, false;
    }

    /** kv_init: ready for another response. */
    method Init()
      requires Valid()
      modifies this, buf
      ensures Valid() && Now() == FRESH
    {
      keyIndex, lastC, keyFound := 0, NUL, false;
      buf[0] := NUL;
      valueIndex, quote, valueFound := 0, NUL, false;
    }

    /** kv_scan of one chunk. */
    method Scan(data: string)
      requires Valid()
      modifies this, buf
      ensures Valid() && Now() == Feed(word, old(Now()), data)
    {
      ghost var was := Now();
      if valueFound {
        NothingLeft(word, was, data);
        return;
      }
      var i := 0;
      while i < |data|
        invariant i <= |data| && Valid() && (valueFound ==> keyFound)
        invariant Now() == Feed(word, was, data[..i])
      {
        assert data[..i + 1][..i] == data[..i];
        if !keyFound {
          ScanForKey(data[i]);
          lastC := data[i];
        } else if !valueFound {
          ScanForValue(data[i]);
        } else {
          NothingLeft(word, Now(), data[i..]);
          FeedAppend(word, was, data[..i], data[i..]);
          assert data == data[..i] + data[i..];
          return;
        }
        i := i + 1;
      }
      assert data[..i] == data;
    }

    /** scan_for_key; the caller sets last_c. */
    method ScanForKey(c: char)
      requires Valid() && !keyFound
      modifies `keyIndex, `keyFound
      ensures Valid() && Now() == KeyStep(word, old(Now()), c)
    {
      if keyIndex == 0 {
        if Acceptable(c) == Acceptable(lastC) || !Acceptable(c) {
          return;
        }
      }
      if keyIndex == |word| {
        if Acceptable(c) {
          keyIndex := 0;
        } else {
          keyFound := true;
        }
        return;
      }
      if c != word[keyIndex] {
        keyIndex := 0;
        return;
      }
      keyIndex := keyIndex + 1;
    }

    /** scan_for_value. */
    method ScanForValue(c: char)
      requires Valid()
      modifies buf, `valueIndex, `quote, `valueFound
      ensures Valid() && Now() == ValueStep(old(Now()), c)
    {
      if Acceptable(c) {
        AddToValue(c);
        return;
      }
      if quote != NUL {
        if quote == c {
          valueFound := true;
        } else {
          AddToValue(c);
        }
        return;
      }
      if IsQuote(c) && valueIndex == 0 {
        quote := c;
        return;
      }
      if valueIndex > 0 {
        valueFound := true;
      }
    }

    /** add_to_value. */
    method AddToValue(c: char)
      requires Valid()
      modifies buf, `valueIndex
      ensures Valid() && Now() == Added(old(Now()), c)
    {
      if valueIndex < VALUE_SIZE - 1 {
        buf[valueIndex] := c;
        valueIndex := valueIndex + 1;
        buf[valueIndex] := NUL;
      }
    }

    /** kv_flush. */
    method Flush()
      requires Valid()
      modifies `valueFound
      ensures Valid() && valueFound == (old(valueFound) || keyFound || keyIndex == |word|)
    {
      if keyFound || keyIndex == |word| {
        valueFound := true;
      }
    }
  }

  lemma {:induction false} NothingLeft(word: string, s: State, data: string)
    requires s.index <= |word| && s.valueFound
    ensures Feed(word, s, data) == s
  {
    if data != "" {
      NothingLeft(word, s, data[..|data| - 1]);
    }
  }
}
