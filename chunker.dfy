/** split_text_into_chunks: a greedy splitter that cuts a report into
    Telegram-sized chunks at line breaks, then at sentence ends, then at
    spaces. Both copies of the three-level chunker and the line-only variant
    feed a sequence of units (a piece of text and the separator written after
    it) through the same accumulator step. */
module Chunker {
  import opened Text
  import opened Seq

  /** A piece of the text and the character the chunker appends after it:
      '\n' after a whole line, ' ' after a sentence or a word. */
  datatype Unit = Unit(text: string, sep: char)

  /** The chunks emitted so far and the text accumulated since the last one. */
  datatype State = State(chunks: seq<string>, cur: string)

  // ---------------------------------------------------------------------
  // re.split(r'(?<=[.!?])\s+', p)

  predicate IsSentenceEnd(c: char) {
    c == '.' || c == '!' || c == '?'
  }

  /** A separator may start at i: the previous character ends a sentence and
      p[i] is whitespace. */
  predicate BreakAt(p: string, i: int)
    requires 0 < i < |p|
  {
    IsSentenceEnd(p[i - 1]) && IsSpace(p[i])
  }

  /** The first index k >= i where a separator starts, or |p|. */
  function BreakFrom(p: string, i: nat): (k: nat)
    requires i >= 1
    ensures k == |p| || i <= k < |p|
    ensures k < |p| ==> BreakAt(p, k)
    ensures forall j :: i <= j < k ==> !BreakAt(p, j)
    decreases |p| - i
  {
    if i >= |p| then |p| else if BreakAt(p, i) then i else BreakFrom(p, i + 1)
  }

  /** The sentences of a paragraph: the pieces between the maximal runs of
      whitespace that directly follow '.', '!' or '?'. */
  function SentenceSplit(p: string): (r: seq<string>)
    ensures |r| >= 1
    decreases |p|
  {
    var k := BreakFrom(p, 1);
    if k == |p| then [p]
    else [p[..k]] + SentenceSplit(TrimStart(p[k..]))
  }

  /** The separators are whitespace, so the sentences carry all the tokens. */
  lemma {:induction false} SentenceSplitTokens(p: string)
    ensures FlatMap(SentenceSplit(p), Tokens) == Tokens(p)
    decreases |p|
  {
    var k := BreakFrom(p, 1);
    if k == |p| {
      FlatMapSingle(p, Tokens);
    } else {
      var rest := TrimStart(p[k..]);
      BreakTokens(p, k);
      SentenceSplitTokens(rest);
      assert SentenceSplit(p) == [p[..k]] + SentenceSplit(rest);
      FlatMapAppend([p[..k]], SentenceSplit(rest), Tokens);
      FlatMapSingle(p[..k], Tokens);
    }
  }

  /** The whitespace run cut out at a sentence break carries no token. */
  lemma BreakTokens(p: string, k: nat)
    requires 1 <= k < |p| && BreakAt(p, k)
    ensures Tokens(p) == Tokens(p[..k]) + Tokens(TrimStart(p[k..]))
  {
    assert p == p[..k] + p[k..];
    TokensSkipSpaces(p[..k], p[k..]);
  }

  /** Whitespace at the head of q, dropped, carries no token. */
  lemma TokensSkipSpaces(a: string, q: string)
    requires q != [] && IsSpace(q[0])
    ensures Tokens(a + q) == Tokens(a) + Tokens(TrimStart(q))
  {
    var rest := TrimStart(q);
    var w := q[..|q| - |rest|];
    TrimStartSplit(q);
    assert q == w + rest;
    assert a + (w + rest) == a + w + rest;
    TokensAppendSpaces(a, w, rest);
  }

  lemma TrimStartSplit(q: string)
    requires q != [] && IsSpace(q[0])
    ensures q[..|q| - |TrimStart(q)|] != []
    ensures AllSpace(q[..|q| - |TrimStart(q)|])
    ensures q == q[..|q| - |TrimStart(q)|] + TrimStart(q)
  {
    var rest := TrimStart(q);
    assert rest == TrimStart(q[1..]);
    var n := |q| - |rest|;
    assert n >= 1;
    assert rest == q[n..];
    assert q == q[..n] + q[n..];
  }

  // ---------------------------------------------------------------------
  // The units of the three-level chunker

  function WordUnit(w: string): seq<Unit> {
    [Unit(w, ' ')]
  }

  /** A sentence longer than the limit goes word by word (sentence.split(' ')). */
  function SentenceUnits(s: string, max: int): seq<Unit> {
    if |s| > max then FlatMap(Split(s, {' '}), WordUnit) else [Unit(s, ' ')]
  }

  /** A line longer than the limit goes sentence by sentence; the newline
      after it is then lost, each sentence being followed by a space. */
  function ParagraphUnits(p: string, max: int): seq<Unit> {
    if |p| > max then FlatMap(SentenceSplit(p), SentenceUnitsOf(max)) else [Unit(p, '\n')]
  }

  function SentenceUnitsOf(max: int): string -> seq<Unit> {
    s => SentenceUnits(s, max)
  }

  function ParagraphUnitsOf(max: int): string -> seq<Unit> {
    p => ParagraphUnits(p, max)
  }

  function Units(text: string, max: int): seq<Unit> {
    FlatMap(Split(text, {'\n'}), ParagraphUnitsOf(max))
  }

  function LineUnit(l: string): seq<Unit> {
    [Unit(l, '\n')]
  }

  /** The units of the line-only chunker: every line whole. */
  function LineUnits(text: string): seq<Unit> {
    FlatMap(Split(text, {'\n'}), LineUnit)
  }

  // ---------------------------------------------------------------------
  // The accumulator

  /** One unit: when it does not fit next to the accumulated text, flush the
      stripped accumulator (even when that is empty) and start again with the
      unit; otherwise append it. */
  function Step(st: State, u: Unit, max: int): State {
    if |st.cur| + |u.text| + 1 > max then State(st.chunks + [Strip(st.cur)], u.text + [u.sep])
    else State(st.chunks, st.cur + u.text + [u.sep])
  }

  function Fold(us: seq<Unit>, max: int): State {
    if us == [] then State([], []) else Step(Fold(us[..|us| - 1], max), us[|us| - 1], max)
  }

  lemma FoldSnoc(us: seq<Unit>, u: Unit, max: int)
    ensures Fold(us + [u], max) == Step(Fold(us, max), u, max)
  {
    assert (us + [u])[..|us|] == us;
  }

  /** The final accumulator is a chunk only if it holds a non-blank character. */
  function Finish(st: State): seq<string> {
    if HasNonSpace(st.cur) then st.chunks + [Strip(st.cur)] else st.chunks
  }

  /** What split_text_into_chunks(text, max) returns. */
  function Chunks(text: string, max: int): seq<string> {
    Finish(Fold(Units(text, max), max))
  }

  /** What the line-only split_text_into_chunks(text, max) returns. */
  function LineChunks(text: string, max: int): seq<string> {
    Finish(Fold(LineUnits(text), max))
  }

  // ---------------------------------------------------------------------
  // The loops as the source writes them

  lemma FlatMapPrefix<A, B>(xs: seq<A>, i: int, f: A -> seq<B>)
    requires 0 <= i < |xs|
    ensures FlatMap(xs[..i + 1], f) == FlatMap(xs[..i], f) + f(xs[i])
  {
    assert xs[..i + 1][..i] == xs[..i];
  }

  lemma ParagraphPrefix(ps: seq<string>, i: int, max: int)
    requires 0 <= i < |ps|
    ensures FlatMap(ps[..i + 1], ParagraphUnitsOf(max))
      == FlatMap(ps[..i], ParagraphUnitsOf(max)) + ParagraphUnits(ps[i], max)
  {
    FlatMapPrefix(ps, i, ParagraphUnitsOf(max));
  }

  lemma SentencePrefix(pre: seq<Unit>, ss: seq<string>, j: int, max: int)
    requires 0 <= j < |ss|
    ensures pre + FlatMap(ss[..j + 1], SentenceUnitsOf(max))
      == (pre + FlatMap(ss[..j], SentenceUnitsOf(max))) + SentenceUnits(ss[j], max)
  {
    FlatMapPrefix(ss, j, SentenceUnitsOf(max));
  }

  lemma WordPrefix(pre: seq<Unit>, ws: seq<string>, k: int)
    requires 0 <= k < |ws|
    ensures pre + FlatMap(ws[..k + 1], WordUnit)
      == (pre + FlatMap(ws[..k], WordUnit)) + [Unit(ws[k], ' ')]
  {
    FlatMapPrefix(ws, k, WordUnit);
  }

  /** One piece into the accumulator: flush it when the piece does not fit. */
  method AddUnit(chunks: seq<string>, current: string, u: Unit, maxLength: int)
    returns (chunks': seq<string>, current': string)
    ensures State(chunks', current') == Step(State(chunks, current), u, maxLength)
  {
    if |current| + |u.text| + 1 > maxLength {
      chunks', current' := chunks + [Strip(current)], u.text + [u.sep];
    } else {
      chunks', current' := chunks, current + u.text + [u.sep];
    }
  }

  /** The words of an over-long sentence, each followed by a space. */
  method AddWords(chunks: seq<string>, current: string, words: seq<string>, maxLength: int, ghost seen: seq<Unit>)
    returns (chunks': seq<string>, current': string)
    requires State(chunks, current) == Fold(seen, maxLength)
    ensures State(chunks', current') == Fold(seen + FlatMap(words, WordUnit), maxLength)
  {
    chunks', current' := chunks, current;
    assert seen + FlatMap(words[..0], WordUnit) == seen;
    for k := 0 to |words|
      invariant State(chunks', current') == Fold(seen + FlatMap(words[..k], WordUnit), maxLength)
    {
      WordPrefix(seen, words, k);
      FoldSnoc(seen + FlatMap(words[..k], WordUnit), Unit(words[k], ' '), maxLength);
      chunks', current' := AddUnit(chunks', current', Unit(words[k], ' '), maxLength);
    }
    assert words[..|words|] == words;
  }

  /** The sentences of an over-long line: a sentence still over the limit
      goes word by word. */
  method AddSentences(chunks: seq<string>, current: string, sentences: seq<string>, maxLength: int, ghost seen: seq<Unit>)
    returns (chunks': seq<string>, current': string)
    requires State(chunks, current) == Fold(seen, maxLength)
    ensures State(chunks', current') == Fold(seen + FlatMap(sentences, SentenceUnitsOf(maxLength)), maxLength)
  {
    chunks', current' := chunks, current;
    assert seen + FlatMap(sentences[..0], SentenceUnitsOf(maxLength)) == seen;
    for j := 0 to |sentences|
      invariant State(chunks', current') == Fold(seen + FlatMap(sentences[..j], SentenceUnitsOf(maxLength)), maxLength)
    {
      SentencePrefix(seen, sentences, j, maxLength);
      ghost var done := seen + FlatMap(sentences[..j], SentenceUnitsOf(maxLength));
      var sentence := sentences[j];
      if |sentence| > maxLength {
        chunks', current' := AddWords(chunks', current', Split(sentence, {' '}), maxLength, done);
      } else {
        FoldSnoc(done, Unit(sentence, ' '), maxLength);
        chunks', current' := AddUnit(chunks', current', Unit(sentence, ' '), maxLength);
      }
    }
    assert sentences[..|sentences|] == sentences;
  }

  /** split_text_into_chunks: lines, then sentences of an over-long line,
      then words of an over-long sentence, each into the accumulator. */
  method SplitTextIntoChunks(text: string, maxLength: int) returns (chunks: seq<string>)
    ensures chunks == Chunks(text, maxLength)
  {
    chunks := [];
    var current := "";
    var paragraphs := Split(text, {'\n'});
    for i := 0 to |paragraphs|
      invariant State(chunks, current) == Fold(FlatMap(paragraphs[..i], ParagraphUnitsOf(maxLength)), maxLength)
    {
      ParagraphPrefix(paragraphs, i, maxLength);
      ghost var seen := FlatMap(paragraphs[..i], ParagraphUnitsOf(maxLength));
      var paragraph := paragraphs[i];
      if |paragraph| > maxLength {
        chunks, current := AddSentences(chunks, current, SentenceSplit(paragraph), maxLength, seen);
      } else {
        FoldSnoc(seen, Unit(paragraph, '\n'), maxLength);
        chunks, current := AddUnit(chunks, current, Unit(paragraph, '\n'), maxLength);
      }
    }
    assert paragraphs[..|paragraphs|] == paragraphs;
    StripEmpty(current);
    if Strip(current) != [] {
      chunks := chunks + [Strip(current)];
    }
  }

  /** The line-only split_text_into_chunks. */
  method SplitLinesIntoChunks(text: string, maxLength: int) returns (chunks: seq<string>)
    ensures chunks == LineChunks(text, maxLength)
  {
    chunks := [];
    var current := "";
    var paragraphs := Split(text, {'\n'});
    for i := 0 to |paragraphs|
      invariant State(chunks, current) == Fold(FlatMap(paragraphs[..i], LineUnit), maxLength)
    {
      FlatMapPrefix(paragraphs, i, LineUnit);
      FoldSnoc(FlatMap(paragraphs[..i], LineUnit), Unit(paragraphs[i], '\n'), maxLength);
      chunks, current := AddUnit(chunks, current, Unit(paragraphs[i], '\n'), maxLength);
    }
    assert paragraphs[..|paragraphs|] == paragraphs;
    StripEmpty(current);
    if Strip(current) != [] {
      chunks := chunks + [Strip(current)];
    }
  }

  // ---------------------------------------------------------------------
  // Properties of the accumulator

  predicate SepsAreSpace(us: seq<Unit>) {
    forall u :: u in us ==> IsSpace(u.sep)
  }

  predicate AllStripped(cs: seq<string>) {
    forall c :: c in cs ==> Strip(c) == c
  }

  lemma AppendStripped(cs: seq<string>, x: string)
    requires AllStripped(cs)
    ensures AllStripped(cs + [Strip(x)])
  {
    StripIdempotent(x);
  }

  lemma StepStripped(st: State, u: Unit, max: int)
    requires AllStripped(st.chunks)
    ensures AllStripped(Step(st, u, max).chunks)
  {
    if |st.cur| + |u.text| + 1 > max {
      AppendStripped(st.chunks, st.cur);
    }
  }

  /** Every emitted chunk equals its own strip(). */
  lemma {:induction false} FoldStripped(us: seq<Unit>, max: int)
    ensures AllStripped(Fold(us, max).chunks)
    decreases |us|
  {
    if us != [] {
      FoldStripped(us[..|us| - 1], max);
      StepStripped(Fold(us[..|us| - 1], max), us[|us| - 1], max);
    }
  }

  lemma FinishStripped(st: State)
    requires AllStripped(st.chunks)
    ensures AllStripped(Finish(st))
  {
    AppendStripped(st.chunks, st.cur);
  }

  predicate AllFit(cs: seq<string>, max: int) {
    forall c :: c in cs ==> |c| <= max
  }

  /** The accumulator invariant behind the length bound: at most max + 1
      characters, the last one the separator that strip() removes. */
  predicate CurFits(cur: string, max: int) {
    |cur| <= max + 1 && EndsInSpace(cur)
  }

  lemma AppendFit(cs: seq<string>, cur: string, max: int)
    requires max >= 0 && AllFit(cs, max) && CurFits(cur, max)
    ensures AllFit(cs + [Strip(cur)], max)
  {
    StripLength(cur);
    SnocFit(cs, Strip(cur), max);
  }

  lemma SnocFit(cs: seq<string>, x: string, max: int)
    requires AllFit(cs, max) && |x| <= max
    ensures AllFit(cs + [x], max)
  {
  }

  lemma StepBound(st: State, u: Unit, max: int)
    requires max >= 1 && IsSpace(u.sep) && |u.text| <= max
    requires AllFit(st.chunks, max) && CurFits(st.cur, max)
    ensures AllFit(Step(st, u, max).chunks, max) && CurFits(Step(st, u, max).cur, max)
  {
    if |st.cur| + |u.text| + 1 > max {
      AppendFit(st.chunks, st.cur, max);
    }
  }

  /** When no unit is longer than the limit (at least 1) every chunk fits. */
  lemma {:induction false} FoldBound(us: seq<Unit>, max: int)
    requires max >= 1 && SepsAreSpace(us)
    requires forall u :: u in us ==> |u.text| <= max
    ensures AllFit(Fold(us, max).chunks, max) && CurFits(Fold(us, max).cur, max)
    decreases |us|
  {
    if us != [] {
      var pre, u := us[..|us| - 1], us[|us| - 1];
      assert forall v :: v in pre ==> v in us;
      assert u in us;
      FoldBound(pre, max);
      StepBound(Fold(pre, max), u, max);
    }
  }

  lemma FinishBound(st: State, max: int)
    requires max >= 0 && AllFit(st.chunks, max) && CurFits(st.cur, max)
    ensures AllFit(Finish(st), max)
  {
    if HasNonSpace(st.cur) {
      AppendFit(st.chunks, st.cur, max);
    }
  }

  function UnitTokens(u: Unit): seq<string> {
    Tokens(u.text)
  }

  lemma TokensAfterSpace(a: string, b: string)
    requires EndsInSpace(a)
    ensures Tokens(a + b) == Tokens(a) + Tokens(b)
  {
    if a == [] {
      assert a + b == b;
      TokensOfEmpty();
    } else {
      var a0, c := a[..|a| - 1], a[|a| - 1];
      assert a == a0 + [c];
      TokensAppendSpace(a0, c, b);
      TokensTrailingSpace(a0, c);
    }
  }

  lemma FlatMapSnoc<A, B>(xs: seq<A>, x: A, f: A -> seq<B>)
    ensures FlatMap(xs + [x], f) == FlatMap(xs, f) + f(x)
  {
    assert (xs + [x])[..|xs|] == xs;
  }

  /** One step keeps the tokens: those of the chunks followed by those of the
      accumulated text grow by the tokens of the unit. */
  lemma StepTokens(st: State, u: Unit, max: int)
    requires IsSpace(u.sep) && EndsInSpace(st.cur)
    ensures var st' := Step(st, u, max);
      && EndsInSpace(st'.cur)
      && FlatMap(st'.chunks, Tokens) + Tokens(st'.cur)
         == FlatMap(st.chunks, Tokens) + Tokens(st.cur) + Tokens(u.text)
  {
    if |st.cur| + |u.text| + 1 > max {
      FlushTokens(st.chunks, st.cur, u.text, u.sep);
    } else {
      AppendTokens(st.chunks, st.cur, u.text, u.sep);
    }
  }

  lemma FlushTokens(chunks: seq<string>, cur: string, text: string, sep: char)
    requires IsSpace(sep)
    ensures EndsInSpace(text + [sep])
    ensures FlatMap(chunks + [Strip(cur)], Tokens) + Tokens(text + [sep])
      == FlatMap(chunks, Tokens) + Tokens(cur) + Tokens(text)
  {
    TokensTrailingSpace(text, sep);
    FlatMapSnoc(chunks, Strip(cur), Tokens);
    TokensStrip(cur);
  }

  lemma AppendTokens(chunks: seq<string>, cur: string, text: string, sep: char)
    requires IsSpace(sep) && EndsInSpace(cur)
    ensures EndsInSpace(cur + text + [sep])
    ensures FlatMap(chunks, Tokens) + Tokens(cur + text + [sep])
      == FlatMap(chunks, Tokens) + Tokens(cur) + Tokens(text)
  {
    TokensTrailingSpace(text, sep);
    TokensAfterSpace(cur, text + [sep]);
    assert cur + text + [sep] == cur + (text + [sep]);
  }

  /** The accumulator loses no token and adds none: the tokens of the chunks
      and of the accumulated text are those of the units, in order. */
  lemma {:induction false} FoldTokens(us: seq<Unit>, max: int)
    requires SepsAreSpace(us)
    ensures EndsInSpace(Fold(us, max).cur)
    ensures FlatMap(Fold(us, max).chunks, Tokens) + Tokens(Fold(us, max).cur)
      == FlatMap(us, UnitTokens)
    decreases |us|
  {
    if us == [] {
      TokensOfEmpty();
    } else {
      var pre, u := us[..|us| - 1], us[|us| - 1];
      assert us == pre + [u];
      assert forall v :: v in pre ==> v in us;
      assert u in us;
      FoldTokens(pre, max);
      FlatMapSnoc(pre, u, UnitTokens);
      StepTokens(Fold(pre, max), u, max);
    }
  }

  lemma FinishTokens(st: State)
    ensures FlatMap(Finish(st), Tokens) == FlatMap(st.chunks, Tokens) + Tokens(st.cur)
  {
    if HasNonSpace(st.cur) {
      FlatMapSnoc(st.chunks, Strip(st.cur), Tokens);
      TokensStrip(st.cur);
    } else {
      TokensAllSpace(st.cur);
    }
  }

  // ---------------------------------------------------------------------
  // The units carry the tokens of the text and end in whitespace

  lemma SentenceUnitsTokens(s: string, max: int)
    ensures FlatMap(SentenceUnits(s, max), UnitTokens) == Tokens(s)
  {
    if |s| > max {
      var ws := Split(s, {' '});
      forall w | w in ws ensures FlatMap(WordUnit(w), UnitTokens) == Tokens(w) {
        FlatMapSingle(Unit(w, ' '), UnitTokens);
      }
      FlatMapCompose(ws, WordUnit, UnitTokens, Tokens);
      FlatMapTokens(ws);
      TokensOfSplit(s, {' '});
    } else {
      FlatMapSingle(Unit(s, ' '), UnitTokens);
    }
  }

  lemma ParagraphUnitsTokens(p: string, max: int)
    ensures FlatMap(ParagraphUnits(p, max), UnitTokens) == Tokens(p)
  {
    if |p| > max {
      var ss := SentenceSplit(p);
      forall s | s in ss ensures FlatMap(SentenceUnitsOf(max)(s), UnitTokens) == Tokens(s) {
        SentenceUnitsTokens(s, max);
      }
      FlatMapCompose(ss, SentenceUnitsOf(max), UnitTokens, Tokens);
      SentenceSplitTokens(p);
    } else {
      FlatMapSingle(Unit(p, '\n'), UnitTokens);
    }
  }

  lemma UnitsTokens(text: string, max: int)
    ensures FlatMap(Units(text, max), UnitTokens) == Tokens(text)
  {
    var ps := Split(text, {'\n'});
    forall p | p in ps ensures FlatMap(ParagraphUnitsOf(max)(p), UnitTokens) == Tokens(p) {
      ParagraphUnitsTokens(p, max);
    }
    FlatMapCompose(ps, ParagraphUnitsOf(max), UnitTokens, Tokens);
    FlatMapTokens(ps);
    TokensOfSplit(text, {'\n'});
  }

  lemma LineUnitsTokens(text: string)
    ensures FlatMap(LineUnits(text), UnitTokens) == Tokens(text)
  {
    var ps := Split(text, {'\n'});
    forall p | p in ps ensures FlatMap(LineUnit(p), UnitTokens) == Tokens(p) {
      FlatMapSingle(Unit(p, '\n'), UnitTokens);
    }
    FlatMapCompose(ps, LineUnit, UnitTokens, Tokens);
    FlatMapTokens(ps);
    TokensOfSplit(text, {'\n'});
  }

  function SepIsSpace(): Unit -> bool {
    (u: Unit) => IsSpace(u.sep)
  }

  lemma SentenceUnitsSeps(s: string, max: int)
    ensures SepsAreSpace(SentenceUnits(s, max))
  {
    if |s| > max {
      FlatMapAll(Split(s, {' '}), WordUnit, SepIsSpace());
    }
  }

  lemma ParagraphUnitsSeps(p: string, max: int)
    ensures SepsAreSpace(ParagraphUnits(p, max))
  {
    if |p| > max {
      var ss := SentenceSplit(p);
      forall s, u | s in ss && u in SentenceUnitsOf(max)(s) ensures SepIsSpace()(u) {
        SentenceUnitsSeps(s, max);
      }
      FlatMapAll(ss, SentenceUnitsOf(max), SepIsSpace());
    }
  }

  lemma UnitsSeps(text: string, max: int)
    ensures SepsAreSpace(Units(text, max))
  {
    var ps := Split(text, {'\n'});
    forall p, u | p in ps && u in ParagraphUnitsOf(max)(p) ensures SepIsSpace()(u) {
      ParagraphUnitsSeps(p, max);
    }
    FlatMapAll(ps, ParagraphUnitsOf(max), SepIsSpace());
  }

  lemma LineUnitsSeps(text: string)
    ensures SepsAreSpace(LineUnits(text))
  {
    FlatMapAll(Split(text, {'\n'}), LineUnit, SepIsSpace());
  }

  // ---------------------------------------------------------------------
  // What split_text_into_chunks promises

  /** Words are never cut, lost or invented: the whitespace-separated tokens
      of the chunks, in order, are those of the text. */
  lemma ChunksTokens(text: string, max: int)
    ensures FlatMap(Chunks(text, max), Tokens) == Tokens(text)
  {
    var us := Units(text, max);
    UnitsSeps(text, max);
    FoldTokens(us, max);
    FinishTokens(Fold(us, max));
    UnitsTokens(text, max);
  }

  lemma LineChunksTokens(text: string, max: int)
    ensures FlatMap(LineChunks(text, max), Tokens) == Tokens(text)
  {
    var us := LineUnits(text);
    LineUnitsSeps(text);
    FoldTokens(us, max);
    FinishTokens(Fold(us, max));
    LineUnitsTokens(text);
  }

  /** Every chunk equals its own strip(). */
  lemma ChunksStripped(text: string, max: int)
    ensures forall c :: c in Chunks(text, max) ==> Strip(c) == c
  {
    FoldStripped(Units(text, max), max);
    FinishStripped(Fold(Units(text, max), max));
  }

  lemma LineChunksStripped(text: string, max: int)
    ensures forall c :: c in LineChunks(text, max) ==> Strip(c) == c
  {
    FoldStripped(LineUnits(text), max);
    FinishStripped(Fold(LineUnits(text), max));
  }

  // ---------------------------------------------------------------------
  // The length bound

  /** No character of s breaks a word (a space or a line break). */
  predicate InWord(s: string) {
    forall k :: 0 <= k < |s| ==> s[k] != ' ' && s[k] != '\n'
  }

  predicate NoNewline(s: string) {
    forall k :: 0 <= k < |s| ==> s[k] != '\n'
  }

  /** No run of characters without a space or a line break is longer than max. */
  predicate WordsFit(s: string, max: int) {
    forall i, j :: 0 <= i <= j <= |s| && InWord(s[i..j]) ==> j - i <= max
  }

  lemma WordsFitSlice(s: string, a: int, b: int, max: int)
    requires 0 <= a <= b <= |s| && WordsFit(s, max)
    ensures WordsFit(s[a..b], max)
  {
    var t := s[a..b];
    forall i, j | 0 <= i <= j <= |t| && InWord(t[i..j]) ensures j - i <= max {
      assert |t[i..j]| == j - i == |s[a + i..a + j]|;
      assert forall k :: 0 <= k < j - i ==> t[i..j][k] == t[i + k] == s[a + i + k] == s[a + i..a + j][k];
      assert t[i..j] == s[a + i..a + j];
    }
  }

  /** The pieces of a split inherit the bound, and line-freeness. */
  lemma {:induction false} SplitWordsFit(s: string, seps: set<char>, max: int)
    requires WordsFit(s, max)
    ensures forall w :: w in Split(s, seps) ==> WordsFit(w, max)
    decreases |s|
  {
    var k := FirstIn(s, seps);
    SplitAtFirst(s, seps);
    if k < |s| {
      WordsFitSlice(s, 0, k, max);
      WordsFitSlice(s, k + 1, |s|, max);
      assert s[k + 1..|s|] == s[k + 1..];
      SplitWordsFit(s[k + 1..], seps, max);
    }
  }

  lemma {:induction false} SplitNoNewline(s: string, seps: set<char>)
    requires NoNewline(s)
    ensures forall w :: w in Split(s, seps) ==> NoNewline(w)
    decreases |s|
  {
    var k := FirstIn(s, seps);
    SplitAtFirst(s, seps);
    if k < |s| {
      var rest := s[k + 1..];
      NoNewlineSlice(s, 0, k);
      NoNewlineSlice(s, k + 1, |s|);
      assert s[k + 1..|s|] == rest;
      SplitNoNewline(rest, seps);
      assert Split(s, seps) == [s[..k]] + Split(rest, seps);
    }
  }

  lemma NoNewlineSlice(s: string, a: int, b: int)
    requires 0 <= a <= b <= |s| && NoNewline(s)
    ensures NoNewline(s[a..b])
  {
    forall i | 0 <= i < b - a ensures s[a..b][i] != '\n' {
      assert s[a..b][i] == s[a + i];
    }
  }

  /** A word of a line-free sentence fits. */
  lemma WordFits(s: string, w: string, max: int)
    requires WordsFit(s, max) && NoNewline(s) && w in Split(s, {' '})
    ensures |w| <= max
  {
    SplitWordsFit(s, {' '}, max);
    SplitNoNewline(s, {' '});
    SplitPiecesFree(s, {' '});
    assert w[0..|w|] == w;
  }

  lemma {:induction false} SentencesFit(p: string, max: int)
    requires WordsFit(p, max) && NoNewline(p)
    ensures forall s :: s in SentenceSplit(p) ==> WordsFit(s, max) && NoNewline(s)
    decreases |p|
  {
    var k := BreakFrom(p, 1);
    if k < |p| {
      var rest := TrimStart(p[k..]);
      assert rest == p[|p| - |rest|..|p|];
      WordsFitSlice(p, 0, k, max);
      WordsFitSlice(p, |p| - |rest|, |p|, max);
      SentencesFit(rest, max);
    }
  }

  function FitsOf(max: int): Unit -> bool {
    (u: Unit) => |u.text| <= max
  }

  lemma SentenceUnitsFit(s: string, max: int)
    requires WordsFit(s, max) && NoNewline(s)
    ensures forall u :: u in SentenceUnits(s, max) ==> |u.text| <= max
  {
    if |s| > max {
      var ws := Split(s, {' '});
      forall w, u | w in ws && u in WordUnit(w) ensures FitsOf(max)(u) {
        WordFits(s, w, max);
      }
      FlatMapAll(ws, WordUnit, FitsOf(max));
    }
  }

  lemma ParagraphUnitsFit(p: string, max: int)
    requires WordsFit(p, max) && NoNewline(p)
    ensures forall u :: u in ParagraphUnits(p, max) ==> |u.text| <= max
  {
    if |p| > max {
      var ss := SentenceSplit(p);
      SentencesFit(p, max);
      forall s, u | s in ss && u in SentenceUnitsOf(max)(s) ensures FitsOf(max)(u) {
        SentenceUnitsFit(s, max);
      }
      FlatMapAll(ss, SentenceUnitsOf(max), FitsOf(max));
    }
  }

  lemma UnitsFit(text: string, max: int)
    requires WordsFit(text, max)
    ensures forall u :: u in Units(text, max) ==> |u.text| <= max
  {
    var ps := Split(text, {'\n'});
    SplitWordsFit(text, {'\n'}, max);
    SplitPiecesFree(text, {'\n'});
    forall p, u | p in ps && u in ParagraphUnitsOf(max)(p) ensures FitsOf(max)(u) {
      ParagraphUnitsFit(p, max);
    }
    FlatMapAll(ps, ParagraphUnitsOf(max), FitsOf(max));
  }

  /** When no word (a run without a space or a line break) is longer than
      max >= 1, no chunk is longer than max. */
  lemma ChunksBound(text: string, max: int)
    requires max >= 1 && WordsFit(text, max)
    ensures forall c :: c in Chunks(text, max) ==> |c| <= max
  {
    var us := Units(text, max);
    UnitsSeps(text, max);
    UnitsFit(text, max);
    FoldBound(us, max);
    FinishBound(Fold(us, max), max);
  }

  /** The line-only chunker: when every line fits, every chunk fits. */
  lemma LineChunksBound(text: string, max: int)
    requires max >= 1 && forall l :: l in Split(text, {'\n'}) ==> |l| <= max
    ensures forall c :: c in LineChunks(text, max) ==> |c| <= max
  {
    var us := LineUnits(text);
    LineUnitsSeps(text);
    FlatMapAll(Split(text, {'\n'}), LineUnit, FitsOf(max));
    FoldBound(us, max);
    FinishBound(Fold(us, max), max);
  }

  /** Empty input gives no chunk (for a limit of at least 1). */
  lemma ChunksEmpty(max: int)
    requires max >= 1
    ensures Chunks("", max) == [] && LineChunks("", max) == []
  {
    assert Split("", {'\n'}) == [""];
    FlatMapSingle("", ParagraphUnitsOf(max));
    FlatMapSingle("", LineUnit);
    assert Units("", max) == [Unit("", '\n')];
    FoldSnoc([], Unit("", '\n'), max);
    assert Fold([Unit("", '\n')], max) == State([], "\n");
    assert !HasNonSpace("\n");
  }

  // ---------------------------------------------------------------------
  // Chunks are runs of consecutive units

  /** The text the accumulator holds after appending us: each unit followed
      by its separator. */
  function Render(us: seq<Unit>): string {
    if us == [] then [] else Render(us[..|us| - 1]) + us[|us| - 1].text + [us[|us| - 1].sep]
  }

  /** The runs of units already flushed, and the run still accumulating. */
  datatype Runs = Runs(done: seq<seq<Unit>>, open: seq<Unit>)

  /** The same greedy decisions as Fold, made on runs of units instead of text. */
  function Group(us: seq<Unit>, max: int): Runs {
    if us == [] then Runs([], []) else GroupStep(Group(us[..|us| - 1], max), us[|us| - 1], max)
  }

  function GroupStep(g: Runs, u: Unit, max: int): Runs {
    if |Render(g.open)| + |u.text| + 1 > max then Runs(g.done + [g.open], [u])
    else Runs(g.done, g.open + [u])
  }

  function StripRenders(rs: seq<seq<Unit>>): seq<string> {
    if rs == [] then [] else StripRenders(rs[..|rs| - 1]) + [Strip(Render(rs[|rs| - 1]))]
  }

  lemma RenderSnoc(us: seq<Unit>, u: Unit)
    ensures Render(us + [u]) == Render(us) + u.text + [u.sep]
  {
    assert (us + [u])[..|us|] == us;
  }

  lemma StripRendersSnoc(rs: seq<seq<Unit>>, r: seq<Unit>)
    ensures StripRenders(rs + [r]) == StripRenders(rs) + [Strip(Render(r))]
  {
    var xs := rs + [r];
    assert xs[..|xs| - 1] == rs;
    assert xs[|xs| - 1] == r;
  }

  lemma FlattenSnoc<T>(xss: seq<seq<T>>, x: seq<T>)
    ensures Flatten(xss + [x]) == Flatten(xss) + x
  {
    assert (xss + [x])[..|xss|] == xss;
  }

  lemma RenderSingle(u: Unit)
    ensures Render([u]) == u.text + [u.sep]
  {
    assert [u][..0] == [];
  }

  lemma StepGroup(g: Runs, u: Unit, max: int)
    ensures var g' := GroupStep(g, u, max);
      Step(State(StripRenders(g.done), Render(g.open)), u, max)
        == State(StripRenders(g'.done), Render(g'.open))
  {
    var st := State(StripRenders(g.done), Render(g.open));
    if |Render(g.open)| + |u.text| + 1 > max {
      assert Step(st, u, max) == State(st.chunks + [Strip(st.cur)], u.text + [u.sep]);
      assert GroupStep(g, u, max) == Runs(g.done + [g.open], [u]);
      StripRendersSnoc(g.done, g.open);
      RenderSingle(u);
    } else {
      assert Step(st, u, max) == State(st.chunks, st.cur + u.text + [u.sep]);
      assert GroupStep(g, u, max) == Runs(g.done, g.open + [u]);
      RenderSnoc(g.open, u);
    }
  }

  /** Chunk j is the stripped text of run j, and the accumulator holds the
      text of the open run. */
  lemma {:induction false} GroupFold(us: seq<Unit>, max: int)
    ensures Fold(us, max) == State(StripRenders(Group(us, max).done), Render(Group(us, max).open))
    decreases |us|
  {
    if us != [] {
      var pre := us[..|us| - 1];
      GroupFold(pre, max);
      StepGroup(Group(pre, max), us[|us| - 1], max);
    }
  }

  lemma GroupStepFlatten(g: Runs, u: Unit, max: int)
    ensures var g' := GroupStep(g, u, max);
      Flatten(g'.done) + g'.open == Flatten(g.done) + g.open + [u]
  {
    if |Render(g.open)| + |u.text| + 1 > max {
      FlattenSnoc(g.done, g.open);
    }
  }

  /** The runs, read in order, are the units: consecutive and covering. */
  lemma {:induction false} GroupFlatten(us: seq<Unit>, max: int)
    ensures Flatten(Group(us, max).done) + Group(us, max).open == us
    decreases |us|
  {
    if us != [] {
      var pre := us[..|us| - 1];
      GroupFlatten(pre, max);
      GroupStepFlatten(Group(pre, max), us[|us| - 1], max);
      assert us == pre + [us[|us| - 1]];
    }
  }

  /** A run is made only of units shorter than max, or is a single unit. */
  predicate Alone(r: seq<Unit>, max: int) {
    |r| == 1 || forall k :: 0 <= k < |r| ==> |r[k].text| < max
  }

  predicate AllAlone(g: Runs, max: int) {
    (forall r :: r in g.done ==> Alone(r, max)) && Alone(g.open, max)
  }

  lemma {:induction false} RenderLength(r: seq<Unit>, k: int)
    requires 0 <= k < |r|
    ensures |Render(r)| >= |r[k].text| + 1
    decreases |r|
  {
    if k < |r| - 1 {
      RenderLength(r[..|r| - 1], k);
    }
  }

  lemma GroupStepAlone(g: Runs, u: Unit, max: int)
    requires AllAlone(g, max)
    ensures AllAlone(GroupStep(g, u, max), max)
  {
    if |Render(g.open)| + |u.text| + 1 <= max {
      if |g.open| == 1 {
        RenderLength(g.open, 0);
      }
      var r := g.open + [u];
      forall k | 0 <= k < |r| ensures |r[k].text| < max {
        if k < |g.open| {
          RenderLength(g.open, k);
        }
      }
    }
  }

  /** A unit at least max long ends up alone in its chunk. */
  lemma {:induction false} GroupAlone(us: seq<Unit>, max: int)
    ensures AllAlone(Group(us, max), max)
    decreases |us|
  {
    if us != [] {
      GroupAlone(us[..|us| - 1], max);
      GroupStepAlone(Group(us[..|us| - 1], max), us[|us| - 1], max);
    }
  }

  /** The chunks are the stripped texts of consecutive runs of units, the
      last run only when it holds a non-blank character; the runs read in
      order are the units, and a unit at least max long is a run of its own. */
  lemma ChunksRuns(text: string, max: int)
    ensures var us := Units(text, max);
      var g := Group(us, max);
      && Chunks(text, max)
         == StripRenders(g.done) + (if HasNonSpace(Render(g.open)) then [Strip(Render(g.open))] else [])
      && Flatten(g.done) + g.open == us
      && AllAlone(g, max)
  {
    var us := Units(text, max);
    GroupFold(us, max);
    GroupFlatten(us, max);
    GroupAlone(us, max);
  }

  lemma {:induction false} LineUnitsAt(ls: seq<string>)
    ensures |FlatMap(ls, LineUnit)| == |ls|
    ensures forall i :: 0 <= i < |ls| ==> FlatMap(ls, LineUnit)[i] == Unit(ls[i], '\n')
    decreases |ls|
  {
    if ls != [] {
      LineUnitsAt(ls[..|ls| - 1]);
    }
  }

  /** The line-only chunker: chunk j is the strip of a run of consecutive
      lines (LineUnitsAt: one unit per line), each followed by a line break;
      an over-long line is alone. */
  lemma LineChunksRuns(text: string, max: int)
    ensures var us := LineUnits(text);
      var g := Group(us, max);
      && LineChunks(text, max)
         == StripRenders(g.done) + (if HasNonSpace(Render(g.open)) then [Strip(Render(g.open))] else [])
      && Flatten(g.done) + g.open == us
      && AllAlone(g, max)
  {
    var us := LineUnits(text);
    GroupFold(us, max);
    GroupFlatten(us, max);
    GroupAlone(us, max);
  }

  // ---------------------------------------------------------------------
  // The quirks

  /** Steps only append chunks. */
  lemma {:induction false} FoldChunksPrefix(us: seq<Unit>, n: int, max: int)
    requires 0 <= n <= |us|
    ensures Fold(us[..n], max).chunks <= Fold(us, max).chunks
    decreases |us| - n
  {
    if n < |us| {
      FoldChunksPrefix(us, n + 1, max);
      assert us[..n + 1][..n] == us[..n];
    } else {
      assert us[..n] == us;
    }
  }

  /** When the first unit alone does not fit, the empty buffer is flushed
      first: the first chunk is "". */
  lemma FirstChunkEmpty(us: seq<Unit>, max: int)
    requires |us| >= 1 && |us[0].text| + 1 > max
    ensures |Fold(us, max).chunks| >= 1 && Fold(us, max).chunks[0] == ""
  {
    FoldChunksPrefix(us, 1, max);
    FoldSnoc([], us[0], max);
    assert us[..1] == [] + [us[0]];
  }

  /** split_text_into_chunks returns "" first when the first line is exactly
      max long. */
  lemma ChunksStartEmpty(text: string, max: int)
    requires |Split(text, {'\n'})[0]| == max
    ensures |Chunks(text, max)| >= 1 && Chunks(text, max)[0] == ""
  {
    var ps := Split(text, {'\n'});
    assert ps == [ps[0]] + ps[1..];
    FlatMapAppend([ps[0]], ps[1..], ParagraphUnitsOf(max));
    FlatMapSingle(ps[0], ParagraphUnitsOf(max));
    assert ParagraphUnits(ps[0], max) == [Unit(ps[0], '\n')];
    var us := Units(text, max);
    assert us[0] == Unit(ps[0], '\n');
    FirstChunkEmpty(us, max);
    var st := Fold(us, max);
    assert Chunks(text, max) == Finish(st);
    assert Finish(st)[..|st.chunks|] == st.chunks;
  }

  /** The line break after an over-long line is lost: all its units are
      followed by a space. */
  lemma LongParagraphSpaces(p: string, max: int)
    requires |p| > max
    ensures forall u :: u in ParagraphUnits(p, max) ==> u.sep == ' '
  {
    var ss := SentenceSplit(p);
    forall s, u | s in ss && u in SentenceUnitsOf(max)(s) ensures SpaceSep()(u) {
      if |s| > max {
        FlatMapAll(Split(s, {' '}), WordUnit, SpaceSep());
      }
    }
    FlatMapAll(ss, SentenceUnitsOf(max), SpaceSep());
  }

  function SpaceSep(): Unit -> bool {
    (u: Unit) => u.sep == ' '
  }
}
