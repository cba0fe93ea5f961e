/** String helpers with Python's own semantics: str.isspace, str.strip,
    str.split(sep), str.split() (tokens), str.replace, str.lower (partial),
    str(n) for integers and the code-point order used by sorted(). */
module Text {

  /** A value that may be absent (Python's None). */
  datatype Option<T> = None | Some(value: T)

  /** The code points for which Python's str.isspace() is true. */
  const Whitespace: set<char> :=
    {'\U{9}', '\U{A}', '\U{B}', '\U{C}', '\U{D}', '\U{1C}', '\U{1D}', '\U{1E}',
     '\U{1F}', '\U{20}', '\U{85}', '\U{A0}', '\U{1680}', '\U{2000}', '\U{2001}', '\U{2002}',
     '\U{2003}', '\U{2004}', '\U{2005}', '\U{2006}', '\U{2007}', '\U{2008}', '\U{2009}', '\U{200A}',
     '\U{2028}', '\U{2029}', '\U{202F}', '\U{205F}', '\U{3000}'}

  /** The same 29 code points as ranges, which the verifier handles more
      cheaply than membership in the set display. */
  predicate IsSpace(c: char) {
    ('\U{9}' <= c <= '\U{D}') || ('\U{1C}' <= c <= '\U{20}') || c == '\U{85}' || c == '\U{A0}'
    || c == '\U{1680}' || ('\U{2000}' <= c <= '\U{200A}') || c == '\U{2028}' || c == '\U{2029}'
    || c == '\U{202F}' || c == '\U{205F}' || c == '\U{3000}'
  }

  lemma WhitespaceIsSpace(c: char)
    ensures c in Whitespace <==> IsSpace(c)
  {
  }

  predicate AllSpace(s: string) {
    forall i :: 0 <= i < |s| ==> IsSpace(s[i])
  }

  predicate EndsInSpace(s: string) {
    s == [] || IsSpace(s[|s| - 1])
  }

  /** True when some character of s is not whitespace (Python: bool(s.strip())). */
  predicate HasNonSpace(s: string) {
    exists i :: 0 <= i < |s| && !IsSpace(s[i])
  }

  function TrimStart(s: string): (r: string)
    ensures |r| <= |s| && r == s[|s| - |r|..]
    ensures r == [] || !IsSpace(r[0])
    ensures AllSpace(s[..|s| - |r|])
  {
    if s != [] && IsSpace(s[0]) then
      var r := TrimStart(s[1..]);
      assert s[..|s| - |r|] == [s[0]] + s[1..][..|s| - 1 - |r|];
      r
    else s
  }

  function TrimEnd(s: string): (r: string)
    ensures |r| <= |s| && r == s[..|r|]
    ensures r == [] || !IsSpace(r[|r| - 1])
    ensures AllSpace(s[|r|..])
  {
    if s != [] && IsSpace(s[|s| - 1]) then
      var t := s[..|s| - 1];
      var r := TrimEnd(t);
      assert s[|r|..] == t[|r|..] + [s[|s| - 1]];
      r
    else s
  }

  /** Python's str.strip() with no argument. */
  function Strip(s: string): string {
    TrimEnd(TrimStart(s))
  }

  /** strip() never lengthens, leaves no whitespace at either end, and removes
      a trailing whitespace character. */
  lemma StripShape(s: string)
    ensures |Strip(s)| <= |s|
    ensures Strip(s) == [] || (!IsSpace(Strip(s)[0]) && !IsSpace(Strip(s)[|Strip(s)| - 1]))
    ensures s != [] && IsSpace(s[|s| - 1]) ==> |Strip(s)| < |s|
  {
    var t := TrimStart(s);
    var r := TrimEnd(t);
    if r != [] {
      assert r[0] == t[0];
    } else {
      assert t[|r|..] == t;
    }
  }

  /** strip() removes a trailing whitespace character. */
  lemma StripLength(s: string)
    ensures EndsInSpace(s) ==> |Strip(s)| <= |s| - 1 || s == []
    ensures |Strip(s)| <= |s|
  {
    StripShape(s);
  }

  /** strip() is empty exactly for blank text. */
  lemma StripEmpty(s: string)
    ensures Strip(s) == [] <==> !HasNonSpace(s)
  {
    var t := TrimStart(s);
    var r := TrimEnd(t);
    if r != [] {
      assert r[0] == t[0];
      assert s[|s| - |t|] == t[0];
    } else {
      assert t[|r|..] == t;
      assert t == [];
      assert s[..|s| - |t|] == s;
    }
  }

  lemma TrimStartFixed(r: string)
    requires r == [] || !IsSpace(r[0])
    ensures TrimStart(r) == r
  {
  }

  lemma TrimEndFixed(r: string)
    requires r == [] || !IsSpace(r[|r| - 1])
    ensures TrimEnd(r) == r
  {
  }

  lemma StripIdempotent(s: string)
    ensures Strip(Strip(s)) == Strip(s)
  {
    StripShape(s);
    TrimStartFixed(Strip(s));
    TrimEndFixed(Strip(s));
  }

  /** Python's str.split(sep) generalised to a set of single-character
      separators. The result always has at least one element. */
  function Split(s: string, seps: set<char>): (r: seq<string>)
    ensures |r| >= 1
  {
    if s == [] then [[]]
    else SplitStep(Split(s[..|s| - 1], seps), s[|s| - 1], seps)
  }

  /** One more character: a separator opens a new piece, any other character
      extends the last piece. */
  function SplitStep(pieces: seq<string>, c: char, seps: set<char>): (r: seq<string>)
    requires |pieces| >= 1
    ensures |r| >= 1
  {
    if c in seps then pieces + [[]]
    else pieces[..|pieces| - 1] + [pieces[|pieces| - 1] + [c]]
  }

  lemma SplitSnoc(s: string, c: char, seps: set<char>)
    ensures Split(s + [c], seps) == SplitStep(Split(s, seps), c, seps)
  {
    assert (s + [c])[..|s|] == s;
  }

  lemma SplitStepAppend(xs: seq<string>, ys: seq<string>, c: char, seps: set<char>)
    requires |ys| >= 1
    ensures SplitStep(xs + ys, c, seps) == xs + SplitStep(ys, c, seps)
  {
    if c !in seps {
      assert (xs + ys)[..|xs + ys| - 1] == xs + ys[..|ys| - 1];
    }
  }

  /** The index of the first character of s that is in seps, or |s|. */
  function FirstIn(s: string, seps: set<char>): (r: nat)
    ensures r <= |s|
    ensures forall i :: 0 <= i < r ==> s[i] !in seps
    ensures r < |s| ==> s[r] in seps
  {
    if s == [] then 0 else if s[0] in seps then 0 else 1 + FirstIn(s[1..], seps)
  }

  /** Python's sep.join(parts). */
  function Join(parts: seq<string>, sep: string): string {
    if parts == [] then []
    else if |parts| == 1 then parts[0]
    else Join(parts[..|parts| - 1], sep) + sep + parts[|parts| - 1]
  }

  /** The joined string starts with the first part. */
  lemma {:induction false} JoinHead(parts: seq<string>, sep: string)
    requires |parts| >= 1
    ensures parts[0] <= Join(parts, sep)
    decreases |parts|
  {
    if |parts| > 1 {
      var init := parts[..|parts| - 1];
      JoinHead(init, sep);
      assert init[0] == parts[0];
      var j := Join(init, sep);
      assert Join(parts, sep) == j + (sep + parts[|parts| - 1]);
      assert Join(parts, sep)[..|j|] == j;
    }
  }

  function Flatten<T>(xss: seq<seq<T>>): seq<T> {
    if xss == [] then [] else Flatten(xss[..|xss| - 1]) + xss[|xss| - 1]
  }

  lemma {:induction false} FlattenAppend<T>(xs: seq<seq<T>>, ys: seq<seq<T>>)
    ensures Flatten(xs + ys) == Flatten(xs) + Flatten(ys)
    decreases |ys|
  {
    if ys == [] {
      assert xs + ys == xs;
    } else {
      var init, last := ys[..|ys| - 1], ys[|ys| - 1];
      assert (xs + ys)[..|xs + ys| - 1] == xs + init;
      assert (xs + ys)[|xs + ys| - 1] == last;
      assert Flatten(xs + ys) == Flatten(xs + init) + last;
      assert Flatten(ys) == Flatten(init) + last;
      FlattenAppend(xs, init);
    }
  }

  lemma FlattenSingle<T>(x: seq<T>)
    ensures Flatten([x]) == x
  {
    assert [x][..0] == [];
  }

  lemma {:induction false} SplitAppendSep(a: string, c: char, b: string, seps: set<char>)
    requires c in seps
    ensures Split(a + [c] + b, seps) == Split(a, seps) + Split(b, seps)
    decreases |b|
  {
    if b == [] {
      assert a + [c] + b == a + [c];
      SplitSnoc(a, c, seps);
    } else {
      var b' := b[..|b| - 1];
      var d := b[|b| - 1];
      assert a + [c] + b == (a + [c] + b') + [d];
      assert b == b' + [d];
      SplitAppendSep(a, c, b', seps);
      SplitSnoc(a + [c] + b', d, seps);
      SplitSnoc(b', d, seps);
      SplitStepAppend(Split(a, seps), Split(b', seps), d, seps);
    }
  }

  lemma {:induction false} SplitNoSep(s: string, seps: set<char>)
    requires forall i :: 0 <= i < |s| ==> s[i] !in seps
    ensures Split(s, seps) == [s]
    decreases |s|
  {
    if s != [] {
      var a := s[..|s| - 1];
      SplitNoSep(a, seps);
      assert s == a + [s[|s| - 1]];
      SplitSnoc(a, s[|s| - 1], seps);
    }
  }

  /** Splitting at the first separator: the first piece, then the pieces of the rest. */
  lemma SplitAtFirst(s: string, seps: set<char>)
    ensures var k := FirstIn(s, seps);
      Split(s, seps) == if k == |s| then [s] else [s[..k]] + Split(s[k + 1..], seps)
  {
    var k := FirstIn(s, seps);
    if k == |s| {
      SplitNoSep(s, seps);
    } else {
      assert s == s[..k] + [s[k]] + s[k + 1..];
      SplitAppendSep(s[..k], s[k], s[k + 1..], seps);
      SplitNoSep(s[..k], seps);
    }
  }

  /** Splitting then joining with the same single separator gives back the text. */
  lemma {:induction false} JoinSplit(s: string, c: char)
    ensures Join(Split(s, {c}), [c]) == s
    decreases |s|
  {
    if s != [] {
      var a := s[..|s| - 1];
      var d := s[|s| - 1];
      var p := Split(a, {c});
      assert s == a + [d];
      SplitSnoc(a, d, {c});
      JoinSplit(a, c);
      var k := |p| - 1;
      if d == c {
        assert (p + [[]])[..|p + [[]]| - 1] == p;
      } else {
        var q := p[..k] + [p[k] + [d]];
        if k == 0 {
          assert q == [p[0] + [d]];
        } else {
          assert q[..|q| - 1] == p[..k];
          assert p[..k] == p[..|p| - 1];
        }
      }
    }
  }

  /** Splitting never produces a piece containing a separator. */
  lemma {:induction false} SplitPiecesFree(s: string, seps: set<char>)
    ensures forall p, i :: p in Split(s, seps) && 0 <= i < |p| ==> p[i] !in seps
    decreases |s|
  {
    if s != [] {
      SplitPiecesFree(s[..|s| - 1], seps);
    }
  }

  function NonEmpty(xs: seq<string>): (r: seq<string>)
    ensures forall t :: t in r ==> t != [] && t in xs
  {
    if xs == [] then []
    else NonEmpty(xs[..|xs| - 1]) + (if xs[|xs| - 1] == [] then [] else [xs[|xs| - 1]])
  }

  lemma {:induction false} NonEmptyAppend(xs: seq<string>, ys: seq<string>)
    ensures NonEmpty(xs + ys) == NonEmpty(xs) + NonEmpty(ys)
    decreases |ys|
  {
    if ys != [] {
      assert (xs + ys)[..|xs + ys| - 1] == xs + ys[..|ys| - 1];
      NonEmptyAppend(xs, ys[..|ys| - 1]);
    } else {
      assert xs + ys == xs;
    }
  }

  lemma NonEmptySingle(x: string)
    ensures NonEmpty([x]) == if x == [] then [] else [x]
  {
    assert [x][..0] == [];
  }

  /** Python's str.split() with no argument: the maximal runs of
      non-whitespace characters, in order. */
  function Tokens(s: string): seq<string> {
    NonEmpty(Split(s, Whitespace))
  }

  /** The tokens of each piece, piece by piece. */
  function MapTokens(xs: seq<string>): (r: seq<seq<string>>)
    ensures |r| == |xs|
    ensures forall i :: 0 <= i < |xs| ==> r[i] == Tokens(xs[i])
  {
    if xs == [] then [] else MapTokens(xs[..|xs| - 1]) + [Tokens(xs[|xs| - 1])]
  }

  lemma MapTokensAppend(xs: seq<string>, ys: seq<string>)
    ensures MapTokens(xs + ys) == MapTokens(xs) + MapTokens(ys)
  {
  }

  lemma TokensOfEmpty()
    ensures Tokens([]) == []
  {
    NonEmptySingle([]);
  }

  lemma TokensAppendSpace(a: string, c: char, b: string)
    requires IsSpace(c)
    ensures Tokens(a + [c] + b) == Tokens(a) + Tokens(b)
  {
    SplitAppendSep(a, c, b, Whitespace);
    NonEmptyAppend(Split(a, Whitespace), Split(b, Whitespace));
  }

  lemma {:induction false} TokensLeadingSpaces(w: string, b: string)
    requires AllSpace(w)
    ensures Tokens(w + b) == Tokens(b)
    decreases |w|
  {
    if w != [] {
      TokensAppendSpace([], w[0], w[1..] + b);
      assert [] + [w[0]] + (w[1..] + b) == w + b;
      TokensOfEmpty();
      TokensLeadingSpaces(w[1..], b);
    } else {
      assert w + b == b;
    }
  }

  /** Adding whitespace between two texts never changes the tokens. */
  lemma TokensAppendSpaces(a: string, w: string, b: string)
    requires w != [] && AllSpace(w)
    ensures Tokens(a + w + b) == Tokens(a) + Tokens(b)
  {
    var t := w[1..] + b;
    assert w + b == [w[0]] + t;
    assert a + w + b == a + [w[0]] + t;
    TokensAppendSpace(a, w[0], t);
    TokensLeadingSpaces(w[1..], b);
  }

  lemma TokensTrailingSpace(a: string, c: char)
    requires IsSpace(c)
    ensures Tokens(a + [c]) == Tokens(a)
  {
    TokensAppendSpace(a, c, []);
    TokensOfEmpty();
    assert a + [c] + [] == a + [c];
  }

  lemma {:induction false} TokensTrimStart(s: string)
    ensures Tokens(TrimStart(s)) == Tokens(s)
    decreases |s|
  {
    if s != [] && IsSpace(s[0]) {
      TokensTrimStart(s[1..]);
      TokensLeadingSpaces([s[0]], s[1..]);
      assert [s[0]] + s[1..] == s;
    }
  }

  lemma {:induction false} TokensTrimEnd(s: string)
    ensures Tokens(TrimEnd(s)) == Tokens(s)
    decreases |s|
  {
    if s != [] && IsSpace(s[|s| - 1]) {
      TokensTrimEnd(s[..|s| - 1]);
      TokensTrailingSpace(s[..|s| - 1], s[|s| - 1]);
      assert s[..|s| - 1] + [s[|s| - 1]] == s;
    }
  }

  /** Stripping keeps every token. */
  lemma TokensStrip(s: string)
    ensures Tokens(Strip(s)) == Tokens(s)
  {
    TokensTrimStart(s);
    TokensTrimEnd(TrimStart(s));
  }

  /** A text made of whitespace has no tokens. */
  lemma TokensAllSpace(s: string)
    requires AllSpace(s)
    ensures Tokens(s) == []
  {
    TokensLeadingSpaces(s, []);
    TokensOfEmpty();
    assert s + [] == s;
  }

  /** Splitting at whitespace separators keeps the tokens, piece by piece. */
  lemma {:induction false} TokensOfSplit(s: string, seps: set<char>)
    requires seps <= Whitespace
    ensures Tokens(s) == Flatten(MapTokens(Split(s, seps)))
    decreases |s|
  {
    var k := FirstIn(s, seps);
    SplitAtFirst(s, seps);
    if k == |s| {
      assert Split(s, seps) == [s];
      assert MapTokens([s]) == [Tokens(s)];
      FlattenSingle(Tokens(s));
    } else {
      var rest := s[k + 1..];
      var pre := s[..k];
      var ps := Split(rest, seps);
      assert Split(s, seps) == [pre] + ps;
      TokensOfSplit(rest, seps);
      SliceAround(s, k);
      assert s[k] in Whitespace;
      WhitespaceIsSpace(s[k]);
      TokensAppendSpace(pre, s[k], rest);
      MapTokensAppend([pre], ps);
      assert MapTokens([pre]) == [Tokens(pre)];
      FlattenAppend([Tokens(pre)], MapTokens(ps));
      FlattenSingle(Tokens(pre));
    }
  }

  lemma SliceAround<T>(s: seq<T>, k: int)
    requires 0 <= k < |s|
    ensures s == s[..k] + [s[k]] + s[k + 1..]
  {
  }

  /** Python's s.replace(c, r) for a single-character pattern. */
  function ReplaceChar(s: string, c: char, r: string): (out: string)
    ensures c !in r ==> c !in out
  {
    if s == [] then []
    else (if s[0] == c then r else [s[0]]) + ReplaceChar(s[1..], c, r)
  }

  lemma ReplaceCharAppend(a: string, b: string, c: char, r: string)
    ensures ReplaceChar(a + b, c, r) == ReplaceChar(a, c, r) + ReplaceChar(b, c, r)
  {
    if a != [] {
      assert (a + b)[1..] == a[1..] + b;
      ReplaceCharAppend(a[1..], b, c, r);
    } else {
      assert a + b == b;
    }
  }

  lemma ReplaceCharSingle(x: char, c: char, r: string)
    ensures ReplaceChar([x], c, r) == if x == c then r else [x]
  {
    assert [x][1..] == [];
  }

  lemma {:induction false} ReplaceCharAbsent(s: string, c: char, r: string)
    requires c !in s
    ensures ReplaceChar(s, c, r) == s
    decreases |s|
  {
    if s != [] {
      assert s[1..] == s[1..] && c !in s[1..];
      ReplaceCharAbsent(s[1..], c, r);
    }
  }

  /** Python's str(n) for an integer. */
  function NatToString(n: nat): (r: string)
    ensures |r| >= 1
    ensures forall i :: 0 <= i < |r| ==> '0' <= r[i] <= '9'
  {
    if n < 10 then [Digit(n)] else NatToString(n / 10) + [Digit(n % 10)]
  }

  function Digit(d: nat): (c: char)
    requires d < 10
    ensures '0' <= c <= '9'
  {
    ['0', '1', '2', '3', '4', '5', '6', '7', '8', '9'][d]
  }

  function IntToString(i: int): (r: string)
    ensures |r| >= 1
  {
    if i < 0 then "-" + NatToString(-i) else NatToString(i)
  }

  /** Python's str.lower() on Latin (ASCII and Latin-1) and Cyrillic letters;
      every other character is left unchanged. */
  function LowerChar(c: char): (d: char)
    ensures 'A' <= c <= 'Z' ==> 'a' <= d <= 'z'
  {
    if 'A' <= c <= 'Z' then (c as int + 32) as char
    else if 'À' <= c <= 'Þ' && c != '×' then (c as int + 32) as char
    else if 'А' <= c <= 'Я' then (c as int + 32) as char
    else if 'Ѐ' <= c <= 'Џ' then (c as int + 80) as char
    else c
  }

  function Lower(s: string): (r: string)
    ensures |r| == |s|
    ensures forall i :: 0 <= i < |s| ==> r[i] == LowerChar(s[i])
  {
    if s == [] then [] else [LowerChar(s[0])] + Lower(s[1..])
  }

  /** Python's a < b on strings: lexicographic by code point. */
  predicate StrLt(a: string, b: string) {
    if a == [] then b != []
    else if b == [] then false
    else if a[0] != b[0] then a[0] < b[0]
    else StrLt(a[1..], b[1..])
  }

  lemma StrLtIrreflexive(a: string)
    ensures !StrLt(a, a)
  {
  }

  lemma StrLtTransitive(a: string, b: string, c: string)
    requires StrLt(a, b) && StrLt(b, c)
    ensures StrLt(a, c)
  {
    if a != [] && b != [] && c != [] && a[0] == b[0] && b[0] == c[0] {
      StrLtTransitive(a[1..], b[1..], c[1..]);
    }
  }

  lemma StrLtTotal(a: string, b: string)
    ensures a == b || StrLt(a, b) || StrLt(b, a)
  {
    if a != [] && b != [] && a[0] == b[0] {
      StrLtTotal(a[1..], b[1..]);
      if a[1..] == b[1..] {
        assert a == [a[0]] + a[1..] && b == [b[0]] + b[1..];
      }
    }
  }

  lemma StrLtAsymmetric(a: string, b: string)
    requires StrLt(a, b)
    ensures !StrLt(b, a)
  {
    if StrLt(b, a) {
      StrLtTransitive(a, b, a);
      StrLtIrreflexive(a);
    }
  }

  predicate StrictlyAscending(s: seq<string>) {
    forall i, j :: 0 <= i < j < |s| ==> StrLt(s[i], s[j])
  }

  /** The elements of a sequence, as a set. */
  function Elems(s: seq<string>): set<string> {
    set y | y in s
  }

  lemma ElemsCons(h: string, t: seq<string>)
    ensures Elems([h] + t) == {h} + Elems(t)
  {
    assert forall y :: y in [h] + t <==> y == h || y in t;
  }

  lemma ElemsSnoc(t: seq<string>, h: string)
    ensures Elems(t + [h]) == Elems(t) + {h}
  {
    assert forall y :: y in t + [h] <==> y in t || y == h;
  }

  lemma ConsAscending(h: string, t: seq<string>)
    requires StrictlyAscending(t)
    requires forall y :: y in t ==> StrLt(h, y)
    ensures StrictlyAscending([h] + t)
  {
    var r := [h] + t;
    forall i, j | 0 <= i < j < |r| ensures StrLt(r[i], r[j]) {
      assert r[j] == t[j - 1];
      if i > 0 { assert r[i] == t[i - 1]; } else { assert t[j - 1] in t; }
    }
  }

  function InsertUnique(x: string, s: seq<string>): (r: seq<string>)
    requires StrictlyAscending(s)
    ensures StrictlyAscending(r)
    ensures Elems(r) == Elems(s) + {x}
  {
    if s == [] then [x]
    else
      assert s == [s[0]] + s[1..];
      ElemsCons(s[0], s[1..]);
      if x == s[0] then s
      else if StrLt(x, s[0]) then
        assert forall y :: y in s ==> StrLt(x, y) by {
          forall y | y in s ensures StrLt(x, y) {
            if y != s[0] {
              var j :| 0 <= j < |s| && s[j] == y;
              StrLtTransitive(x, s[0], s[j]);
            }
          }
        }
        ConsAscending(x, s);
        ElemsCons(x, s);
        [x] + s
      else
        StrLtTotal(x, s[0]);
        var t := InsertUnique(x, s[1..]);
        assert forall y :: y in t ==> StrLt(s[0], y) by {
          forall y | y in t ensures StrLt(s[0], y) {
            assert y in Elems(t);
            if y != x {
              assert y in Elems(s[1..]);
              var j :| 0 <= j < |s[1..]| && s[1..][j] == y;
              assert s[j + 1] == y;
            }
          }
        }
        ConsAscending(s[0], t);
        ElemsCons(s[0], t);
        [s[0]] + t
  }

  /** sorted(set(xs)): the distinct elements of xs in ascending order. */
  function SortUnique(xs: seq<string>): (r: seq<string>)
    ensures StrictlyAscending(r)
    ensures Elems(r) == Elems(xs)
  {
    if xs == [] then []
    else
      var r := InsertUnique(xs[|xs| - 1], SortUnique(xs[..|xs| - 1]));
      assert xs == xs[..|xs| - 1] + [xs[|xs| - 1]];
      ElemsSnoc(xs[..|xs| - 1], xs[|xs| - 1]);
      r
  }

  lemma AscendingDistinct(s: seq<string>, i: int, j: int)
    requires StrictlyAscending(s) && 0 <= i < |s| && 0 <= j < |s| && i != j
    ensures s[i] != s[j]
  {
    if i < j { StrLtIrreflexive(s[i]); } else { StrLtIrreflexive(s[j]); }
  }
}

/** Sequence helpers: maps, filters, a stable insertion sort by a key and
    the top-k selection that pandas' sort_values(...).head(k) performs. */
module Seq {
  import opened Text

  lemma AppendAssoc<T>(a: seq<T>, b: seq<T>, c: seq<T>)
    ensures (a + b) + c == a + (b + c)
  {
  }

  lemma SplitAt<T>(xs: seq<T>, n: nat)
    requires n <= |xs|
    ensures xs[..n] + xs[n..] == xs
  {
  }

  /** A slice of the middle part of a + e + z. */
  lemma InnerSlice<T>(a: seq<T>, e: seq<T>, z: seq<T>, i: nat, j: nat)
    requires i <= j <= |e|
    ensures (a + e + z)[|a| + i..|a| + j] == e[i..j]
  {
    var b := a + e + z;
    assert forall k :: 0 <= k < j - i ==> b[|a| + i..|a| + j][k] == b[|a| + i + k] == e[i + k] == e[i..j][k];
  }

  /** Element i of a prefix of u + s, by which part it falls in. */
  lemma TakeConcatIndex<T>(u: seq<T>, s: seq<T>, n: nat, i: nat)
    requires i < |Take(u + s, n)|
    ensures Take(u + s, n)[i] == if i < |u| then u[i] else s[i - |u|]
  {
  }

  /** Of a sorted sequence of two or more, the last element sorts no earlier
      than the one before it, which sorts no earlier than all the others. */
  lemma LastTwo<T>(h: seq<T>, key: T -> Key)
    requires |h| >= 2 && SortedBy(h, key)
    ensures multiset{h[|h| - 1], h[|h| - 2]} <= multiset(h)
    ensures KeyLe(key(h[|h| - 2]), key(h[|h| - 1]))
    ensures forall x :: x in multiset(h) - multiset{h[|h| - 1], h[|h| - 2]} ==> KeyLe(key(x), key(h[|h| - 2]))
  {
    var n := |h|;
    var low := h[..n - 2];
    assert h == low + [h[n - 2], h[n - 1]];
    assert multiset(h) == multiset(low) + multiset{h[n - 1], h[n - 2]};
    forall x | x in multiset(h) - multiset{h[n - 1], h[n - 2]} ensures KeyLe(key(x), key(h[n - 2])) {
      assert x in multiset(low);
      var k :| 0 <= k < |low| && low[k] == x;
      assert h[k] == x;
    }
  }

  function Filter<T>(xs: seq<T>, p: T -> bool): (r: seq<T>)
    ensures |r| <= |xs|
    ensures forall i :: 0 <= i < |r| ==> p(r[i]) && r[i] in xs
  {
    if xs == [] then []
    else Filter(xs[..|xs| - 1], p) + (if p(xs[|xs| - 1]) then [xs[|xs| - 1]] else [])
  }

  lemma FilterAppend<T>(xs: seq<T>, ys: seq<T>, p: T -> bool)
    ensures Filter(xs + ys, p) == Filter(xs, p) + Filter(ys, p)
    decreases |ys|
  {
    if ys == [] {
      assert xs + ys == xs;
    } else {
      assert (xs + ys)[..|xs + ys| - 1] == xs + ys[..|ys| - 1];
      FilterAppend(xs, ys[..|ys| - 1], p);
    }
  }

  /** A non-empty sequence is its prefix followed by its last element. */
  lemma SplitLast<T>(xs: seq<T>)
    requires xs != []
    ensures xs == xs[..|xs| - 1] + [xs[|xs| - 1]]
  {
  }

  lemma FilterSnoc<T>(xs: seq<T>, x: T, p: T -> bool)
    ensures Filter(xs + [x], p) == Filter(xs, p) + (if p(x) then [x] else [])
  {
    assert (xs + [x])[..|xs|] == xs;
  }

  lemma {:induction false} FilterAll<T>(xs: seq<T>, p: T -> bool)
    requires forall i :: 0 <= i < |xs| ==> p(xs[i])
    ensures Filter(xs, p) == xs
    decreases |xs|
  {
    if xs != [] {
      var init, last := xs[..|xs| - 1], xs[|xs| - 1];
      assert forall i :: 0 <= i < |init| ==> init[i] == xs[i];
      FilterAll(init, p);
      assert xs == init + [last];
      FilterSnoc(init, last, p);
    }
  }

  /** The filter keeps exactly the elements (with multiplicity) that satisfy p. */
  lemma {:induction false} FilterMultiset<T>(xs: seq<T>, p: T -> bool, x: T)
    ensures multiset(Filter(xs, p))[x] == if p(x) then multiset(xs)[x] else 0
    decreases |xs|
  {
    if xs != [] {
      var init, last := xs[..|xs| - 1], xs[|xs| - 1];
      FilterMultiset(init, p, x);
      var e := if p(last) then [last] else [];
      assert xs == init + [last];
      FilterSnoc(init, last, p);
      MultisetAppendAt(Filter(init, p), e, x);
      MultisetAppendAt(init, [last], x);
    }
  }

  lemma MultisetAppendAt<T>(a: seq<T>, b: seq<T>, x: T)
    ensures multiset(a + b)[x] == multiset(a)[x] + multiset(b)[x]
  {
  }

  /** A filter and the filter on the opposite condition share out the elements. */
  lemma FilterCover<T>(xs: seq<T>, p: T -> bool, np: T -> bool)
    requires forall x :: np(x) == !p(x)
    ensures multiset(Filter(xs, p)) + multiset(Filter(xs, np)) == multiset(xs)
  {
    var a, b := multiset(Filter(xs, p)), multiset(Filter(xs, np));
    forall x ensures (a + b)[x] == multiset(xs)[x] {
      FilterCoverAt(xs, p, np, x);
    }
    assert a + b == multiset(xs);
  }

  lemma FilterCoverAt<T>(xs: seq<T>, p: T -> bool, np: T -> bool, x: T)
    requires np(x) == !p(x)
    ensures multiset(Filter(xs, p))[x] + multiset(Filter(xs, np))[x] == multiset(xs)[x]
  {
    FilterMultiset(xs, p, x);
    FilterMultiset(xs, np, x);
  }

  /** An element is kept exactly when it is there and satisfies p. */
  lemma FilterMember<T>(xs: seq<T>, p: T -> bool, x: T)
    ensures x in Filter(xs, p) <==> x in xs && p(x)
  {
    FilterMultiset(xs, p, x);
    assert x in Filter(xs, p) <==> x in multiset(Filter(xs, p));
    assert x in xs <==> x in multiset(xs);
  }

  /** Filters of two permutations of each other are permutations of each other. */
  lemma FilterPermutation<T>(xs: seq<T>, ys: seq<T>, p: T -> bool)
    requires multiset(xs) == multiset(ys)
    ensures multiset(Filter(xs, p)) == multiset(Filter(ys, p))
  {
    var a, b := multiset(Filter(xs, p)), multiset(Filter(ys, p));
    forall x ensures a[x] == b[x] {
      FilterMultiset(xs, p, x);
      FilterMultiset(ys, p, x);
    }
    assert a == b;
  }

  /** A sort key: a real value, or missing (pandas NaN), which sorts last. */
  datatype Key = Value(v: real) | Missing

  predicate KeyLe(a: Key, b: Key) {
    match a
    case Missing => b.Missing?
    case Value(x) => b.Missing? || x <= b.v
  }

  predicate SortedBy<T>(xs: seq<T>, key: T -> Key) {
    forall i, j :: 0 <= i < j < |xs| ==> KeyLe(key(xs[i]), key(xs[j]))
  }

  lemma KeyLeTransitive(a: Key, b: Key, c: Key)
    requires KeyLe(a, b) && KeyLe(b, c)
    ensures KeyLe(a, c)
  {
  }

  lemma KeyLeTotal(a: Key, b: Key)
    ensures KeyLe(a, b) || KeyLe(b, a)
  {
  }

  /** h sorts no later than anything in t, so putting it in front keeps t sorted. */
  lemma ConsSorted<T>(h: T, t: seq<T>, key: T -> Key)
    requires SortedBy(t, key)
    requires forall y :: y in multiset(t) ==> KeyLe(key(h), key(y))
    ensures SortedBy([h] + t, key)
  {
    var r := [h] + t;
    forall i, j | 0 <= i < j < |r| ensures KeyLe(key(r[i]), key(r[j])) {
      assert r[j] == t[j - 1] && t[j - 1] in multiset(t);
      if i > 0 {
        assert r[i] == t[i - 1];
      }
    }
  }

  /** The head of a sorted sequence sorts no later than its other elements. */
  lemma HeadFirst<T>(s: seq<T>, key: T -> Key)
    requires s != [] && SortedBy(s, key)
    ensures forall y :: y in multiset(s) ==> KeyLe(key(s[0]), key(y))
  {
    forall y | y in multiset(s) ensures KeyLe(key(s[0]), key(y)) {
      var j :| 0 <= j < |s| && s[j] == y;
      if j > 0 {
        assert KeyLe(key(s[0]), key(s[j]));
      }
    }
  }

  lemma TailSorted<T>(s: seq<T>, key: T -> Key)
    requires s != [] && SortedBy(s, key)
    ensures SortedBy(s[1..], key)
  {
    forall i, j | 0 <= i < j < |s[1..]| ensures KeyLe(key(s[1..][i]), key(s[1..][j])) {
      assert s[1..][i] == s[i + 1] && s[1..][j] == s[j + 1];
    }
  }

  function InsertBy<T>(x: T, s: seq<T>, key: T -> Key): (r: seq<T>)
    requires SortedBy(s, key)
    ensures SortedBy(r, key)
    ensures multiset(r) == multiset(s) + multiset{x}
  {
    if s == [] then [x]
    else
      HeadFirst(s, key);
      if KeyLe(key(x), key(s[0])) then
        forall y | y in multiset(s) ensures KeyLe(key(x), key(y)) {
          KeyLeTransitive(key(x), key(s[0]), key(y));
        }
        ConsSorted(x, s, key);
        [x] + s
      else
        KeyLeTotal(key(x), key(s[0]));
        TailSorted(s, key);
        var t := InsertBy(x, s[1..], key);
        assert s == [s[0]] + s[1..];
        assert multiset(s) == multiset{s[0]} + multiset(s[1..]);
        ConsSorted(s[0], t, key);
        [s[0]] + t
  }

  /** Insertion sort by key; the order of equal keys is not promised. */
  function SortBy<T>(xs: seq<T>, key: T -> Key): (r: seq<T>)
    ensures SortedBy(r, key)
    ensures multiset(r) == multiset(xs)
  {
    if xs == [] then []
    else
      var r := InsertBy(xs[|xs| - 1], SortBy(xs[..|xs| - 1], key), key);
      assert xs == xs[..|xs| - 1] + [xs[|xs| - 1]];
      r
  }

  lemma SortByLength<T>(xs: seq<T>, key: T -> Key)
    ensures |SortBy(xs, key)| == |xs|
  {
    var r := SortBy(xs, key);
    assert |multiset(r)| == |r| && |multiset(xs)| == |xs|;
  }

  /** x sorts no earlier than anything in t, so appending it keeps t sorted. */
  lemma SnocSorted<T>(t: seq<T>, x: T, key: T -> Key)
    requires SortedBy(t, key)
    requires forall y :: y in t ==> KeyLe(key(y), key(x))
    ensures SortedBy(t + [x], key)
  {
    var r := t + [x];
    forall i, j | 0 <= i < j < |r| ensures KeyLe(key(r[i]), key(r[j])) {
      assert r[i] == t[i] && t[i] in t;
      if j < |t| {
        assert r[j] == t[j];
      }
    }
  }

  lemma {:induction false} FilterSorted<T>(xs: seq<T>, p: T -> bool, key: T -> Key)
    requires SortedBy(xs, key)
    ensures SortedBy(Filter(xs, p), key)
    decreases |xs|
  {
    if xs != [] {
      var init, last := xs[..|xs| - 1], xs[|xs| - 1];
      assert SortedBy(init, key) by {
        forall i, j | 0 <= i < j < |init| ensures KeyLe(key(init[i]), key(init[j])) {
          assert init[i] == xs[i] && init[j] == xs[j];
        }
      }
      FilterSorted(init, p, key);
      var f := Filter(init, p);
      if p(last) {
        forall y | y in f ensures KeyLe(key(y), key(last)) {
          FilterMultiset(init, p, y);
          assert y in multiset(init);
          var j :| 0 <= j < |init| && init[j] == y;
          assert xs[j] == y;
        }
        SnocSorted(f, last, key);
      } else {
        assert f + [] == f;
      }
    }
  }

  function Take<T>(xs: seq<T>, k: nat): (r: seq<T>)
    ensures |r| == if |xs| < k then |xs| else k
    ensures r == xs[..|r|]
  {
    if |xs| <= k then xs else xs[..k]
  }

  /** What df[df.col == v].sort_values(key).head(k) selects, specified up to ties:
      the selection is sorted, comes from the matching rows, has the right size,
      and no matching row left out sorts strictly before any selected row. */
  function TopK<T>(xs: seq<T>, p: T -> bool, key: T -> Key, k: nat): seq<T> {
    Take(Filter(SortBy(xs, key), p), k)
  }

  /** Taking a prefix splits the multiset of a sequence into the taken part and the rest. */
  lemma TakeMultiset<T>(f: seq<T>, k: nat)
    ensures multiset(f) == multiset(Take(f, k)) + multiset(f[|Take(f, k)|..])
  {
    var r := Take(f, k);
    assert f == r + f[|r|..];
  }

  /** Where an element a prefix keeps and an element it drops sit. */
  lemma TakeDropped<T>(r: seq<T>, k: nat, x: T, y: T) returns (i: nat, j: nat)
    requires x in multiset(r) - multiset(Take(r, k)) && y in Take(r, k)
    ensures i < |Take(r, k)| <= j < |r| && r[i] == y && r[j] == x
  {
    var f := Take(r, k);
    var rest := r[|f|..];
    TakeMultiset(r, k);
    assert x in multiset(rest);
    var j' :| 0 <= j' < |rest| && rest[j'] == x;
    i :| 0 <= i < |f| && f[i] == y;
    j := |f| + j';
  }

  /** Of a sorted sequence, nothing left out of a prefix sorts before the prefix. */
  lemma TakeSorted<T>(f: seq<T>, k: nat, key: T -> Key)
    requires SortedBy(f, key)
    ensures forall x, y :: x in multiset(f) - multiset(Take(f, k)) && y in Take(f, k) ==>
      KeyLe(key(y), key(x))
  {
    var r := Take(f, k);
    TakeMultiset(f, k);
    forall x, y | x in multiset(f) - multiset(r) && y in r
      ensures KeyLe(key(y), key(x))
    {
      var rest := f[|r|..];
      assert x in multiset(rest);
      var j :| 0 <= j < |rest| && rest[j] == x;
      var i :| 0 <= i < |r| && r[i] == y;
      assert f[i] == y && f[|r| + j] == x;
    }
  }

  /** The sorted matches are a permutation of the matches, and sorted. */
  lemma SortedMatches<T>(xs: seq<T>, p: T -> bool, key: T -> Key)
    ensures SortedBy(Filter(SortBy(xs, key), p), key)
    ensures multiset(Filter(SortBy(xs, key), p)) == multiset(Filter(xs, p))
    ensures |Filter(SortBy(xs, key), p)| == |Filter(xs, p)|
  {
    var s := SortBy(xs, key);
    var f := Filter(s, p);
    FilterSorted(s, p, key);
    FilterPermutation(s, xs, p);
    assert |f| == |multiset(f)| == |multiset(Filter(xs, p))| == |Filter(xs, p)|;
  }

  /** A prefix of a sorted sequence is sorted and keeps the property p. */
  lemma TakeSortedPrefix<T>(f: seq<T>, k: nat, p: T -> bool, key: T -> Key)
    requires SortedBy(f, key) && forall i :: 0 <= i < |f| ==> p(f[i])
    ensures SortedBy(Take(f, k), key)
    ensures forall x :: x in Take(f, k) ==> p(x)
  {
    var r := Take(f, k);
    forall x | x in r ensures p(x) {
      var i :| 0 <= i < |r| && r[i] == x;
      assert f[i] == x;
    }
    forall i, j | 0 <= i < j < |r| ensures KeyLe(key(r[i]), key(r[j])) {
      assert r[i] == f[i] && r[j] == f[j];
    }
  }

  lemma TopKSpec<T>(xs: seq<T>, p: T -> bool, key: T -> Key, k: nat)
    ensures var r := TopK(xs, p, key, k);
      && SortedBy(r, key)
      && (forall x :: x in r ==> p(x))
      && multiset(r) <= multiset(Filter(xs, p))
      && |r| == (if |Filter(xs, p)| < k then |Filter(xs, p)| else k)
      && (forall x, y :: x in multiset(Filter(xs, p)) - multiset(r) && y in r ==>
            KeyLe(key(y), key(x)))
  {
    var f := Filter(SortBy(xs, key), p);
    SortedMatches(xs, p, key);
    TakeMultiset(f, k);
    TakeSorted(f, k, key);
    TakeSortedPrefix(f, k, p, key);
  }

  /** Concatenation of f over xs, element by element. */
  function FlatMap<A, B>(xs: seq<A>, f: A -> seq<B>): seq<B> {
    if xs == [] then [] else FlatMap(xs[..|xs| - 1], f) + f(xs[|xs| - 1])
  }

  lemma {:induction false} FlatMapAppend<A, B>(xs: seq<A>, ys: seq<A>, f: A -> seq<B>)
    ensures FlatMap(xs + ys, f) == FlatMap(xs, f) + FlatMap(ys, f)
    decreases |ys|
  {
    if ys == [] {
      assert xs + ys == xs;
    } else {
      assert (xs + ys)[..|xs + ys| - 1] == xs + ys[..|ys| - 1];
      FlatMapAppend(xs, ys[..|ys| - 1], f);
    }
  }

  lemma FlatMapSingle<A, B>(x: A, f: A -> seq<B>)
    ensures FlatMap([x], f) == f(x)
  {
    assert [x][..0] == [];
  }

  /** Two functions that agree on xs have the same FlatMap over it. */
  lemma {:induction false} FlatMapCongruent<A, B>(xs: seq<A>, f: A -> seq<B>, g: A -> seq<B>)
    requires forall x :: x in xs ==> f(x) == g(x)
    ensures FlatMap(xs, f) == FlatMap(xs, g)
    decreases |xs|
  {
    if xs != [] {
      FlatMapCongruent(xs[..|xs| - 1], f, g);
    }
  }

  lemma {:induction false} FlatMapTokens(xs: seq<string>)
    ensures FlatMap(xs, Tokens) == Flatten(MapTokens(xs))
    decreases |xs|
  {
    if xs != [] {
      FlatMapTokens(xs[..|xs| - 1]);
      assert MapTokens(xs) == MapTokens(xs[..|xs| - 1]) + [Tokens(xs[|xs| - 1])];
      assert MapTokens(xs)[..|xs| - 1] == MapTokens(xs[..|xs| - 1]);
    }
  }

  /** Flattening in two stages is flattening once with the composed map. */
  lemma {:induction false} FlatMapCompose<A, B, C>(xs: seq<A>, f: A -> seq<B>, g: B -> seq<C>, h: A -> seq<C>)
    requires forall x :: x in xs ==> FlatMap(f(x), g) == h(x)
    ensures FlatMap(FlatMap(xs, f), g) == FlatMap(xs, h)
    decreases |xs|
  {
    if xs != [] {
      var init, last := xs[..|xs| - 1], xs[|xs| - 1];
      assert forall x :: x in init ==> x in xs;
      assert last in xs;
      FlatMapCompose(init, f, g, h);
      FlatMapAppend(FlatMap(init, f), f(last), g);
    }
  }

  /** A property of every element of every f(x) holds of every element of the FlatMap. */
  lemma {:induction false} FlatMapAll<A, B>(xs: seq<A>, f: A -> seq<B>, q: B -> bool)
    requires forall x, y :: x in xs && y in f(x) ==> q(y)
    ensures forall y :: y in FlatMap(xs, f) ==> q(y)
    decreases |xs|
  {
    if xs != [] {
      var init := xs[..|xs| - 1];
      assert forall x :: x in init ==> x in xs;
      FlatMapAll(init, f, q);
    }
  }

  /** y is in the FlatMap exactly when it is in f of some element. */
  lemma {:induction false} FlatMapMember<A, B>(xs: seq<A>, f: A -> seq<B>, y: B)
    ensures y in FlatMap(xs, f) <==> exists i :: 0 <= i < |xs| && y in f(xs[i])
    decreases |xs|
  {
    if xs != [] {
      var init := xs[..|xs| - 1];
      FlatMapMember(init, f, y);
      if y in FlatMap(xs, f) && y !in FlatMap(init, f) {
        assert y in f(xs[|xs| - 1]);
      }
      if exists i :: 0 <= i < |xs| && y in f(xs[i]) {
        var i :| 0 <= i < |xs| && y in f(xs[i]);
        if i < |xs| - 1 {
          assert init[i] == xs[i];
        }
      }
    }
  }

  /** render(1, xs[0]) + ... + render(k, xs[k - 1]): the first k elements
      rendered with their numbers, as enumerate(..., 1) does. */
  function Numbered<T, U>(xs: seq<T>, render: (nat, T) -> seq<U>, k: nat): seq<U>
    requires k <= |xs|
  {
    if k == 0 then [] else Numbered(xs, render, k - 1) + render(k, xs[k - 1])
  }

  lemma MulMonotone(w: nat, a: nat, b: nat)
    requires a <= b
    ensures w * a <= w * b
  {
  }

  lemma {:induction false} NumberedLength<T, U>(xs: seq<T>, render: (nat, T) -> seq<U>, w: nat, k: nat)
    requires k <= |xs|
    requires forall i, x :: |render(i, x)| == w
    ensures |Numbered(xs, render, k)| == w * k
  {
    if k > 0 {
      NumberedLength(xs, render, w, k - 1);
      assert w * (k - 1) + w == w * k;
    }
  }

  lemma PrefixSlice<T>(a: seq<T>, b: seq<T>, i: nat, j: nat)
    requires i <= j <= |a|
    ensures (a + b)[i..j] == a[i..j]
  {
    assert forall k :: 0 <= k < j - i ==> (a + b)[i..j][k] == a[i + k];
  }

  /** Element m of the first k sits at w * m. */
  lemma {:induction false} NumberedAt<T, U>(xs: seq<T>, render: (nat, T) -> seq<U>, w: nat, k: nat, m: nat)
    requires m < k <= |xs|
    requires forall i, x :: |render(i, x)| == w
    ensures w * m + w <= |Numbered(xs, render, k)|
    ensures Numbered(xs, render, k)[w * m..w * m + w] == render(m + 1, xs[m])
  {
    var e := Numbered(xs, render, k - 1);
    var r := render(k, xs[k - 1]);
    assert Numbered(xs, render, k) == e + r;
    NumberedLength(xs, render, w, k - 1);
    MulMonotone(w, m, k - 1);
    if m < k - 1 {
      NumberedAt(xs, render, w, k - 1, m);
      PrefixSlice(e, r, w * m, w * m + w);
    } else {
      SuffixSlice(e, r);
    }
  }

  lemma SuffixSlice<T>(a: seq<T>, b: seq<T>)
    ensures (a + b)[|a|..|a| + |b|] == b
  {
    assert forall k :: 0 <= k < |b| ==> (a + b)[|a|..|a| + |b|][k] == b[k];
  }

  /** When every rendering has w elements, element m is rendered at w * m. */
  lemma NumberedLayout<T, U>(xs: seq<T>, render: (nat, T) -> seq<U>, w: nat, k: nat)
    requires k <= |xs|
    requires forall i, x :: |render(i, x)| == w
    ensures |Numbered(xs, render, k)| == w * k
    ensures forall m :: 0 <= m < k ==> Numbered(xs, render, k)[w * m..w * m + w] == render(m + 1, xs[m])
  {
    NumberedLength(xs, render, w, k);
    forall m | 0 <= m < k ensures w * m + w <= |Numbered(xs, render, k)| {
      NumberedAt(xs, render, w, k, m);
    }
    forall m | 0 <= m < k ensures Numbered(xs, render, k)[w * m..w * m + w] == render(m + 1, xs[m]) {
      NumberedAt(xs, render, w, k, m);
    }
  }

  /** A filter keeps a strictly ascending sequence strictly ascending. */
  lemma {:induction false} FilterAscending(xs: seq<string>, p: string -> bool)
    requires StrictlyAscending(xs)
    ensures StrictlyAscending(Filter(xs, p))
    decreases |xs|
  {
    if xs != [] {
      var init, last := xs[..|xs| - 1], xs[|xs| - 1];
      assert StrictlyAscending(init) by {
        forall i, j | 0 <= i < j < |init| ensures StrLt(init[i], init[j]) {
          assert init[i] == xs[i] && init[j] == xs[j];
        }
      }
      FilterAscending(init, p);
      var f := Filter(init, p);
      if p(last) {
        var r := f + [last];
        forall i, j | 0 <= i < j < |r| ensures StrLt(r[i], r[j]) {
          assert r[i] == f[i] && f[i] in init;
          if j < |f| {
            assert r[j] == f[j];
          } else {
            var k :| 0 <= k < |init| && init[k] == f[i];
            assert xs[k] == f[i];
          }
        }
      } else {
        assert f + [] == f;
      }
    }
  }

  /** The index of the first element satisfying p: what a for loop that
      returns at the first match finds. */
  function First<T>(xs: seq<T>, p: T -> bool): (r: Option<nat>)
    ensures r.Some? ==> r.value < |xs| && p(xs[r.value]) && forall j :: 0 <= j < r.value ==> !p(xs[j])
    ensures r.None? ==> forall j :: 0 <= j < |xs| ==> !p(xs[j])
  {
    if xs == [] then None
    else if p(xs[0]) then Some(0)
    else
      match First(xs[1..], p)
      case None =>
        assert forall j :: 1 <= j < |xs| ==> xs[j] == xs[1..][j - 1];
        None
      case Some(i) =>
        assert forall j :: 1 <= j <= i ==> xs[j] == xs[1..][j - 1];
        Some(i + 1)
  }
}
