/** add_marketing_to_report.py: splicing the advertising block into a
    report after its introduction, and naming the file the result goes to.
    Reading and writing the files are inputs: the decoded text (None when no
    encoding reads it or opening fails) and whether the write succeeds. The
    end of the introduction, which a DOTALL regular expression finds, is an
    input too: an index just after a newline. */
module Marketing {
  import opened Text
  import opened Seq

  const MarketBlock: string :=
    "\n\n💸 Хотите купить недвижимость в Дубае выгодно и без посредников?\n\n"
    + "📍Информация от государственного ресурса ОАЭ  [На интерактивной карте](http://89.169.166.179:8502/) — ТОП-3, 5 самых недорогих квартир в каждом районе.\n"
    + "Фильтруйте по площади, сравнивайте цены и находите лучшие предложения в пару кликов!\n\n"
    + "📊 Умный фильтр по квадратуре\n"
    + "📉 Самые низкие цены по районам\n"
    + "💼 Идеально для инвесторов и переезда\n\n"

  // The splice

  predicate IsNewline(c: char) {
    c == '\n'
  }

  /** Where the regular expression match ends, if it matched: directly after
      a newline of the content. */
  predicate IntroEnd(content: string, introEnd: Option<nat>) {
    introEnd.Some? ==> 0 < introEnd.value <= |content| && content[introEnd.value - 1] == '\n'
  }

  /** Where the block goes: after the introduction, else after the first
      newline; None when there is no newline and the block is appended. */
  function InsertionPoint(content: string, introEnd: Option<nat>): Option<nat> {
    match introEnd
    case Some(end) => Some(end)
    case None =>
      match First(content, IsNewline)
      case Some(i) => Some(i + 1)
      case None => None
  }

  /** The splice of a block into the content. */
  function Insert(content: string, introEnd: Option<nat>, block: string): string
    requires IntroEnd(content, introEnd)
  {
    match introEnd
    case Some(end) => content[..end] + block + content[end..]
    case None =>
      match First(content, IsNewline)
      case Some(i) => content[..i + 1] + block + content[i + 1..]
      case None => content + "\n" + block
  }

  function AddMarketingBlock(content: string, introEnd: Option<nat>): string
    requires IntroEnd(content, introEnd)
  {
    Insert(content, introEnd, MarketBlock)
  }

  /** The text with a block of length n at position p taken out again. */
  function RemoveBlock(s: string, p: nat, n: nat): string
    requires p + n <= |s|
  {
    s[..p] + s[p + n..]
  }

  // The output file name

  /** The index of the last '/', as rfind gives it. */
  function LastSlash(s: string): (r: Option<nat>)
    ensures r.Some? ==> r.value < |s| && s[r.value] == '/' && '/' !in s[r.value + 1..]
    ensures r.None? ==> '/' !in s
  {
    if s == [] then None
    else if s[|s| - 1] == '/' then Some(|s| - 1)
    else
      var r := LastSlash(s[..|s| - 1]);
      assert r.Some? ==> s[r.value + 1..] == s[..|s| - 1][r.value + 1..] + [s[|s| - 1]];
      assert r.None? ==> s == s[..|s| - 1] + [s[|s| - 1]];
      r
  }

  /** Where the final component of a path starts. */
  function TailStart(p: string): (i: nat)
    ensures i <= |p|
  {
    match LastSlash(p)
    case Some(j) => j + 1
    case None => 0
  }

  predicate AllSlashes(s: string) {
    forall i :: 0 <= i < |s| ==> s[i] == '/'
  }

  /** s with its trailing slashes removed. */
  function StripSlashes(s: string): (r: string)
    ensures r <= s && AllSlashes(s[|r|..])
    ensures r == [] || r[|r| - 1] != '/'
  {
    if s == [] || s[|s| - 1] != '/' then s
    else
      var r := StripSlashes(s[..|s| - 1]);
      assert s[|r|..] == s[..|s| - 1][|r|..] + ['/'];
      r
  }

  /** os.path.basename. */
  function Basename(p: string): string {
    p[TailStart(p)..]
  }

  /** os.path.dirname: the part before the final component, without its
      trailing slashes unless it is nothing but slashes. */
  function Dirname(p: string): string {
    var head := p[..TailStart(p)];
    if head != [] && !AllSlashes(head) then StripSlashes(head) else head
  }

  /** os.path.join of two components. */
  function PathJoin(a: string, b: string): string {
    if b != [] && b[0] == '/' then b
    else if a == [] || a[|a| - 1] == '/' then a + b
    else a + "/" + b
  }

  /** A non-dot character before position d. */
  predicate NamedBefore(name: string, d: nat)
    requires d <= |name|
  {
    exists i :: 0 <= i < d && name[i] != '.'
  }

  /** The index of the last '.', as rfind gives it. */
  function LastDot(s: string): (r: Option<nat>)
    ensures r.Some? ==> r.value < |s| && s[r.value] == '.' && '.' !in s[r.value + 1..]
    ensures r.None? ==> '.' !in s
  {
    if s == [] then None
    else if s[|s| - 1] == '.' then Some(|s| - 1)
    else
      var r := LastDot(s[..|s| - 1]);
      assert r.Some? ==> s[r.value + 1..] == s[..|s| - 1][r.value + 1..] + [s[|s| - 1]];
      assert r.None? ==> s == s[..|s| - 1] + [s[|s| - 1]];
      r
  }

  /** os.path.splitext of a name without '/': the extension starts at the
      last dot, unless only dots precede it. */
  function SplitExt(name: string): (string, string) {
    match LastDot(name)
    case Some(d) => if NamedBefore(name, d) then (name[..d], name[d..]) else (name, "")
    case None => (name, "")
  }

  /** The file the result is written to: the same directory, the name with
      "_with_marketing" before its extension. */
  function OutputPath(reportPath: string): string {
    var (base, ext) := SplitExt(Basename(reportPath));
    PathJoin(Dirname(reportPath), base + "_with_marketing" + ext)
  }

  /** add_marketing_block_to_report: the path of the new file and its text,
      or None when reading or writing fails. */
  datatype Output = Output(path: string, text: string)

  function AddMarketingBlockToReport(reportPath: string, content: Option<string>, introEnd: Option<nat>,
                                     written: bool): (r: Option<Output>)
    requires content.Some? ==> IntroEnd(content.value, introEnd)
    ensures r.Some? <==> content.Some? && written
    ensures r.Some? ==> r.value == Output(OutputPath(reportPath), AddMarketingBlock(content.value, introEnd))
  {
    if content.None? || !written then None
    else Some(Output(OutputPath(reportPath), AddMarketingBlock(content.value, introEnd)))
  }

  // Properties

  /** The block goes right after a newline: the end of the introduction, or
      else the first newline; only a text without newlines gets it appended
      after an added newline. The text around it is unchanged. */
  lemma SpliceSpec(content: string, introEnd: Option<nat>, block: string)
    requires IntroEnd(content, introEnd)
    ensures introEnd.Some? ==> InsertionPoint(content, introEnd) == introEnd
    ensures InsertionPoint(content, introEnd).Some? ==>
      var q := InsertionPoint(content, introEnd).value;
      0 < q <= |content| && content[q - 1] == '\n'
      && Insert(content, introEnd, block) == content[..q] + block + content[q..]
    ensures introEnd.None? && InsertionPoint(content, introEnd).Some? ==>
      '\n' !in content[..InsertionPoint(content, introEnd).value - 1]
    ensures InsertionPoint(content, introEnd).None? <==> introEnd.None? && '\n' !in content
    ensures InsertionPoint(content, introEnd).None? ==> Insert(content, introEnd, block) == content + "\n" + block
  {
    if introEnd.None? {
      match First(content, IsNewline)
      case Some(i) =>
        assert '\n' !in content[..i] by {
          forall j | 0 <= j < i ensures content[..i][j] != '\n' {
            assert content[..i][j] == content[j];
          }
        }
      case None =>
        assert '\n' !in content by {
          forall j | 0 <= j < |content| ensures content[j] != '\n' {
            assert !IsNewline(content[j]);
          }
        }
    }
  }

  /** Taking the block out again gives back the content; when it was
      appended, the content and the newline added before it. */
  lemma RemoveRecovers(content: string, introEnd: Option<nat>, block: string)
    requires IntroEnd(content, introEnd)
    ensures InsertionPoint(content, introEnd).Some? ==>
      var q := InsertionPoint(content, introEnd).value;
      var r := Insert(content, introEnd, block);
      q + |block| <= |r| && r[q..q + |block|] == block && RemoveBlock(r, q, |block|) == content
    ensures InsertionPoint(content, introEnd).None? ==>
      var r := Insert(content, introEnd, block);
      |content| + 1 + |block| == |r| && RemoveBlock(r, |content| + 1, |block|) == content + "\n"
  {
    SpliceSpec(content, introEnd, block);
    match InsertionPoint(content, introEnd)
    case Some(q) =>
      SpliceOut(content, block, q);
    case None =>
      SpliceOut(content + "\n", block, |content| + 1);
      assert (content + "\n")[..|content| + 1] + block + (content + "\n")[|content| + 1..]
        == content + "\n" + block;
  }

  /** b spliced into c at q sits at q, and taking it out gives back c. */
  lemma SpliceOut<T>(c: seq<T>, b: seq<T>, q: nat)
    requires q <= |c|
    ensures var r := c[..q] + b + c[q..];
      |r| == |c| + |b| && r[q..q + |b|] == b && r[..q] + r[q + |b|..] == c
  {
    var r := c[..q] + b + c[q..];
    assert r[..q] == c[..q];
    assert r[q + |b|..] == c[q..];
    assert r[q..q + |b|] == b;
  }

  /** splitext splits the name into base and extension: the extension is
      empty, or the last dot and what follows it. */
  lemma SplitExtSpec(name: string)
    ensures SplitExt(name).0 + SplitExt(name).1 == name
    ensures SplitExt(name).1 == [] || (SplitExt(name).1[0] == '.' && '.' !in SplitExt(name).1[1..])
    ensures SplitExt(name).1 != [] ==> exists i :: 0 <= i < |SplitExt(name).0| && SplitExt(name).0[i] != '.'
  {
    match LastDot(name)
    case Some(d) =>
      if NamedBefore(name, d) {
        assert name[..d] + name[d..] == name;
        assert name[d..][1..] == name[d + 1..];
        var i :| 0 <= i < d && name[i] != '.';
        assert name[..d][i] == name[i];
      }
    case None =>
  }

  lemma {:induction false} LastSlashAppend(a: string, b: string)
    requires '/' !in b
    ensures LastSlash(a + b) == LastSlash(a)
    decreases |b|
  {
    if b == [] {
      assert a + b == a;
    } else {
      var init := b[..|b| - 1];
      assert (a + b)[..|a + b| - 1] == a + init;
      assert b[|b| - 1] in b;
      assert '/' !in init by {
        forall j | 0 <= j < |init| ensures init[j] != '/' {
          assert init[j] == b[j];
        }
      }
      LastSlashAppend(a, init);
    }
  }

  lemma StripSlash(d: string)
    requires d != [] && d[|d| - 1] != '/'
    ensures StripSlashes(d + "/") == d
  {
    assert (d + "/")[..|d + "/"| - 1] == d;
  }

  /** The new name has no '/'. */
  lemma NewName(name: string, base: string, ext: string)
    requires base + ext == name && '/' !in name
    ensures var n := base + "_with_marketing" + ext;
      '/' !in n && n != [] && n[0] != '/'
  {
    var n := base + "_with_marketing" + ext;
    forall j | 0 <= j < |n| ensures n[j] != '/' {
      if j < |base| {
        assert n[j] == name[j];
      } else if j >= |base| + 15 {
        assert n[j] == name[j - 15];
      }
    }
    assert n[|base|] == '_';
  }

  /** Joining a directory and a name without '/' gives back both. */
  lemma JoinSplits(d: string, n: string)
    requires '/' !in n && n != [] && n[0] != '/'
    requires d == [] || AllSlashes(d) || d[|d| - 1] != '/'
    ensures Dirname(PathJoin(d, n)) == d && Basename(PathJoin(d, n)) == n
  {
    var q := PathJoin(d, n);
    if d == [] {
      LastSlashAppend([], n);
      assert [] + n == n;
    } else if d[|d| - 1] == '/' {
      LastSlashAppend(d, n);
      assert q[..|d|] == d;
      assert q[|d|..] == n;
    } else {
      var h := d + "/";
      assert q == h + n;
      LastSlashAppend(h, n);
      assert q[..|h|] == h;
      assert q[|h|..] == n;
      assert !AllSlashes(h) by {
        assert h[|d| - 1] == d[|d| - 1];
      }
      StripSlash(d);
    }
  }

  /** The new file lies in the directory of the report, and its name is the
      report's base name, "_with_marketing", then its extension. */
  lemma OutputSameDirectory(reportPath: string)
    ensures Dirname(OutputPath(reportPath)) == Dirname(reportPath)
    ensures Basename(OutputPath(reportPath)) ==
      SplitExt(Basename(reportPath)).0 + "_with_marketing" + SplitExt(Basename(reportPath)).1
  {
    var name := Basename(reportPath);
    var (base, ext) := SplitExt(name);
    SplitExtSpec(name);
    NewName(name, base, ext);
    var head := reportPath[..TailStart(reportPath)];
    assert head != [] && !AllSlashes(head) ==> Dirname(reportPath) == StripSlashes(head);
    JoinSplits(Dirname(reportPath), base + "_with_marketing" + ext);
  }
}
