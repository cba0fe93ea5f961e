/** clean_html_and_sanitize: decode entities (an abstract html.unescape), delete
    tags matched by <[^>]+>, escape &, < and > (ampersand first) and delete the
    C0/C1 control characters other than tab, line feed and carriage return. */
module Sanitizer {
  import opened Text

  /** The class [\x00-\x08\x0B\x0C\x0E-\x1F\x7F-\x9F] deleted by the last step. */
  predicate IsControl(c: char) {
    c <= '\U{8}' || c == '\U{B}' || c == '\U{C}' || ('\U{E}' <= c <= '\U{1F}')
    || ('\U{7F}' <= c <= '\U{9F}')
  }

  /** re.sub(r'<[^>]+>', '', s). A match starts at a '<' and ends at the first
      '>' after it, and needs at least one character in between; the scan
      resumes after a match, or one character on when there is none. */
  function StripTags(s: string): (r: string)
    ensures |r| <= |s|
    ensures forall c :: c in r ==> c in s
    decreases |s|
  {
    if s == [] then []
    else if s[0] != '<' then [s[0]] + StripTags(s[1..])
    else
      var j := FirstIn(s[1..], {'>'});
      if 0 < j < |s| - 1 then
        var r := StripTags(s[j + 2..]);
        assert forall c :: c in s[j + 2..] ==> c in s;
        r
      else ['<'] + StripTags(s[1..])
  }

  /** No match of <[^>]+> is left in r: a '<' is followed by no '>' at all,
      or directly by one. */
  predicate NoTag(r: string) {
    forall i :: 0 <= i < |r| && r[i] == '<' && '>' in r[i + 1..] ==> r[i + 1] == '>'
  }

  lemma NoTagCons(c: char, t: string)
    requires NoTag(t)
    requires c == '<' && '>' in t ==> t[0] == '>'
    ensures NoTag([c] + t)
  {
    var r := [c] + t;
    forall i | 0 <= i < |r| && r[i] == '<' && '>' in r[i + 1..] ensures r[i + 1] == '>' {
      if i > 0 {
        assert r[i..] == t[i - 1..];
        assert r[i + 1..] == t[i..];
      } else {
        assert r[1..] == t;
      }
    }
  }

  lemma NoTagTail(s: string)
    requires s != [] && NoTag(s)
    ensures NoTag(s[1..])
  {
    var t := s[1..];
    forall i | 0 <= i < |t| && t[i] == '<' && '>' in t[i + 1..] ensures t[i + 1] == '>' {
      assert s[i + 1] == t[i];
      assert s[i + 2..] == t[i + 1..];
    }
  }

  /** After tag stripping, no tag is left. */
  lemma {:induction false} StripTagsNoTag(s: string)
    ensures NoTag(StripTags(s))
    decreases |s|
  {
    if s == [] {
    } else if s[0] != '<' {
      StripTagsNoTag(s[1..]);
      NoTagCons(s[0], StripTags(s[1..]));
    } else {
      var j := FirstIn(s[1..], {'>'});
      if 0 < j < |s| - 1 {
        StripTagsNoTag(s[j + 2..]);
      } else {
        var t := StripTags(s[1..]);
        StripTagsNoTag(s[1..]);
        if j == 0 && |s| > 1 {
          assert s[1..] == [s[1]] + s[2..];
          assert s[1] == '>';
          assert t == ['>'] + StripTags(s[2..]);
        } else {
          assert '>' !in s[1..];
        }
        NoTagCons('<', t);
      }
    }
  }

  /** Text with no tag left is not changed by tag stripping. */
  lemma {:induction false} StripTagsFixed(s: string)
    requires NoTag(s)
    ensures StripTags(s) == s
    decreases |s|
  {
    if s != [] {
      NoTagTail(s);
      StripTagsFixed(s[1..]);
      if s[0] == '<' {
        var j := FirstIn(s[1..], {'>'});
        if '>' in s[1..] {
          assert s[1] == '>';
        } else {
          assert j == |s| - 1;
        }
      }
      assert s == [s[0]] + s[1..];
    }
  }

  /** Tag stripping is idempotent. */
  lemma StripTagsIdempotent(s: string)
    ensures StripTags(StripTags(s)) == StripTags(s)
  {
    StripTagsNoTag(s);
    StripTagsFixed(StripTags(s));
  }

  /** The three replace calls in the order the source makes them. */
  function Escape(s: string): string {
    ReplaceChar(ReplaceChar(ReplaceChar(s, '&', "&amp;"), '<', "&lt;"), '>', "&gt;")
  }

  /** What one character becomes once escaped. */
  function EscapeChar(c: char): string {
    if c == '&' then "&amp;" else if c == '<' then "&lt;" else if c == '>' then "&gt;" else [c]
  }

  /** What one character becomes in the whole sanitiser after tag stripping. */
  function SanitizeChar(c: char): string {
    if IsControl(c) then [] else EscapeChar(c)
  }

  /** SanitizeChar applied to every character of a tag-free text. */
  function MapSanitize(s: string): (r: string)
    ensures forall i :: 0 <= i < |r| ==> r[i] != '<' && r[i] != '>' && !IsControl(r[i])
  {
    if s == [] then [] else SanitizeChar(s[0]) + MapSanitize(s[1..])
  }

  function RemoveControls(s: string): (r: string)
    ensures forall i :: 0 <= i < |r| ==> !IsControl(r[i])
  {
    if s == [] then [] else (if IsControl(s[0]) then [] else [s[0]]) + RemoveControls(s[1..])
  }

  lemma RemoveControlsAppend(a: string, b: string)
    ensures RemoveControls(a + b) == RemoveControls(a) + RemoveControls(b)
  {
    if a == [] {
      assert a + b == b;
    } else {
      assert (a + b)[1..] == a[1..] + b;
      RemoveControlsAppend(a[1..], b);
    }
  }

  /** The entities consist of printable ASCII characters between '&' and 'z'. */
  lemma EntityPrintable(d: char)
    requires d == '&' || d == '<' || d == '>'
    ensures forall i :: 0 <= i < |EscapeChar(d)| ==> '&' <= EscapeChar(d)[i] <= 'z'
  {
  }

  lemma {:induction false} RemoveControlsNone(s: string)
    requires forall i :: 0 <= i < |s| ==> !IsControl(s[i])
    ensures RemoveControls(s) == s
    decreases |s|
  {
    if s != [] {
      RemoveControlsNone(s[1..]);
    }
  }

  lemma RemoveControlsEscapeChar(c: char)
    ensures RemoveControls(EscapeChar(c)) == SanitizeChar(c)
  {
    if c == '&' || c == '<' || c == '>' {
      EntityPrintable(c);
      RemoveControlsNone(EscapeChar(c));
    } else {
      assert [c][1..] == [];
    }
  }

  /** clean_html_and_sanitize; html.unescape is the parameter unescape. */
  function CleanHtmlAndSanitize(text: string, unescape: string -> string): string {
    RemoveControls(Escape(StripTags(unescape(text))))
  }

  /** On a single character the three replacements give its entity; this
      holds because '&' is replaced first, so the '&' of "&lt;" and "&gt;" is
      not escaped again, and no entity contains '<' or '>'. */
  lemma EscapeOne(c: char)
    ensures Escape([c]) == EscapeChar(c)
  {
    ReplaceCharSingle(c, '&', "&amp;");
    if c == '&' {
      ReplaceCharAbsent("&amp;", '<', "&lt;");
      ReplaceCharAbsent("&amp;", '>', "&gt;");
    } else if c == '<' {
      ReplaceCharSingle(c, '<', "&lt;");
      ReplaceCharAbsent("&lt;", '>', "&gt;");
    } else {
      ReplaceCharSingle(c, '<', "&lt;");
      ReplaceCharSingle(c, '>', "&gt;");
    }
  }

  lemma EscapeAppend(a: string, b: string)
    ensures Escape(a + b) == Escape(a) + Escape(b)
  {
    ReplaceCharAppend(a, b, '&', "&amp;");
    var a1, b1 := ReplaceChar(a, '&', "&amp;"), ReplaceChar(b, '&', "&amp;");
    ReplaceCharAppend(a1, b1, '<', "&lt;");
    var a2, b2 := ReplaceChar(a1, '<', "&lt;"), ReplaceChar(b1, '<', "&lt;");
    ReplaceCharAppend(a2, b2, '>', "&gt;");
  }

  /** The sequential replacements followed by the deletion of control
      characters act character by character. */
  lemma {:induction false} EscapePerChar(s: string)
    ensures RemoveControls(Escape(s)) == MapSanitize(s)
  {
    if s != [] {
      var c, t := s[0], s[1..];
      assert s == [c] + t;
      EscapeAppend([c], t);
      EscapeOne(c);
      RemoveControlsAppend(EscapeChar(c), Escape(t));
      RemoveControlsEscapeChar(c);
      EscapePerChar(t);
    }
  }

  /** The whole sanitiser, character by character. */
  lemma SanitizeIsPerChar(text: string, unescape: string -> string)
    ensures CleanHtmlAndSanitize(text, unescape) == MapSanitize(StripTags(unescape(text)))
  {
    EscapePerChar(StripTags(unescape(text)));
  }

  predicate StartsWith(s: string, p: string) {
    |p| <= |s| && s[..|p|] == p
  }

  /** Every '&' of r begins one of the three entities the escaping writes. */
  predicate AmpersandsEscaped(r: string) {
    forall i :: 0 <= i < |r| && r[i] == '&' ==>
      StartsWith(r[i..], "&amp;") || StartsWith(r[i..], "&lt;") || StartsWith(r[i..], "&gt;")
  }

  lemma AmpersandsEscapedAppend(a: string, b: string)
    requires AmpersandsEscaped(a) && AmpersandsEscaped(b)
    ensures AmpersandsEscaped(a + b)
  {
    var r := a + b;
    forall i | 0 <= i < |r| && r[i] == '&'
      ensures StartsWith(r[i..], "&amp;") || StartsWith(r[i..], "&lt;") || StartsWith(r[i..], "&gt;")
    {
      if i < |a| {
        assert a[i] == '&';
        assert r[i..] == a[i..] + b;
        assert forall k :: 0 <= k <= |a[i..]| ==> r[i..][..k] == a[i..][..k];
      } else {
        assert r[i..] == b[i - |a|..];
        assert b[i - |a|] == '&';
      }
    }
  }

  lemma EntityEscaped(e: string)
    requires e == "&amp;" || e == "&lt;" || e == "&gt;"
    ensures AmpersandsEscaped(e)
  {
    forall i | 0 <= i < |e| && e[i] == '&'
      ensures StartsWith(e[i..], "&amp;") || StartsWith(e[i..], "&lt;") || StartsWith(e[i..], "&gt;")
    {
      assert i == 0;
      assert e[0..] == e;
    }
  }

  lemma SanitizeCharEscaped(d: char)
    ensures AmpersandsEscaped(SanitizeChar(d))
  {
    if IsControl(d) {
      assert SanitizeChar(d) == [];
    } else if d == '&' || d == '<' || d == '>' {
      EntityEscaped(EscapeChar(d));
    } else {
      assert SanitizeChar(d) == [d];
    }
  }

  lemma {:induction false} MapSanitizeEscaped(s: string)
    ensures AmpersandsEscaped(MapSanitize(s))
  {
    if s != [] {
      var p := SanitizeChar(s[0]);
      SanitizeCharEscaped(s[0]);
      MapSanitizeEscaped(s[1..]);
      AmpersandsEscapedAppend(p, MapSanitize(s[1..]));
    }
  }

  predicate IsLayout(c: char) {
    c == '\t' || c == '\n' || c == '\r'
  }

  /** The tabs, line feeds and carriage returns of s, in order. */
  function LayoutOf(s: string): (r: string)
    ensures forall i :: 0 <= i < |r| ==> IsLayout(r[i])
  {
    if s == [] then [] else (if IsLayout(s[0]) then [s[0]] else []) + LayoutOf(s[1..])
  }

  lemma {:induction false} LayoutOfAppend(a: string, b: string)
    ensures LayoutOf(a + b) == LayoutOf(a) + LayoutOf(b)
    decreases |a|
  {
    if a == [] {
      assert a + b == b;
    } else {
      assert (a + b)[1..] == a[1..] + b;
      LayoutOfAppend(a[1..], b);
    }
  }

  lemma {:induction false} LayoutOfNone(s: string)
    requires forall i :: 0 <= i < |s| ==> !IsLayout(s[i])
    ensures LayoutOf(s) == []
    decreases |s|
  {
    if s != [] {
      LayoutOfNone(s[1..]);
    }
  }

  lemma SanitizeCharLayout(d: char)
    ensures LayoutOf(SanitizeChar(d)) == LayoutOf([d])
  {
    assert [d][1..] == [];
    if d == '&' || d == '<' || d == '>' {
      EntityPrintable(d);
      LayoutOfNone(EscapeChar(d));
    } else if !IsControl(d) {
      assert SanitizeChar(d) == [d];
    }
  }

  /** Tab, line feed and carriage return survive, in order. */
  lemma {:induction false} MapSanitizeKeepsLayout(s: string)
    ensures LayoutOf(MapSanitize(s)) == LayoutOf(s)
    decreases |s|
  {
    if s != [] {
      MapSanitizeKeepsLayout(s[1..]);
      assert s == [s[0]] + s[1..];
      SanitizeCharLayout(s[0]);
      LayoutOfAppend(SanitizeChar(s[0]), MapSanitize(s[1..]));
      LayoutOfAppend([s[0]], s[1..]);
    }
  }

  /** What clean_html_and_sanitize promises its callers. */
  lemma SanitizeSpec(text: string, unescape: string -> string)
    ensures var r := CleanHtmlAndSanitize(text, unescape);
      && (forall i :: 0 <= i < |r| ==> r[i] != '<' && r[i] != '>' && !IsControl(r[i]))
      && AmpersandsEscaped(r)
      && LayoutOf(r) == LayoutOf(StripTags(unescape(text)))
  {
    var u := StripTags(unescape(text));
    SanitizeIsPerChar(text, unescape);
    MapSanitizeEscaped(u);
    MapSanitizeKeepsLayout(u);
  }
}
