/** Normalisation of the text the OCR engine recognised in the captcha image
    (the tail of `leer_captcha`): the fragments are joined in order, every
    space is removed, surrounding whitespace is stripped, and every character
    other than an ASCII letter or digit is deleted. */
module CaptchaText {

  /** The class `[A-Za-z0-9]` of the regular expression. */
  predicate IsAsciiAlnum(c: char) {
    ('A' <= c <= 'Z') || ('a' <= c <= 'z') || ('0' <= c <= '9')
  }

  /** The characters Python's `str.strip()` removes (those for which
      `str.isspace()` holds). */
  predicate IsWhitespace(c: char) {
    ('\t' <= c <= '\r') || ('\U{1c}' <= c <= ' ') || c == '\U{85}' || c == '\U{a0}'
    || c == '\U{1680}' || ('\U{2000}' <= c <= '\U{200a}') || c == '\U{2028}' || c == '\U{2029}'
    || c == '\U{202f}' || c == '\U{205f}' || c == '\U{3000}'
  }

  /** `"".join(fragments)` */
  function Join(fragments: seq<string>): string {
    if |fragments| == 0 then "" else fragments[0] + Join(fragments[1..])
  }

  /** A single fragment is the whole text. */
  lemma JoinOne(fragment: string)
    ensures Join([fragment]) == fragment
  {
    assert [fragment][1..] == [];
    assert fragment + "" == fragment;
  }

  /** `s.replace(c, "")` */
  function Remove(s: string, c: char): string {
    if |s| == 0 then ""
    else if s[0] == c then Remove(s[1..], c)
    else [s[0]] + Remove(s[1..], c)
  }

  /** Every occurrence of `c` goes, every other character stays as often as
      it occurs, and a text without `c` is unchanged. */
  lemma {:induction false} RemoveProperties(s: string, c: char)
    ensures c !in Remove(s, c)
    ensures forall d :: d != c ==> multiset(Remove(s, c))[d] == multiset(s)[d]
    ensures |Remove(s, c)| <= |s|
    ensures c !in s ==> Remove(s, c) == s
  {
    if |s| > 0 {
      RemoveProperties(s[1..], c);
      assert [s[0]] + s[1..] == s;
    }
  }

  /** Removal works character by character, so it keeps the order of what
      remains. */
  lemma {:induction false} RemoveAppend(s: string, t: string, c: char)
    ensures Remove(s + t, c) == Remove(s, c) + Remove(t, c)
  {
    if |s| > 0 {
      assert (s + t)[1..] == s[1..] + t;
      RemoveAppend(s[1..], t, c);
    } else {
      assert s + t == t;
    }
  }

  /** `s.lstrip()` */
  function StripLeft(s: string): string {
    if |s| > 0 && IsWhitespace(s[0]) then StripLeft(s[1..]) else s
  }

  /** The result is a suffix of the input that does not start with
      whitespace, and only whitespace is removed in front of it. */
  lemma {:induction false} StripLeftProperties(s: string)
    ensures var r := StripLeft(s);
      && |r| <= |s| && r == s[|s| - |r|..]
      && (forall i :: 0 <= i < |s| - |r| ==> IsWhitespace(s[i]))
      && (r == [] || !IsWhitespace(r[0]))
  {
    if |s| > 0 && IsWhitespace(s[0]) {
      StripLeftProperties(s[1..]);
      var r := StripLeft(s[1..]);
      assert s[1..][|s| - 1 - |r|..] == s[|s| - |r|..];
    }
  }

  /** `s.rstrip()` */
  function StripRight(s: string): string {
    if |s| > 0 && IsWhitespace(s[|s| - 1]) then StripRight(s[..|s| - 1]) else s
  }

  /** The result is a prefix of the input that does not end with
      whitespace, and only whitespace is removed after it. */
  lemma {:induction false} StripRightProperties(s: string)
    ensures var r := StripRight(s);
      && |r| <= |s| && r == s[..|r|]
      && (forall i :: |r| <= i < |s| ==> IsWhitespace(s[i]))
      && (r == [] || !IsWhitespace(r[|r| - 1]))
  {
    if |s| > 0 && IsWhitespace(s[|s| - 1]) {
      StripRightProperties(s[..|s| - 1]);
      var r := StripRight(s[..|s| - 1]);
      assert s[..|s| - 1][..|r|] == s[..|r|];
    }
  }

  /** `s.strip()` */
  function Strip(s: string): string {
    StripRight(StripLeft(s))
  }

  /** `re.sub(r"[^A-Za-z0-9]", "", s)`: keeps the ASCII letters and digits,
      in order. */
  function KeepAlnum(s: string): string {
    if |s| == 0 then ""
    else (if IsAsciiAlnum(s[0]) then [s[0]] else []) + KeepAlnum(s[1..])
  }

  /** Only ASCII letters and digits are left, and nothing is added. */
  lemma {:induction false} KeepAlnumProperties(s: string)
    ensures forall i :: 0 <= i < |KeepAlnum(s)| ==> IsAsciiAlnum(KeepAlnum(s)[i])
    ensures |KeepAlnum(s)| <= |s|
  {
    if |s| > 0 {
      KeepAlnumProperties(s[1..]);
    }
  }

  /** The captcha text `leer_captcha` returns for the fragments the OCR
      engine reported. */
  function Normalise(fragments: seq<string>): string {
    if |fragments| == 0 then ""
    else KeepAlnum(Strip(Remove(Join(fragments), ' ')))
  }

  /** The filter distributes over concatenation. */
  lemma {:induction false} KeepAlnumAppend(s: string, t: string)
    ensures KeepAlnum(s + t) == KeepAlnum(s) + KeepAlnum(t)
  {
    if |s| > 0 {
      assert (s + t)[1..] == s[1..] + t;
      KeepAlnumAppend(s[1..], t);
    } else {
      assert s + t == t;
    }
  }

  /** The filter keeps exactly the ASCII letters and digits: each of them as
      often as in the input, and nothing else. */
  lemma {:induction false} KeepAlnumCounts(s: string, c: char)
    ensures multiset(KeepAlnum(s))[c] == if IsAsciiAlnum(c) then multiset(s)[c] else 0
  {
    if |s| > 0 {
      KeepAlnumCounts(s[1..], c);
      assert s == [s[0]] + s[1..];
    }
  }

  /** A text made only of ASCII letters and digits passes the filter
      unchanged, so the filter is idempotent. */
  lemma {:induction false} KeepAlnumFixes(s: string)
    requires forall i :: 0 <= i < |s| ==> IsAsciiAlnum(s[i])
    ensures KeepAlnum(s) == s
  {
    if |s| > 0 {
      KeepAlnumFixes(s[1..]);
    }
  }

  lemma KeepAlnumIdempotent(s: string)
    ensures KeepAlnum(KeepAlnum(s)) == KeepAlnum(s)
  {
    KeepAlnumProperties(s);
    KeepAlnumFixes(KeepAlnum(s));
  }

  /** Removing spaces before the filter changes nothing: a space is not
      alphanumeric. */
  lemma {:induction false} KeepAlnumIgnoresRemove(s: string)
    ensures KeepAlnum(Remove(s, ' ')) == KeepAlnum(s)
  {
    if |s| > 0 {
      KeepAlnumIgnoresRemove(s[1..]);
    }
  }

  lemma {:induction false} KeepAlnumIgnoresStripLeft(s: string)
    ensures KeepAlnum(StripLeft(s)) == KeepAlnum(s)
  {
    if |s| > 0 && IsWhitespace(s[0]) {
      KeepAlnumIgnoresStripLeft(s[1..]);
    }
  }

  lemma {:induction false} KeepAlnumIgnoresStripRight(s: string)
    ensures KeepAlnum(StripRight(s)) == KeepAlnum(s)
  {
    if |s| > 0 && IsWhitespace(s[|s| - 1]) {
      var init := s[..|s| - 1];
      KeepAlnumIgnoresStripRight(init);
      assert s == init + [s[|s| - 1]];
      KeepAlnumAppend(init, [s[|s| - 1]]);
    }
  }

  /** Space removal and stripping only delete characters the filter deletes
      anyway, and the early return for an empty OCR result agrees with the
      general case: the captcha text is the alphanumeric subsequence of the
      joined fragments. */
  lemma NormaliseIsFilter(fragments: seq<string>)
    ensures Normalise(fragments) == KeepAlnum(Join(fragments))
  {
    if |fragments| > 0 {
      var joined := Join(fragments);
      var spaceless := Remove(joined, ' ');
      KeepAlnumIgnoresStripLeft(spaceless);
      KeepAlnumIgnoresStripRight(StripLeft(spaceless));
      KeepAlnumIgnoresRemove(joined);
    }
  }

  /** The properties the caller relies on: only ASCII letters and digits, a
      second normalisation changes nothing, never longer than the joined
      fragments, and empty when the OCR engine reported nothing. */
  lemma NormaliseProperties(fragments: seq<string>)
    ensures forall i :: 0 <= i < |Normalise(fragments)| ==> IsAsciiAlnum(Normalise(fragments)[i])
    ensures Normalise([Normalise(fragments)]) == Normalise(fragments)
    ensures |Normalise(fragments)| <= |Join(fragments)|
    ensures fragments == [] ==> Normalise(fragments) == ""
  {
    var t := Normalise(fragments);
    NormaliseIsFilter(fragments);
    NormaliseIsFilter([t]);
    JoinOne(t);
    KeepAlnumProperties(Join(fragments));
    KeepAlnumFixes(t);
  }

  lemma {:induction false} JoinAppend(f: seq<string>, g: seq<string>)
    ensures Join(f + g) == Join(f) + Join(g)
  {
    if |f| > 0 {
      assert (f + g)[1..] == f[1..] + g;
      JoinAppend(f[1..], g);
    } else {
      assert f + g == g;
    }
  }

  /** Splitting the OCR result anywhere and normalising the parts separately
      gives the same text. */
  lemma NormaliseAppend(f: seq<string>, g: seq<string>)
    ensures Normalise(f + g) == Normalise(f) + Normalise(g)
  {
    NormaliseIsFilter(f + g);
    NormaliseIsFilter(f);
    NormaliseIsFilter(g);
    JoinAppend(f, g);
    KeepAlnumAppend(Join(f), Join(g));
  }
}
