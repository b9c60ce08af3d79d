/** The file names the page derives from an upload: the base name stored when
    a file arrives (`file.name.replace(/\.[^.]+$/, "") || "ali-bg-remover"`)
    and the suggested download name built from it. */
module Naming {
  import opened Common

  const DefaultBaseName := "ali-bg-remover"
  const DefaultDownloadName := "ali-bg-remover.png"
  const DownloadSuffix := "-no-bg.png"

  /** The characters JavaScript's `String.prototype.trim` removes and the
      regular-expression class `\s` matches: the ECMAScript WhiteSpace and
      LineTerminator characters. */
  predicate IsWhitespace(c: char)
  {
    || c == '\t' || c == '\n' || c == '\U{000B}' || c == '\U{000C}' || c == '\r'
    || c == ' ' || c == '\U{00A0}' || c == '\U{1680}'
    || ('\U{2000}' <= c <= '\U{200A}')
    || c == '\U{2028}' || c == '\U{2029}' || c == '\U{202F}' || c == '\U{205F}'
    || c == '\U{3000}' || c == '\U{FEFF}'
  }

  predicate NoWhitespace(s: string)
  {
    forall i :: 0 <= i < |s| ==> !IsWhitespace(s[i])
  }

  // ---------------------------------------------------------------------
  // Base name: strip the last extension
  // ---------------------------------------------------------------------

  /** Index of the last '.' in `s`, or -1 when there is none. */
  function LastDot(s: string): (k: int)
    ensures -1 <= k < |s|
    ensures k >= 0 ==> s[k] == '.' && forall j :: k < j < |s| ==> s[j] != '.'
    ensures k == -1 ==> forall j :: 0 <= j < |s| ==> s[j] != '.'
  {
    if s == [] then -1
    else if s[|s| - 1] == '.' then |s| - 1
    else LastDot(s[..|s| - 1])
  }

  /** `name.replace(/\.[^.]+$/, "")`: the only dot the pattern can match is the
      last one, and only when at least one character follows it. */
  function StripExtension(name: string): (r: string)
    ensures IsPrefix(r, name)
  {
    var k := LastDot(name);
    if 0 <= k < |name| - 1 then name[..k] else name
  }

  /** The base name kept for an upload: an empty result falls back to the
      default base name. */
  function BaseName(name: string): (r: string)
    ensures r != []
    ensures r == DefaultBaseName || IsPrefix(r, name)
    ensures StripExtension(name) != [] ==> r == StripExtension(name)
  {
    var stripped := StripExtension(name);
    if stripped == [] then DefaultBaseName else stripped
  }

  /** A name that ends in '.' followed by a dot-free, non-empty extension
      loses exactly that extension. */
  lemma StripsLastExtension(stem: string, ext: string)
    requires ext != [] && forall j :: 0 <= j < |ext| ==> ext[j] != '.'
    ensures StripExtension(stem + "." + ext) == stem
  {
    var name := stem + "." + ext;
    var k := LastDot(name);
    assert name[|stem|] == '.';
    assert forall j :: |stem| < j < |name| ==> name[j] == ext[j - |stem| - 1];
    assert k == |stem|;
    assert name[..k] == stem;
  }

  /** Conversely, a name the pattern does not match (no dot at all, or a dot
      as its last character) is kept whole. */
  lemma KeepsNameWithoutExtension(name: string)
    requires (forall j :: 0 <= j < |name| ==> name[j] != '.') || (name != [] && name[|name| - 1] == '.')
    ensures StripExtension(name) == name
  {
  }

  /** The base name of the three kinds of upload name: a stem with an
      extension gives the stem, a bare extension gives the default, and a
      non-empty name the pattern does not match is kept whole. */
  lemma BaseNameCases(stem: string, ext: string, name: string)
    requires ext != [] && forall j :: 0 <= j < |ext| ==> ext[j] != '.'
    ensures stem != [] ==> BaseName(stem + "." + ext) == stem
    ensures BaseName("." + ext) == DefaultBaseName
    ensures name != [] && ((forall j :: 0 <= j < |name| ==> name[j] != '.') || name[|name| - 1] == '.')
            ==> BaseName(name) == name
  {
    StripsLastExtension(stem, ext);
    StripsLastExtension([], ext);
    assert [] + "." + ext == "." + ext;
    if name != [] && ((forall j :: 0 <= j < |name| ==> name[j] != '.') || name[|name| - 1] == '.') {
      KeepsNameWithoutExtension(name);
    }
  }

  /** Whatever is stripped is a '.' followed by a dot-free, non-empty
      extension. */
  lemma StrippedPartIsExtension(name: string)
    requires StripExtension(name) != name
    ensures var stem := StripExtension(name);
            |stem| < |name| - 1 && name[|stem|] == '.'
            && forall j :: |stem| < j < |name| ==> name[j] != '.'
  {
  }

  // ---------------------------------------------------------------------
  // Download name: trim, hyphenate whitespace runs, lower-case, suffix
  // ---------------------------------------------------------------------

  /** Drops the leading whitespace of `s`. */
  function TrimStart(s: string): (r: string)
    ensures IsSuffix(r, s)
    ensures r == [] || !IsWhitespace(r[0])
    ensures forall i :: 0 <= i < |s| - |r| ==> IsWhitespace(s[i])
  {
    if s != [] && IsWhitespace(s[0]) then TrimStart(s[1..]) else s
  }

  /** Drops the trailing whitespace of `s`. */
  function TrimEnd(s: string): (r: string)
    ensures IsPrefix(r, s)
    ensures r == [] || !IsWhitespace(r[|r| - 1])
    ensures forall i :: |r| <= i < |s| ==> IsWhitespace(s[i])
  {
    if s != [] && IsWhitespace(s[|s| - 1]) then TrimEnd(s[..|s| - 1]) else s
  }

  /** `String.prototype.trim`. */
  function Trim(s: string): (r: string)
    ensures |r| <= |s|
    ensures r == [] || (!IsWhitespace(r[0]) && !IsWhitespace(r[|r| - 1]))
  {
    TrimEnd(TrimStart(s))
  }

  /** The trimmed string is the middle of `s` between a whitespace prefix and
      a whitespace suffix, and neither starts nor ends with whitespace. */
  lemma TrimIsInnerPart(s: string)
    ensures var r, lead := Trim(s), |s| - |TrimStart(s)|;
            && (r == [] || (!IsWhitespace(r[0]) && !IsWhitespace(r[|r| - 1])))
            && lead + |r| <= |s| && s[lead..lead + |r|] == r
            && (forall i :: 0 <= i < lead ==> IsWhitespace(s[i]))
            && (forall i :: lead + |r| <= i < |s| ==> IsWhitespace(s[i]))
  {
    var t := TrimStart(s);
    var r := TrimEnd(t);
    var lead := |s| - |t|;
    assert s[lead..] == t;
    assert s[lead..lead + |r|] == t[..|r|] == r;
    forall i | lead + |r| <= i < |s| ensures IsWhitespace(s[i]) {
      assert s[i] == t[i - lead];
    }
  }

  /** `s.replace(/\s+/g, "-")`: every maximal run of whitespace becomes one
      hyphen. */
  function HyphenateWhitespace(s: string): (r: string)
    ensures NoWhitespace(r)
    ensures |r| <= |s|
    decreases |s|
  {
    if s == [] then []
    else if IsWhitespace(s[0]) then "-" + HyphenateWhitespace(TrimStart(s[1..]))
    else [s[0]] + HyphenateWhitespace(s[1..])
  }

  const LowerLetters := "abcdefghijklmnopqrstuvwxyz"

  predicate IsUpper(c: char)
  {
    'A' <= c <= 'Z'
  }

  /** `toLowerCase` on one character, for the ASCII letters. */
  function LowerChar(c: char): (d: char)
    ensures !IsUpper(d)
    ensures IsUpper(c) ==> d == LowerLetters[c as int - 'A' as int]
    ensures !IsUpper(c) ==> d == c
  {
    if IsUpper(c) then (c as int - 'A' as int + 'a' as int) as char else c
  }

  function ToLower(s: string): (r: string)
    ensures |r| == |s|
    ensures forall i :: 0 <= i < |r| ==> !IsUpper(r[i])
    ensures forall i :: 0 <= i < |s| && IsUpper(s[i]) ==> r[i] == LowerLetters[s[i] as int - 'A' as int]
    ensures forall i :: 0 <= i < |s| && !IsUpper(s[i]) ==> r[i] == s[i]
  {
    seq(|s|, i requires 0 <= i < |s| => LowerChar(s[i]))
  }

  /** The sanitized stem of the download name. */
  function Sanitize(name: string): (r: string)
    ensures |r| <= |name|
    ensures NoWhitespace(r)
    ensures forall i :: 0 <= i < |r| ==> !IsUpper(r[i])
  {
    ToLower(HyphenateWhitespace(Trim(name)))
  }

  /** The `downloadFileName` memo: a missing (or empty) base name gives the
      default download name; any other base name is sanitized and suffixed. */
  function DownloadFileName(fileName: Option<string>): (r: string)
    ensures NoWhitespace(r)
    ensures IsSuffix(".png", r)
  {
    LiteralsHaveNoWhitespace();
    if fileName.None? || fileName.value == [] then
      assert DefaultDownloadName == "ali-bg-remover" + ".png";
      DefaultDownloadName
    else
      var stem := Sanitize(fileName.value);
      SuffixedName(stem, DownloadSuffix);
      stem + DownloadSuffix
  }

  /** The download name never contains whitespace and always ends in ".png";
      a present base name gives a name ending in "-no-bg.png" whose stem keeps
      the base name's visible characters. */
  lemma DownloadNameShape(fileName: Option<string>)
    ensures fileName.None? || fileName.value == [] ==> DownloadFileName(fileName) == DefaultDownloadName
    ensures fileName.Some? && fileName.value != [] ==>
              && IsSuffix(DownloadSuffix, DownloadFileName(fileName))
              && Visible(DownloadFileName(fileName)[..|DownloadFileName(fileName)| - |DownloadSuffix|])
                 == ToLower(Visible(Trim(fileName.value)))
  {
    if fileName.Some? && fileName.value != [] {
      var stem := Sanitize(fileName.value);
      LiteralsHaveNoWhitespace();
      SuffixedName(stem, DownloadSuffix);
      SanitizeKeepsVisible(fileName.value);
    }
  }

  lemma LiteralsHaveNoWhitespace()
    ensures NoWhitespace(DownloadSuffix) && NoWhitespace(DefaultDownloadName)
  {
    forall i | 0 <= i < |DownloadSuffix| ensures !IsWhitespace(DownloadSuffix[i]) {
      PrintableIsNotWhitespace(DownloadSuffix[i]);
    }
    forall i | 0 <= i < |DefaultDownloadName| ensures !IsWhitespace(DefaultDownloadName[i]) {
      PrintableIsNotWhitespace(DefaultDownloadName[i]);
    }
  }

  /** Printable ASCII characters other than the space are not whitespace. */
  lemma PrintableIsNotWhitespace(c: char)
    requires '!' <= c <= '~'
    ensures !IsWhitespace(c)
  {
  }

  /** Appending a whitespace-free suffix keeps a name free of whitespace and
      leaves the stem in front of the suffix. */
  lemma SuffixedName(stem: string, suffix: string)
    requires NoWhitespace(stem) && NoWhitespace(suffix) && IsSuffix(".png", suffix)
    ensures NoWhitespace(stem + suffix)
    ensures IsSuffix(suffix, stem + suffix) && IsSuffix(".png", stem + suffix)
    ensures (stem + suffix)[..|stem + suffix| - |suffix|] == stem
  {
    var r := stem + suffix;
    assert r[|r| - |suffix|..] == suffix;
    assert r[|r| - 4..] == suffix[|suffix| - 4..];
    assert r[..|r| - |suffix|] == stem;
    forall i | 0 <= i < |r| ensures !IsWhitespace(r[i]) {
      if i >= |stem| { assert r[i] == suffix[i - |stem|]; }
    }
  }

  /** Lower-casing never produces whitespace. */
  lemma LowerKeepsNoWhitespace(s: string)
    requires NoWhitespace(s)
    ensures NoWhitespace(ToLower(s))
  {
  }

  /** The characters a reader sees in a name: neither whitespace nor hyphen. */
  function Visible(s: string): (r: string)
    ensures |r| <= |s|
  {
    if s == [] then []
    else if IsWhitespace(s[0]) || s[0] == '-' then Visible(s[1..])
    else [s[0]] + Visible(s[1..])
  }

  lemma {:induction false} TrimStartKeepsVisible(s: string)
    ensures Visible(TrimStart(s)) == Visible(s)
  {
    if s != [] && IsWhitespace(s[0]) {
      TrimStartKeepsVisible(s[1..]);
    }
  }

  /** Hyphenating whitespace runs keeps every visible character, in order:
      only whitespace is replaced. */
  lemma {:induction false} HyphenateKeepsVisible(s: string)
    ensures Visible(HyphenateWhitespace(s)) == Visible(s)
    decreases |s|
  {
    if s == [] {
    } else if IsWhitespace(s[0]) {
      var rest := TrimStart(s[1..]);
      HyphenateKeepsVisible(rest);
      TrimStartKeepsVisible(s[1..]);
      assert ("-" + HyphenateWhitespace(rest))[1..] == HyphenateWhitespace(rest);
    } else {
      HyphenateKeepsVisible(s[1..]);
      assert ([s[0]] + HyphenateWhitespace(s[1..]))[1..] == HyphenateWhitespace(s[1..]);
    }
  }

  /** A string without whitespace is left as it is. */
  lemma {:induction false} HyphenateIdentity(s: string)
    requires NoWhitespace(s)
    ensures HyphenateWhitespace(s) == s
  {
    if s != [] {
      HyphenateIdentity(s[1..]);
    }
  }

  /** Leading whitespace of `a + b` is that of `a`, and continues into `b`
      only when `a` is all whitespace. */
  lemma {:induction false} TrimStartAppend(a: string, b: string)
    ensures TrimStart(a + b) == if TrimStart(a) == [] then TrimStart(b) else TrimStart(a) + b
  {
    if a == [] {
      assert a + b == b;
    } else {
      assert (a + b)[0] == a[0] && (a + b)[1..] == a[1..] + b;
      if IsWhitespace(a[0]) {
        TrimStartAppend(a[1..], b);
      }
    }
  }

  /** A non-empty run of whitespace becomes exactly one hyphen. */
  lemma HyphenateRun(w: string)
    requires w != [] && forall i :: 0 <= i < |w| ==> IsWhitespace(w[i])
    ensures HyphenateWhitespace(w) == "-"
  {
  }

  /** Hyphenation works piece by piece: splitting a string anywhere except
      inside a whitespace run, and hyphenating each piece, gives the same
      result. Together with `HyphenateRun` and `HyphenateIdentity` this says
      every maximal whitespace run becomes one "-" and nothing else changes. */
  lemma {:induction false} HyphenateSplits(x: string, y: string)
    requires x == [] || y == [] || !IsWhitespace(x[|x| - 1]) || !IsWhitespace(y[0])
    ensures HyphenateWhitespace(x + y) == HyphenateWhitespace(x) + HyphenateWhitespace(y)
    decreases |x|
  {
    if x == [] {
      assert x + y == y;
    } else if y == [] {
      assert x + y == x;
    } else if !IsWhitespace(x[0]) {
      HyphenateSplits(x[1..], y);
      HyphenateVisibleHead(x, y);
    } else {
      var t := TrimStart(x[1..]);
      LastOfTrimStart(x);
      if t == [] {
        HyphenateWholeRunHead(x, y);
      } else {
        HyphenateSplits(t, y);
        HyphenateRunInsideHead(x, y);
      }
    }
  }

  /** One step of `HyphenateSplits` when `x` starts with a visible character. */
  lemma HyphenateVisibleHead(x: string, y: string)
    requires x != [] && !IsWhitespace(x[0])
    requires HyphenateWhitespace(x[1..] + y) == HyphenateWhitespace(x[1..]) + HyphenateWhitespace(y)
    ensures HyphenateWhitespace(x + y) == HyphenateWhitespace(x) + HyphenateWhitespace(y)
  {
    UnfoldVisible(x, y);
    Regroup(HyphenateWhitespace(x + y), HyphenateWhitespace(x), [x[0]],
            HyphenateWhitespace(x[1..] + y), HyphenateWhitespace(x[1..]), HyphenateWhitespace(y));
  }

  /** One step of `HyphenateSplits` when `x` is one whitespace run and `y`
      starts with a visible character. */
  lemma HyphenateWholeRunHead(x: string, y: string)
    requires x != [] && y != [] && IsWhitespace(x[0]) && TrimStart(x[1..]) == []
    requires !IsWhitespace(y[0])
    ensures HyphenateWhitespace(x + y) == HyphenateWhitespace(x) + HyphenateWhitespace(y)
  {
    TrimStartAppend(x[1..], y);
    UnfoldWhitespace(x, y);
    UnfoldWhitespaceWhole(x);
    assert TrimStart(y) == y;
  }

  /** One step of `HyphenateSplits` when the whitespace run at the head of
      `x` ends inside `x`. */
  lemma HyphenateRunInsideHead(x: string, y: string)
    requires x != [] && IsWhitespace(x[0]) && TrimStart(x[1..]) != []
    requires HyphenateWhitespace(TrimStart(x[1..]) + y)
             == HyphenateWhitespace(TrimStart(x[1..])) + HyphenateWhitespace(y)
    ensures HyphenateWhitespace(x + y) == HyphenateWhitespace(x) + HyphenateWhitespace(y)
  {
    var t := TrimStart(x[1..]);
    RunThenRest(x, y);
    UnfoldWhitespaceWhole(x);
    Regroup(HyphenateWhitespace(x + y), HyphenateWhitespace(x), "-",
            HyphenateWhitespace(t + y), HyphenateWhitespace(t), HyphenateWhitespace(y));
  }

  /** A whitespace run at the head of `x` that ends inside `x` becomes "-",
      and hyphenation goes on after it, into `y`. */
  lemma RunThenRest(x: string, y: string)
    requires x != [] && IsWhitespace(x[0]) && TrimStart(x[1..]) != []
    ensures HyphenateWhitespace(x + y) == "-" + HyphenateWhitespace(TrimStart(x[1..]) + y)
  {
    TrimStartAppend(x[1..], y);
    UnfoldWhitespace(x, y);
  }

  lemma UnfoldWhitespaceWhole(x: string)
    requires x != [] && IsWhitespace(x[0])
    ensures HyphenateWhitespace(x) == "-" + HyphenateWhitespace(TrimStart(x[1..]))
  {
  }

  /** The sequence step shared by the cases of `HyphenateSplits`: a head
      followed by a split rest is the head and the first part, followed by the
      second part. */
  lemma Regroup(whole: string, first: string, head: string, rest: string, a: string, b: string)
    requires whole == head + rest && first == head + a && rest == a + b
    ensures whole == first + b
  {
    assert head + (a + b) == (head + a) + b;
  }

  /** Unfolds `HyphenateWhitespace` at a visible first character of `x + y`. */
  lemma UnfoldVisible(x: string, y: string)
    requires x != [] && !IsWhitespace(x[0])
    ensures HyphenateWhitespace(x + y) == [x[0]] + HyphenateWhitespace(x[1..] + y)
  {
    var xy := x + y;
    assert xy[0] == x[0] && xy[1..] == x[1..] + y;
  }

  /** Unfolds `HyphenateWhitespace` at a whitespace first character of `x + y`. */
  lemma UnfoldWhitespace(x: string, y: string)
    requires x != [] && IsWhitespace(x[0])
    ensures HyphenateWhitespace(x + y) == "-" + HyphenateWhitespace(TrimStart(x[1..] + y))
  {
    var xy := x + y;
    assert xy[0] == x[0] && xy[1..] == x[1..] + y;
  }

  /** What `TrimStart` leaves of `x[1..]` ends where `x` ends; when it leaves
      nothing, `x` ends in whitespace. */
  lemma LastOfTrimStart(x: string)
    requires x != [] && IsWhitespace(x[0])
    ensures var t := TrimStart(x[1..]);
            && (t == [] ==> IsWhitespace(x[|x| - 1]))
            && (t != [] ==> t[|t| - 1] == x[|x| - 1])
  {
    var t := TrimStart(x[1..]);
    if t == [] {
      if |x| > 1 {
        assert x[|x| - 1] == x[1..][|x| - 2];
      }
    } else {
      assert x[1..][|x[1..]| - |t|..] == t;
      assert t[|t| - 1] == x[1..][|x| - 2];
    }
  }

  /** Sanitizing an already sanitized stem changes nothing. */
  lemma SanitizeIdempotent(name: string)
    ensures Sanitize(Sanitize(name)) == Sanitize(name)
  {
    var h := HyphenateWhitespace(Trim(name));
    var s := ToLower(h);
    LowerKeepsNoWhitespace(h);
    assert Trim(s) == s;
    HyphenateIdentity(s);
    assert ToLower(s) == s;
  }

  /** A sanitized stem keeps the name's visible characters, lower-cased. */
  lemma SanitizeKeepsVisible(name: string)
    ensures Visible(Sanitize(name)) == ToLower(Visible(Trim(name)))
  {
    var h := HyphenateWhitespace(Trim(name));
    HyphenateKeepsVisible(Trim(name));
    VisibleCommutesWithLower(h);
  }

  /** Lower-casing neither makes nor unmakes whitespace or a hyphen. */
  lemma LowerKeepsClass(c: char)
    ensures IsWhitespace(LowerChar(c)) == IsWhitespace(c)
    ensures (LowerChar(c) == '-') == (c == '-')
  {
  }

  lemma {:induction false} VisibleCommutesWithLower(s: string)
    ensures Visible(ToLower(s)) == ToLower(Visible(s))
  {
    if s != [] {
      LowerKeepsClass(s[0]);
      VisibleCommutesWithLower(s[1..]);
      ToLowerCons(s);
      ToLowerCons([s[0]] + Visible(s[1..]));
      assert ([s[0]] + Visible(s[1..]))[1..] == Visible(s[1..]);
    }
  }

  /** `ToLower` works character by character from the front. */
  lemma ToLowerCons(s: string)
    requires s != []
    ensures ToLower(s) == [LowerChar(s[0])] + ToLower(s[1..])
  {
  }
}
