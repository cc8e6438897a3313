/** Strings: the whitespace rules of JavaScript's `String.prototype.trim` and
    Java's `String.trim`, splitting and joining on a separator character, the
    line-ending normalisation applied to imported participant files, and the
    decimal rendering of an integer. */
module Text {

  /** A character JavaScript's `trim` removes: the WhiteSpace and LineTerminator
      code points of ECMA-262 (tab, vertical tab, form feed, space, no-break space,
      byte-order mark, the Unicode space separators, and the four line terminators). */
  predicate IsJsSpace(c: char) {
    c == '\t' || c == '\n' || c == '\U{000B}' || c == '\U{000C}' || c == '\r' || c == ' '
    || c == '\U{00A0}' || c == '\U{1680}' || ('\U{2000}' <= c <= '\U{200A}')
    || c == '\U{2028}' || c == '\U{2029}' || c == '\U{202F}' || c == '\U{205F}'
    || c == '\U{3000}' || c == '\U{FEFF}'
  }

  /** A character Java's `String.trim` removes: any code point up to U+0020. */
  predicate IsJavaSpace(c: char) {
    c <= ' '
  }

  /** `s` without its leading characters that satisfy `space`. */
  function TrimStart(s: string, space: char -> bool): (r: string)
    ensures |r| <= |s| && r == s[|s| - |r|..]
    ensures r == [] || !space(r[0])
    ensures forall k :: 0 <= k < |s| - |r| ==> space(s[k])
    decreases |s|
  {
    if |s| > 0 && space(s[0]) then TrimStart(s[1..], space) else s
  }

  /** `s` without its trailing characters that satisfy `space`. */
  function TrimEnd(s: string, space: char -> bool): (r: string)
    ensures |r| <= |s| && r == s[..|r|]
    ensures r == [] || !space(r[|r| - 1])
    ensures forall k :: |r| <= k < |s| ==> space(s[k])
    decreases |s|
  {
    if |s| > 0 && space(s[|s| - 1]) then TrimEnd(s[..|s| - 1], space) else s
  }

  /** Both ends trimmed. */
  function Trim(s: string, space: char -> bool): (r: string)
    ensures |r| <= |s|
    ensures r == [] || (!space(r[0]) && !space(r[|r| - 1]))
  {
    TrimEnd(TrimStart(s, space), space)
  }

  /** JavaScript `s.trim()`. */
  function JsTrim(s: string): string {
    Trim(s, IsJsSpace)
  }

  /** Java `s.trim()`. */
  function JavaTrim(s: string): string {
    Trim(s, IsJavaSpace)
  }

  /** A string is blank when trimming leaves nothing, that is exactly when every
      character of it is removable. */
  lemma {:induction false} TrimEmptyIffAllSpace(s: string, space: char -> bool)
    ensures Trim(s, space) == [] <==> forall k :: 0 <= k < |s| ==> space(s[k])
  {
    var t := TrimStart(s, space);
    if Trim(s, space) == [] {
      assert t == [];
    } else {
      var r := Trim(s, space);
      assert r[0] == t[0];
      assert t[0] == s[|s| - |t|];
    }
  }

  /** Trimming twice trims nothing more. */
  lemma TrimIdempotent(s: string, space: char -> bool)
    ensures Trim(Trim(s, space), space) == Trim(s, space)
  {
    var r := Trim(s, space);
    if r != [] {
      assert TrimStart(r, space) == r;
    }
  }

  /** JavaScript `s.split(sep)` for a one-character separator: the maximal
      separator-free pieces, always at least one (`"".split(sep)` is `[""]`). */
  function Split(s: string, sep: char): (r: seq<string>)
    ensures |r| >= 1
    ensures forall i :: 0 <= i < |r| ==> sep !in r[i]
    decreases |s|
  {
    if |s| == 0 then [""]
    else
      var rest := Split(s[1..], sep);
      if s[0] == sep then [""] + rest
      else [[s[0]] + rest[0]] + rest[1..]
  }

  /** JavaScript `lines.join(sep)`. */
  function Join(lines: seq<string>, sep: char): string
    decreases |lines|
  {
    if |lines| == 0 then ""
    else if |lines| == 1 then lines[0]
    else lines[0] + [sep] + Join(lines[1..], sep)
  }

  /** Joining the pieces of a split gives back the original text. */
  lemma {:induction false} JoinSplit(s: string, sep: char)
    ensures Join(Split(s, sep), sep) == s
    decreases |s|
  {
    if |s| > 0 {
      var rest := Split(s[1..], sep);
      JoinSplit(s[1..], sep);
      assert s == [s[0]] + s[1..];
      if s[0] != sep {
        var r := Split(s, sep);
        assert r[1..] == rest[1..];
        if |rest| > 1 {
          assert rest == [rest[0]] + rest[1..];
          assert Join(rest, sep) == rest[0] + [sep] + Join(rest[1..], sep);
        }
      }
    }
  }

  /** Splitting a separator-free line followed by more text starts with that line. */
  lemma {:induction false} SplitPrefix(line: string, rest: string, sep: char)
    requires sep !in line
    ensures Split(line + rest, sep)
         == [line + Split(rest, sep)[0]] + Split(rest, sep)[1..]
    decreases |line|
  {
    if |line| > 0 {
      assert (line + rest)[1..] == line[1..] + rest;
      SplitPrefix(line[1..], rest, sep);
      assert [line[0]] + (line[1..] + Split(rest, sep)[0]) == line + Split(rest, sep)[0];
    } else {
      var r := Split(rest, sep);
      assert line + rest == rest;
      assert line + r[0] == r[0];
      assert r == [r[0]] + r[1..];
    }
  }

  /** Splitting a join of separator-free lines gives back the lines. */
  lemma {:induction false} SplitJoin(lines: seq<string>, sep: char)
    requires |lines| >= 1
    requires forall i :: 0 <= i < |lines| ==> sep !in lines[i]
    ensures Split(Join(lines, sep), sep) == lines
    decreases |lines|
  {
    if |lines| == 1 {
      SplitPrefix(lines[0], "", sep);
      assert lines[0] + "" == lines[0];
    } else {
      var tail := Join(lines[1..], sep);
      SplitJoin(lines[1..], sep);
      assert lines[0] + [sep] + tail == lines[0] + ([sep] + tail);
      SplitPrefix(lines[0], [sep] + tail, sep);
      assert ([sep] + tail)[1..] == tail;
      assert lines[0] + "" == lines[0];
      assert lines == [lines[0]] + lines[1..];
    }
  }

  /** Appending a separator and one more separator-free line appends one piece. */
  lemma AppendLine(text: string, line: string, sep: char)
    requires sep !in line
    ensures Split(text + [sep] + line, sep) == Split(text, sep) + [line]
  {
    var pieces := Split(text, sep);
    JoinSplit(text, sep);
    SplitJoin(pieces + [line], sep);
    JoinAppend(pieces, line, sep);
  }

  lemma {:induction false} JoinAppend(lines: seq<string>, line: string, sep: char)
    requires |lines| >= 1
    ensures Join(lines + [line], sep) == Join(lines, sep) + [sep] + line
    decreases |lines|
  {
    if |lines| == 1 {
      assert (lines + [line])[1..] == [line];
    } else {
      assert (lines + [line])[1..] == lines[1..] + [line];
      JoinAppend(lines[1..], line, sep);
    }
  }

  /** Joining two non-empty runs of lines puts one separator between them. */
  lemma {:induction false} JoinConcat(a: seq<string>, b: seq<string>, sep: char)
    requires |a| >= 1 && |b| >= 1
    ensures Join(a + b, sep) == Join(a, sep) + [sep] + Join(b, sep)
    decreases |a|
  {
    if |a| == 1 {
      assert (a + b)[1..] == b;
    } else {
      assert (a + b)[1..] == a[1..] + b;
      JoinConcat(a[1..], b, sep);
    }
  }

  /** Splitting two texts glued by a separator splits each of them. */
  lemma SplitConcat(a: string, b: string, sep: char)
    ensures Split(a + [sep] + b, sep) == Split(a, sep) + Split(b, sep)
  {
    var pa, pb := Split(a, sep), Split(b, sep);
    JoinSplit(a, sep);
    JoinSplit(b, sep);
    JoinConcat(pa, pb, sep);
    SplitJoin(pa + pb, sep);
  }

  /** Every character of a piece of a split comes from the split text. */
  lemma {:induction false} SplitChars(s: string, sep: char)
    ensures forall i, c :: 0 <= i < |Split(s, sep)| && c in Split(s, sep)[i] ==> c in s
    decreases |s|
  {
    if |s| > 0 {
      SplitChars(s[1..], sep);
      var rest := Split(s[1..], sep);
      assert forall c :: c in s[1..] ==> c in s;
      if s[0] != sep {
        assert Split(s, sep)[1..] == rest[1..];
      }
    }
  }

  // Line-ending normalisation of an imported participant file.

  /** `s.replace(/^\uFEFF/, '')`: drop one leading byte-order mark. */
  function StripBom(s: string): string {
    if |s| > 0 && s[0] == '\U{FEFF}' then s[1..] else s
  }

  /** `s.replace(/\r\n/g, '\n')`: every CR LF pair, scanned left to right, becomes LF. */
  function CrLfToLf(s: string): (r: string)
    ensures |r| <= |s|
    decreases |s|
  {
    if |s| >= 2 && s[0] == '\r' && s[1] == '\n' then "\n" + CrLfToLf(s[2..])
    else if |s| > 0 then [s[0]] + CrLfToLf(s[1..])
    else ""
  }

  /** `s.replace(/\r/g, '\n')`: every remaining CR becomes LF. */
  function CrToLf(s: string): (r: string)
    ensures |r| == |s|
    ensures '\r' !in r
    ensures forall k :: 0 <= k < |s| ==> r[k] == (if s[k] == '\r' then '\n' else s[k])
    decreases |s|
  {
    if |s| == 0 then "" else [if s[0] == '\r' then '\n' else s[0]] + CrToLf(s[1..])
  }

  /**
   * Reference reading of the two replacements: scanning left to right, a CR LF
   * pair becomes one LF, a CR on its own becomes one LF, every other character
   * is kept.
   */
  function UnifyLineBreaks(s: string): (r: string)
    decreases |s|
  {
    if |s| >= 2 && s[0] == '\r' && s[1] == '\n' then "\n" + UnifyLineBreaks(s[2..])
    else if |s| > 0 && s[0] == '\r' then "\n" + UnifyLineBreaks(s[1..])
    else if |s| > 0 then [s[0]] + UnifyLineBreaks(s[1..])
    else ""
  }

  /** The two replacements in a row are exactly `UnifyLineBreaks`. */
  lemma {:induction false} ReplacementsUnifyLineBreaks(s: string)
    ensures CrToLf(CrLfToLf(s)) == UnifyLineBreaks(s)
    decreases |s|
  {
    if |s| >= 2 && s[0] == '\r' && s[1] == '\n' {
      ReplacementsUnifyLineBreaks(s[2..]);
      var u := CrLfToLf(s[2..]);
      assert ("\n" + u)[1..] == u;
    } else if |s| > 0 {
      ReplacementsUnifyLineBreaks(s[1..]);
      var u := CrLfToLf(s[1..]);
      assert ([s[0]] + u)[1..] == u;
    }
  }

  /**
   * Line-break unification works piece by piece: cutting a text anywhere except
   * between the CR and the LF of a pair unifies the two pieces separately.
   * With the two one-pair cases this says every CR LF and every lone CR becomes
   * exactly one LF and nothing else changes.
   */
  lemma {:induction false} UnifyLineBreaksAppend(s: string, t: string)
    requires |s| == 0 || |t| == 0 || s[|s| - 1] != '\r' || t[0] != '\n'
    ensures UnifyLineBreaks(s + t) == UnifyLineBreaks(s) + UnifyLineBreaks(t)
    decreases |s|, 1
  {
    if |s| == 0 {
      assert s + t == t;
    } else if |s| >= 2 && s[0] == '\r' && s[1] == '\n' {
      AppendAfterPair(s, t);
    } else {
      AppendAfterSingle(s, t);
    }
  }

  lemma {:induction false} AppendAfterPair(s: string, t: string)
    requires |s| >= 2 && s[0] == '\r' && s[1] == '\n'
    requires |t| == 0 || s[|s| - 1] != '\r' || t[0] != '\n'
    ensures UnifyLineBreaks(s + t) == UnifyLineBreaks(s) + UnifyLineBreaks(t)
    decreases |s|, 0
  {
    var st, rest := s + t, s[2..];
    assert st[0] == '\r' && st[1] == '\n';
    assert st[2..] == rest + t;
    UnifyLineBreaksAppend(rest, t);
    UnifyPair(s);
    UnifyPair(st);
  }

  lemma {:induction false} AppendAfterSingle(s: string, t: string)
    requires |s| > 0 && !(|s| >= 2 && s[0] == '\r' && s[1] == '\n')
    requires |t| == 0 || s[|s| - 1] != '\r' || t[0] != '\n'
    ensures UnifyLineBreaks(s + t) == UnifyLineBreaks(s) + UnifyLineBreaks(t)
    decreases |s|, 0
  {
    var st, rest := s + t, s[1..];
    assert st[0] == s[0];
    assert st[1..] == rest + t;
    assert s[0] == '\r' ==> |st| < 2 || st[1] != '\n' by {
      if |s| >= 2 { assert st[1] == s[1]; }
    }
    UnifyLineBreaksAppend(rest, t);
    UnifySingle(s);
    UnifySingle(st);
  }

  lemma UnifyPair(x: string)
    requires |x| >= 2 && x[0] == '\r' && x[1] == '\n'
    ensures UnifyLineBreaks(x) == "\n" + UnifyLineBreaks(x[2..])
  {
  }

  lemma UnifySingle(x: string)
    requires |x| > 0 && !(|x| >= 2 && x[0] == '\r' && x[1] == '\n')
    ensures UnifyLineBreaks(x) == (if x[0] == '\r' then "\n" else [x[0]]) + UnifyLineBreaks(x[1..])
  {
  }

  /** A pair and a lone CR each give one LF; a text without CR is kept; no CR survives. */
  lemma {:induction false} UnifyLineBreaksBasics(s: string)
    ensures UnifyLineBreaks("\r\n") == "\n" && UnifyLineBreaks("\r") == "\n"
    ensures '\r' !in UnifyLineBreaks(s)
    ensures '\r' !in s ==> UnifyLineBreaks(s) == s
    decreases |s|
  {
    assert "\r\n"[2..] == [];
    assert "\r"[1..] == [];
    if |s| >= 2 && s[0] == '\r' && s[1] == '\n' {
      UnifyLineBreaksBasics(s[2..]);
    } else if |s| > 0 {
      UnifyLineBreaksBasics(s[1..]);
      assert '\r' !in s ==> s == [s[0]] + s[1..];
    }
  }

  /** The whole normalisation: BOM removed, CR LF and lone CR turned into LF, trimmed. */
  function NormaliseLineEndings(s: string): (r: string)
    ensures '\r' !in r
    ensures r == [] || (!IsJsSpace(r[0]) && !IsJsSpace(r[|r| - 1]))
  {
    var t := CrToLf(CrLfToLf(StripBom(s)));
    TrimIsInfix(t, IsJsSpace);
    JsTrim(t)
  }

  /** The normalised text is the BOM-free text with every CR LF pair and every lone
      CR made one LF (`UnifyLineBreaks`), trimmed. */
  lemma NormaliseUnifiesLineBreaks(s: string)
    ensures NormaliseLineEndings(s) == JsTrim(UnifyLineBreaks(StripBom(s)))
  {
    ReplacementsUnifyLineBreaks(StripBom(s));
  }

  lemma TrimIsInfix(s: string, space: char -> bool)
    ensures forall c :: c in Trim(s, space) ==> c in s
  {
    var t := TrimStart(s, space);
    assert forall c :: c in t ==> c in s;
  }

  lemma {:induction false} CrFreeUnchanged(s: string)
    requires '\r' !in s
    ensures CrLfToLf(s) == s && CrToLf(s) == s
    decreases |s|
  {
    if |s| > 0 {
      CrFreeUnchanged(s[1..]);
      assert s == [s[0]] + s[1..];
    }
  }

  /** Normalising an already normalised text changes nothing. */
  lemma NormaliseIdempotent(s: string)
    ensures NormaliseLineEndings(NormaliseLineEndings(s)) == NormaliseLineEndings(s)
  {
    var n := NormaliseLineEndings(s);
    assert StripBom(n) == n;
    CrFreeUnchanged(n);
    var t := CrToLf(CrLfToLf(StripBom(s)));
    TrimIdempotent(t, IsJsSpace);
  }

  /** Decimal rendering of an integer (`Integer.toString`, JavaScript `n.toString()`). */
  function DecimalString(n: int): (r: string)
    ensures |r| > 0
    ensures forall k :: 0 <= k < |r| ==> r[k] == '-' || '0' <= r[k] <= '9'
    decreases if n < 0 then 1 - n else n
  {
    if n < 0 then "-" + DecimalString(-n)
    else if n < 10 then [Digit(n)]
    else DecimalString(n / 10) + [Digit(n % 10)]
  }

  function Digit(d: int): (c: char)
    requires 0 <= d < 10
    ensures '0' <= c <= '9'
  {
    (48 + d) as char
  }

  /** A decimal rendering is never blank, so a score shown in a form is never read back as empty. */
  lemma DecimalStringNotBlank(n: int)
    ensures JsTrim(DecimalString(n)) != ""
  {
    var r := DecimalString(n);
    assert !IsJsSpace(r[0]);
    TrimEmptyIffAllSpace(r, IsJsSpace);
  }
}
