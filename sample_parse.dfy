/**
 * The text-to-samples step of `loadFile` in wwwroot/js/ecgChart.js:
 *   text.split('\n').map(line => parseInt(line.trim())).filter(Number.isFinite)
 * Lines are split at '\n', each line is trimmed with the ECMAScript whitespace
 * set, read with `parseInt` (no radix: decimal, or hexadecimal after "0x"/"0X"),
 * and only lines that give a number are kept, in their original order.
 */
module SampleParse {
  import opened Options

  // ---------------------------------------------------------------- split

  /** `s.split('\n')`: the pieces between line feeds; an empty text is one empty line. */
  function Split(s: string): (lines: seq<string>)
    ensures |lines| >= 1
    ensures forall i :: 0 <= i < |lines| ==> '\n' !in lines[i]
  {
    if |s| == 0 then [""]
    else
      var rest := Split(s[1..]);
      if s[0] == '\n' then [""] + rest
      else [[s[0]] + rest[0]] + rest[1..]
  }

  /** `lines.join('\n')`, the inverse of Split. */
  function Join(lines: seq<string>): string
    requires |lines| >= 1
  {
    if |lines| == 1 then lines[0] else lines[0] + "\n" + Join(lines[1..])
  }

  /** Splitting loses nothing: joining the pieces gives the text back. */
  lemma {:induction false} JoinSplit(s: string)
    ensures Join(Split(s)) == s
  {
    if |s| > 0 {
      JoinSplit(s[1..]);
      var rest := Split(s[1..]);
      if s[0] == '\n' {
        assert Join(Split(s)) == "" + "\n" + Join(rest);
      } else if |rest| == 1 {
        assert Join(Split(s)) == [s[0]] + rest[0];
      } else {
        assert Join(rest) == rest[0] + "\n" + Join(rest[1..]);
        assert Join(Split(s)) == [s[0]] + rest[0] + "\n" + Join(rest[1..]);
      }
      assert s == [s[0]] + s[1..];
    }
  }

  /** A line-feed-free prefix is glued onto the first piece of what follows it. */
  lemma {:induction false} SplitGlue(a: string, t: string)
    requires '\n' !in a
    ensures Split(a + t) == [a + Split(t)[0]] + Split(t)[1..]
  {
    if |a| > 0 {
      SplitGlue(a[1..], t);
      assert (a + t)[1..] == a[1..] + t;
      assert [a[0]] + (a[1..] + Split(t)[0]) == a + Split(t)[0];
    } else {
      assert a + t == t;
      assert a + Split(t)[0] == Split(t)[0];
      assert Split(t) == [Split(t)[0]] + Split(t)[1..];
    }
  }

  /** Joining line-feed-free lines and splitting again gives the same lines. */
  lemma {:induction false} SplitJoin(lines: seq<string>)
    requires |lines| >= 1
    requires forall i :: 0 <= i < |lines| ==> '\n' !in lines[i]
    ensures Split(Join(lines)) == lines
  {
    if |lines| == 1 {
      SplitGlue(lines[0], "");
      assert lines[0] + "" == lines[0];
    } else {
      var tail := Join(lines[1..]);
      SplitJoin(lines[1..]);
      assert Split("\n" + tail) == [""] + lines[1..] by {
        assert ("\n" + tail)[1..] == tail;
      }
      SplitGlue(lines[0], "\n" + tail);
      assert lines[0] + "\n" + tail == lines[0] + ("\n" + tail);
      assert lines[0] + "" == lines[0];
      assert lines == [lines[0]] + lines[1..];
    }
  }

  // ----------------------------------------------------------------- trim

  /** The characters `String.prototype.trim` strips: ECMAScript WhiteSpace and LineTerminator. */
  predicate IsJsSpace(c: char) {
    c == '\t' || c == '\n' || c == '\U{B}' || c == '\U{C}' || c == '\r' || c == ' '
    || c == '\U{A0}' || c == '\U{1680}' || ('\U{2000}' <= c <= '\U{200A}')
    || c == '\U{2028}' || c == '\U{2029}' || c == '\U{202F}' || c == '\U{205F}'
    || c == '\U{3000}' || c == '\U{FEFF}'
  }

  /** Drops leading whitespace: the result is the longest suffix that does not start with whitespace. */
  function TrimStart(s: string): (r: string)
    ensures |r| <= |s| && r == s[|s| - |r|..]
    ensures forall i :: 0 <= i < |s| - |r| ==> IsJsSpace(s[i])
    ensures |r| > 0 ==> !IsJsSpace(r[0])
  {
    if |s| > 0 && IsJsSpace(s[0]) then TrimStart(s[1..]) else s
  }

  /** Drops trailing whitespace: the result is the longest prefix that does not end with whitespace. */
  function TrimEnd(s: string): (r: string)
    ensures |r| <= |s| && r == s[..|r|]
    ensures forall i :: |r| <= i < |s| ==> IsJsSpace(s[i])
    ensures |r| > 0 ==> !IsJsSpace(r[|r| - 1])
  {
    if |s| > 0 && IsJsSpace(s[|s| - 1]) then TrimEnd(s[..|s| - 1]) else s
  }

  /** `r` is the slice of `s` from `k`, with only whitespace before and after it. */
  predicate TrimmedAt(s: string, r: string, k: int) {
    && 0 <= k <= |s| - |r| && r == s[k..k + |r|]
    && (forall i :: 0 <= i < k ==> IsJsSpace(s[i]))
    && (forall i :: k + |r| <= i < |s| ==> IsJsSpace(s[i]))
  }

  /** `s.trim()`. */
  function Trim(s: string): string {
    TrimEnd(TrimStart(s))
  }

  /**
   * Trim leaves the slice of `s` between a whitespace prefix and a whitespace
   * suffix, and that slice neither starts nor ends with whitespace.
   */
  lemma TrimSlice(s: string)
    ensures exists k :: TrimmedAt(s, Trim(s), k)
    ensures |Trim(s)| > 0 ==> !IsJsSpace(Trim(s)[0]) && !IsJsSpace(Trim(s)[|Trim(s)| - 1])
  {
    var t := TrimStart(s);
    var r := TrimEnd(t);
    SliceOfSuffix(s, t, r);
    assert Trim(s) == r;
  }

  /** A whitespace-trimmed prefix of a whitespace-trimmed suffix is a slice between whitespace. */
  lemma SliceOfSuffix(s: string, t: string, r: string)
    requires |t| <= |s| && t == s[|s| - |t|..] && forall i :: 0 <= i < |s| - |t| ==> IsJsSpace(s[i])
    requires |r| <= |t| && r == t[..|r|] && forall i :: |r| <= i < |t| ==> IsJsSpace(t[i])
    ensures TrimmedAt(s, r, |s| - |t|)
  {
    var k := |s| - |t|;
    assert r == s[k..k + |r|] by {
      assert forall i :: 0 <= i < |r| ==> r[i] == t[i] == s[k + i];
    }
    assert forall i :: k + |r| <= i < |s| ==> IsJsSpace(s[i]) by {
      assert forall i :: k + |r| <= i < |s| ==> s[i] == t[i - k];
    }
  }

  // ------------------------------------------------------------- parseInt

  /** The value of a decimal or hexadecimal digit (either case), -1 for any other character. */
  function DigitValue(c: char): (d: int)
    ensures -1 <= d < 16
    ensures '0' <= c <= '9' <==> 0 <= d < 10
  {
    if '0' <= c <= '9' then c as int - '0' as int
    else if 'a' <= c <= 'f' then c as int - 'a' as int + 10
    else if 'A' <= c <= 'F' then c as int - 'A' as int + 10
    else -1
  }

  predicate IsRadixDigit(c: char, radix: nat) {
    0 <= DigitValue(c) < radix
  }

  /** The longest prefix of `s` made of digits of the given radix. */
  function DigitPrefix(s: string, radix: nat): (z: string)
    ensures |z| <= |s| && z == s[..|z|]
    ensures forall i :: 0 <= i < |z| ==> IsRadixDigit(z[i], radix)
    ensures |z| < |s| ==> !IsRadixDigit(s[|z|], radix)
  {
    if |s| > 0 && IsRadixDigit(s[0], radix) then [s[0]] + DigitPrefix(s[1..], radix) else []
  }

  /** The number a digit string denotes in the given radix, most significant digit first. */
  function DigitsValue(z: string, radix: nat): nat
    requires forall i :: 0 <= i < |z| ==> IsRadixDigit(z[i], radix)
  {
    if |z| == 0 then 0
    else
      var init := z[..|z| - 1];
      assert forall i :: 0 <= i < |init| ==> init[i] == z[i];
      var high := DigitsValue(init, radix);
      var low := DigitValue(z[|z| - 1]);
      assert IsRadixDigit(z[|z| - 1], radix);
      assert high * radix >= 0;
      high * radix + low
  }

  /** True when the text starts with the "0x" or "0X" prefix that makes parseInt read hexadecimal. */
  predicate HasHexPrefix(u: string) {
    |u| >= 2 && u[0] == '0' && (u[1] == 'x' || u[1] == 'X')
  }

  /**
   * The unsigned part of parseInt: after a "0x"/"0X" prefix the longest run of
   * hexadecimal digits, otherwise the longest run of decimal digits; None when
   * that run is empty.
   */
  function ReadMagnitude(u: string): Option<nat> {
    var radix := if HasHexPrefix(u) then 16 else 10;
    var z := DigitPrefix(if HasHexPrefix(u) then u[2..] else u, radix);
    if |z| == 0 then None else Some(DigitsValue(z, radix))
  }

  /**
   * `parseInt(s)` without a radix argument: leading whitespace is skipped, one
   * optional sign is read, then the magnitude; no digits at all gives NaN (None).
   */
  function ParseInt(s: string): Option<int> {
    var t := TrimStart(s);
    var negative := |t| > 0 && t[0] == '-';
    var u := if |t| > 0 && (t[0] == '-' || t[0] == '+') then t[1..] else t;
    match ReadMagnitude(u)
    case None => None
    case Some(m) => var v: int := m; Some(if negative then -v else v)
  }

  /** The magnitude is a number exactly when a digit of its radix follows the optional "0x". */
  lemma MagnitudeDefined(u: string)
    ensures ReadMagnitude(u).Some? <==>
      |u| > 0 && IsRadixDigit(u[0], 10) && (HasHexPrefix(u) ==> |u| > 2 && IsRadixDigit(u[2], 16))
  {
    if HasHexPrefix(u) {
      var z := DigitPrefix(u[2..], 16);
      assert |u| > 2 ==> u[2..][0] == u[2];
      assert |z| > 0 ==> z[0] == u[2..][0];
    } else {
      var z := DigitPrefix(u, 10);
      assert |z| > 0 ==> z[0] == u[0];
    }
  }

  /**
   * parseInt gives a number exactly when, after leading whitespace and one
   * optional sign, a decimal digit follows, and after a "0x" or "0X" prefix a
   * hexadecimal digit; a negative number comes only from a leading '-'.
   */
  lemma ParseIntDefined(s: string)
    ensures var t := TrimStart(s);
      var u := if |t| > 0 && (t[0] == '-' || t[0] == '+') then t[1..] else t;
      ParseInt(s).Some? <==> |u| > 0 && IsRadixDigit(u[0], 10) && (HasHexPrefix(u) ==> |u| > 2 && IsRadixDigit(u[2], 16))
    ensures ParseInt(s).Some? && ParseInt(s).value < 0 ==> |TrimStart(s)| > 0 && TrimStart(s)[0] == '-'
  {
    var t := TrimStart(s);
    var u := if |t| > 0 && (t[0] == '-' || t[0] == '+') then t[1..] else t;
    MagnitudeDefined(u);
  }

  /** A non-empty run of decimal digits is read whole, in decimal. */
  lemma ReadDecimal(d: string)
    requires |d| > 0
    requires forall i :: 0 <= i < |d| ==> '0' <= d[i] <= '9'
    ensures ReadMagnitude(d) == Some(DigitsValue(d, 10))
  {
    assert !HasHexPrefix(d);
    assert DigitPrefix(d, 10) == d;
  }

  // ------------------------------------------------------------- the parse

  /** The `map(line => parseInt(line.trim()))` step: one reading per line, NaN as None. */
  function ReadLines(lines: seq<string>): (vs: seq<Option<int>>)
    ensures |vs| == |lines|
    ensures forall i :: 0 <= i < |lines| ==> vs[i] == ParseInt(Trim(lines[i]))
  {
    if |lines| == 0 then [] else [ParseInt(Trim(lines[0]))] + ReadLines(lines[1..])
  }

  /** The `filter(Number.isFinite)` step: the numbers among the readings, in order. */
  function Finite(vs: seq<Option<int>>): (xs: seq<int>)
    ensures |xs| <= |vs|
  {
    if |vs| == 0 then []
    else (if vs[0].Some? then [vs[0].value] else []) + Finite(vs[1..])
  }

  /** The samples `loadFile` returns for a fetched text. */
  function ParseSamples(text: string): seq<int> {
    Finite(ReadLines(Split(text)))
  }

  /**
   * What `loadFile` returns: at most one sample per line, and x is a sample
   * exactly when some line, trimmed, reads as x.
   */
  lemma LoadedSamples(text: string, x: int)
    ensures |ParseSamples(text)| <= |Split(text)|
    ensures x in ParseSamples(text) <==>
      exists i :: 0 <= i < |Split(text)| && ParseInt(Trim(Split(text)[i])) == Some(x)
  {
    var vs := ReadLines(Split(text));
    FiniteMembers(vs, x);
    if Some(x) in vs {
      var i :| 0 <= i < |vs| && vs[i] == Some(x);
      assert ParseInt(Trim(Split(text)[i])) == Some(x);
    }
  }

  /** The filter keeps order: filtering a concatenation concatenates the filtered parts. */
  lemma {:induction false} FiniteAppend(a: seq<Option<int>>, b: seq<Option<int>>)
    ensures Finite(a + b) == Finite(a) + Finite(b)
  {
    if |a| > 0 {
      FiniteAppend(a[1..], b);
      assert (a + b)[1..] == a[1..] + b;
      assert (a + b)[0] == a[0];
    } else {
      assert a + b == b;
    }
  }

  /** The filter keeps exactly the numbers: every kept sample is a reading, and every reading is kept. */
  lemma {:induction false} FiniteMembers(vs: seq<Option<int>>, x: int)
    ensures x in Finite(vs) <==> Some(x) in vs
  {
    if |vs| > 0 {
      FiniteMembers(vs[1..], x);
      assert vs == [vs[0]] + vs[1..];
    }
  }

  // ------------------------------------------------- writing samples back

  function DigitChar(d: nat): (c: char)
    requires d < 10
    ensures DigitValue(c) == d
  {
    ('0' as int + d) as char
  }

  /** The decimal text of a natural number, without leading zeros. */
  function ShowNat(n: nat): (s: string)
    ensures |s| > 0
    ensures forall i :: 0 <= i < |s| ==> '0' <= s[i] <= '9'
  {
    if n < 10 then [DigitChar(n)] else ShowNat(n / 10) + [DigitChar(n % 10)]
  }

  /** The decimal text of an integer, with a leading '-' when negative. */
  function Show(n: int): string {
    if n < 0 then "-" + ShowNat(-n) else ShowNat(n)
  }

  /** One sample per line. */
  function Serialize(xs: seq<int>): string {
    if |xs| == 0 then "" else Join(ShowAll(xs))
  }

  function ShowAll(xs: seq<int>): (lines: seq<string>)
    ensures |lines| == |xs|
    ensures forall i :: 0 <= i < |xs| ==> lines[i] == Show(xs[i])
  {
    if |xs| == 0 then [] else [Show(xs[0])] + ShowAll(xs[1..])
  }

  lemma {:induction false} ShowNatValue(n: nat)
    ensures DigitsValue(ShowNat(n), 10) == n
  {
    var s := ShowNat(n);
    if n >= 10 {
      ShowNatValue(n / 10);
      assert s[..|s| - 1] == ShowNat(n / 10);
    }
  }

  /** Rendered integers carry no surrounding whitespace. */
  lemma TrimShow(n: int)
    ensures Trim(Show(n)) == Show(n)
  {
    TrimStartShow(n);
    TrimEndShow(n);
  }

  lemma TrimStartShow(n: int)
    ensures TrimStart(Show(n)) == Show(n)
  {}

  lemma TrimEndShow(n: int)
    ensures TrimEnd(Show(n)) == Show(n)
  {}

  lemma ReadShowNat(n: nat)
    ensures ReadMagnitude(ShowNat(n)) == Some(n)
  {
    ShowNatValue(n);
    ReadDecimal(ShowNat(n));
  }

  /** Helper for ParseShow: parseInt of unsigned text without leading whitespace is its magnitude. */
  lemma ParseUnsigned(s: string, m: nat)
    requires |s| > 0 && TrimStart(s) == s && s[0] != '-' && s[0] != '+'
    requires ReadMagnitude(s) == Some(m)
    ensures ParseInt(s) == Some(m)
  {
  }

  /** Helper for ParseShow: parseInt of '-' and a magnitude, without leading whitespace, is the negated magnitude. */
  lemma ParseNegative(s: string, m: nat)
    requires |s| > 0 && TrimStart(s) == s && s[0] == '-'
    requires ReadMagnitude(s[1..]) == Some(m)
    ensures ParseInt(s) == Some(-(m as int))
  {
    var t := TrimStart(s);
    assert t[1..] == s[1..];
  }

  /** Reading the decimal text of any integer with parseInt after trim gives the integer back. */
  lemma ParseShow(n: int)
    ensures ParseInt(Trim(Show(n))) == Some(n)
  {
    TrimShow(n);
    TrimStartShow(n);
    var s := Show(n);
    if n < 0 {
      ReadShowNat(-n);
      assert s[1..] == ShowNat(-n);
      ParseNegative(s, -n);
    } else {
      ReadShowNat(n);
      assert '0' <= s[0] <= '9';
      ParseUnsigned(s, n);
    }
  }

  lemma {:induction false} FiniteAllSome(xs: seq<int>, vs: seq<Option<int>>)
    requires |vs| == |xs|
    requires forall i :: 0 <= i < |xs| ==> vs[i] == Some(xs[i])
    ensures Finite(vs) == xs
  {
    if |xs| > 0 {
      FiniteAllSome(xs[1..], vs[1..]);
      assert xs == [xs[0]] + xs[1..];
    }
  }

  /** Writing samples one per line and loading the text gives exactly the samples, in order. */
  lemma ParseSerialize(xs: seq<int>)
    ensures ParseSamples(Serialize(xs)) == xs
  {
    if |xs| == 0 {
      assert Split("") == [""];
      assert ParseInt(Trim("")) == None;
    } else {
      var lines := ShowAll(xs);
      forall i | 0 <= i < |lines| ensures '\n' !in lines[i] {
        var s := Show(xs[i]);
        assert forall j :: 0 <= j < |s| ==> s[j] != '\n';
      }
      SplitJoin(lines);
      forall i | 0 <= i < |xs| ensures ReadLines(lines)[i] == Some(xs[i]) {
        ParseShow(xs[i]);
      }
      FiniteAllSome(xs, ReadLines(lines));
    }
  }
}
