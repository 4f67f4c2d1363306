/** The string primitives of JavaScript that the widget relies on, over
    `seq<char>`: the whitespace class shared by `String.prototype.trim` and
    the regular-expression class `\s`, trimming, the `replace(/\s+/g, ' ')`
    idiom, ASCII case folding, substring search, `split`/`join` on one
    separator character, and decimal rendering of integers. */
module Text {

  /** ECMAScript WhiteSpace and LineTerminator code points: the characters
      removed by `trim` and matched by `\s`. */
  predicate IsSpace(c: char) {
    if c <= ' ' then c == ' ' || '\t' <= c <= '\r'
    else '\U{A0}' <= c && IsWideSpace(c)
  }

  /** The whitespace code points from U+00A0 on. */
  predicate IsWideSpace(c: char) {
    c == '\U{A0}' || c == '\U{1680}' || ('\U{2000}' <= c <= '\U{200A}')
    || c == '\U{2028}' || c == '\U{2029}' || c == '\U{202F}' || c == '\U{205F}'
    || c == '\U{3000}' || c == '\U{FEFF}'
  }

  predicate IsDigit(c: char) {
    '0' <= c <= '9'
  }

  /** No whitespace at either end. */
  ghost predicate Trimmed(s: string) {
    s == [] || (!IsSpace(s[0]) && !IsSpace(s[|s| - 1]))
  }

  /** The non-whitespace characters of `s`, in order. */
  function Squeeze(s: string): string {
    if s == [] then []
    else if IsSpace(s[0]) then Squeeze(s[1..])
    else [s[0]] + Squeeze(s[1..])
  }

  lemma {:induction false} SqueezeAppend(a: string, b: string)
    ensures Squeeze(a + b) == Squeeze(a) + Squeeze(b)
  {
    if a == [] {
      assert a + b == b;
    } else {
      assert (a + b)[0] == a[0];
      assert (a + b)[1..] == a[1..] + b;
      SqueezeAppend(a[1..], b);
    }
  }

  /** Squeeze of a string made only of whitespace is empty. */
  lemma {:induction false} SqueezeAllSpace(s: string)
    requires forall i :: 0 <= i < |s| ==> IsSpace(s[i])
    ensures Squeeze(s) == []
  {
    if s != [] {
      SqueezeAllSpace(s[1..]);
    }
  }

  /** `trimStart`: drops the leading whitespace, keeps the rest as it is. */
  function TrimStart(s: string): (r: string)
    ensures |r| <= |s| && r == s[|s| - |r|..]
    ensures r == [] || !IsSpace(r[0])
    ensures forall i :: 0 <= i < |s| - |r| ==> IsSpace(s[i])
  {
    if s != [] && IsSpace(s[0]) then TrimStart(s[1..]) else s
  }

  /** `trimEnd`: drops the trailing whitespace, keeps the rest as it is. */
  function TrimEnd(s: string): (r: string)
    ensures |r| <= |s| && r == s[..|r|]
    ensures r == [] || !IsSpace(r[|r| - 1])
    ensures forall i :: |r| <= i < |s| ==> IsSpace(s[i])
  {
    if s != [] && IsSpace(s[|s| - 1]) then TrimEnd(s[..|s| - 1]) else s
  }

  /** Number of leading whitespace characters of `s`. */
  function LeadLen(s: string): (n: nat)
    ensures n <= |s|
  {
    |s| - |TrimStart(s)|
  }

  /** `String.prototype.trim`: the slice of `s` left after removing the
      whitespace at both ends (`TrimRemovesSpace`: all of it, and only
      it). */
  function Trim(s: string): (r: string)
    ensures Trimmed(r)
    ensures LeadLen(s) + |r| <= |s| && r == s[LeadLen(s)..LeadLen(s) + |r|]
  {
    var t := TrimStart(s);
    var r := TrimEnd(t);
    assert r == [] || !IsSpace(r[0]) by {
      if r != [] { assert r[0] == t[0]; }
    }
    r
  }

  /** `t` is the slice of `s` at `a`, with only whitespace around it. */
  ghost predicate Padded(s: string, a: nat, t: string) {
    a + |t| <= |s| && t == s[a..a + |t|]
    && (forall i :: 0 <= i < a ==> IsSpace(s[i]))
    && (forall i :: a + |t| <= i < |s| ==> IsSpace(s[i]))
  }

  /** Everything `Trim` removes is whitespace. */
  lemma TrimRemovesSpace(s: string)
    ensures Padded(s, LeadLen(s), Trim(s))
  {
    var t := TrimStart(s);
    var a, r := |s| - |t|, TrimEnd(t);
    assert LeadLen(s) == a && Trim(s) == r;
    forall i | a + |r| <= i < |s| ensures IsSpace(s[i]) {
      assert s[i] == t[i - a];
    }
  }



  /** Trimming a string that has no whitespace at its ends changes nothing. */
  lemma TrimNoop(s: string)
    requires Trimmed(s)
    ensures Trim(s) == s
  {
    assert TrimStart(s) == s;
    assert TrimEnd(s) == s;
  }

  /** Trimming removes whitespace only. */
  lemma TrimKeepsContent(s: string)
    ensures Squeeze(Trim(s)) == Squeeze(s)
  {
    TrimKeepsStartContent(s);
    TrimKeepsEndContent(TrimStart(s));
  }

  /** Every whitespace character in `s` is a plain space, and no two
      whitespace characters are adjacent. */
  ghost predicate SingleSpaced(s: string) {
    (forall i :: 0 <= i < |s| && IsSpace(s[i]) ==> s[i] == ' ')
    && (forall i, j :: 0 <= i && j == i + 1 && j < |s| ==> !(IsSpace(s[i]) && IsSpace(s[j])))
  }

  /** `s.replace(/\s+/g, ' ')`: every maximal run of whitespace becomes one
      space; the other characters are kept in order. */
  function Collapse(s: string): (r: string)
    ensures SingleSpaced(r)
    ensures r == [] <==> s == []
    ensures r != [] ==> (IsSpace(r[0]) <==> IsSpace(s[0]))
    decreases |s|
  {
    if s == [] then []
    else if IsSpace(s[0]) then [' '] + Collapse(TrimStart(s[1..]))
    else [s[0]] + Collapse(s[1..])
  }

  /** Collapsing whitespace runs keeps every other character, in order. */
  lemma {:induction false} CollapseKeepsContent(s: string)
    ensures Squeeze(Collapse(s)) == Squeeze(s)
    decreases |s|
  {
    if s != [] {
      if IsSpace(s[0]) {
        var rest := TrimStart(s[1..]);
        CollapseKeepsContent(rest);
        SqueezeAppend([' '], Collapse(rest));
        TrimKeepsStartContent(s[1..]);
      } else {
        CollapseKeepsContent(s[1..]);
        SqueezeAppend([s[0]], Collapse(s[1..]));
      }
    }
  }

  /** Leading whitespace followed by a non-whitespace character is all
      that `trimStart` removes. */
  lemma {:induction false} TrimStartSpaces(w: string, b: string)
    requires forall i :: 0 <= i < |w| ==> IsSpace(w[i])
    requires b == [] || !IsSpace(b[0])
    ensures TrimStart(w + b) == b
  {
    if w == [] {
      assert w + b == b;
    } else {
      assert (w + b)[1..] == w[1..] + b;
      TrimStartSpaces(w[1..], b);
    }
  }

  /** `trimStart` does not reach past a non-whitespace character. */
  lemma {:induction false} TrimStartAppend(x: string, t: string)
    requires x != [] && !IsSpace(x[|x| - 1])
    ensures TrimStart(x + t) == TrimStart(x) + t
  {
    if IsSpace(x[0]) {
      assert (x + t)[1..] == x[1..] + t;
      TrimStartAppend(x[1..], t);
    }
  }

  lemma ConsAppend(a: string, t: string)
    requires a != []
    ensures (a + t)[0] == a[0] && (a + t)[1..] == a[1..] + t
  {
  }

  /** The whitespace step of `Collapse`. */
  lemma CollapseSpaceHead(s: string)
    requires s != [] && IsSpace(s[0])
    ensures Collapse(s) == [' '] + Collapse(TrimStart(s[1..]))
  {
  }

  lemma Regroup(x: string, y: string, z: string)
    ensures x + (y + z) == (x + y) + z
  {
  }

  /** A string ending in non-whitespace collapses independently of what
      follows it. */
  lemma {:induction false} CollapseAppend(a: string, t: string)
    requires a != [] && !IsSpace(a[|a| - 1])
    ensures Collapse(a + t) == Collapse(a) + Collapse(t)
    decreases |a|
  {
    if IsSpace(a[0]) {
      var rest := TrimStart(a[1..]);
      assert rest != [] && rest[|rest| - 1] == a[|a| - 1];
      CollapseAppend(rest, t);
      CollapseAppendSpace(a, t);
    } else if |a| > 1 {
      CollapseAppend(a[1..], t);
      CollapseAppendWord(a, t);
    } else {
      CollapseAppendWord(a, t);
    }
  }

  /** The step of `CollapseAppend` for a leading whitespace run. */
  lemma CollapseAppendSpace(a: string, t: string)
    requires a != [] && IsSpace(a[0]) && !IsSpace(a[|a| - 1])
    requires Collapse(TrimStart(a[1..]) + t) == Collapse(TrimStart(a[1..])) + Collapse(t)
    ensures Collapse(a + t) == Collapse(a) + Collapse(t)
  {
    var x := a[1..];
    assert x != [] && x[|x| - 1] == a[|a| - 1];
    TrimStartAppend(x, t);
    ConsAppend(a, t);
    CollapseSpaceHead(a);
    CollapseSpaceHead(a + t);
    Regroup([' '], Collapse(TrimStart(x)), Collapse(t));
  }

  /** The step of `CollapseAppend` for a leading non-whitespace character. */
  lemma CollapseAppendWord(a: string, t: string)
    requires a != [] && !IsSpace(a[0])
    requires |a| > 1 ==> Collapse(a[1..] + t) == Collapse(a[1..]) + Collapse(t)
    ensures Collapse(a + t) == Collapse(a) + Collapse(t)
  {
    ConsAppend(a, t);
    if |a| == 1 {
      assert Collapse(a) == [a[0]] + Collapse([]);
    } else {
      Regroup([a[0]], Collapse(a[1..]), Collapse(t));
    }
  }

  /** `replace(/\s+/g, ' ')` turns a whitespace run between two words into
      exactly one space, and touches neither word. */
  lemma CollapseRun(a: string, w: string, b: string)
    requires a != [] && !IsSpace(a[|a| - 1])
    requires w != [] && forall i :: 0 <= i < |w| ==> IsSpace(w[i])
    requires b != [] && !IsSpace(b[0])
    ensures Collapse(a + w + b) == Collapse(a) + " " + Collapse(b)
  {
    var u := w + b;
    assert a + w + b == a + u;
    CollapseAppend(a, u);
    ConsAppend(w, b);
    TrimStartSpaces(w[1..], b);
    assert Collapse(u) == [' '] + Collapse(b);
  }

  lemma TrimKeepsStartContent(s: string)
    ensures Squeeze(TrimStart(s)) == Squeeze(s)
  {
    var r := TrimStart(s);
    assert s == s[..|s| - |r|] + r;
    SqueezeAppend(s[..|s| - |r|], r);
    SqueezeAllSpace(s[..|s| - |r|]);
  }

  lemma TrimKeepsEndContent(s: string)
    ensures Squeeze(TrimEnd(s)) == Squeeze(s)
  {
    var r := TrimEnd(s);
    assert s == r + s[|r|..];
    SqueezeAppend(r, s[|r|..]);
    SqueezeAllSpace(s[|r|..]);
  }

  /** Trimming a single-spaced string keeps it single-spaced. */
  lemma TrimSingleSpaced(s: string)
    requires SingleSpaced(s)
    ensures SingleSpaced(Trim(s))
  {
    SliceSingleSpaced(s, LeadLen(s), Trim(s));
  }

  /** Any slice of a single-spaced string is single-spaced. */
  lemma SliceSingleSpaced(s: string, a: nat, r: string)
    requires SingleSpaced(s) && a + |r| <= |s| && r == s[a..a + |r|]
    ensures SingleSpaced(r)
  {
    forall i, j | 0 <= i && j == i + 1 && j < |r|
      ensures !(IsSpace(r[i]) && IsSpace(r[j]))
    {
      assert r[i] == s[a + i] && r[j] == s[a + j];
    }
    forall i | 0 <= i < |r| && IsSpace(r[i])
      ensures r[i] == ' '
    {
      assert r[i] == s[a + i];
    }
  }

  /** ASCII upper case to lower case; other characters are unchanged. */
  function LowerChar(c: char): char {
    if 'A' <= c <= 'Z' then (c as int + 32) as char else c
  }

  /** `toLowerCase`, restricted to ASCII letters. */
  function ToLower(s: string): (r: string)
    ensures |r| == |s|
    ensures forall i {:trigger r[i]} :: 0 <= i < |s| ==> r[i] == LowerChar(s[i])
  {
    if s == [] then [] else [LowerChar(s[0])] + ToLower(s[1..])
  }

  ghost predicate OccursAt(s: string, p: string, i: nat) {
    i + |p| <= |s| && s[i..i + |p|] == p
  }

  /** Substring test: whether `p` occurs in `s` at some position. */
  function Contains(s: string, p: string): (r: bool)
    ensures r <==> exists i: nat :: OccursAt(s, p, i)
    decreases |s|
  {
    if |s| < |p| then
      assert forall i: nat :: !OccursAt(s, p, i);
      false
    else if s[..|p|] == p then
      assert OccursAt(s, p, 0);
      true
    else
      var r := Contains(s[1..], p);
      assert r ==> exists i: nat :: OccursAt(s, p, i) by {
        if r {
          var i: nat :| OccursAt(s[1..], p, i);
          assert s[i + 1..i + 1 + |p|] == s[1..][i..i + |p|];
          assert OccursAt(s, p, i + 1);
        }
      }
      assert (exists i: nat :: OccursAt(s, p, i)) ==> r by {
        if exists i: nat :: OccursAt(s, p, i) {
          var i: nat :| OccursAt(s, p, i);
          assert i != 0;
          assert s[1..][i - 1..i - 1 + |p|] == s[i..i + |p|];
          assert OccursAt(s[1..], p, i - 1);
        }
      }
      r
  }

  /** `parts.join([sep])`. */
  function Join(parts: seq<string>, sep: char): (r: string)
    requires |parts| >= 1
    ensures |parts[0]| <= |r| && r[..|parts[0]|] == parts[0]
    ensures |parts| > 1 ==> |parts[0]| < |r| && r[|parts[0]|] == sep
  {
    if |parts| == 1 then parts[0] else parts[0] + [sep] + Join(parts[1..], sep)
  }

  /** `s.split(sep)` for a one-character separator: the pieces between the
      occurrences of `sep`, which `Join` puts back together. */
  function Split(s: string, sep: char): (parts: seq<string>)
    ensures |parts| >= 1
    ensures forall k :: 0 <= k < |parts| ==> sep !in parts[k]
    ensures Join(parts, sep) == s
  {
    if s == [] then [[]]
    else
      var rest := Split(s[1..], sep);
      if s[0] == sep then
        assert s == [sep] + s[1..];
        [[]] + rest
      else
        JoinConsHead(s[0], rest, sep);
        assert s == [s[0]] + s[1..];
        [[s[0]] + rest[0]] + rest[1..]
  }

  /** Putting a character in front of the first piece puts it in front of
      the joined text. */
  lemma JoinConsHead(c: char, parts: seq<string>, sep: char)
    requires |parts| >= 1
    ensures Join([[c] + parts[0]] + parts[1..], sep) == [c] + Join(parts, sep)
  {
    var ps := [[c] + parts[0]] + parts[1..];
    assert ps[1..] == parts[1..];
  }

  /** Splitting undoes joining pieces that do not contain the separator. */
  lemma {:induction false} SplitJoin(parts: seq<string>, sep: char)
    requires |parts| >= 1
    requires forall k :: 0 <= k < |parts| ==> sep !in parts[k]
    ensures Split(Join(parts, sep), sep) == parts
  {
    if |parts| == 1 {
      SplitPrefix(parts[0], sep, []);
      assert parts[0] + [] == parts[0];
    } else {
      var s := [sep] + Join(parts[1..], sep);
      assert Join(parts, sep) == parts[0] + s;
      SplitJoin(parts[1..], sep);
      SplitSep(sep, Join(parts[1..], sep));
      SplitPrefix(parts[0], sep, s);
      assert parts[0] + [] == parts[0];
      assert parts == [parts[0]] + parts[1..];
    }
  }

  lemma JoinTwo(parts: seq<string>, sep: char)
    requires |parts| == 2
    ensures Join(parts, sep) == parts[0] + [sep] + parts[1]
  {
    assert Join(parts[1..], sep) == parts[1];
  }

  /** A string with exactly one separator splits into the two sides. */
  lemma SplitOnce(x: string, sep: char, y: string)
    requires sep !in x && sep !in y
    ensures Split(x + [sep] + y, sep) == [x, y]
  {
    assert Join([x, y], sep) == x + [sep] + y;
    SplitJoin([x, y], sep);
  }

  /** Splitting a string that starts with the separator. */
  lemma SplitSep(sep: char, s: string)
    ensures Split([sep] + s, sep) == [[]] + Split(s, sep)
  {
    assert ([sep] + s)[1..] == s;
  }

  /** A text without the separator is a single piece. */
  lemma SplitNone(s: string, sep: char)
    requires sep !in s
    ensures Split(s, sep) == [s]
  {
    SplitJoin([s], sep);
  }

  /** A separator-free first field followed by the separator splits off as
      the first piece. */
  lemma SplitFirstField(x: string, sep: char, y: string)
    requires sep !in x
    ensures Split(x + [sep] + y, sep) == [x] + Split(y, sep)
  {
    SplitPrefix(x, sep, [sep] + y);
    SplitSep(sep, y);
    assert x + [sep] + y == x + ([sep] + y);
    assert x + [] == x;
  }

  /** The second piece of "x sep y rest", for separator-free `x` and `y`
      and a `rest` that is empty or starts with the separator, is `y`. */
  lemma SplitSecondField(x: string, sep: char, y: string, rest: string)
    requires sep !in x && sep !in y
    requires rest == [] || rest[0] == sep
    ensures var p := Split(x + [sep] + (y + rest), sep); |p| >= 2 && p[1] == y
  {
    SplitFirstField(x, sep, y + rest);
    SplitPrefix(y, sep, rest);
    FirstPieceEmpty(sep, rest);
    assert y + [] == y;
  }

  lemma FirstPieceEmpty(sep: char, rest: string)
    requires rest == [] || rest[0] == sep
    ensures Split(rest, sep)[0] == []
  {
    if rest != [] {
      assert rest == [sep] + rest[1..];
      SplitSep(sep, rest[1..]);
    }
  }

  /** A separator-free prefix `a` glues onto the first piece of the rest. */
  lemma {:induction false} SplitPrefix(a: string, sep: char, s: string)
    requires sep !in a
    requires s == [] || s[0] == sep
    ensures var p := Split(s, sep); Split(a + s, sep) == [a + p[0]] + p[1..]
  {
    if a == [] {
      assert a + s == s;
    } else {
      var u := a[1..] + s;
      assert a + s == [a[0]] + u;
      SplitPrefix(a[1..], sep, s);
      SplitConsChar(a[0], u, sep);
      assert [a[0]] + (a[1..] + Split(s, sep)[0]) == a + Split(s, sep)[0];
    }
  }

  /** Splitting a text that starts with a character other than the
      separator. */
  lemma SplitConsChar(c: char, u: string, sep: char)
    requires c != sep
    ensures var p := Split(u, sep); Split([c] + u, sep) == [[c] + p[0]] + p[1..]
  {
    assert ([c] + u)[1..] == u;
  }

  function DigitChar(d: nat): (c: char)
    requires d < 10
    ensures IsDigit(c)
  {
    (48 + d) as char
  }

  function DigitValue(c: char): nat
    requires IsDigit(c)
  {
    c as int - 48
  }

  /** A non-empty string of decimal digits. */
  predicate IsNatText(s: string) {
    |s| > 0 && forall i :: 0 <= i < |s| ==> IsDigit(s[i])
  }

  /** An optional minus sign followed by decimal digits. */
  predicate IsIntText(s: string) {
    IsNatText(s) || (|s| > 1 && s[0] == '-' && IsNatText(s[1..]))
  }

  /** The value of a string of decimal digits. */
  function DigitsValue(s: string): nat
    requires forall i :: 0 <= i < |s| ==> IsDigit(s[i])
  {
    if s == [] then 0 else 10 * DigitsValue(s[..|s| - 1]) + DigitValue(s[|s| - 1])
  }

  /** Digits without a leading zero: "0" itself, or a first digit 1-9. */
  predicate CanonicalNat(s: string) {
    IsNatText(s) && (s[0] == '0' ==> s == "0")
  }

  /** An optional minus sign and canonical digits, where "-0" is not
      canonical. */
  predicate CanonicalInt(s: string) {
    CanonicalNat(s) || (|s| > 1 && s[0] == '-' && CanonicalNat(s[1..]) && s[1] != '0')
  }

  /** Decimal rendering of a natural number: digits only, no leading zero,
      and reading the digits back gives the number. */
  function NatToString(n: nat): (s: string)
    ensures IsNatText(s) && DigitsValue(s) == n
    ensures CanonicalNat(s)
    ensures s[0] == '0' <==> n == 0
    decreases n
  {
    if n < 10 then [DigitChar(n)]
    else
      var p := NatToString(n / 10);
      var s := p + [DigitChar(n % 10)];
      assert s[..|s| - 1] == p;
      s
  }

  /** Digits starting with 1-9 are worth at least 1. */
  lemma {:induction false} LeadingDigitPositive(s: string)
    requires IsNatText(s) && s[0] != '0'
    ensures DigitsValue(s) >= 1
  {
    if |s| > 1 {
      var p := s[..|s| - 1];
      assert p[0] == s[0];
      LeadingDigitPositive(p);
    }
  }

  /** Canonical digits are the rendering of their own value: the decimal
      text of a natural number is unique. */
  lemma {:induction false} CanonicalNatRoundTrip(s: string)
    requires CanonicalNat(s)
    ensures NatToString(DigitsValue(s)) == s
  {
    var n := DigitsValue(s);
    if |s| > 1 {
      var p := s[..|s| - 1];
      assert p[0] == s[0] != '0';
      LeadingDigitPositive(p);
      CanonicalNatRoundTrip(p);
      assert n / 10 == DigitsValue(p) && n % 10 == DigitValue(s[|s| - 1]);
      assert s == p + [s[|s| - 1]];
    }
  }

  /** Reads back an integer written in decimal. */
  function ParseInt(s: string): int
    requires IsIntText(s)
  {
    if IsNatText(s) then DigitsValue(s) else -(DigitsValue(s[1..]) as int)
  }

  /** `String(n)` / `${n}` for an integer: decimal text that reads back as
      `n`. */
  function IntToString(n: int): (s: string)
    ensures IsIntText(s) && ParseInt(s) == n
    ensures n < 0 <==> s[0] == '-'
    ensures CanonicalInt(s)
  {
    if n < 0 then
      var s := "-" + NatToString(-n);
      assert s[1..] == NatToString(-n);
      assert s[0] == '-' && !IsDigit(s[0]);
      assert !IsNatText(s);
      s
    else NatToString(n)
  }

  /** Every canonical integer text is the rendering of the integer it
      denotes, so `IntToString` is a bijection onto canonical texts. */
  lemma CanonicalIntRoundTrip(s: string)
    requires CanonicalInt(s)
    ensures IntToString(ParseInt(s)) == s
  {
    if CanonicalNat(s) {
      CanonicalNatRoundTrip(s);
    } else {
      assert !IsNatText(s) by { assert !IsDigit(s[0]); }
      LeadingDigitPositive(s[1..]);
      CanonicalNatRoundTrip(s[1..]);
      assert s == "-" + s[1..];
    }
  }

  /** `startsWith`: `s` is `p` followed by the rest of `s`. */
  function StartsWith(s: string, p: string): (r: bool)
    ensures r <==> |p| <= |s| && s == p + s[|p|..]
  {
    |p| <= |s| && s[..|p|] == p
  }
}
