/** The expression-level helpers of src/main.js and the pure decisions the
    `App` methods make: the coordinate recogniser and normaliser, the
    "my location" sentinel, cleaning of the typed text, the resolution of a
    search into a query or a validation message, the error-message tables,
    the render-time placeholders and the shaping of the chart series.

    `Number(n).toFixed(3)`, `Math.round(Number(n))` and the rendering of a
    double as text are IEEE-754 behaviour; they are parameters here
    (`fixed3`, `round`, `numText`) and nothing is assumed of them except
    where a lemma says so. */
module Widget {
  import opened Wrappers
  import opened Text
  import opened ApiService

  // ----- `isCoords`: /^-?\d+(\.\d+)?,-?\d+(\.\d+)?$/ on the trimmed text -----

  ghost predicate AllDigits(s: string) {
    |s| > 0 && forall i :: 0 <= i < |s| ==> IsDigit(s[i])
  }

  /** `s` is digits, a dot at `i`, digits. */
  ghost predicate DecimalAt(s: string, i: int) {
    0 < i < |s| && s[i] == '.' && AllDigits(s[..i]) && AllDigits(s[i + 1..])
  }

  /** `\d+(\.\d+)?` */
  ghost predicate Unsigned(s: string) {
    AllDigits(s) || exists i :: DecimalAt(s, i)
  }

  /** `-?\d+(\.\d+)?` */
  ghost predicate Signed(s: string) {
    Unsigned(s) || (|s| > 0 && s[0] == '-' && Unsigned(s[1..]))
  }

  /** `t` is a number, a comma at `i`, a number. */
  ghost predicate CommaAt(t: string, i: int) {
    0 <= i < |t| && t[i] == ',' && Signed(t[..i]) && Signed(t[i + 1..])
  }

  ghost predicate CoordPair(t: string) {
    exists i :: CommaAt(t, i)
  }

  /** End of the longest run of digits starting at `i`. */
  function DigitRun(s: string, i: nat): (j: nat)
    requires i <= |s|
    ensures i <= j <= |s|
    ensures forall k :: i <= k < j ==> IsDigit(s[k])
    ensures j == |s| || !IsDigit(s[j])
    decreases |s| - i
  {
    if i < |s| && IsDigit(s[i]) then DigitRun(s, i + 1) else i
  }

  /** Where a match of `\d+(\.\d+)?` starting at `a` ends, if there is one. */
  function ScanUnsigned(s: string, a: nat): (r: Option<nat>)
    requires a <= |s|
    ensures r.Some? ==> a < r.value <= |s| && Unsigned(s[a..r.value])
  {
    var b := DigitRun(s, a);
    if b == a then None
    else if b + 1 < |s| && s[b] == '.' && IsDigit(s[b + 1]) then
      var c := DigitRun(s, b + 1);
      var u := s[a..c];
      assert u[..b - a] == s[a..b] && u[b - a + 1..] == s[b + 1..c];
      assert DecimalAt(u, b - a);
      Some(c)
    else
      assert AllDigits(s[a..b]);
      Some(b)
  }

  /** Where a match of `-?\d+(\.\d+)?` starting at `i` ends, if there is one. */
  function ScanNumber(s: string, i: nat): (r: Option<nat>)
    requires i <= |s|
    ensures r.Some? ==> i < r.value <= |s| && Signed(s[i..r.value])
  {
    if i < |s| && s[i] == '-' then
      var r := ScanUnsigned(s, i + 1);
      assert r.Some? ==> s[i..r.value][1..] == s[i + 1..r.value];
      r
    else ScanUnsigned(s, i)
  }

  lemma DigitRunStops(s: string, i: nat, k: nat)
    requires i <= k <= |s|
    requires forall m :: i <= m < k ==> IsDigit(s[m])
    requires k == |s| || !IsDigit(s[k])
    ensures DigitRun(s, i) == k
  {
  }

  /** The scanner finds every number that is followed by a comma or the end. */
  lemma ScanUnsignedComplete(s: string, a: nat, k: nat)
    requires a <= k <= |s| && Unsigned(s[a..k])
    requires k == |s| || s[k] == ','
    ensures ScanUnsigned(s, a) == Some(k)
  {
    var u := s[a..k];
    if AllDigits(u) {
      assert forall m :: a <= m < k ==> IsDigit(s[m]) by {
        forall m | a <= m < k ensures IsDigit(s[m]) { assert s[m] == u[m - a]; }
      }
      DigitRunStops(s, a, k);
    } else {
      var i :| DecimalAt(u, i);
      assert forall m :: a <= m < a + i ==> IsDigit(s[m]) by {
        forall m | a <= m < a + i ensures IsDigit(s[m]) { assert s[m] == u[..i][m - a]; }
      }
      assert s[a + i] == u[i] == '.';
      DigitRunStops(s, a, a + i);
      assert forall m :: a + i + 1 <= m < k ==> IsDigit(s[m]) by {
        forall m | a + i + 1 <= m < k ensures IsDigit(s[m]) { assert s[m] == u[i + 1..][m - a - i - 1]; }
      }
      assert IsDigit(s[a + i + 1]);
      DigitRunStops(s, a + i + 1, k);
    }
  }

  /** An unsigned number starts with a digit. */
  lemma UnsignedStartsWithDigit(u: string)
    requires Unsigned(u)
    ensures |u| > 0 && IsDigit(u[0])
  {
    if !AllDigits(u) {
      var i :| DecimalAt(u, i);
      assert u[0] == u[..i][0];
    }
  }

  lemma ScanNumberComplete(s: string, i: nat, k: nat)
    requires i <= k <= |s| && Signed(s[i..k])
    requires k == |s| || s[k] == ','
    ensures ScanNumber(s, i) == Some(k)
  {
    if Unsigned(s[i..k]) {
      UnsignedStartsWithDigit(s[i..k]);
      ScanUnsignedComplete(s, i, k);
    } else {
      assert s[i..k][1..] == s[i + 1..k];
      ScanUnsignedComplete(s, i + 1, k);
    }
  }

  /** The recogniser proper, on already trimmed text: a number that stops
      at a comma, then a number that stops at the end. */
  function ScanPair(t: string): bool {
    match ScanNumber(t, 0)
    case None => false
    case Some(j) => j < |t| && t[j] == ',' && ScanNumber(t, j + 1) == Some(|t|)
  }

  lemma ScanPairSound(t: string)
    requires ScanPair(t)
    ensures CoordPair(t)
  {
    var j := ScanNumber(t, 0).value;
    assert t[0..j] == t[..j];
    assert t[j + 1..|t|] == t[j + 1..];
    assert CommaAt(t, j);
  }

  lemma ScanPairComplete(t: string)
    requires CoordPair(t)
    ensures ScanPair(t)
  {
    var i :| CommaAt(t, i);
    assert t[0..i] == t[..i];
    ScanNumberComplete(t, 0, i);
    assert t[i + 1..|t|] == t[i + 1..];
    ScanNumberComplete(t, i + 1, |t|);
  }

  /** `isCoords`: accepts exactly the strings whose trimmed text is a
      number, one comma, a number. */
  function IsCoords(q: string): (r: bool)
    ensures r <==> CoordPair(Trim(q))
  {
    var t := Trim(q);
    if ScanPair(t) then ScanPairSound(t); true
    else
      assert !CoordPair(t) by {
        if CoordPair(t) { ScanPairComplete(t); }
      }
      false
  }

  /** A number is made of digits, '-' and '.', so it holds no comma and no
      whitespace. */
  lemma SignedChars(s: string)
    requires Signed(s)
    ensures ',' !in s
    ensures forall k :: 0 <= k < |s| ==> !IsSpace(s[k])
  {
    var u := if Unsigned(s) then s else s[1..];
    assert Unsigned(u);
    assert forall k :: 0 <= k < |u| ==> IsDigit(u[k]) || u[k] == '.' by {
      if !AllDigits(u) {
        var i :| DecimalAt(u, i);
        forall k | 0 <= k < |u| ensures IsDigit(u[k]) || u[k] == '.' {
          if k < i { assert u[k] == u[..i][k]; }
          else if k > i { assert u[k] == u[i + 1..][k - i - 1]; }
        }
      }
    }
    forall k | 0 <= k < |s| ensures s[k] != ',' && !IsSpace(s[k]) {
      if !Unsigned(s) && k > 0 { assert s[k] == u[k - 1]; }
    }
  }

  /** A coordinate query has exactly one comma: `split(',')` gives its two
      sides. */
  lemma CoordsSplitInTwo(q: string)
    requires CoordPair(Trim(q))
    ensures var p := Split(q, ','); |p| == 2 && q == p[0] + "," + p[1]
  {
    var j := CoordsComma(q);
    TrimRemovesSpace(q);
    PaddedPairSplitsInTwo(q, LeadLen(q), Trim(q), j);
  }

  lemma CoordsComma(q: string) returns (j: nat)
    requires CoordPair(Trim(q))
    ensures CommaAt(Trim(q), j)
  {
    j :| CommaAt(Trim(q), j);
  }

  /** A coordinate pair padded with whitespace splits at its comma. */
  lemma PaddedPairSplitsInTwo(q: string, a: nat, t: string, j: nat)
    requires Padded(q, a, t) && CommaAt(t, j)
    ensures var p := Split(q, ','); |p| == 2 && q == p[0] + "," + p[1]
  {
    OnlyComma(t, j);
    NoCommaInSpace(q[..a]);
    NoCommaInSpace(q[a + |t|..]);
    CommaBetween(q, a, t, j);
    SplitOnce(q[..a + j], ',', q[a + j + 1..]);
  }

  /** The comma of a coordinate pair is its only one. */
  lemma OnlyComma(t: string, j: nat)
    requires CommaAt(t, j)
    ensures ',' !in t[..j] && ',' !in t[j + 1..]
  {
    SignedChars(t[..j]);
    SignedChars(t[j + 1..]);
  }

  /** The comma at `j` of the slice `t` of `q` is the only one in `q`. */
  lemma CommaBetween(q: string, a: nat, t: string, j: nat)
    requires a + |t| <= |q| && t == q[a..a + |t|] && j < |t| && t[j] == ','
    requires ',' !in q[..a] && ',' !in q[a + |t|..] && ',' !in t[..j] && ',' !in t[j + 1..]
    ensures ',' !in q[..a + j] && ',' !in q[a + j + 1..]
    ensures q == q[..a + j] + [','] + q[a + j + 1..]
  {
    assert q[..a + j] == q[..a] + t[..j];
    assert q[a + j + 1..] == t[j + 1..] + q[a + |t|..];
    assert q[a + j] == ',';
  }

  lemma NoCommaInSpace(s: string)
    requires forall k :: 0 <= k < |s| ==> IsSpace(s[k])
    ensures ',' !in s
  {
  }

  /** `.map((n) => Number(n).toFixed(3))`. */
  function MapFixed3(fixed3: string -> string, parts: seq<string>): (r: seq<string>)
    ensures |r| == |parts| && forall k {:trigger r[k]} :: 0 <= k < |parts| ==> r[k] == fixed3(parts[k])
  {
    seq(|parts|, k requires 0 <= k < |parts| => fixed3(parts[k]))
  }

  /** `normCoords`: a coordinate query becomes its two sides, each rendered
      by `toFixed(3)`, joined by a comma; any other query is returned as it
      is (untrimmed). */
  function NormCoords(fixed3: string -> string, q: string): (r: string)
    ensures !IsCoords(q) ==> r == q
    ensures IsCoords(q) ==>
              var p := Split(q, ',');
              |p| == 2 && q == p[0] + "," + p[1] && r == fixed3(p[0]) + "," + fixed3(p[1])
    ensures q != "" ==> r != ""
  {
    if IsCoords(q) then
      var p := Split(q, ',');
      CoordsSplitInTwo(q);
      JoinTwo(MapFixed3(fixed3, p), ',');
      Join(MapFixed3(fixed3, p), ',')
    else q
  }

  /** Normalising twice is normalising once, provided that `toFixed(3)` never
      produces a comma and is stable on its own output. */
  lemma NormCoordsIdempotent(fixed3: string -> string, q: string)
    requires forall s :: ',' !in fixed3(s)
    requires forall s :: fixed3(fixed3(s)) == fixed3(s)
    ensures NormCoords(fixed3, NormCoords(fixed3, q)) == NormCoords(fixed3, q)
  {
    if IsCoords(q) {
      var p := Split(q, ',');
      NormCoordsCommaFree(fixed3, fixed3(p[0]), fixed3(p[1]));
    }
  }

  /** Text with exactly one comma is normalised, if at all, side by side. */
  lemma NormCoordsCommaFree(fixed3: string -> string, x: string, y: string)
    requires ',' !in x && ',' !in y
    ensures NormCoords(fixed3, x + "," + y)
            == if IsCoords(x + "," + y) then fixed3(x) + "," + fixed3(y) else x + "," + y
  {
    SplitOnce(x, ',', y);
  }

  /** A number written with an optional minus sign, digits, a dot and
      digits. */
  lemma DecimalIsSigned(sign: string, whole: string, frac: string)
    requires sign == "" || sign == "-"
    requires AllDigits(whole) && AllDigits(frac)
    ensures Signed(sign + whole + "." + frac)
  {
    var u := whole + "." + frac;
    DecimalIsUnsigned(whole, frac);
    if sign == "-" {
      MinusIsSigned(u);
      assert sign + whole + "." + frac == "-" + u;
    } else {
      assert sign + whole + "." + frac == u;
    }
  }

  lemma DecimalIsUnsigned(whole: string, frac: string)
    requires AllDigits(whole) && AllDigits(frac)
    ensures Unsigned(whole + "." + frac)
  {
    var u := whole + "." + frac;
    assert u[..|whole|] == whole && u[|whole| + 1..] == frac;
    assert DecimalAt(u, |whole|);
  }

  lemma MinusIsSigned(u: string)
    requires Unsigned(u)
    ensures Signed("-" + u)
  {
    assert ("-" + u)[1..] == u;
  }


  /** Two numbers joined by a comma are a coordinate query, and
      `normCoords` formats each of them. */
  lemma NormCoordsOfPair(fixed3: string -> string, x: string, y: string)
    requires Signed(x) && Signed(y)
    ensures IsCoords(x + "," + y)
    ensures NormCoords(fixed3, x + "," + y) == fixed3(x) + "," + fixed3(y)
  {
    SignedChars(x);
    SignedChars(y);
    PairIsCoords(x, y);
    NormCoordsCommaFree(fixed3, x, y);
  }

  lemma PairIsCoords(x: string, y: string)
    requires Signed(x) && Signed(y)
    ensures IsCoords(x + "," + y)
  {
    var t := x + "," + y;
    SignedChars(x);
    SignedChars(y);
    assert t[0] == x[0] && t[|t| - 1] == y[|y| - 1];
    TrimNoop(t);
    assert t[..|x|] == x && t[|x| + 1..] == y;
    assert CommaAt(t, |x|);
  }

  /** Of two comma-joined texts whose left sides hold no comma, equal
      texts have equal left sides. */
  lemma SameLeftSide(a: string, b: string, c: string, d: string)
    requires ',' !in a && ',' !in c
    ensures a + "," + b == c + "," + d ==> a == c
  {
    var u, v := a + "," + b, c + "," + d;
    if u == v {
      FirstComma(a, b);
      FirstComma(c, d);
      assert |a| == |c|;
      assert a == u[..|a|] && c == v[..|c|];
    }
  }

  lemma FirstComma(a: string, b: string)
    requires ',' !in a
    ensures (a + "," + b)[|a|] == ','
    ensures forall k :: 0 <= k < |a| ==> (a + "," + b)[k] != ','
  {
    forall k | 0 <= k < |a| ensures (a + "," + b)[k] != ',' {
      assert (a + "," + b)[k] == a[k];
    }
  }

  lemma LiteralNumbers()
    ensures Signed("-0.0001") && Signed("1") && Signed("-0.000") && Signed("1.000")
    ensures "-0.0001" + "," + "1" == "-0.0001,1"
    ensures ',' !in "0.000" && "0.000" != "-0.000"
  {
    assert AllDigits("0") && AllDigits("1") && AllDigits("0001") && AllDigits("000");
    DecimalIsSigned("-", "0", "0001");
    assert "-" + "0" + "." + "0001" == "-0.0001";
    DecimalIsSigned("-", "0", "000");
    assert "-" + "0" + "." + "000" == "-0.000";
    DecimalIsSigned("", "1", "000");
    assert "" + "1" + "." + "000" == "1.000";
    assert "-0.0001" + "," + "1" == "-0.0001,1";
    assert ',' !in "0.000" && "0.000" != "-0.000";
  }

  /** Normalising a pair of numbers twice differs from normalising it once
      when `toFixed(3)` is not stable on the left number's rendering. */
  lemma NormCoordsNotIdempotent(fixed3: string -> string, x: string, y: string)
    requires Signed(x) && Signed(y) && Signed(fixed3(x)) && Signed(fixed3(y))
    requires ',' !in fixed3(fixed3(x)) && fixed3(fixed3(x)) != fixed3(x)
    ensures NormCoords(fixed3, NormCoords(fixed3, x + "," + y)) != NormCoords(fixed3, x + "," + y)
  {
    NormCoordsOfPair(fixed3, x, y);
    NormCoordsOfPair(fixed3, fixed3(x), fixed3(y));
    SignedChars(fixed3(x));
    SameLeftSide(fixed3(fixed3(x)), fixed3(fixed3(y)), fixed3(x), fixed3(y));
  }

  /** The stability hypothesis above is needed: ECMAScript's `toFixed`
      writes a sign for a negative number that rounds to zero ("-0.000")
      but not for negative zero itself ("0.000"), and with those values
      normalising a second time changes the query. */
  lemma NormCoordsNotIdempotentAtNegativeZero(fixed3: string -> string)
    requires fixed3("-0.0001") == "-0.000" && fixed3("1") == "1.000" && fixed3("-0.000") == "0.000"
    ensures NormCoords(fixed3, NormCoords(fixed3, "-0.0001,1")) != NormCoords(fixed3, "-0.0001,1")
  {
    LiteralNumbers();
    NormCoordsNotIdempotent(fixed3, "-0.0001", "1");
  }

  // ----- `isMyLocation` -----

  const Sentinel := "my location"

  /** `isMyLocation`: /my location/i on the trimmed text (ASCII case
      folding). Trimming does not matter: it holds iff some casing of the
      sentinel occurs anywhere in the text as given. */
  function IsMyLocation(s: string): (r: bool)
    ensures r <==> MentionsSentinel(s)
  {
    SentinelIgnoresTrim(s);
    Contains(ToLower(Trim(s)), Sentinel)
  }

  /** Some casing of "my location" occurs in `s`. */
  ghost predicate MentionsSentinel(s: string) {
    exists i: nat :: OccursAt(ToLower(s), Sentinel, i)
  }

  lemma SentinelIgnoresTrim(s: string)
    ensures Contains(ToLower(Trim(s)), Sentinel) <==> MentionsSentinel(s)
  {
    SentinelEnds();
    if Contains(ToLower(Trim(s)), Sentinel) {
      var i: nat :| OccursAt(ToLower(Trim(s)), Sentinel, i);
      OccursInTrimmed(s, Sentinel, i);
    }
    if MentionsSentinel(s) {
      var i: nat :| OccursAt(ToLower(s), Sentinel, i);
      OccursInRaw(s, Sentinel, i);
    }
  }

  lemma SentinelEnds()
    ensures Sentinel != [] && !IsSpace(Sentinel[0]) && !IsSpace(Sentinel[|Sentinel| - 1])
  {
    assert Sentinel[0] == 'm' && Sentinel[|Sentinel| - 1] == 'n';
  }

  /** An occurrence in the lower-cased trimmed text is one in the
      lower-cased text, shifted by the leading whitespace. */
  lemma OccursInTrimmed(s: string, p: string, i: nat)
    requires OccursAt(ToLower(Trim(s)), p, i)
    ensures OccursAt(ToLower(s), p, LeadLen(s) + i)
  {
    OccursInSlice(s, LeadLen(s), Trim(s), p, i);
  }

  /** A pattern that starts and ends with a non-whitespace character lies,
      wherever it occurs, within the trimmed text. */
  lemma OccursInRaw(s: string, p: string, i: nat)
    requires p != [] && !IsSpace(p[0]) && !IsSpace(p[|p| - 1])
    requires OccursAt(ToLower(s), p, i)
    ensures LeadLen(s) <= i
    ensures OccursAt(ToLower(Trim(s)), p, i - LeadLen(s))
  {
    TrimRemovesSpace(s);
    OccurrenceInsidePadding(s, LeadLen(s), Trim(s), p, i);
    OccursInSliceBack(s, LeadLen(s), Trim(s), p, i);
  }

  lemma OccurrenceInsidePadding(s: string, a: nat, t: string, p: string, i: nat)
    requires Padded(s, a, t)
    requires p != [] && !IsSpace(p[0]) && !IsSpace(p[|p| - 1])
    requires OccursAt(ToLower(s), p, i)
    ensures a <= i && i + |p| <= a + |t|
  {
    EndsOfOccurrence(ToLower(s), p, i);
    LowerOfSpace(s[i]);
    LowerOfSpace(s[i + |p| - 1]);
  }

  lemma EndsOfOccurrence(u: string, p: string, i: nat)
    requires p != [] && OccursAt(u, p, i)
    ensures u[i] == p[0] && u[i + |p| - 1] == p[|p| - 1]
  {
    assert u[i] == u[i..i + |p|][0];
    assert u[i + |p| - 1] == u[i..i + |p|][|p| - 1];
  }

  lemma LowerOfSpace(c: char)
    ensures IsSpace(c) ==> IsSpace(LowerChar(c))
  {
  }

  /** Lower-casing a slice and then finding `p` at `i` is finding `p` at
      `a + i` in the whole lower-cased text. */
  lemma OccursInSlice(s: string, a: nat, t: string, p: string, i: nat)
    requires a + |t| <= |s| && t == s[a..a + |t|]
    requires OccursAt(ToLower(t), p, i)
    ensures OccursAt(ToLower(s), p, a + i)
  {
    forall k | 0 <= k < |p| ensures ToLower(s)[a + i + k] == p[k] {
      assert ToLower(t)[i + k] == ToLower(t)[i..i + |p|][k];
      assert t[i + k] == s[a + i + k];
    }
  }

  lemma OccursInSliceBack(s: string, a: nat, t: string, p: string, i: nat)
    requires Padded(s, a, t) && a <= i && i + |p| <= a + |t|
    requires OccursAt(ToLower(s), p, i)
    ensures OccursAt(ToLower(t), p, i - a)
  {
    forall k | 0 <= k < |p| ensures ToLower(t)[i - a + k] == p[k] {
      assert ToLower(s)[i + k] == ToLower(s)[i..i + |p|][k];
      assert t[i - a + k] == s[i + k];
    }
  }


  /** "My Location", in any casing and anywhere in the text, is the
      sentinel. */
  lemma SentinelAnywhere(before: string, m: string, after: string)
    requires ToLower(m) == Sentinel
    ensures IsMyLocation(before + m + after)
  {
    var s := before + m + after;
    assert ToLower(s)[|before|..|before| + |m|] == ToLower(m);
    assert OccursAt(ToLower(s), Sentinel, |before|);
  }

  // ----- the typed text of a search -----

  /** `raw.replace(/\s+/g, ' ').trim()`. */
  function Typed(raw: string): (t: string)
    ensures Trimmed(t) && SingleSpaced(t)
    ensures Squeeze(t) == Squeeze(raw)
  {
    TrimSingleSpaced(Collapse(raw));
    TrimKeepsContent(Collapse(raw));
    CollapseKeepsContent(raw);
    Trim(Collapse(raw))
  }

  lemma {:induction false} CollapseNoop(s: string)
    requires SingleSpaced(s)
    ensures Collapse(s) == s
  {
    if s != [] {
      assert SingleSpaced(s[1..]);
      if IsSpace(s[0]) {
        assert TrimStart(s[1..]) == s[1..];
      }
      CollapseNoop(s[1..]);
    }
  }

  /** Cleaning already clean text changes nothing. */
  lemma TypedIdempotent(raw: string)
    ensures Typed(Typed(raw)) == Typed(raw)
  {
    var t := Typed(raw);
    CollapseNoop(t);
    TrimNoop(t);
  }

  /** Two clean words separated by any whitespace run are typed as the
      words joined by a single space. */
  lemma TypedJoinsWords(a: string, w: string, b: string)
    requires a != [] && Trimmed(a) && SingleSpaced(a)
    requires b != [] && Trimmed(b) && SingleSpaced(b)
    requires w != [] && forall i :: 0 <= i < |w| ==> IsSpace(w[i])
    ensures Typed(a + w + b) == a + " " + b
  {
    CollapseRun(a, w, b);
    CollapseNoop(a);
    CollapseNoop(b);
    var t := a + " " + b;
    assert t[0] == a[0] && t[|t| - 1] == b[|b| - 1];
    TrimNoop(t);
  }

  // ----- `search`: which query to request, or which message to show -----

  /** The stored last successful lookup, `{ label, q }` (`label` is
      `caption` here); a field missing from storage reads as "". */
  datatype LastQuery = LastQuery(caption: string, q: string)

  datatype Resolution = Resolved(q: string) | Rejected(message: string)

  const TypeACity := "Type a city name."
  const NoSavedLocation := "No saved location yet."

  predicate OverrideGiven(qOverride: Option<string>) {
    qOverride.Some? && Trim(qOverride.value) != ""
  }

  /** `this.last?.q` is truthy. */
  predicate HasQ(last: Option<LastQuery>) {
    last.Some? && last.value.q != ""
  }

  /** The if/else chain of `search`. */
  function Resolve(raw: string, qOverride: Option<string>, last: Option<LastQuery>): (r: Resolution)
    ensures r.Rejected? <==>
              !OverrideGiven(qOverride) && (Typed(raw) == "" || (IsMyLocation(Typed(raw)) && !HasQ(last)))
    ensures r.Rejected? ==> r.message == TypeACity || r.message == NoSavedLocation
    ensures !OverrideGiven(qOverride) && Typed(raw) == "" ==> r == Rejected(TypeACity)
    ensures r.Resolved? ==>
              (OverrideGiven(qOverride) && r.q == Trim(qOverride.value))
              || r.q == Typed(raw)
              || (last.Some? && r.q == last.value.q)
  {
    var typed := Typed(raw);
    if OverrideGiven(qOverride) then Resolved(Trim(qOverride.value))
    else if typed == "" then Rejected(TypeACity)
    else if IsMyLocation(typed) then
      if HasQ(last) then Resolved(last.value.q) else Rejected(NoSavedLocation)
    else if last.Some? && last.value.caption != "" && ToLower(typed) == ToLower(last.value.caption) then
      Resolved(last.value.q)
    else Resolved(typed)
  }

  /** A non-blank override wins, trimmed, whatever was typed or stored. */
  lemma OverrideWins(raw: string, o: string, last: Option<LastQuery>)
    requires Trim(o) != ""
    ensures Resolve(raw, Some(o), last) == Resolved(Trim(o))
  {
  }

  /** Typing "My Location" reuses the stored query, or is refused when no
      query is stored. */
  lemma SentinelResolution(raw: string, qOverride: Option<string>, last: Option<LastQuery>)
    requires !OverrideGiven(qOverride) && Typed(raw) != "" && IsMyLocation(Typed(raw))
    ensures Resolve(raw, qOverride, last)
            == if HasQ(last) then Resolved(last.value.q) else Rejected(NoSavedLocation)
  {
  }

  /** Text equal, ignoring case, to the stored label reuses the stored query
      rather than the typed text. */
  lemma LabelMatchReusesQuery(raw: string, qOverride: Option<string>, caption: string, q: string)
    requires !OverrideGiven(qOverride) && Typed(raw) != "" && !IsMyLocation(Typed(raw))
    requires caption != "" && ToLower(Typed(raw)) == ToLower(caption)
    ensures Resolve(raw, qOverride, Some(LastQuery(caption, q))) == Resolved(q)
  {
  }

  /** Otherwise the cleaned typed text is the query. */
  lemma TypedTextIsQuery(raw: string, qOverride: Option<string>, last: Option<LastQuery>)
    requires !OverrideGiven(qOverride) && Typed(raw) != "" && !IsMyLocation(Typed(raw))
    requires !(last.Some? && last.value.caption != "" && ToLower(Typed(raw)) == ToLower(last.value.caption))
    ensures Resolve(raw, qOverride, last) == Resolved(Typed(raw))
  {
  }

  /** The slot as `setLast` leaves it: empty, or both fields non-empty. */
  predicate SlotWellFormed(last: Option<LastQuery>) {
    last.None? || (last.value.caption != "" && last.value.q != "")
  }

  /** With a well-formed slot every resolved query is non-empty. */
  lemma ResolvedQueryNonEmpty(raw: string, qOverride: Option<string>, last: Option<LastQuery>)
    requires SlotWellFormed(last)
    ensures Resolve(raw, qOverride, last).Resolved? ==> Resolve(raw, qOverride, last).q != ""
  {
    if OverrideGiven(qOverride) {
      OverrideWins(raw, qOverride.value, last);
    }
  }

  /** So the client's VALIDATION error cannot come out of a search. */
  lemma ResolvedQueryIsValid(raw: string, qOverride: Option<string>, last: Option<LastQuery>, fetched: Fetched)
    requires SlotWellFormed(last)
    ensures var r := Resolve(raw, qOverride, last);
      r.Resolved? ==> var w := GetWeatherByCity(r.q, fetched);
        !(w.Failure? && w.error.ApiFailure? && w.error.err.code == Validation)
  {
    ResolvedQueryNonEmpty(raw, qOverride, last);
  }

  // ----- `msg` and the geolocation messages -----

  const Generic := "Something went wrong."

  /** Kinds that have a message of their own. */
  predicate Explained(k: ErrorKind) {
    k.NotFound? || k.Unauthorized? || k.RateLimit? || k.Network? || k.Data? || k.Validation?
  }

  const NotFoundText := "City not found. Try a different spelling or include country (e.g., \"Paris, FR\")."
  const UnauthorizedText := "Invalid or missing API key."
  const RateLimitText := "Rate limit reached. Try again later."
  const NetworkText := "Network error. Check your connection."
  const DataText := "No forecast data for this location."
  const ValidationText := "City name is required."

  /** `msg`: the user-facing text for a failed lookup. */
  function Msg(e: Failure): (m: string)
    ensures m != Generic <==> e.ApiFailure? && Explained(e.err.code)
  {
    match e
    case TypeError => Generic
    case ApiFailure(err) =>
      match err.code
      case NotFound => NotFoundText
      case Unauthorized => UnauthorizedText
      case RateLimit => RateLimitText
      case Network => NetworkText
      case Data => DataText
      case Validation => ValidationText
      case _ => Generic
  }

  /** Reads the kind back from a message: the inverse of `Msg` on the
      explained kinds. */
  function KindOfMsg(m: string): Option<ErrorKind> {
    if m == NotFoundText then Some(NotFound)
    else if m == UnauthorizedText then Some(Unauthorized)
    else if m == RateLimitText then Some(RateLimit)
    else if m == NetworkText then Some(Network)
    else if m == DataText then Some(Data)
    else if m == ValidationText then Some(Validation)
    else None
  }

  /** An explained message names its kind. */
  lemma MsgNamesKind(e: WeatherApiError)
    requires Explained(e.code)
    ensures KindOfMsg(Msg(ApiFailure(e))) == Some(e.code)
  {
  }

  /** Different explained kinds give different messages. */
  lemma MsgDistinguishesKinds(a: WeatherApiError, b: WeatherApiError)
    requires Explained(a.code) && Explained(b.code) && a.code != b.code
    ensures Msg(ApiFailure(a)) != Msg(ApiFailure(b))
  {
    MsgNamesKind(a);
    MsgNamesKind(b);
  }

  const PermissionDenied := "Permission denied. Enable location access."
  const PositionUnavailable := "Position unavailable."
  const TimedOut := "Timed out. Try again."

  /** The message for a geolocation failure with `err?.code`. */
  function GeoMessage(code: Option<int>): (m: string)
    ensures m == PermissionDenied <==> code == Some(1)
    ensures m == PositionUnavailable <==> code == Some(2)
    ensures m == TimedOut <==> code != Some(1) && code != Some(2)
  {
    if code == Some(1) then PermissionDenied
    else if code == Some(2) then PositionUnavailable
    else TimedOut
  }

  // ----- `render` -----

  const DegSuffix := "\U{A0}°C"

  /** `deg`: the rounded value and " °C"; `Math.round(Number(undefined))` is
      NaN. */
  function Deg(round: real -> int, n: Option<real>): (r: string)
    ensures |r| > |DegSuffix| && r[|r| - |DegSuffix|..] == DegSuffix
    ensures n.Some? ==> var t := r[..|r| - |DegSuffix|];
              IsIntText(t) && ParseInt(t) == round(n.value) && CanonicalInt(t)
    ensures n.None? ==> r[..|r| - |DegSuffix|] == "NaN"
  {
    if n.Some? then
      var v := IntToString(round(n.value));
      assert (v + DegSuffix)[..|v|] == v;
      v + DegSuffix
    else "NaN" + DegSuffix
  }

  /** `${v || '-'}` for an astronomy string. */
  function OrDash(v: Option<string>): (r: string)
    ensures r == "-" <==> v.None? || v.value == "" || v.value == "-"
    ensures r != "-" ==> v == Some(r)
  {
    if v.Some? && v.value != "" then v.value else "-"
  }

  /** `${v ?? '-'}` for the AQI index: only a missing index shows "-". */
  function OrDashNullish(v: Option<int>): (r: string)
    ensures r == "-" <==> v.None?
    ensures v.Some? ==> IsIntText(r) && ParseInt(r) == v.value && CanonicalInt(r)
  {
    if v.Some? then IntToString(v.value) else "-"
  }

  /** An AQI index of 0 is shown as "0", whereas an empty astronomy string
      shows "-". */
  lemma ZeroIndexIsShown()
    ensures OrDashNullish(Some(0)) == "0" && OrDash(Some("")) == "-"
  {
    assert NatToString(0) == "0";
  }

  /** The texts `render` writes for a normalised record. */
  datatype Screen = Screen(
    city: string, currentTemp: string, maxTemp: string, minTemp: string, feelsLike: string,
    uv: string, condition: string, sunrise: string, sunset: string, moonPhase: string, aqi: string)

  function RenderScreen(w: Weather, round: real -> int, numText: real -> string): (s: Screen)
    ensures s.city == w.title
    ensures IsIntText(s.currentTemp) && ParseInt(s.currentTemp) == round(w.current.temp)
    ensures CanonicalInt(s.currentTemp)
    ensures s.maxTemp == Deg(round, w.day.max) && s.minTemp == Deg(round, w.day.min)
    ensures s.feelsLike == Deg(round, Some(w.current.feelsLike))
    ensures s.uv == numText(w.current.uv) && s.condition == w.current.conditionText
    ensures s.sunrise == "Sunrise: " + OrDash(w.astro.sunrise)
    ensures s.sunset == "Sunset: " + OrDash(w.astro.sunset)
    ensures s.moonPhase == "Moon phase: " + OrDash(w.astro.moonPhase)
    ensures s.aqi == "Air Quality (US EPA): " + OrDashNullish(w.aqi.usEpaIndex)
  {
    Screen(
      w.title, IntToString(round(w.current.temp)), Deg(round, w.day.max), Deg(round, w.day.min),
      Deg(round, Some(w.current.feelsLike)), numText(w.current.uv), w.current.conditionText,
      "Sunrise: " + OrDash(w.astro.sunrise), "Sunset: " + OrDash(w.astro.sunset),
      "Moon phase: " + OrDash(w.astro.moonPhase), "Air Quality (US EPA): " + OrDashNullish(w.aqi.usEpaIndex))
  }

  // ----- `chartsFrom` -----

  /** The data handed to the two charts: shared labels, the temperature and
      feels-like series, and the UV series. */
  datatype Series = Series(labels: seq<string>, temps: seq<int>, feels: seq<int>, uvs: seq<real>)

  /** `chartsFrom`: nothing for an empty hour list; otherwise one point per
      hour, in order, labelled by its `hhmm` ("" when there is none). */
  function ChartsFrom(hourly: seq<HourPoint>, round: real -> int): (r: Option<Series>)
    ensures r.None? <==> hourly == []
    ensures r.Some? ==>
              var s, n := r.value, |hourly|;
              |s.labels| == n && |s.temps| == n && |s.feels| == n && |s.uvs| == n
              && forall i :: 0 <= i < n ==>
                   s.labels[i] == hourly[i].hhmm && s.temps[i] == round(hourly[i].temp)
                   && s.feels[i] == round(hourly[i].feelsLike) && s.uvs[i] == hourly[i].uv
  {
    if hourly == [] then None
    else
      var n := |hourly|;
      Some(Series(
        seq(n, i requires 0 <= i < n => if hourly[i].hhmm != "" then hourly[i].hhmm else ""),
        seq(n, i requires 0 <= i < n => round(hourly[i].temp)),
        seq(n, i requires 0 <= i < n => round(hourly[i].feelsLike)),
        seq(n, i requires 0 <= i < n => hourly[i].uv)))
  }

  /** For provider hours stamped "date time", the chart labels are exactly
      the time parts, one per hour, in the provider's order. */
  lemma ChartLabelsAreClockTimes(hours: seq<Hour>, dates: seq<string>, clocks: seq<string>, round: real -> int)
    requires |hours| > 0 && |dates| == |hours| && |clocks| == |hours|
    requires forall i :: 0 <= i < |hours| ==>
               ' ' !in dates[i] && ' ' !in clocks[i] && hours[i].time == Some(dates[i] + " " + clocks[i])
    ensures var r := ChartsFrom(Hourly(Some(hours)), round);
      r.Some? && r.value.labels == clocks && |r.value.temps| == |hours| && |r.value.uvs| == |hours|
  {
    var r := ChartsFrom(Hourly(Some(hours)), round);
    forall i | 0 <= i < |hours| ensures r.value.labels[i] == clocks[i] {
      HhMmOfStamp(dates[i], clocks[i], "");
      assert dates[i] + " " + clocks[i] + "" == dates[i] + " " + clocks[i];
    }
  }
}
