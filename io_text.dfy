/** Reading text the way the C++ streams used by the mesh readers do it. A
    stream is a string with a position in it. The operations are skipping
    white space (std::ws), reading one line (std::getline), trimming a line
    (boost::algorithm::trim) and extracting a word, an integer, a size or a
    floating-point number (operator>>). Integers are also rendered as text
    (std::to_string and operator<< on an int). */
module Text {
  import opened Wrappers

  /** The white-space characters of the "C" locale. */
  predicate IsSpace(c: char)
  {
    c == ' ' || c == '\t' || c == '\n' || c == '\r' || c == '\U{000B}' || c == '\U{000C}'
  }

  predicate AllSpaces(s: string)
  {
    forall k :: 0 <= k < |s| ==> IsSpace(s[k])
  }

  /** The first position at or after p that holds no white space (std::ws). */
  function SkipSpace(s: string, p: nat): (q: nat)
    requires p <= |s|
    ensures p <= q <= |s|
    ensures forall k :: p <= k < q ==> IsSpace(s[k])
    ensures q < |s| ==> !IsSpace(s[q])
    decreases |s| - p
  {
    if p == |s| || !IsSpace(s[p]) then p else SkipSpace(s, p + 1)
  }

  /** The white space that std::ws skips is determined by the two facts
      its contract states. */
  lemma {:induction false} SkipSpaceUnique(s: string, p: nat, q: nat)
    requires p <= q <= |s|
    requires forall k :: p <= k < q ==> IsSpace(s[k])
    requires q < |s| ==> !IsSpace(s[q])
    ensures SkipSpace(s, p) == q
    decreases q - p
  {
    if p < q {
      SkipSpaceUnique(s, p + 1, q);
    }
  }

  /** The end of the line that starts at p: the next '\n', or the end. */
  function LineEnd(s: string, p: nat): (q: nat)
    requires p <= |s|
    ensures p <= q <= |s|
    ensures forall k :: p <= k < q ==> s[k] != '\n'
    ensures q < |s| ==> s[q] == '\n'
    decreases |s| - p
  {
    if p == |s| || s[p] == '\n' then p else LineEnd(s, p + 1)
  }

  lemma {:induction false} LineEndUnique(s: string, p: nat, q: nat)
    requires p <= q <= |s|
    requires forall k :: p <= k < q ==> s[k] != '\n'
    requires q < |s| ==> s[q] == '\n'
    ensures LineEnd(s, p) == q
    decreases q - p
  {
    if p < q {
      LineEndUnique(s, p + 1, q);
    }
  }

  /** std::getline at position p. Nothing left to read makes the stream
      fail (None). Otherwise the result is the line without its '\n' and
      the position after the '\n', or the end when the last line has none. */
  function GetLine(s: string, p: nat): (r: Option<(string, nat)>)
    requires p <= |s|
    ensures r.None? <==> p == |s|
    ensures r.Some? ==> p < r.value.1 <= |s| && '\n' !in r.value.0
    ensures r.Some? ==> s[p..r.value.1] == r.value.0 + "\n" || (r.value.1 == |s| && s[p..] == r.value.0)
  {
    if p == |s| then None
    else
      var e := LineEnd(s, p);
      assert forall c :: c in s[p..e] ==> c != '\n';
      if e < |s| then
        assert s[p..e + 1] == s[p..e] + "\n";
        Some((s[p..e], e + 1))
      else Some((s[p..e], e))
  }

  /** A line followed by '\n' is read back as written, whatever precedes
      it and whatever follows. */
  lemma GetLineOf(pre: string, line: string, rest: string)
    requires '\n' !in line
    ensures GetLine(pre + line + "\n" + rest, |pre|) == Some((line, |pre| + |line| + 1))
  {
    var s := pre + line + "\n" + rest;
    forall k | |pre| <= k < |pre| + |line| ensures s[k] != '\n' {
      assert s[k] == line[k - |pre|];
    }
    LineEndUnique(s, |pre|, |pre| + |line|);
    assert s[|pre|..|pre| + |line|] == line;
  }

  /** The same for a last line that has no '\n'. */
  lemma GetLineLast(pre: string, line: string)
    requires '\n' !in line && line != []
    ensures GetLine(pre + line, |pre|) == Some((line, |pre| + |line|))
  {
    var s := pre + line;
    forall k | |pre| <= k < |pre| + |line| ensures s[k] != '\n' {
      assert s[k] == line[k - |pre|];
    }
    LineEndUnique(s, |pre|, |pre| + |line|);
    assert s[|pre|..] == line;
  }

  /** The end of s without its trailing white space. */
  function TrimEnd(s: string): (j: nat)
    ensures j <= |s|
    ensures forall k :: j <= k < |s| ==> IsSpace(s[k])
    ensures j > 0 ==> !IsSpace(s[j - 1])
  {
    if s == [] || !IsSpace(s[|s| - 1]) then |s| else TrimEnd(s[..|s| - 1])
  }

  lemma {:induction false} TrimEndUnique(s: string, j: nat)
    requires j <= |s|
    requires forall k :: j <= k < |s| ==> IsSpace(s[k])
    requires j > 0 ==> !IsSpace(s[j - 1])
    ensures TrimEnd(s) == j
    decreases |s|
  {
    if j < |s| {
      var t := s[..|s| - 1];
      assert forall k :: j <= k < |t| ==> t[k] == s[k];
      assert j > 0 ==> t[j - 1] == s[j - 1];
      TrimEndUnique(t, j);
    }
  }

  /** boost::algorithm::trim: s without its leading and trailing white
      space. */
  function Trim(s: string): (r: string)
    ensures |r| <= |s|
    ensures r == [] <==> AllSpaces(s)
    ensures r != [] ==> !IsSpace(r[0]) && !IsSpace(r[|r| - 1])
  {
    var i := SkipSpace(s, 0);
    if i == |s| then []
    else
      var j := TrimEnd(s);
      assert i < j;
      s[i..j]
  }

  /** Trimming removes exactly the white space around a text that does not
      itself start or end with white space. */
  lemma TrimPadded(a: string, t: string, b: string)
    requires AllSpaces(a) && AllSpaces(b)
    requires t != [] ==> !IsSpace(t[0]) && !IsSpace(t[|t| - 1])
    ensures Trim(a + t + b) == t
  {
    var s := a + t + b;
    if t == [] {
      assert forall k :: 0 <= k < |s| ==> s[k] == if k < |a| then a[k] else b[k - |a|];
    } else {
      assert forall k :: 0 <= k < |a| ==> s[k] == a[k];
      assert s[|a|] == t[0];
      SkipSpaceUnique(s, 0, |a|);
      assert forall k :: |a| + |t| <= k < |s| ==> s[k] == b[k - |a| - |t|];
      assert s[|a| + |t| - 1] == t[|t| - 1];
      TrimEndUnique(s, |a| + |t|);
      assert s[|a|..|a| + |t|] == t;
    }
  }

  /** The end of the word that starts at p: the next white space or the
      end. */
  function WordEnd(s: string, p: nat): (q: nat)
    requires p <= |s|
    ensures p <= q <= |s|
    ensures forall k :: p <= k < q ==> !IsSpace(s[k])
    ensures q < |s| ==> IsSpace(s[q])
    decreases |s| - p
  {
    if p == |s| || IsSpace(s[p]) then p else WordEnd(s, p + 1)
  }

  lemma {:induction false} WordEndUnique(s: string, p: nat, q: nat)
    requires p <= q <= |s|
    requires forall k :: p <= k < q ==> !IsSpace(s[k])
    requires q < |s| ==> IsSpace(s[q])
    ensures WordEnd(s, p) == q
    decreases q - p
  {
    if p < q {
      WordEndUnique(s, p + 1, q);
    }
  }

  /** A word without white space, followed by white space or by nothing,
      is extracted as written. */
  lemma ExtractWordOf(w: string, rest: string)
    requires w != [] && forall k :: 0 <= k < |w| ==> !IsSpace(w[k])
    requires rest != [] ==> IsSpace(rest[0])
    ensures ExtractWord(w + rest, 0) == Some((w, |w|))
  {
    var s := w + rest;
    assert s[0] == w[0];
    SkipSpaceUnique(s, 0, 0);
    forall k | 0 <= k < |w| ensures !IsSpace(s[k]) {
      assert s[k] == w[k];
    }
    assert |w| < |s| ==> s[|w|] == rest[0];
    WordEndUnique(s, 0, |w|);
    assert s[0..|w|] == w;
  }

  /** operator>> into a std::string: the next word after white space and
      the position after it; None when only white space is left. */
  function ExtractWord(s: string, p: nat): (r: Option<(string, nat)>)
    requires p <= |s|
    ensures r.None? <==> (forall k :: p <= k < |s| ==> IsSpace(s[k]))
    ensures r.Some? ==> p < r.value.1 <= |s| && r.value.0 != []
    ensures r.Some? ==> forall k :: 0 <= k < |r.value.0| ==> !IsSpace(r.value.0[k])
  {
    var i := SkipSpace(s, p);
    if i == |s| then None
    else
      var j := WordEnd(s, i);
      Some((s[i..j], j))
  }

  predicate IsDigit(c: char)
  {
    '0' <= c <= '9'
  }

  /** The end of the run of digits that starts at p. */
  function DigitsEnd(s: string, p: nat): (q: nat)
    requires p <= |s|
    ensures p <= q <= |s|
    ensures forall k :: p <= k < q ==> IsDigit(s[k])
    ensures q < |s| ==> !IsDigit(s[q])
    decreases |s| - p
  {
    if p == |s| || !IsDigit(s[p]) then p else DigitsEnd(s, p + 1)
  }

  lemma {:induction false} DigitsEndUnique(s: string, p: nat, q: nat)
    requires p <= q <= |s|
    requires forall k :: p <= k < q ==> IsDigit(s[k])
    requires q < |s| ==> !IsDigit(s[q])
    ensures DigitsEnd(s, p) == q
    decreases q - p
  {
    if p < q {
      DigitsEndUnique(s, p + 1, q);
    }
  }

  predicate AllDigits(w: string)
  {
    forall k :: 0 <= k < |w| ==> IsDigit(w[k])
  }

  /** The value of a string of decimal digits. */
  function DigitsValue(w: string): nat
    requires AllDigits(w)
  {
    if w == [] then 0 else DigitsValue(w[..|w| - 1]) * 10 + DigitValue(w[|w| - 1])
  }

  /** The value of a digit. */
  function DigitValue(c: char): (d: nat)
    requires IsDigit(c)
    ensures d < 10
  {
    c as int - '0' as int
  }

  /** The digit of 0 <= d < 10. */
  function Digit(d: nat): (c: char)
    requires d < 10
    ensures IsDigit(c) && DigitValue(c) == d
  {
    ('0' as int + d) as char
  }

  /** The decimal text of n, without leading zeros. */
  function NatText(n: nat): (t: string)
    ensures t != []
    ensures forall k :: 0 <= k < |t| ==> IsDigit(t[k])
    ensures |t| > 1 ==> t[0] != '0'
  {
    if n < 10 then [Digit(n)] else NatText(n / 10) + [Digit(n % 10)]
  }

  /** The digits of NatText(n) have the value n. */
  lemma {:induction false} NatTextValue(n: nat)
    ensures DigitsValue(NatText(n)) == n
  {
    var t := NatText(n);
    if n >= 10 {
      var h := NatText(n / 10);
      NatTextValue(n / 10);
      assert t[..|t| - 1] == h;
    }
  }

  /** std::to_string(n) and operator<< on an int: a '-' for a negative
      number, then the digits of its magnitude. */
  function IntText(n: int): (t: string)
    ensures t != [] && (t[0] == '-' <==> n < 0)
  {
    if n < 0 then "-" + NatText(-n) else NatText(n)
  }

  /** The number operator>> into an integer type reads from position p:
      white space, an optional sign and at least one digit. None when no
      digit follows. Its value, of any size, and the position after the
      digits otherwise. */
  function ScanInt(s: string, p: nat): (r: Option<(int, nat)>)
    requires p <= |s|
    ensures r.Some? ==> p < r.value.1 <= |s| && IsDigit(s[r.value.1 - 1])
    ensures r.Some? ==> r.value.1 == |s| || !IsDigit(s[r.value.1])
  {
    var i := SkipSpace(s, p);
    var neg := i < |s| && s[i] == '-';
    var d := if i < |s| && (s[i] == '-' || s[i] == '+') then i + 1 else i;
    var e := DigitsEnd(s, d);
    if e == d then None
    else
      var v: int := DigitsValue(s[d..e]);
      Some((if neg then -v else v, e))
  }

  /** The smallest and the largest int. */
  const IntMin: int := -0x8000_0000
  const IntMax: int := 0x7FFF_FFFF

  predicate FitsInt(n: int)
  {
    IntMin <= n <= IntMax
  }

  /** The int nearest to n. */
  function ClampInt(n: int): (c: int)
    ensures FitsInt(c)
    ensures FitsInt(n) ==> c == n
    ensures n > IntMax ==> c == IntMax
    ensures n < IntMin ==> c == IntMin
  {
    if n > IntMax then IntMax else if n < IntMin then IntMin else n
  }

  /** operator>> into an int from position p: the scanned number and the
      position after it. None when the stream fails: no number, or one
      outside the range of an int. */
  function ExtractInt(s: string, p: nat): (r: Option<(int, nat)>)
    requires p <= |s|
    ensures r.Some? <==> ScanInt(s, p).Some? && FitsInt(ScanInt(s, p).value.0)
    ensures r.Some? ==> r == ScanInt(s, p)
  {
    match ScanInt(s, p)
    case None => None
    case Some((v, e)) => if FitsInt(v) then Some((v, e)) else None
  }

  /** The value operator>> stores into an int, failed or not: 0 when no
      number is read, the nearest int to the number otherwise (an
      out-of-range number fails the stream but still stores the smallest
      or the largest int). */
  function StoredInt(s: string, p: nat): (v: int)
    requires p <= |s|
    ensures FitsInt(v)
    ensures ExtractInt(s, p).Some? ==> v == ExtractInt(s, p).value.0
    ensures ScanInt(s, p).None? ==> v == 0
    ensures ScanInt(s, p).Some? && ScanInt(s, p).value.0 > IntMax ==> v == IntMax
    ensures ScanInt(s, p).Some? && ScanInt(s, p).value.0 < IntMin ==> v == IntMin
  {
    match ScanInt(s, p)
    case None => 0
    case Some((v, _)) => ClampInt(v)
  }

  /** What ScanInt reads, given where the white space, the sign and the
      digits end. */
  lemma ScanIntIs(s: string, p: nat, i: nat, d: nat, e: nat)
    requires p <= i <= d < e <= |s|
    requires forall k :: p <= k < i ==> IsSpace(s[k])
    requires !IsSpace(s[i])
    requires d == if s[i] == '-' || s[i] == '+' then i + 1 else i
    requires forall k :: d <= k < e ==> IsDigit(s[k])
    requires e < |s| ==> !IsDigit(s[e])
    ensures ScanInt(s, p) == Some((if s[i] == '-' then -(DigitsValue(s[d..e]) as int) else DigitsValue(s[d..e]), e))
  {
    SkipSpaceUnique(s, p, i);
    DigitsEndUnique(s, d, e);
  }

  /** Where the parts of a signed number written after white space lie. */
  lemma NumberLayout(s: string, lead: string, pre: string, neg: bool, u: string, rest: string)
    requires s == lead + pre + (if neg then "-" else "") + u + rest
    requires AllSpaces(pre) && u != [] && AllDigits(u)
    requires rest != [] ==> !IsDigit(rest[0])
    ensures var i := |lead| + |pre|; var d := if neg then i + 1 else i;
      d + |u| + |rest| == |s| &&
      (forall k :: |lead| <= k < i ==> IsSpace(s[k])) &&
      !IsSpace(s[i]) && (s[i] == '-' || s[i] == '+' <==> neg) && (s[i] == '-' <==> neg) &&
      (forall k :: d <= k < d + |u| ==> IsDigit(s[k])) &&
      (d + |u| < |s| ==> !IsDigit(s[d + |u|])) &&
      s[d..d + |u|] == u
  {
    var i := |lead| + |pre|;
    var d := if neg then i + 1 else i;
    forall k | |lead| <= k < i ensures IsSpace(s[k]) {
      assert s[k] == pre[k - |lead|];
    }
    assert s[i] == if neg then '-' else u[0];
    forall k | d <= k < d + |u| ensures IsDigit(s[k]) {
      assert s[k] == u[k - d];
    }
    assert d + |u| < |s| ==> s[d + |u|] == rest[0];
    assert s[d..d + |u|] == u;
  }

  /** A signed string of digits is scanned as its value. */
  lemma ScanDigits(s: string, lead: string, pre: string, neg: bool, u: string, rest: string)
    requires s == lead + pre + (if neg then "-" else "") + u + rest
    requires AllSpaces(pre) && u != [] && AllDigits(u)
    requires rest != [] ==> !IsDigit(rest[0])
    ensures ScanInt(s, |lead|) == Some((if neg then -(DigitsValue(u) as int) else DigitsValue(u), |s| - |rest|))
  {
    NumberLayout(s, lead, pre, neg, u, rest);
    var i := |lead| + |pre|;
    var d := if neg then i + 1 else i;
    ScanIntIs(s, |lead|, i, d, d + |u|);
  }

  /** A sign and digits of value |n| are scanned as n. */
  lemma ScanSigned(s: string, lead: string, pre: string, n: int, rest: string, t: string, u: string)
    requires s == lead + pre + t + rest
    requires AllSpaces(pre)
    requires rest != [] ==> !IsDigit(rest[0])
    requires u != [] && AllDigits(u) && DigitsValue(u) == (if n < 0 then -n else n)
    requires t == (if n < 0 then "-" else "") + u
    ensures ScanInt(s, |lead|) == Some((n, |lead| + |pre| + |t|))
  {
    var sign := if n < 0 then "-" else "";
    Regrouped(s, lead + pre, t, sign, u, rest);
    ScanDigits(s, lead, pre, n < 0, u, rest);
  }

  lemma Regrouped(s: string, a: string, t: string, sign: string, u: string, rest: string)
    requires s == a + t + rest && t == sign + u
    ensures s == a + sign + u + rest
  {
  }

  /** An integer written by operator<< is read back into an int, with the
      position after its text, exactly when it lies in the range of an
      int and no digit follows it; lead is what was read before. */
  lemma ExtractIntText(s: string, lead: string, pre: string, n: int, rest: string)
    requires s == lead + pre + IntText(n) + rest
    requires AllSpaces(pre)
    requires rest != [] ==> !IsDigit(rest[0])
    ensures ScanInt(s, |lead|) == Some((n, |lead| + |pre| + |IntText(n)|))
    ensures ExtractInt(s, |lead|) == if FitsInt(n) then Some((n, |lead| + |pre| + |IntText(n)|)) else None
    ensures StoredInt(s, |lead|) == ClampInt(n)
  {
    var u := IntTextParts(n);
    ScanSigned(s, lead, pre, n, rest, IntText(n), u);
  }

  /** The text of n is its sign followed by the digits of |n|. */
  lemma IntTextParts(n: int) returns (u: string)
    ensures u != [] && AllDigits(u) && DigitsValue(u) == (if n < 0 then -n else n)
    ensures IntText(n) == (if n < 0 then "-" else "") + u
  {
    var m: nat := if n < 0 then -n else n;
    NatTextValue(m);
    u := NatText(m);
  }

  /** Integers written by operator<<, each after a space. */
  function SpacedInts(ns: seq<int>): (t: string)
    ensures t != [] ==> t[0] == ' '
    decreases |ns|
  {
    if ns == [] then [] else " " + IntText(ns[0]) + SpacedInts(ns[1..])
  }

  /** A record line: integers separated by single spaces. */
  function RecordText(ns: seq<int>): (t: string)
    requires ns != []
  {
    IntText(ns[0]) + SpacedInts(ns[1..])
  }

  /** Writing one more integer appends it after a space. */
  lemma {:induction false} SpacedIntsSnoc(ns: seq<int>, x: int)
    ensures SpacedInts(ns + [x]) == SpacedInts(ns) + " " + IntText(x)
    decreases |ns|
  {
    if ns == [] {
      assert SpacedInts([x]) == " " + IntText(x) + SpacedInts([]);
    } else {
      assert (ns + [x])[1..] == ns[1..] + [x];
      SpacedIntsSnoc(ns[1..], x);
    }
  }

  /** The same for a record line. */
  lemma RecordTextSnoc(ns: seq<int>, x: int)
    requires ns != []
    ensures RecordText(ns + [x]) == RecordText(ns) + " " + IntText(x)
  {
    assert (ns + [x])[1..] == ns[1..] + [x];
    SpacedIntsSnoc(ns[1..], x);
  }

  /** Integers in the range of an int written one after another with a
      space before each are extracted back, in order. */
  lemma {:induction false} ExtractSpacedInts(s: string, lead: string, ns: seq<int>)
    requires s == lead + SpacedInts(ns)
    requires forall k :: 0 <= k < |ns| ==> FitsInt(ns[k])
    ensures ExtractInts(s, |lead|, |ns|) == ns
    decreases |ns|
  {
    if ns != [] {
      var tail := ns[1..];
      assert ns == [ns[0]] + tail;
      assert forall k :: 0 <= k < |tail| ==> tail[k] == ns[k + 1];
      var lead' := SpacedHead(s, lead, ns);
      ExtractSpacedInts(s, lead', tail);
      ExtractedBefore(s, |lead|, |lead'|, ns[0], tail);
    }
  }

  /** The first of the spaced ints is extracted first, up to where the
      text of the others starts. */
  lemma SpacedHead(s: string, lead: string, ns: seq<int>) returns (lead': string)
    requires ns != [] && s == lead + SpacedInts(ns) && FitsInt(ns[0])
    ensures s == lead' + SpacedInts(ns[1..])
    ensures |lead| <= |s| && ExtractInt(s, |lead|) == Some((ns[0], |lead'| as nat))
  {
    var x, rest := ns[0], SpacedInts(ns[1..]);
    lead' := lead + " " + IntText(x);
    assert s == lead + " " + IntText(x) + rest;
    ExtractIntText(s, lead, " ", x, rest);
  }

  /** A value extracted first, followed by values that are extracted back,
      is extracted back before them. */
  lemma ExtractedBefore(s: string, p: nat, q: nat, x: int, tail: seq<int>)
    requires p <= |s| && ExtractInt(s, p) == Some((x, q))
    requires ExtractInts(s, q, |tail|) == tail
    ensures ExtractInts(s, p, |tail| + 1) == [x] + tail
  {
    ExtractIntsFirst(s, p, |tail|, x, q);
  }

  /** The integers of a record line, each in the range of an int, are
      extracted back, in order. */
  lemma ExtractRecord(s: string, ns: seq<int>)
    requires ns != [] && s == RecordText(ns)
    requires forall k :: 0 <= k < |ns| ==> FitsInt(ns[k])
    ensures ExtractInts(s, 0, |ns|) == ns
  {
    var x, tail := ns[0], ns[1..];
    var t := IntText(x);
    ExtractLeading(s, t, SpacedInts(tail), x);
    ExtractIntsFirst(s, 0, |tail|, x, |t|);
    ExtractSpacedInts(s, t, tail);
    assert [x] + tail == ns;
  }

  /** The integer in the range of an int that a line starts with is
      extracted first. */
  lemma ExtractLeading(s: string, t: string, rest: string, x: int)
    requires s == t + rest && t == IntText(x) && (rest != [] ==> rest[0] == ' ')
    requires FitsInt(x)
    ensures ExtractInt(s, 0) == Some((x, |t|))
  {
    assert s == [] + [] + t + rest;
    ExtractIntText(s, [], [], x, rest);
  }

  /** A successful first extraction is the head of the values. */
  lemma ExtractIntsFirst(s: string, p: nat, n: nat, v: int, q: nat)
    requires p <= |s| && ExtractInt(s, p) == Some((v, q))
    ensures ExtractInts(s, p, n + 1) == [v] + ExtractInts(s, q, n)
  {
  }

  /** The number of values of a size_t. */
  const SizeRange: nat := 0x1_0000_0000_0000_0000

  /** operator>> into a size_t from position p: the number is scanned as
      for an int; when its magnitude is below 2^64 its value is reduced
      modulo 2^64 (a negative number wraps around), and otherwise the
      stream fails (None). */
  function ExtractSize(s: string, p: nat): (r: Option<(nat, nat)>)
    requires p <= |s|
    ensures r.Some? <==> ScanInt(s, p).Some? && -(SizeRange as int) < ScanInt(s, p).value.0 < SizeRange
    ensures r.Some? ==> r.value.0 < SizeRange && r.value.1 == ScanInt(s, p).value.1
    ensures r.Some? ==> (r.value.0 - ScanInt(s, p).value.0) % SizeRange == 0
  {
    match ScanInt(s, p)
    case None => None
    case Some((v, q)) =>
      if v >= SizeRange || v + SizeRange <= 0 then None
      else if v < 0 then Some((SizeRange + v, q))
      else Some((v, q))
  }

  /** The value operator>> stores into a size_t, failed or not: 0 when no
      number is read, the largest size_t when its magnitude does not fit. */
  function StoredSize(s: string, p: nat): (v: nat)
    requires p <= |s|
    ensures v < SizeRange
    ensures ExtractSize(s, p).Some? ==> v == ExtractSize(s, p).value.0
    ensures ScanInt(s, p).None? ==> v == 0
    ensures ScanInt(s, p).Some? && ExtractSize(s, p).None? ==> v == SizeRange - 1
  {
    match ScanInt(s, p)
    case None => 0
    case Some(_) =>
      match ExtractSize(s, p)
      case None => SizeRange - 1
      case Some((v, _)) => v
  }

  /** 10 to the power e. */
  function Pow10(e: nat): (r: real)
    ensures r >= 1.0
  {
    if e == 0 then 1.0 else 10.0 * Pow10(e - 1)
  }

  /** The value of the decimal fraction s[p..q]: 0.d1d2...dn. */
  function FractionValue(s: string, p: nat, q: nat): real
    requires p <= q <= |s|
    requires forall k :: p <= k < q ==> IsDigit(s[k])
  {
    (DigitsValue(s[p..q]) as real) / Pow10(q - p)
  }

  /** The mantissa of a double starting at d, without its sign: digits
      with an optional '.' and fraction, at least one digit in all. Its
      value and the position after it; None when it has no digit. */
  function Mantissa(s: string, d: nat): (r: Option<(real, nat)>)
    requires d <= |s|
    ensures r.Some? ==> d < r.value.1 <= |s|
  {
    var e := DigitsEnd(s, d);
    var dot := e < |s| && s[e] == '.';
    var f := if dot then DigitsEnd(s, e + 1) else e;
    if e == d && (!dot || f == e + 1) then None
    else Some((DigitsValue(s[d..e]) as real + (if dot then FractionValue(s, e + 1, f) else 0.0), f))
  }

  /** The optional exponent after a mantissa of value m that ends at f: an
      'e' or 'E', an optional sign and digits. The stream collects the 'e'
      and its sign as soon as the mantissa has a digit, so an exponent
      without digits leaves a field that cannot be converted whole: the
      extraction fails (None). */
  function Exponent(s: string, f: nat, m: real): (r: Option<(real, nat)>)
    requires f <= |s|
    ensures r.Some? ==> f <= r.value.1 <= |s|
    ensures f == |s| || (s[f] != 'e' && s[f] != 'E') ==> r == Some((m, f))
  {
    if f == |s| || (s[f] != 'e' && s[f] != 'E') then Some((m, f))
    else
      var es := if f + 1 < |s| && (s[f + 1] == '-' || s[f + 1] == '+') then f + 2 else f + 1;
      var ee := DigitsEnd(s, es);
      if ee == es then None
      else
        Some((Scaled(m, s[f + 1] == '-', DigitsValue(s[es..ee])), ee))
  }

  /** m times 10 to the power x, or divided by it for a negative exponent. */
  function Scaled(m: real, negExp: bool, x: nat): real
  {
    if negExp then m / Pow10(x) else m * Pow10(x)
  }

  /** operator>> into a double from position p: white space, an optional
      sign, a mantissa and an optional exponent. None when either fails. */
  function ExtractReal(s: string, p: nat): (r: Option<(real, nat)>)
    requires p <= |s|
    ensures r.Some? ==> p < r.value.1 <= |s|
  {
    var i := SkipSpace(s, p);
    var neg := i < |s| && s[i] == '-';
    var d := if i < |s| && (s[i] == '-' || s[i] == '+') then i + 1 else i;
    match Mantissa(s, d)
    case None => None
    case Some((m, f)) =>
      match Exponent(s, f, m)
      case None => None
      case Some((v, q)) => Some((if neg then -v else v, q))
  }

  /** A fraction-free number without exponent is read as its integer. */
  lemma ExtractRealInteger(s: string, p: nat)
    requires p <= |s|
    requires ScanInt(s, p).Some?
    requires var q := ScanInt(s, p).value.1; q == |s| || (s[q] != '.' && s[q] != 'e' && s[q] != 'E')
    ensures ExtractReal(s, p) == Some((ScanInt(s, p).value.0 as real, ScanInt(s, p).value.1))
  {
  }

  /** The signs a number or its exponent may start with. */
  predicate IsSign(t: string)
  {
    t == "" || t == "-" || t == "+"
  }

  /** The exact value of the decimal u.fr. */
  function DecimalValue(u: string, fr: string): real
    requires AllDigits(u) && AllDigits(fr)
  {
    DigitsValue(u) as real + DigitsValue(fr) as real / Pow10(|fr|)
  }

  /** v under the sign written before it. */
  function Signed(sign: string, v: real): real
  {
    if sign == "-" then -v else v
  }

  /** s holds white space from p up to i and then, up to f, the text of a
      mantissa: the sign, the integer digits u and, when dot holds, a '.'
      and the fraction digits fr, with at least one digit in all. */
  predicate MantissaWritten(s: string, p: nat, i: nat, sign: string, u: string, dot: bool, fr: string, f: nat)
  {
    IsSign(sign) && AllDigits(u) && AllDigits(fr) && (u != [] || fr != []) && (!dot ==> fr == []) &&
    p <= i && f == i + |sign| + |u| + (if dot then 1 + |fr| else 0) <= |s| &&
    (forall k :: p <= k < i ==> IsSpace(s[k])) &&
    s[i..i + |sign|] == sign && s[i + |sign|..i + |sign| + |u|] == u &&
    (dot ==> s[i + |sign| + |u|] == '.' && s[i + |sign| + |u| + 1..f] == fr)
  }

  /** s holds from f up to q an exponent: an 'e' or 'E', the sign esign
      and the digits xd, followed by no further digit. */
  predicate ExponentWritten(s: string, f: nat, esign: string, xd: string, q: nat)
  {
    IsSign(esign) && xd != [] && AllDigits(xd) &&
    q == f + 1 + |esign| + |xd| <= |s| &&
    (s[f] == 'e' || s[f] == 'E') &&
    s[f + 1..f + 1 + |esign|] == esign && s[f + 1 + |esign|..q] == xd &&
    (q < |s| ==> !IsDigit(s[q]))
  }

  /** s holds from f on an exponent mark and a sign of length n <= 1,
      with no digit after them. */
  predicate DanglingWritten(s: string, f: nat, n: nat)
  {
    n <= 1 && f + 1 + n <= |s| &&
    (s[f] == 'e' || s[f] == 'E') &&
    (n == 1 ==> s[f + 1] == '-' || s[f + 1] == '+') &&
    (f + 1 + n < |s| ==> !IsDigit(s[f + 1 + n]) && (n == 0 ==> s[f + 1] != '-' && s[f + 1] != '+'))
  }

  /** The digits w written from a to b form the whole run of digits there
      when no digit follows. */
  lemma DigitsRun(s: string, a: nat, b: nat, w: string)
    requires a <= b <= |s| && s[a..b] == w && AllDigits(w)
    requires b < |s| ==> !IsDigit(s[b])
    ensures DigitsEnd(s, a) == b
  {
    forall k | a <= k < b ensures IsDigit(s[k]) {
      assert s[k] == w[k - a];
    }
    DigitsEndUnique(s, a, b);
  }

  /** The first character of a mantissa written at i: a sign exactly when
      sign is not empty, and never white space. */
  lemma MantissaStart(s: string, p: nat, i: nat, sign: string, u: string, dot: bool, fr: string, f: nat)
    requires MantissaWritten(s, p, i, sign, u, dot, fr, f)
    ensures i < |s| && !IsSpace(s[i])
    ensures s[i] == '-' <==> sign == "-"
    ensures s[i] == '-' || s[i] == '+' <==> sign != ""
  {
    var d := i + |sign|;
    if sign != "" {
      assert s[i] == s[i..d][0] == sign[0];
    } else if u != [] {
      assert s[i] == s[d..d + |u|][0] == u[0];
    } else {
      assert dot && s[i] == '.';
    }
  }

  /** A mantissa written at i and followed at f by neither a digit nor,
      without a '.', a '.': the stream skips to i, and the mantissa after
      the sign is read up to f with the exact value of its digits. */
  lemma MantissaAt(s: string, p: nat, i: nat, sign: string, u: string, dot: bool, fr: string, f: nat)
    requires MantissaWritten(s, p, i, sign, u, dot, fr, f)
    requires f < |s| ==> !IsDigit(s[f]) && (!dot ==> s[f] != '.')
    ensures SkipSpace(s, p) == i
    ensures Mantissa(s, i + |sign|) == Some((DecimalValue(u, fr), f))
  {
    MantissaStart(s, p, i, sign, u, dot, fr, f);
    SkipSpaceUnique(s, p, i);
    MantissaDigits(s, i + |sign|, u, dot, fr, f);
  }

  /** The digits of a mantissa written from d to f, after its sign. */
  lemma MantissaDigits(s: string, d: nat, u: string, dot: bool, fr: string, f: nat)
    requires AllDigits(u) && AllDigits(fr) && (u != [] || fr != []) && (!dot ==> fr == [])
    requires f == d + |u| + (if dot then 1 + |fr| else 0) <= |s|
    requires s[d..d + |u|] == u && (dot ==> s[d + |u|] == '.' && s[d + |u| + 1..f] == fr)
    requires f < |s| ==> !IsDigit(s[f]) && (!dot ==> s[f] != '.')
    ensures Mantissa(s, d) == Some((DecimalValue(u, fr), f))
  {
    var e := d + |u|;
    DigitsRun(s, d, e, u);
    if dot {
      DigitsRun(s, e + 1, f, fr);
      MantissaWithDot(s, d, e, f, u, fr);
    } else {
      MantissaWithoutDot(s, d, e, u);
    }
  }

  /** Integer digits u from d to e, a '.' at e and fraction digits fr up to
      f make a mantissa of value u.fr. */
  lemma MantissaWithDot(s: string, d: nat, e: nat, f: nat, u: string, fr: string)
    requires d <= e < f <= |s| && s[e] == '.'
    requires DigitsEnd(s, d) == e && DigitsEnd(s, e + 1) == f
    requires AllDigits(u) && AllDigits(fr) && s[d..e] == u && s[e + 1..f] == fr
    requires u != [] || fr != []
    ensures Mantissa(s, d) == Some((DecimalValue(u, fr), f))
  {
    assert FractionValue(s, e + 1, f) == DigitsValue(fr) as real / Pow10(|fr|);
  }

  /** Integer digits u from d to e, without a '.' after them, make a
      mantissa of value u. */
  lemma MantissaWithoutDot(s: string, d: nat, e: nat, u: string)
    requires d < e <= |s| && (e < |s| ==> s[e] != '.')
    requires DigitsEnd(s, d) == e
    requires AllDigits(u) && s[d..e] == u
    ensures Mantissa(s, d) == Some((DecimalValue(u, []), e))
  {
    assert DigitsValue([]) as real / Pow10(0) == 0.0;
  }

  /** Once the stream has skipped to i, read the sign and read a mantissa
      of value m up to f, the number is the signed result of reading the
      exponent from f on. */
  lemma ReadAt(s: string, p: nat, i: nat, sign: string, m: real, f: nat)
    requires p <= i < |s| && SkipSpace(s, p) == i && IsSign(sign)
    requires s[i] == '-' <==> sign == "-"
    requires s[i] == '-' || s[i] == '+' <==> sign != ""
    requires i + |sign| <= |s| && Mantissa(s, i + |sign|) == Some((m, f))
    ensures Exponent(s, f, m).None? ==> ExtractReal(s, p) == None
    ensures Exponent(s, f, m).Some? ==> ExtractReal(s, p) == Some((Signed(sign, Exponent(s, f, m).value.0), Exponent(s, f, m).value.1))
  {
  }

  /** A mantissa written at i and ending at f is read as the signed result
      of reading the exponent from f on. */
  lemma ReadMantissaAt(s: string, p: nat, i: nat, sign: string, u: string, dot: bool, fr: string, f: nat)
    requires MantissaWritten(s, p, i, sign, u, dot, fr, f)
    requires f < |s| ==> !IsDigit(s[f]) && (!dot ==> s[f] != '.')
    ensures var r := Exponent(s, f, DecimalValue(u, fr));
      (r.None? ==> ExtractReal(s, p) == None) &&
      (r.Some? ==> ExtractReal(s, p) == Some((Signed(sign, r.value.0), r.value.1)))
  {
    MantissaStart(s, p, i, sign, u, dot, fr, f);
    MantissaAt(s, p, i, sign, u, dot, fr, f);
    ReadAt(s, p, i, sign, DecimalValue(u, fr), f);
  }

  /** A decimal number without exponent, written at i after white space,
      is read as the exact value of its digits, up to the end f of its
      text. */
  lemma ExtractRealDecimal(s: string, p: nat, i: nat, sign: string, u: string, dot: bool, fr: string, f: nat)
    requires MantissaWritten(s, p, i, sign, u, dot, fr, f)
    requires f < |s| ==> !IsDigit(s[f]) && s[f] != 'e' && s[f] != 'E' && (!dot ==> s[f] != '.')
    ensures ExtractReal(s, p) == Some((Signed(sign, DecimalValue(u, fr)), f))
  {
    ReadMantissaAt(s, p, i, sign, u, dot, fr, f);
  }

  /** A number with an exponent is read as its mantissa's exact value
      multiplied by 10 to the exponent, or divided by 10 to its magnitude
      for a negative exponent, up to the end q of the exponent's digits. */
  lemma ExtractRealExponent(s: string, p: nat, i: nat, sign: string, u: string, dot: bool, fr: string, f: nat,
                            esign: string, xd: string, q: nat)
    requires MantissaWritten(s, p, i, sign, u, dot, fr, f)
    requires ExponentWritten(s, f, esign, xd, q)
    ensures ExtractReal(s, p) == Some((Signed(sign, Scaled(DecimalValue(u, fr), esign == "-", DigitsValue(xd))), q))
  {
    ExponentAt(s, f, DecimalValue(u, fr), esign, xd, q);
    ReadMantissaAt(s, p, i, sign, u, dot, fr, f);
  }

  /** An exponent mark without exponent digits fails the extraction: "1e",
      "1e+" and "1e x" store no number. */
  lemma ExtractRealDanglingExponent(s: string, p: nat, i: nat, sign: string, u: string, dot: bool, fr: string, f: nat, n: nat)
    requires MantissaWritten(s, p, i, sign, u, dot, fr, f)
    requires DanglingWritten(s, f, n)
    ensures ExtractReal(s, p) == None
  {
    DanglingAt(s, f, DecimalValue(u, fr), n);
    ReadMantissaAt(s, p, i, sign, u, dot, fr, f);
  }

  /** The exponent digits after an exponent mark scale the value. */
  lemma ExponentAt(s: string, f: nat, m: real, esign: string, xd: string, q: nat)
    requires ExponentWritten(s, f, esign, xd, q)
    ensures Exponent(s, f, m) == Some((Scaled(m, esign == "-", DigitsValue(xd)), q))
  {
    var es := f + 1 + |esign|;
    if esign == "" {
      assert s[f + 1] == s[es..q][0] == xd[0];
    } else {
      assert s[f + 1] == s[f + 1..es][0] == esign[0];
      assert esign[0] == '-' <==> esign == "-";
    }
    DigitsRun(s, es, q, xd);
  }

  /** An exponent mark followed by no digit fails. */
  lemma DanglingAt(s: string, f: nat, m: real, n: nat)
    requires DanglingWritten(s, f, n)
    ensures Exponent(s, f, m) == None
  {
    DigitsEndUnique(s, f + 1 + n, f + 1 + n);
  }

  /** " -2.5e-1" is read as -0.25. */
  lemma ExtractRealExponentExample()
    ensures ExtractReal(" -2.5e-1", 0) == Some((-0.25, 8))
  {
    var s := " -2.5e-1";
    assert s[1..2] == "-" && s[2..3] == "2" && s[4..5] == "5" && s[6..7] == "-" && s[7..8] == "1";
    ExtractRealExponent(s, 0, 1, "-", "2", true, "5", 5, "-", "1", 8);
    QuarterValue();
  }

  /** The value of the text -2.5e-1. */
  lemma QuarterValue()
    ensures Signed("-", Scaled(DecimalValue("2", "5"), true, DigitsValue("1"))) == -0.25
  {
    assert Pow10(1) == 10.0;
    assert DigitsValue("2") == 2 && DigitsValue("5") == 5 && DigitsValue("1") == 1;
  }

  /** "1e" is not read as 1. */
  lemma DanglingExponentExample()
    ensures ExtractReal("1e", 0) == None
  {
    assert "1e"[0..1] == "1";
    ExtractRealDanglingExponent("1e", 0, 0, "", "1", false, "", 1, 0);
  }

  /** A vertex line "0 1e" stores 0 for its second coordinate. */
  lemma DanglingCoordinateExample()
    ensures ExtractReals("0 1e", 0, 2) == [0.0, 0.0]
  {
    var b := "0 1e";
    assert b[0..1] == "0" && b[2..3] == "1";
    ExtractRealDecimal(b, 0, 0, "", "0", false, "", 1);
    assert DecimalValue("0", "") == 0.0;
    ExtractRealDanglingExponent(b, 1, 2, "", "1", false, "", 3, 0);
    assert ExtractReals(b, 1, 1) == [0.0];
  }

  /** n successive extractions into ints from position p. The first one
      that fails leaves the stream failed, so that every later one fails
      too; from the first failure on, the values are 0 here. */
  function ExtractInts(s: string, p: nat, n: nat): (r: seq<int>)
    requires p <= |s|
    ensures |r| == n
    decreases n
  {
    if n == 0 then []
    else match ExtractInt(s, p)
      case None => seq(n, _ => 0)
      case Some((v, q)) => [v] + ExtractInts(s, q, n - 1)
  }

  /** n successive extractions into doubles, failing as ExtractInts does. */
  function ExtractReals(s: string, p: nat, n: nat): (r: seq<real>)
    requires p <= |s|
    ensures |r| == n
    ensures n > 0 && ExtractReal(s, p).Some? ==> r[0] == ExtractReal(s, p).value.0
    ensures n > 0 && ExtractReal(s, p).None? ==> forall k :: 0 <= k < n ==> r[k] == 0.0
    decreases n
  {
    if n == 0 then []
    else match ExtractReal(s, p)
      case None => seq(n, _ => 0.0)
      case Some((v, q)) => [v] + ExtractReals(s, q, n - 1)
  }
}
