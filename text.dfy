/** Text primitives the service relies on: Python's notion of whitespace,
    `str.strip()`, `str.split()` without arguments, `str.join`, and the
    decimal rendering and parsing of integers (`str(n)`, `int(s)`). */
module Text {

  /** `str.isspace()` for a single character, as Python 3 defines it: the
      ASCII controls TAB..CR and FS..US, SPACE, NEL, NO-BREAK SPACE and the
      Unicode space separators and line/paragraph separators. */
  predicate IsSpace(c: char) {
    var n := c as int;
    (9 <= n <= 13) || (28 <= n <= 32) || n == 0x85 || n == 0xA0 || n == 0x1680
    || (0x2000 <= n <= 0x200A) || n == 0x2028 || n == 0x2029 || n == 0x202F
    || n == 0x205F || n == 0x3000
  }

  /** Every character of `s` is whitespace (`not s.strip()` in Python). */
  predicate AllSpace(s: string) {
    forall i :: 0 <= i < |s| ==> IsSpace(s[i])
  }

  /** A word as `str.split()` produces it: non-empty, no whitespace. */
  predicate IsWord(w: string) {
    |w| > 0 && forall i :: 0 <= i < |w| ==> !IsSpace(w[i])
  }

  /** `s` neither starts nor ends with whitespace. */
  predicate Unpadded(s: string) {
    s == [] || (!IsSpace(s[0]) && !IsSpace(s[|s| - 1]))
  }

  /** Every whitespace character of `s` is a plain space with a
      non-whitespace character on each side: no leading or trailing
      whitespace, no tabs or newlines, no two adjacent spaces. */
  predicate SingleSpaced(s: string) {
    forall i :: 0 <= i < |s| && IsSpace(s[i]) ==>
      s[i] == ' ' && 0 < i < |s| - 1 && !IsSpace(s[i - 1]) && !IsSpace(s[i + 1])
  }

  /** `a` is an initial piece of `b`. */
  predicate IsPrefix(a: string, b: string) {
    |a| <= |b| && b[..|a|] == a
  }

  /** `a` occurs in `b` as a contiguous piece. */
  ghost predicate IsInfix(a: string, b: string) {
    exists k :: 0 <= k <= |b| && IsPrefix(a, b[k..])
  }

  /** `s.lstrip()`: drops the leading whitespace. */
  function TrimLeft(s: string): (r: string)
    ensures |r| <= |s| && r == s[|s| - |r|..]
    ensures r == [] || !IsSpace(r[0])
    ensures forall i :: 0 <= i < |s| - |r| ==> IsSpace(s[i])
  {
    if s != [] && IsSpace(s[0]) then TrimLeft(s[1..]) else s
  }

  /** `s.rstrip()`: drops the trailing whitespace. */
  function TrimRight(s: string): (r: string)
    ensures |r| <= |s| && r == s[..|r|]
    ensures r == [] || !IsSpace(r[|r| - 1])
    ensures forall i :: |r| <= i < |s| ==> IsSpace(s[i])
  {
    if s != [] && IsSpace(s[|s| - 1]) then TrimRight(s[..|s| - 1]) else s
  }

  /** `s.strip()`. */
  function Strip(s: string): (r: string)
  {
    TrimRight(TrimLeft(s))
  }

  /** Length of the run of non-whitespace characters that starts `s`. */
  function WordLength(s: string): (n: nat)
    ensures n <= |s|
    ensures s != [] && !IsSpace(s[0]) ==> n > 0
  {
    if s == [] || IsSpace(s[0]) then 0 else 1 + WordLength(s[1..])
  }

  /** `s.split()`: the maximal whitespace-free runs of `s`, in order. */
  function Split(s: string): seq<string>
    decreases |s|
  {
    if s == [] then []
    else if IsSpace(s[0]) then Split(s[1..])
    else
      var n := WordLength(s);
      [s[..n]] + Split(s[n..])
  }

  /** `sep.join(parts)`. */
  function Join(sep: string, parts: seq<string>): string
  {
    if parts == [] then ""
    else if |parts| == 1 then parts[0]
    else parts[0] + sep + Join(sep, parts[1..])
  }

  // ---------------------------------------------------------------------
  // Strip

  /** Stripping keeps exactly the piece between the first and the last
      non-whitespace character: it is empty iff `s` is all whitespace, it
      sits inside `s`, and it has no whitespace at either end. */
  lemma {:induction false} StripShape(s: string)
    ensures Unpadded(Strip(s))
    ensures Strip(s) == [] <==> AllSpace(s)
    ensures |Strip(s)| <= |s|
    ensures IsInfix(Strip(s), s)
  {
    var t := TrimLeft(s);
    var r := TrimRight(t);
    var k := |s| - |t|;
    assert IsPrefix(r, s[k..]);
    if r == [] {
      assert t == [];
    } else {
      assert !IsSpace(r[0]) by { assert r[0] == t[0]; }
    }
  }

  /** A string without whitespace at its ends is its own strip. */
  lemma {:induction false} StripUnpadded(s: string)
    requires Unpadded(s)
    ensures Strip(s) == s
  {
  }

  // ---------------------------------------------------------------------
  // Split

  /** The run `WordLength` measures is whitespace-free and is followed by
      whitespace or by the end of `s`. */
  lemma {:induction false} WordLengthShape(s: string)
    ensures forall i :: 0 <= i < WordLength(s) ==> !IsSpace(s[i])
    ensures WordLength(s) < |s| ==> IsSpace(s[WordLength(s)])
    decreases |s|
  {
    if s != [] && !IsSpace(s[0]) {
      WordLengthShape(s[1..]);
    }
  }

  lemma {:induction false} WordLengthOfWord(w: string, rest: string)
    requires forall i :: 0 <= i < |w| ==> !IsSpace(w[i])
    requires rest == [] || IsSpace(rest[0])
    ensures WordLength(w + rest) == |w|
    decreases |w|
  {
    if w == [] {
      assert w + rest == rest;
    } else {
      assert (w + rest)[0] == w[0];
      assert (w + rest)[1..] == w[1..] + rest;
      WordLengthOfWord(w[1..], rest);
    }
  }

  lemma {:induction false} WordLengthAppend(t: string, x: string)
    requires WordLength(t) < |t|
    ensures WordLength(t + x) == WordLength(t)
    decreases |t|
  {
    assert (t + x)[0] == t[0];
    if !IsSpace(t[0]) {
      assert (t + x)[1..] == t[1..] + x;
      WordLengthAppend(t[1..], x);
    }
  }

  /** Every element of `s.split()` is a word. */
  lemma {:induction false} SplitWords(s: string)
    ensures forall i :: 0 <= i < |Split(s)| ==> IsWord(Split(s)[i])
    decreases |s|
  {
    if s != [] {
      if IsSpace(s[0]) {
        SplitWords(s[1..]);
      } else {
        var n := WordLength(s);
        WordLengthShape(s);
        SplitWords(s[n..]);
      }
    }
  }

  /** A word followed by whitespace (or by nothing) is the first word. */
  lemma {:induction false} SplitWordPrefix(w: string, s: string)
    requires IsWord(w)
    requires s == [] || IsSpace(s[0])
    ensures Split(w + s) == [w] + Split(s)
  {
    WordLengthOfWord(w, s);
    assert (w + s)[0] == w[0];
    assert (w + s)[..|w|] == w;
    assert (w + s)[|w|..] == s;
  }

  /** A trailing whitespace character does not change the words. */
  lemma {:induction false} SplitAppendSpace(s: string, c: char)
    requires IsSpace(c)
    ensures Split(s + [c]) == Split(s)
    decreases |s|
  {
    if s == [] {
      assert s + [c] == [c];
      assert [c][1..] == [];
    } else {
      assert (s + [c])[0] == s[0];
      if IsSpace(s[0]) {
        assert (s + [c])[1..] == s[1..] + [c];
        SplitAppendSpace(s[1..], c);
      } else {
        var n := WordLength(s);
        if n < |s| {
          WordLengthAppend(s, [c]);
          assert (s + [c])[..n] == s[..n];
          assert (s + [c])[n..] == s[n..] + [c];
          SplitAppendSpace(s[n..], c);
        } else {
          WordLengthShape(s);
          SplitWordPrefix(s, [c]);
          assert [c][1..] == [];
          assert s[..n] == s && s[n..] == [];
        }
      }
    }
  }

  /** Leading whitespace does not change the words. */
  lemma {:induction false} SplitTrimLeft(s: string)
    ensures Split(TrimLeft(s)) == Split(s)
    decreases |s|
  {
    if s != [] && IsSpace(s[0]) {
      SplitTrimLeft(s[1..]);
    }
  }

  /** Trailing whitespace does not change the words. */
  lemma {:induction false} SplitTrimRight(s: string)
    ensures Split(TrimRight(s)) == Split(s)
    decreases |s|
  {
    if s != [] && IsSpace(s[|s| - 1]) {
      var p := s[..|s| - 1];
      assert s == p + [s[|s| - 1]];
      SplitAppendSpace(p, s[|s| - 1]);
      SplitTrimRight(p);
    }
  }

  /** Stripping first does not change the words. */
  lemma {:induction false} SplitStrip(s: string)
    ensures Split(Strip(s)) == Split(s)
  {
    SplitTrimRight(TrimLeft(s));
    SplitTrimLeft(s);
  }

  /** A single word splits into itself. */
  lemma {:induction false} SplitOfWord(w: string)
    requires IsWord(w)
    ensures Split(w) == [w]
  {
    SplitWordPrefix(w, []);
    assert w + [] == w;
  }

  /** A word followed by a space is the first word of the rest. */
  lemma {:induction false} SplitWordSpace(w: string, rest: string)
    requires IsWord(w)
    ensures Split(w + " " + rest) == [w] + Split(rest)
  {
    assert w + " " + rest == w + ([' '] + rest);
    SplitWordPrefix(w, [' '] + rest);
    assert ([' '] + rest)[1..] == rest;
  }

  /** Splitting undoes joining words with single spaces. */
  lemma {:induction false} SplitJoin(words: seq<string>)
    requires forall i :: 0 <= i < |words| ==> IsWord(words[i])
    ensures Split(Join(" ", words)) == words
  {
    if |words| == 1 {
      SplitOfWord(words[0]);
    } else if |words| > 1 {
      SplitWordSpace(words[0], Join(" ", words[1..]));
      SplitJoin(words[1..]);
      assert words == [words[0]] + words[1..];
    }
  }

  /** Joining words with single spaces gives a single-spaced string. */
  lemma {:induction false} JoinSingleSpaced(words: seq<string>)
    requires forall i :: 0 <= i < |words| ==> IsWord(words[i])
    ensures SingleSpaced(Join(" ", words))
    ensures words != [] ==> Join(" ", words) != [] && !IsSpace(Join(" ", words)[0])
  {
    if |words| > 1 {
      var w := words[0];
      var rest := Join(" ", words[1..]);
      JoinSingleSpaced(words[1..]);
      var r := Join(" ", words);
      assert r == w + " " + rest;
      assert !IsSpace(rest[|rest| - 1]);
      forall i | 0 <= i < |r| && IsSpace(r[i])
        ensures r[i] == ' ' && 0 < i < |r| - 1 && !IsSpace(r[i - 1]) && !IsSpace(r[i + 1])
      {
        if i == |w| {
          assert r[i - 1] == w[|w| - 1];
          assert r[i + 1] == rest[0];
        } else if i > |w| {
          var j := i - |w| - 1;
          assert r[i] == rest[j];
          assert 0 < j < |rest| - 1;
          assert r[i - 1] == rest[j - 1];
          assert r[i + 1] == rest[j + 1];
        }
      }
    }
  }

  /** A single-spaced string has no whitespace at its ends and no two
      adjacent spaces. */
  lemma {:induction false} SingleSpacedShape(s: string)
    requires SingleSpaced(s)
    ensures Unpadded(s)
    ensures forall i :: 0 <= i < |s| - 1 ==> !(s[i] == ' ' && s[i + 1] == ' ')
  {
    if s != [] {
      assert !IsSpace(s[0]);
      assert !IsSpace(s[|s| - 1]);
    }
  }

  lemma {:induction false} JoinCons(sep: string, w: string, ws: seq<string>)
    ensures Join(sep, [w] + ws) == if ws == [] then w else w + sep + Join(sep, ws)
  {
    assert ([w] + ws)[1..] == ws;
  }

  /** Joining the words of `s` with single spaces is no longer than `s`. */
  lemma {:induction false} JoinSplitLength(s: string)
    ensures |Join(" ", Split(s))| <= |s|
    decreases |s|
  {
    if s != [] {
      if IsSpace(s[0]) {
        JoinSplitLength(s[1..]);
      } else {
        var n := WordLength(s);
        var u := s[n..];
        JoinCons(" ", s[..n], Split(u));
        if u != [] {
          WordLengthShape(s);
          assert IsSpace(u[0]);
          JoinSplitLength(u[1..]);
        }
      }
    }
  }

  /** Every part of a join occurs in the joined string. */
  lemma {:induction false} JoinContainsParts(sep: string, parts: seq<string>, i: nat)
    requires i < |parts|
    ensures IsInfix(parts[i], Join(sep, parts))
  {
    var j := Join(sep, parts);
    if |parts| == 1 || i == 0 {
      assert j[0..] == j;
      assert IsPrefix(parts[i], j[0..]);
    } else {
      var rest := Join(sep, parts[1..]);
      JoinContainsParts(sep, parts[1..], i - 1);
      var k :| 0 <= k <= |rest| && IsPrefix(parts[i], rest[k..]);
      var off := |parts[0]| + |sep|;
      assert j == (parts[0] + sep) + rest;
      assert j[off + k..] == rest[k..];
      assert IsPrefix(parts[i], j[off + k..]);
    }
  }

  /** Joining one more part appends the separator and that part. */
  lemma {:induction false} JoinSnoc(sep: string, parts: seq<string>, p: string)
    requires parts != []
    ensures Join(sep, parts + [p]) == Join(sep, parts) + sep + p
    decreases |parts|
  {
    var q := parts + [p];
    assert q[0] == parts[0];
    if |parts| == 1 {
      assert q[1..] == [p];
    } else {
      assert q[1..] == parts[1..] + [p];
      JoinSnoc(sep, parts[1..], p);
    }
  }

  /** The joined string is empty iff there is nothing to join or a single
      empty part. */
  lemma {:induction false} JoinEmpty(sep: string, parts: seq<string>)
    requires |sep| > 0
    ensures Join(sep, parts) == [] <==> parts == [] || (|parts| == 1 && parts[0] == [])
  {
  }

  // ---------------------------------------------------------------------
  // Decimal numbers

  predicate IsDigit(c: char) {
    '0' <= c <= '9'
  }

  predicate AllDigits(s: string) {
    forall i :: 0 <= i < |s| ==> IsDigit(s[i])
  }

  function DigitChar(d: nat): (c: char)
    requires d < 10
    ensures IsDigit(c) && c as int - '0' as int == d
  {
    (48 + d) as char
  }

  /** `int(s)` for a string of ASCII digits (leading zeros allowed). */
  function DigitsValue(s: string): nat
    requires AllDigits(s)
  {
    if s == [] then 0
    else DigitsValue(s[..|s| - 1]) * 10 + (s[|s| - 1] as int - '0' as int)
  }

  function Pow10(n: nat): nat {
    if n == 0 then 1 else 10 * Pow10(n - 1)
  }

  /** A string of `k` digits denotes a number below `10^k`. */
  lemma {:induction false} DigitsValueBound(s: string)
    requires AllDigits(s)
    ensures DigitsValue(s) < Pow10(|s|)
    decreases |s|
  {
    if s != [] {
      var p := s[..|s| - 1];
      assert AllDigits(p);
      DigitsValueBound(p);
    }
  }

  /** The value of two digits. */
  lemma TwoDigitsValue(t: string)
    requires |t| == 2 && AllDigits(t)
    ensures DigitsValue(t) == 10 * (t[0] as int - '0' as int) + (t[1] as int - '0' as int)
  {
    var p := t[..1];
    assert p[..0] == [];
    assert DigitsValue(p) == t[0] as int - '0' as int;
  }

  /** `str(n)` for a natural number: decimal digits, no leading zero. */
  function NatToString(n: nat): (s: string)
    decreases n
  {
    if n < 10 then [DigitChar(n)] else NatToString(n / 10) + [DigitChar(n % 10)]
  }

  /** `str(i)` for an integer. */
  function IntToString(i: int): (s: string)
  {
    if i < 0 then "-" + NatToString(-i) else NatToString(i)
  }

  /** The decimal rendering is non-empty, made of digits, has no leading
      zero, and parses back to the number it renders. */
  lemma {:induction false} NatToStringRoundTrip(n: nat)
    ensures |NatToString(n)| > 0 && AllDigits(NatToString(n))
    ensures DigitsValue(NatToString(n)) == n
    ensures |NatToString(n)| > 1 ==> NatToString(n)[0] != '0'
    decreases n
  {
    if n >= 10 {
      NatToStringRoundTrip(n / 10);
      var s := NatToString(n);
      assert s[..|s| - 1] == NatToString(n / 10);
    }
  }

  /** `str(i)` starts with a minus sign exactly when `i` is negative, and
      the digits that follow (or the whole text) parse back to `|i|`. */
  lemma {:induction false} IntToStringRoundTrip(i: int)
    ensures |IntToString(i)| > 0
    ensures IntToString(i)[0] == '-' <==> i < 0
    ensures i < 0 ==> AllDigits(IntToString(i)[1..]) && DigitsValue(IntToString(i)[1..]) == -i
    ensures i >= 0 ==> AllDigits(IntToString(i)) && DigitsValue(IntToString(i)) == i
  {
    if i < 0 {
      NatToStringRoundTrip(-i);
      assert IntToString(i)[1..] == NatToString(-i);
    } else {
      NatToStringRoundTrip(i);
    }
  }
}
