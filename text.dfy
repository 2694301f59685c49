/**
 * String helpers shared by every formatter of the text interface:
 *  - the ASCII model of JavaScript's `\s`, `String.prototype.trim` and `toUpperCase`;
 *  - decimal rendering of integers (what a template literal does with a number)
 *    and `parseInt(_, 10)` on a run of digits, with their round trip;
 *  - `Array.prototype.join` and its inverse, splitting at a separator character,
 *    used to count the lines of a rendered text.
 */
module Text {

  // ---------------------------------------------------------------------------
  // Characters
  // ---------------------------------------------------------------------------

  /** The ASCII members of `\s`: space, tab, line feed, carriage return, vertical tab, form feed. */
  predicate IsSpace(c: char) {
    c == ' ' || c == '\t' || c == '\n' || c == '\r' || c as int == 11 || c as int == 12
  }

  predicate IsDigit(c: char) {
    '0' <= c <= '9'
  }

  predicate IsLower(c: char) {
    'a' <= c <= 'z'
  }

  predicate AllDigits(s: string) {
    forall i :: 0 <= i < |s| ==> IsDigit(s[i])
  }

  predicate AllSpace(s: string) {
    forall i :: 0 <= i < |s| ==> IsSpace(s[i])
  }

  /** `toUpperCase` on one character, ASCII letters only. */
  function UpperChar(c: char): (u: char)
    ensures !IsLower(u)
    ensures IsSpace(u) == IsSpace(c) && IsDigit(u) == IsDigit(c)
    ensures !IsLower(c) ==> u == c
  {
    if IsLower(c) then (c as int - 32) as char else c
  }

  /** `toUpperCase` on a string: character by character, length preserved. */
  function Upper(s: string): (r: string)
    ensures |r| == |s|
    ensures forall i :: 0 <= i < |s| ==> r[i] == UpperChar(s[i])
  {
    seq(|s|, i requires 0 <= i < |s| => UpperChar(s[i]))
  }

  // ---------------------------------------------------------------------------
  // trim
  // ---------------------------------------------------------------------------

  /** Drops leading whitespace: the result is a suffix of `s`, everything dropped is
      whitespace, and the result does not start with whitespace. */
  function TrimStart(s: string): (r: string)
    ensures |r| <= |s| && r == s[|s| - |r|..]
    ensures AllSpace(s[..|s| - |r|])
    ensures |r| > 0 ==> !IsSpace(r[0])
  {
    if |s| > 0 && IsSpace(s[0]) then TrimStart(s[1..]) else s
  }

  /** Drops trailing whitespace: the result is a prefix of `s`, everything dropped is
      whitespace, and the result does not end with whitespace. */
  function TrimEnd(s: string): (r: string)
    ensures |r| <= |s| && r == s[..|r|]
    ensures AllSpace(s[|r|..])
    ensures |r| > 0 ==> !IsSpace(r[|r| - 1])
  {
    if |s| > 0 && IsSpace(s[|s| - 1]) then TrimEnd(s[..|s| - 1]) else s
  }

  /** `String.prototype.trim`. */
  function Trim(s: string): (r: string)
    ensures |r| > 0 ==> !IsSpace(r[0]) && !IsSpace(r[|r| - 1])
  {
    TrimEnd(TrimStart(s))
  }

  lemma {:induction false} TrimStartPrefixed(w: string, s: string)
    requires AllSpace(w)
    ensures TrimStart(w + s) == TrimStart(s)
    decreases |w|
  {
    if |w| > 0 {
      assert (w + s)[1..] == w[1..] + s;
      TrimStartPrefixed(w[1..], s);
    } else {
      assert w + s == s;
    }
  }

  lemma {:induction false} TrimEndSuffixed(s: string, w: string)
    requires AllSpace(w)
    ensures TrimEnd(s + w) == TrimEnd(s)
    decreases |w|
  {
    if |w| > 0 {
      assert (s + w)[..|s + w| - 1] == s + w[..|w| - 1];
      TrimEndSuffixed(s, w[..|w| - 1]);
    } else {
      assert s + w == s;
    }
  }

  /** Leading whitespace is trimmed across a concatenation only if the left part is all whitespace. */
  lemma {:induction false} TrimStartAppend(s: string, t: string)
    ensures TrimStart(s + t) == if TrimStart(s) == "" then TrimStart(t) else TrimStart(s) + t
    decreases |s|
  {
    if |s| == 0 {
      assert s + t == t;
    } else if IsSpace(s[0]) {
      assert (s + t)[1..] == s[1..] + t;
      TrimStartAppend(s[1..], t);
    }
  }

  /** Surrounding whitespace does not change the trimmed text. */
  lemma TrimPadded(w1: string, s: string, w2: string)
    requires AllSpace(w1) && AllSpace(w2)
    ensures Trim(w1 + s + w2) == Trim(s)
  {
    assert w1 + s + w2 == w1 + (s + w2);
    TrimStartPrefixed(w1, s + w2);
    TrimStartAppend(s, w2);
    if TrimStart(s) == "" {
      TrimStartPrefixed(w2, "");
      assert w2 + "" == w2;
    } else {
      TrimEndSuffixed(TrimStart(s), w2);
    }
  }

  /** Text with no whitespace at either end is its own trim. */
  lemma TrimUnpadded(s: string)
    requires |s| > 0 ==> !IsSpace(s[0]) && !IsSpace(s[|s| - 1])
    ensures Trim(s) == s
  {
    assert TrimStart(s) == s;
  }

  /** Trimming drops whitespace only: every other character of `s` survives it. */
  lemma TrimKeeps(s: string, i: nat)
    requires i < |s| && !IsSpace(s[i])
    ensures s[i] in Trim(s)
  {
    var u := TrimStart(s);
    var k := |s| - |u|;
    assert i >= k;
    assert u[i - k] == s[i];
    var t := TrimEnd(u);
    assert i - k < |t|;
    assert t[i - k] == s[i];
  }

  lemma {:induction false} UpperTrimStart(s: string)
    ensures Upper(TrimStart(s)) == TrimStart(Upper(s))
    decreases |s|
  {
    if |s| > 0 && IsSpace(s[0]) {
      assert Upper(s)[1..] == Upper(s[1..]);
      UpperTrimStart(s[1..]);
    }
  }

  lemma {:induction false} UpperTrimEnd(s: string)
    ensures Upper(TrimEnd(s)) == TrimEnd(Upper(s))
    decreases |s|
  {
    if |s| > 0 && IsSpace(s[|s| - 1]) {
      assert Upper(s)[..|s| - 1] == Upper(s[..|s| - 1]);
      UpperTrimEnd(s[..|s| - 1]);
    }
  }

  /** Upper-casing and trimming commute, because upper-casing keeps whitespace as it is. */
  lemma UpperTrim(s: string)
    ensures Upper(Trim(s)) == Trim(Upper(s))
  {
    UpperTrimEnd(TrimStart(s));
    UpperTrimStart(s);
  }

  // ---------------------------------------------------------------------------
  // Decimal numbers
  // ---------------------------------------------------------------------------

  function DigitChar(d: nat): (c: char)
    requires d < 10
    ensures IsDigit(c)
  {
    ('0' as int + d) as char
  }

  function DigitValue(c: char): (d: nat)
    requires IsDigit(c)
    ensures d < 10
  {
    c as int - '0' as int
  }

  /** Decimal text of a natural number, as a template literal renders it: no leading zeros. */
  function NatToString(n: nat): (s: string)
    ensures |s| > 0 && AllDigits(s)
    ensures s[0] == '0' <==> n == 0
    decreases n
  {
    if n < 10 then [DigitChar(n)] else NatToString(n / 10) + [DigitChar(n % 10)]
  }

  /** Decimal text of an integer; negatives get a minus sign. */
  function IntToString(i: int): (s: string)
    ensures |s| > 0
    ensures s[0] == '-' <==> i < 0
    ensures s[0] == '-' || IsDigit(s[0])
    ensures forall k :: 0 < k < |s| ==> IsDigit(s[k])
    ensures '\n' !in s && ' ' !in s
  {
    if i < 0 then "-" + NatToString(-i) else NatToString(i)
  }

  /** `parseInt(s, 10)` for a string of decimal digits (leading zeros allowed). */
  function DigitsValue(s: string): nat
    requires AllDigits(s)
  {
    if s == [] then 0 else DigitsValue(s[..|s| - 1]) * 10 + DigitValue(s[|s| - 1])
  }

  /** Rendering a natural number and parsing it back yields the number. */
  lemma {:induction false} DigitsValueOfNatToString(n: nat)
    ensures DigitsValue(NatToString(n)) == n
    decreases n
  {
    var s := NatToString(n);
    if n >= 10 {
      assert s[..|s| - 1] == NatToString(n / 10);
      DigitsValueOfNatToString(n / 10);
    } else {
      assert s[..|s| - 1] == [];
    }
  }

  /** Different numbers render differently. */
  lemma NatToStringInjective(m: nat, n: nat)
    requires m != n
    ensures NatToString(m) != NatToString(n)
  {
    DigitsValueOfNatToString(m);
    DigitsValueOfNatToString(n);
  }

  /** Different integers render differently. */
  lemma IntToStringInjective(i: int, j: int)
    requires i != j
    ensures IntToString(i) != IntToString(j)
  {
    if i < 0 && j < 0 {
      NatToStringInjective(-i, -j);
      assert IntToString(i)[1..] == NatToString(-i) && IntToString(j)[1..] == NatToString(-j);
    } else if i >= 0 && j >= 0 {
      NatToStringInjective(i, j);
    }
  }

  // ---------------------------------------------------------------------------
  // join and split
  // ---------------------------------------------------------------------------

  /** `Array.prototype.join(sep)`. */
  function Join(parts: seq<string>, sep: string): string
  {
    if |parts| == 0 then ""
    else if |parts| == 1 then parts[0]
    else Join(parts[..|parts| - 1], sep) + sep + parts[|parts| - 1]
  }

  /** Splits `s` at every occurrence of `d`: at least one piece, no piece holds `d`. */
  function Split(s: string, d: char): (r: seq<string>)
    ensures |r| > 0
  {
    if |s| == 0 then [""]
    else
      var init := Split(s[..|s| - 1], d);
      if s[|s| - 1] == d then init + [""]
      else init[..|init| - 1] + [init[|init| - 1] + [s[|s| - 1]]]
  }

  function JoinLines(lines: seq<string>): string {
    Join(lines, "\n")
  }

  function Lines(s: string): seq<string> {
    Split(s, '\n')
  }

  predicate NoNewline(lines: seq<string>) {
    forall i :: 0 <= i < |lines| ==> '\n' !in lines[i]
  }

  /** Two runs of one-line texts make one run of one-line texts. */
  lemma NoNewlineAppend(a: seq<string>, b: seq<string>)
    requires NoNewline(a) && NoNewline(b)
    ensures NoNewline(a + b)
  {
    forall i | 0 <= i < |a + b| ensures '\n' !in (a + b)[i] {
      if i >= |a| {
        assert (a + b)[i] == b[i - |a|];
      }
    }
  }

  /** No piece of a split holds the separator. */
  lemma {:induction false} SplitPiecesAvoid(s: string, d: char)
    ensures forall i :: 0 <= i < |Split(s, d)| ==> d !in Split(s, d)[i]
    decreases |s|
  {
    if |s| > 0 {
      var init := Split(s[..|s| - 1], d);
      SplitPiecesAvoid(s[..|s| - 1], d);
      if s[|s| - 1] != d {
        assert d !in init[|init| - 1];
      }
    }
  }

  lemma {:induction false} SplitWithout(p: string, d: char)
    requires d !in p
    ensures Split(p, d) == [p]
    decreases |p|
  {
    if |p| > 0 {
      assert p[..|p| - 1] + [p[|p| - 1]] == p;
      SplitWithout(p[..|p| - 1], d);
    }
  }

  /** Appending one character either opens a new piece (the separator) or extends the last one. */
  lemma SplitSnoc(s: string, d: char, c: char)
    ensures Split(s + [c], d)
         == if c == d then Split(s, d) + [""]
            else Split(s, d)[..|Split(s, d)| - 1] + [Split(s, d)[|Split(s, d)| - 1] + [c]]
  {
    assert (s + [c])[..|s|] == s;
  }

  /** Extending the last piece of a concatenation extends the last piece of its right part. */
  lemma ExtendLastPiece(pa: seq<string>, pb: seq<string>, c: char)
    requires |pb| > 0
    ensures (pa + pb)[..|pa + pb| - 1] + [(pa + pb)[|pa + pb| - 1] + [c]]
         == pa + (pb[..|pb| - 1] + [pb[|pb| - 1] + [c]])
  {
    var init := pa + pb;
    assert init[..|init| - 1] == pa + pb[..|pb| - 1];
  }

  /** Splitting at one separator splits the text into the pieces of its two sides. */
  lemma {:induction false} SplitAtSeparator(a: string, d: char, b: string)
    ensures Split(a + [d] + b, d) == Split(a, d) + Split(b, d)
    decreases |b|
  {
    if |b| == 0 {
      assert a + [d] + b == a + [d];
      SplitSnoc(a, d, d);
    } else {
      var b' := b[..|b| - 1];
      var c := b[|b| - 1];
      var s' := a + [d] + b';
      assert a + [d] + b == s' + [c] && b == b' + [c] by {
        assert b == b' + [c];
      }
      SplitAtSeparator(a, d, b');
      SplitSnoc(s', d, c);
      SplitSnoc(b', d, c);
      if c != d {
        ExtendLastPiece(Split(a, d), Split(b', d), c);
      } else {
        assert (Split(a, d) + Split(b', d)) + [""] == Split(a, d) + (Split(b', d) + [""]);
      }
    }
  }

  /** Splitting a joined list gives the list back when no part holds the separator. */
  lemma {:induction false} SplitJoin(parts: seq<string>, d: char)
    requires |parts| > 0
    requires forall i :: 0 <= i < |parts| ==> d !in parts[i]
    ensures Split(Join(parts, [d]), d) == parts
    decreases |parts|
  {
    if |parts| == 1 {
      SplitWithout(parts[0], d);
    } else {
      var init := parts[..|parts| - 1];
      var last := parts[|parts| - 1];
      assert init + [last] == parts;
      var j := Join(init, [d]);
      assert Split(j, d) == init by {
        assert forall i :: 0 <= i < |init| ==> init[i] == parts[i];
        SplitJoin(init, d);
      }
      assert Split(last, d) == [last] by {
        SplitWithout(last, d);
      }
      SplitAtSeparator(j, d, last);
    }
  }

  /** Joining one more empty piece appends just the separator. */
  lemma JoinSnocEmpty(parts: seq<string>, d: char)
    requires |parts| > 0
    ensures Join(parts + [""], [d]) == Join(parts, [d]) + [d]
  {
    assert (parts + [""])[..|parts|] == parts;
  }

  /** Joining one more part after a non-empty list adds the separator and the part. */
  lemma JoinSnoc(init: seq<string>, x: string, sep: string)
    requires |init| > 0
    ensures Join(init + [x], sep) == Join(init, sep) + sep + x
  {
    assert (init + [x])[..|init|] == init;
  }

  /** Extending the last piece by `c` extends the joined text by `c`. */
  lemma JoinExtendLast(init: seq<string>, last: string, d: char, c: char)
    ensures Join(init + [last + [c]], [d]) == Join(init + [last], [d]) + [c]
  {
    if init == [] {
      assert init + [last + [c]] == [last + [c]] && init + [last] == [last];
    } else {
      var j := Join(init, [d]);
      JoinSnoc(init, last + [c], [d]);
      JoinSnoc(init, last, [d]);
      assert j + [d] + (last + [c]) == j + [d] + last + [c];
    }
  }

  /** Joining the pieces of a split gives the text back. */
  lemma {:induction false} JoinSplit(s: string, d: char)
    ensures Join(Split(s, d), [d]) == s
    decreases |s|
  {
    if |s| > 0 {
      var p, c := s[..|s| - 1], s[|s| - 1];
      var init := Split(p, d);
      assert Join(Split(s, d), [d]) == Join(init, [d]) + [c] by {
        if c == d {
          JoinSnocEmpty(init, d);
        } else {
          var k := |init| - 1;
          assert init == init[..k] + [init[k]];
          JoinExtendLast(init[..k], init[k], d, c);
        }
      }
      JoinSplit(p, d);
      assert p + [c] == s;
    }
  }

  /** A text joined from lines without line feeds has exactly those lines. */
  lemma LinesOfJoinLines(lines: seq<string>)
    requires |lines| > 0 && NoNewline(lines)
    ensures Lines(JoinLines(lines)) == lines
  {
    SplitJoin(lines, '\n');
  }

  /** A character found neither in the parts nor in the separator is not in the joined text. */
  lemma {:induction false} JoinAvoids(parts: seq<string>, sep: string, c: char)
    requires c !in sep
    requires forall i :: 0 <= i < |parts| ==> c !in parts[i]
    ensures c !in Join(parts, sep)
    decreases |parts|
  {
    if |parts| > 1 {
      JoinAvoids(parts[..|parts| - 1], sep, c);
    }
  }

  /** Unfolds `join` from the front: the first part, then the separator and the rest. */
  lemma {:induction false} JoinCons(first: string, rest: seq<string>, sep: string)
    ensures Join([first] + rest, sep) == if rest == [] then first else first + sep + Join(rest, sep)
    decreases |rest|
  {
    var ps := [first] + rest;
    if |rest| > 1 {
      var init := rest[..|rest| - 1];
      assert ps[..|ps| - 1] == [first] + init;
      JoinCons(first, init, sep);
    } else if |rest| == 1 {
      assert ps[..|ps| - 1] == [first];
    }
  }

  /** A joined text is at least as long as its first part. */
  lemma JoinHead(parts: seq<string>, sep: string)
    requires |parts| > 0
    ensures |Join(parts, sep)| >= |parts[0]|
  {
    assert parts == [parts[0]] + parts[1..];
    JoinCons(parts[0], parts[1..], sep);
  }

  /** Joining a concatenation joins the halves around one more separator. */
  lemma {:induction false} JoinAppend(a: seq<string>, b: seq<string>, sep: string)
    requires |a| > 0 && |b| > 0
    ensures Join(a + b, sep) == Join(a, sep) + sep + Join(b, sep)
    decreases |b|
  {
    var ab := a + b;
    if |b| == 1 {
      assert ab[..|ab| - 1] == a;
    } else {
      var b' := b[..|b| - 1];
      assert ab[..|ab| - 1] == a + b';
      JoinAppend(a, b', sep);
    }
  }

  // ---------------------------------------------------------------------------
  // Reading concatenations apart
  // ---------------------------------------------------------------------------

  /** Where a character of a concatenation comes from. */
  lemma ConcatIndex(x: string, y: string, i: int)
    ensures 0 <= i < |x| ==> (x + y)[i] == x[i]
    ensures |x| <= i < |x| + |y| ==> (x + y)[i] == y[i - |x|]
  {
  }

  /** Two texts that each start with a run free of the stop characters, followed by nothing
      or by a stop character, agree on that run and on what follows it. */
  lemma SplitAtStop(a: string, x: string, b: string, y: string, stops: set<char>)
    requires forall i :: 0 <= i < |a| ==> a[i] !in stops
    requires forall i :: 0 <= i < |b| ==> b[i] !in stops
    requires |x| > 0 ==> x[0] in stops
    requires |y| > 0 ==> y[0] in stops
    requires a + x == b + y
    ensures a == b && x == y
  {
    if |a| < |b| {
      ConcatIndex(a, x, |a|);
      ConcatIndex(b, y, |a|);
      assert false;
    } else if |b| < |a| {
      ConcatIndex(a, x, |b|);
      ConcatIndex(b, y, |b|);
      assert false;
    } else {
      assert a == (a + x)[..|a|] && b == (b + y)[..|b|];
      assert x == (a + x)[|a|..] && y == (b + y)[|b|..];
    }
  }

  /** A character is in a concatenation exactly when it is in one of the parts. */
  lemma InConcat(ch: char, x: string, y: string)
    ensures ch in x + y <==> ch in x || ch in y
  {
    if ch in x + y {
      var i :| 0 <= i < |x + y| && (x + y)[i] == ch;
      if i >= |x| { assert y[i - |x|] == ch; }
    }
    if ch in y {
      var j :| 0 <= j < |y| && y[j] == ch;
      assert (x + y)[|x| + j] == ch;
    }
  }

  /** The same prefix on both sides can be dropped. */
  lemma DropPrefix(p: string, x: string, y: string)
    requires p + x == p + y
    ensures x == y
  {
    assert x == (p + x)[|p|..] && y == (p + y)[|p|..];
  }

  /** The same prefix on both sides can be dropped, when each side is grouped to the left. */
  lemma DropPrefixGrouped(p: string, x1: string, y1: string, x2: string, y2: string)
    requires (p + x1) + y1 == (p + x2) + y2
    ensures x1 + y1 == x2 + y2
  {
    assert (p + x1) + y1 == p + (x1 + y1);
    assert (p + x2) + y2 == p + (x2 + y2);
    DropPrefix(p, x1 + y1, x2 + y2);
  }

  /** Regrouping a three-part concatenation. */
  lemma RegroupLines<T>(a: seq<T>, b: seq<T>, c: seq<T>)
    ensures a + b + c == a + (b + c)
  {
  }

  /** Appending one line after a two-part concatenation. */
  lemma SnocRegroup<T>(a: seq<T>, b: seq<T>, x: T)
    ensures a + b + [x] == a + (b + [x])
  {
  }
}
