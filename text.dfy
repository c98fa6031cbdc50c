/**
 * The JavaScript string built-ins the core relies on, written out:
 * `Number.prototype.toString` on the non-negative integers used as ids and
 * status codes, `String.prototype.split` on one separator character,
 * `String.prototype.startsWith` and `String.prototype.trim`.
 */
module Text {

  // ---------------------------------------------------------------------------
  // Decimal rendering of non-negative integers (`n.toString()`)
  // ---------------------------------------------------------------------------

  predicate IsDigit(c: char)
  {
    '0' <= c <= '9'
  }

  function DigitChar(d: nat): (c: char)
    requires d < 10
    ensures IsDigit(c) && (c as int) - ('0' as int) == d
  {
    ('0' as int + d) as char
  }

  /**
   * The shortest decimal numeral of `n`: what `String(n)` renders for the
   * clock readings and HTTP statuses it is used on, all far below 10^21.
   * JavaScript's number-to-string switches to exponent notation from 10^21
   * and loses digits above 2^53; this numeral does neither.
   */
  function NatToString(n: nat): (s: string)
    ensures |s| >= 1
    ensures forall i :: 0 <= i < |s| ==> IsDigit(s[i])
    ensures |s| > 1 ==> s[0] != '0'
    decreases n
  {
    if n < 10 then [DigitChar(n)] else NatToString(n / 10) + [DigitChar(n % 10)]
  }

  function DigitValue(c: char): nat
    requires IsDigit(c)
  {
    (c as int) - ('0' as int)
  }

  /** The value a numeral of decimal digits denotes. */
  function DecimalValue(s: string): nat
    requires forall i :: 0 <= i < |s| ==> IsDigit(s[i])
  {
    if s == [] then 0
    else DecimalValue(s[..|s| - 1]) * 10 + DigitValue(s[|s| - 1])
  }

  /** Reading back the rendered numeral gives the number. */
  lemma {:induction false} DecimalRoundTrip(n: nat)
    ensures DecimalValue(NatToString(n)) == n
    decreases n
  {
    var s := NatToString(n);
    if n >= 10 {
      DecimalRoundTrip(n / 10);
      assert s[..|s| - 1] == NatToString(n / 10);
    }
  }

  /** Distinct numbers render as distinct strings. */
  lemma NatToStringInjective(a: nat, b: nat)
    requires NatToString(a) == NatToString(b)
    ensures a == b
  {
    DecimalRoundTrip(a);
    DecimalRoundTrip(b);
  }

  // ---------------------------------------------------------------------------
  // `s.split(sep)` for a one-character separator, and its inverse `join`
  // ---------------------------------------------------------------------------

  /**
   * The pieces of `s` between occurrences of `sep`. Like JavaScript's split,
   * the empty string yields one empty piece and a trailing separator yields a
   * trailing empty piece.
   */
  function Split(s: string, sep: char): (pieces: seq<string>)
    ensures |pieces| >= 1
    ensures forall i :: 0 <= i < |pieces| ==> sep !in pieces[i]
  {
    if s == [] then [""] else Cons(s[0], Split(s[1..], sep), sep)
  }

  /** The pieces of `[c] + s`, given the pieces of `s`. */
  function Cons(c: char, pieces: seq<string>, sep: char): (r: seq<string>)
    requires |pieces| >= 1
    ensures |r| >= 1
  {
    if c == sep then [""] + pieces else [[c] + pieces[0]] + pieces[1..]
  }

  /** `pieces.join(sep)`. */
  function Join(pieces: seq<string>, sep: char): string
  {
    if |pieces| == 0 then ""
    else if |pieces| == 1 then pieces[0]
    else pieces[0] + [sep] + Join(pieces[1..], sep)
  }

  /** Splitting loses and adds nothing: joining the pieces gives the string back. */
  lemma {:induction false} JoinSplit(s: string, sep: char)
    ensures Join(Split(s, sep), sep) == s
  {
    if s != [] {
      var rest := Split(s[1..], sep);
      JoinSplit(s[1..], sep);
      if s[0] == sep {
        assert Split(s, sep)[1..] == rest;
      } else {
        var p := Split(s, sep);
        assert p[1..] == rest[1..];
        if |rest| == 1 {
          assert Join(p, sep) == [s[0]] + rest[0];
        } else {
          assert Join(p, sep) == ([s[0]] + rest[0]) + [sep] + Join(rest[1..], sep);
          assert Join(rest, sep) == rest[0] + [sep] + Join(rest[1..], sep);
        }
        assert s == [s[0]] + s[1..];
      }
    }
  }

  /** Joining pieces free of the separator and splitting again gives the pieces back. */
  lemma {:induction false} SplitJoin(pieces: seq<string>, sep: char)
    requires |pieces| >= 1
    requires forall i :: 0 <= i < |pieces| ==> sep !in pieces[i]
    ensures Split(Join(pieces, sep), sep) == pieces
    decreases |pieces|, |pieces[0]|
  {
    var p0 := pieces[0];
    if |pieces| == 1 {
      SplitOfPlain(p0, sep);
    } else if p0 == [] {
      var tail := Join(pieces[1..], sep);
      assert Join(pieces, sep) == [sep] + tail;
      assert ([sep] + tail)[1..] == tail;
      SplitJoin(pieces[1..], sep);
      assert [""] + pieces[1..] == pieces;
    } else {
      var shorter := [p0[1..]] + pieces[1..];
      assert shorter[1..] == pieces[1..];
      assert forall i :: 1 <= i < |shorter| ==> shorter[i] == pieces[i];
      assert sep !in shorter[0] by { assert forall c :: c in p0[1..] ==> c in p0; }
      SplitJoin(shorter, sep);
      var s := Join(pieces, sep);
      assert s == [p0[0]] + Join(shorter, sep);
      assert s[1..] == Join(shorter, sep);
      assert p0[0] in p0;
      var r := Split(s, sep);
      assert r[0] == [p0[0]] + p0[1..] == p0;
      assert r[1..] == pieces[1..];
    }
  }

  /** A string without the separator splits into itself alone. */
  lemma {:induction false} SplitOfPlain(s: string, sep: char)
    requires sep !in s
    ensures Split(s, sep) == [s]
  {
    if s != [] {
      assert forall c :: c in s[1..] ==> c in s;
      SplitOfPlain(s[1..], sep);
      assert s[0] in s;
      assert [s[0]] + s[1..] == s;
    }
  }

  /**
   * Splitting `x + p` re-splits only the last piece of `x`: every complete
   * piece of `x` stays as it is. This is what lets a reader split a stream
   * one read at a time and carry the unfinished piece over.
   */
  lemma {:induction false} SplitAppend(x: string, p: string, sep: char)
    ensures var sx := Split(x, sep);
      Split(x + p, sep) == sx[..|sx| - 1] + Split(sx[|sx| - 1] + p, sep)
  {
    var sx := Split(x, sep);
    if x == [] {
      assert x + p == p;
      assert sx[|sx| - 1] + p == p;
    } else {
      assert (x + p)[1..] == x[1..] + p;
      SplitAppend(x[1..], p, sep);
      var st := Split(x[1..], sep);
      var q := Split(st[|st| - 1] + p, sep);
      assert Split(x + p, sep) == Cons(x[0], st[..|st| - 1] + q, sep);
      ConsAppend(x[0], st, p, sep);
    }
  }

  /** The inductive step of SplitAppend: one more leading character. */
  lemma ConsAppend(c: char, st: seq<string>, p: string, sep: char)
    requires |st| >= 1
    ensures ConsAppendStep(c, st, p, sep)
  {
    if c == sep {
      ConsAppendSeparator(c, st, p, sep);
    } else if |st| == 1 {
      ConsAppendSingle(c, st, p, sep);
    } else {
      ConsAppendMore(c, st, p, sep);
    }
  }

  /** Prepending `c` commutes with re-splitting the last piece after appending `p`. */
  predicate ConsAppendStep(c: char, st: seq<string>, p: string, sep: char)
    requires |st| >= 1
  {
    var sx := Cons(c, st, sep);
    var q := Split(st[|st| - 1] + p, sep);
    Cons(c, st[..|st| - 1] + q, sep) == sx[..|sx| - 1] + Split(sx[|sx| - 1] + p, sep)
  }

  /** ConsAppend when the new character is the separator. */
  lemma ConsAppendSeparator(c: char, st: seq<string>, p: string, sep: char)
    requires |st| >= 1 && c == sep
    ensures ConsAppendStep(c, st, p, sep)
  {
    var init, last := st[..|st| - 1], st[|st| - 1];
    var q := Split(last + p, sep);
    var sx := Cons(c, st, sep);
    assert sx == [""] + st;
    assert sx[..|sx| - 1] == [""] + init;
    assert sx[|sx| - 1] == last;
    assert Cons(c, init + q, sep) == [""] + (init + q);
  }

  /** ConsAppend for an ordinary character before a single piece. */
  lemma ConsAppendSingle(c: char, st: seq<string>, p: string, sep: char)
    requires |st| == 1 && c != sep
    ensures ConsAppendStep(c, st, p, sep)
  {
    var last := st[0];
    var q := Split(last + p, sep);
    var sx := Cons(c, st, sep);
    var w := [c] + last + p;
    assert sx == [[c] + last];
    assert w[1..] == last + p;
    assert Split(w, sep) == Cons(c, q, sep);
    assert st[..0] + q == q;
  }

  /** ConsAppend for an ordinary character before several pieces. */
  lemma ConsAppendMore(c: char, st: seq<string>, p: string, sep: char)
    requires |st| > 1 && c != sep
    ensures ConsAppendStep(c, st, p, sep)
  {
    var init, last := st[..|st| - 1], st[|st| - 1];
    var q := Split(last + p, sep);
    var sx := Cons(c, st, sep);
    assert sx == [[c] + st[0]] + st[1..];
    assert sx[..|sx| - 1] == [[c] + st[0]] + st[1..|st| - 1];
    assert sx[|sx| - 1] == last;
    assert (init + q)[0] == st[0];
    assert (init + q)[1..] == st[1..|st| - 1] + q;
  }

  // ---------------------------------------------------------------------------
  // `s.startsWith(prefix)`
  // ---------------------------------------------------------------------------

  predicate StartsWith(s: string, prefix: string)
  {
    |prefix| <= |s| && s[..|prefix|] == prefix
  }

  // ---------------------------------------------------------------------------
  // `s.trim()`
  // ---------------------------------------------------------------------------

  /**
   * The characters ECMAScript's trim removes: the WhiteSpace (tab, vertical
   * tab, form feed, space, no-break space, byte order mark and the Unicode
   * space separators) and LineTerminator (line feed, carriage return, line
   * and paragraph separator) code points.
   */
  predicate IsWhiteSpace(c: char)
  {
    c == '\t' || c == '\n' || c == '\U{000B}' || c == '\U{000C}' || c == '\r' || c == ' '
    || c == '\U{00A0}' || c == '\U{1680}' || ('\U{2000}' <= c <= '\U{200A}')
    || c == '\U{2028}' || c == '\U{2029}' || c == '\U{202F}' || c == '\U{205F}'
    || c == '\U{3000}' || c == '\U{FEFF}'
  }

  /** Every character of `w` is white space. */
  predicate AllWhiteSpace(w: string)
  {
    forall i :: 0 <= i < |w| ==> IsWhiteSpace(w[i])
  }

  /** The number of white-space characters `s` starts with. */
  function LeadingSpace(s: string): (n: nat)
    ensures n <= |s| && AllWhiteSpace(s[..n])
    ensures n == |s| || !IsWhiteSpace(s[n])
  {
    if s != [] && IsWhiteSpace(s[0]) then
      var n := LeadingSpace(s[1..]);
      assert s[..n + 1] == [s[0]] + s[1..][..n];
      n + 1
    else 0
  }

  /** Where the white space `s` ends with begins. */
  function TrailingSpace(s: string): (e: nat)
    ensures e <= |s| && AllWhiteSpace(s[e..])
    ensures e == 0 || !IsWhiteSpace(s[e - 1])
  {
    if s != [] && IsWhiteSpace(s[|s| - 1]) then
      var e := TrailingSpace(s[..|s| - 1]);
      assert s[e..] == s[..|s| - 1][e..] + [s[|s| - 1]];
      e
    else |s|
  }

  /** `s` with its leading white space removed. */
  function TrimStart(s: string): (r: string)
    ensures |r| <= |s| && r == s[|s| - |r|..]
    ensures r == [] || !IsWhiteSpace(r[0])
    ensures AllWhiteSpace(s[..|s| - |r|])
  {
    s[LeadingSpace(s)..]
  }

  /** `s` with its trailing white space removed. */
  function TrimEnd(s: string): (r: string)
    ensures |r| <= |s| && r == s[..|r|]
    ensures r == [] || !IsWhiteSpace(r[|r| - 1])
    ensures AllWhiteSpace(s[|r|..])
  {
    s[..TrailingSpace(s)]
  }

  /** `s.trim()`: white space removed from both ends. */
  function Trim(s: string): string
  {
    TrimEnd(TrimStart(s))
  }

  /**
   * The trimmed string is a slice of the original that neither starts nor
   * ends with white space, and everything cut off either side is white space.
   */
  lemma TrimIsCore(s: string)
    ensures var r := Trim(s);
      var k := |s| - |TrimStart(s)|;
      && 0 <= k <= |s| - |r| && r == s[k..k + |r|]
      && AllWhiteSpace(s[..k])
      && AllWhiteSpace(s[k + |r|..])
      && (r == [] || (!IsWhiteSpace(r[0]) && !IsWhiteSpace(r[|r| - 1])))
  {
    var t := TrimStart(s);
    var r := TrimEnd(t);
    PrefixOfSuffix(s, t, r);
    if r != [] {
      assert r[0] == t[0];
    }
  }

  /** A prefix `r` of a suffix `t` of `s` is a slice of `s`, followed in `s` by the rest of `t`. */
  lemma PrefixOfSuffix(s: string, t: string, r: string)
    requires |t| <= |s| && t == s[|s| - |t|..]
    requires |r| <= |t| && r == t[..|r|]
    ensures var k := |s| - |t|;
      r == s[k..k + |r|] && s[k + |r|..] == t[|r|..]
  {
    var k := |s| - |t|;
    assert s[k..][..|r|] == s[k..k + |r|];
  }

  /** `!s.trim()` holds exactly when `s` is all white space. */
  lemma TrimEmptyIff(s: string)
    ensures Trim(s) == "" <==> AllWhiteSpace(s)
  {
    var t := TrimStart(s);
    if Trim(s) == "" {
      assert t[0..] == t;
      assert t == [];
      assert s[..|s|] == s;
    }
  }
}
