/**
 * The two Java string operations the k-list parser rests on: String.split(", ") and
 * Integer.parseInt, with Integer.toString as the inverse of the latter.
 */
module JavaText {
  import opened Wrappers

  const MinInt: int := -0x8000_0000
  const MaxInt: int := 0x7fff_ffff

  /** The values of a Java int. */
  type Int32 = x: int | MinInt <= x <= MaxInt

  // ---------------------------------------------------------------------------
  // String.split(", ")

  /** The delimiter ", " occurs in s at position i. */
  predicate DelimAt(s: string, i: int)
  {
    0 <= i && i + 1 < |s| && s[i] == ',' && s[i + 1] == ' '
  }

  predicate NoDelim(s: string)
  {
    forall i :: 0 <= i < |s| ==> !DelimAt(s, i)
  }

  /**
   * The segments of s between the successive matches of ", ", the matches found leftmost first
   * and without overlap, as java.util.regex.Pattern.split collects them (the remaining segment
   * included, nothing dropped yet).
   */
  function Pieces(s: string): (r: seq<string>)
    ensures |r| >= 1
    ensures r[0] <= s
    ensures forall i :: 0 <= i < |r| ==> NoDelim(r[i])
    decreases |s|
  {
    if |s| < 2 then [s]
    else if s[0] == ',' && s[1] == ' ' then [""] + Pieces(s[2..])
    else
      var rest := Pieces(s[1..]);
      var first := [s[0]] + rest[0];
      assert forall i :: 1 <= i < |first| ==> (DelimAt(first, i) ==> DelimAt(rest[0], i - 1));
      assert |first| >= 2 ==> first[1] == s[1];
      [first] + rest[1..]
  }

  /** Removes the empty strings at the end, as split with limit 0 does. */
  function DropTrailingEmpty(ss: seq<string>): (r: seq<string>)
    ensures r <= ss
    ensures r == [] || r[|r| - 1] != ""
    ensures forall i :: |r| <= i < |ss| ==> ss[i] == ""
  {
    if |ss| == 0 || ss[|ss| - 1] != "" then ss
    else DropTrailingEmpty(ss[..|ss| - 1])
  }

  /**
   * String.split(", "): a string with no match is returned whole, even when it is empty.
   * No token holds the delimiter, and the last token is empty only when the whole string is.
   */
  function Split(s: string): (r: seq<string>)
    ensures forall i :: 0 <= i < |r| ==> NoDelim(r[i])
    ensures |r| > 0 && r[|r| - 1] == "" ==> s == ""
  {
    if NoDelim(s) then [s] else DropTrailingEmpty(Pieces(s))
  }

  /** The strings of ss with ", " between them. */
  function Join(ss: seq<string>): string
  {
    if |ss| == 0 then ""
    else if |ss| == 1 then ss[0]
    else ss[0] + ", " + Join(ss[1..])
  }

  /** Joining the pieces gives back the string they were cut from. */
  lemma {:induction false} JoinPieces(s: string)
    ensures Join(Pieces(s)) == s
    decreases |s|
  {
    if |s| < 2 {
    } else if s[0] == ',' && s[1] == ' ' {
      JoinPieces(s[2..]);
      var p := [""] + Pieces(s[2..]);
      assert p[1..] == Pieces(s[2..]);
      assert s == ", " + s[2..];
    } else {
      var rest := Pieces(s[1..]);
      JoinPieces(s[1..]);
      var p := [[s[0]] + rest[0]] + rest[1..];
      assert p[1..] == rest[1..];
      if |rest| == 1 {
        assert s == [s[0]] + s[1..];
      } else {
        assert Join(rest) == rest[0] + ", " + Join(rest[1..]);
        assert s == [s[0]] + s[1..];
      }
    }
  }

  lemma {:induction false} PiecesNoDelim(x: string)
    requires NoDelim(x)
    ensures Pieces(x) == [x]
    decreases |x|
  {
    if |x| >= 2 {
      assert !DelimAt(x, 0);
      assert forall i :: 0 <= i < |x[1..]| ==> (DelimAt(x[1..], i) ==> DelimAt(x, i + 1));
      PiecesNoDelim(x[1..]);
      assert [x[0]] + x[1..] == x;
    }
  }

  lemma {:induction false} PiecesAfter(x: string, r: string)
    requires NoDelim(x)
    ensures Pieces(x + ", " + r) == [x] + Pieces(r)
    decreases |x|
  {
    var s := x + ", " + r;
    if |x| == 0 {
      assert s[2..] == r;
    } else {
      if |x| >= 2 {
        assert !DelimAt(x, 0);
      }
      assert !(s[0] == ',' && s[1] == ' ');
      assert forall i :: 0 <= i < |x[1..]| ==> (DelimAt(x[1..], i) ==> DelimAt(x, i + 1));
      assert s[1..] == x[1..] + ", " + r;
      PiecesAfter(x[1..], r);
      assert [x[0]] + x[1..] == x;
    }
  }

  /** Cutting a join of delimiter-free strings gives back those strings. */
  lemma {:induction false} PiecesJoin(ss: seq<string>)
    requires |ss| >= 1
    requires forall i :: 0 <= i < |ss| ==> NoDelim(ss[i])
    ensures Pieces(Join(ss)) == ss
  {
    if |ss| == 1 {
      PiecesNoDelim(ss[0]);
    } else {
      PiecesJoin(ss[1..]);
      PiecesAfter(ss[0], Join(ss[1..]));
      assert [ss[0]] + ss[1..] == ss;
    }
  }

  /** split(", ") inverts a join of delimiter-free strings whose last one is not empty. */
  lemma SplitJoin(ss: seq<string>)
    requires |ss| >= 1
    requires forall i :: 0 <= i < |ss| ==> NoDelim(ss[i])
    requires ss[|ss| - 1] != ""
    ensures Split(Join(ss)) == ss
  {
    PiecesJoin(ss);
    if |ss| > 1 {
      var s := Join(ss);
      assert s == ss[0] + ", " + Join(ss[1..]);
      assert DelimAt(s, |ss[0]|);
    }
  }

  // ---------------------------------------------------------------------------
  // Integer.parseInt and Integer.toString

  predicate IsDigit(c: char)
  {
    '0' <= c <= '9'
  }

  predicate AllDigits(s: string)
  {
    forall i :: 0 <= i < |s| ==> IsDigit(s[i])
  }

  /** The value of a string of decimal digits, most significant first. */
  function DigitsValue(ds: string): nat
    requires AllDigits(ds)
  {
    if |ds| == 0 then 0
    else 10 * DigitsValue(ds[..|ds| - 1]) + (ds[|ds| - 1] as int - '0' as int)
  }

  /**
   * Integer.parseInt(s): an optional '+' or '-', then at least one decimal digit, and a value
   * that fits in an int. No whitespace is accepted anywhere.
   */
  function ParseInt(s: string): (r: Option<Int32>)
    ensures r.Some? ==> |s| > 0 && forall i :: 0 < i < |s| ==> IsDigit(s[i])
    ensures r.Some? ==> IsDigit(s[0]) || s[0] == '+' || s[0] == '-'
  {
    if |s| == 0 then None
    else
      var body := if s[0] == '-' || s[0] == '+' then s[1..] else s;
      if |body| == 0 || !AllDigits(body) then None
      else
        assert forall i :: 0 < i < |s| ==> (s[i] == body[i - 1] || s[i] == body[i]);
        var v: int := if s[0] == '-' then -(DigitsValue(body) as int) else DigitsValue(body);
        if MinInt <= v <= MaxInt then Some(v) else None
  }

  /** The decimal digits of n, most significant first, with no leading zero. */
  function DigitString(n: nat): (r: string)
    ensures |r| >= 1 && AllDigits(r)
  {
    if n < 10 then [('0' as int + n) as char]
    else DigitString(n / 10) + [('0' as int + n % 10) as char]
  }

  /** Integer.toString(n). */
  function Show(n: int): string
  {
    if n < 0 then "-" + DigitString(-n) else DigitString(n)
  }

  lemma {:induction false} DigitStringValue(n: nat)
    ensures DigitsValue(DigitString(n)) == n
  {
    if n >= 10 {
      DigitStringValue(n / 10);
      var d := DigitString(n);
      assert d[..|d| - 1] == DigitString(n / 10);
    }
  }

  /** Integer.parseInt reads back every int that Integer.toString writes. */
  lemma ParseIntShow(n: Int32)
    ensures ParseInt(Show(n)) == Some(n)
  {
    var s := Show(n);
    if n < 0 {
      var m: nat := -(n as int);
      var d := DigitString(m);
      DigitStringValue(m);
      assert s == "-" + d;
      assert s[1..] == d;
    } else {
      var d := DigitString(n);
      DigitStringValue(n);
      assert s == d;
      assert IsDigit(s[0]);
    }
  }

  /** n zero digits. */
  function Zeros(n: nat): (r: string)
    ensures |r| == n && forall i :: 0 <= i < n ==> r[i] == '0'
  {
    if n == 0 then "" else "0" + Zeros(n - 1)
  }

  /** t is the decimal text of m with any number of leading zeros. */
  ghost predicate ZeroPadded(t: string, m: nat)
  {
    exists n: nat :: t == Zeros(n) + DigitString(m)
  }

  /**
   * s is a spelling of v that Integer.parseInt accepts: the digits of |v| after any number of
   * zeros, preceded by nothing or '+' when v >= 0, or by '-' when v <= 0 (so "-0" spells 0).
   */
  ghost predicate SpelledAs(s: string, v: int)
  {
    || (v >= 0 && ZeroPadded(s, v))
    || (v >= 0 && |s| > 0 && s[0] == '+' && ZeroPadded(s[1..], v))
    || (v <= 0 && |s| > 0 && s[0] == '-' && ZeroPadded(s[1..], -v))
  }

  /** Leading zeros do not change the value of a digit string. */
  lemma {:induction false} ZerosPrefixValue(n: nat, u: string)
    requires AllDigits(u)
    ensures AllDigits(Zeros(n) + u) && DigitsValue(Zeros(n) + u) == DigitsValue(u)
    decreases |u|, n
  {
    var t := Zeros(n) + u;
    if |u| == 0 {
      assert t == Zeros(n);
      if n > 0 {
        assert t[..n - 1] == Zeros(n - 1);
        ZerosPrefixValue(n - 1, u);
        assert Zeros(n - 1) + u == Zeros(n - 1);
      }
    } else {
      ZerosPrefixValue(n, u[..|u| - 1]);
      assert t[..|t| - 1] == Zeros(n) + u[..|u| - 1];
    }
  }

  /** A digit string that does not start with '0' has a positive value. */
  lemma {:induction false} LeadingDigitPositive(u: string)
    requires AllDigits(u) && |u| >= 1 && u[0] != '0'
    ensures DigitsValue(u) >= 1
  {
    if |u| > 1 {
      LeadingDigitPositive(u[..|u| - 1]);
    }
  }

  /** A digit string without a superfluous leading zero is what Integer.toString writes for its value. */
  lemma {:induction false} CanonicalDigits(u: string)
    requires AllDigits(u) && |u| >= 1 && (u[0] != '0' || |u| == 1)
    ensures DigitString(DigitsValue(u)) == u
  {
    if |u| > 1 {
      var init := u[..|u| - 1];
      CanonicalDigits(init);
      LeadingDigitPositive(init);
      var n := DigitsValue(u);
      var d := u[|u| - 1] as int - '0' as int;
      assert n == 10 * DigitsValue(init) + d;
      assert n / 10 == DigitsValue(init) && n % 10 == d;
      assert DigitString(n) == init + [u[|u| - 1]];
      assert init + [u[|u| - 1]] == u;
    }
  }

  /** Every non-empty digit string is a zero-padded spelling of its value. */
  lemma {:induction false} DigitsPadded(t: string)
    requires AllDigits(t) && |t| >= 1
    ensures ZeroPadded(t, DigitsValue(t))
  {
    if t[0] == '0' && |t| > 1 {
      var rest := t[1..];
      assert AllDigits(rest);
      DigitsPadded(rest);
      var n: nat :| rest == Zeros(n) + DigitString(DigitsValue(rest));
      assert t == Zeros(1) + rest;
      ZerosPrefixValue(1, rest);
      var d := DigitString(DigitsValue(t));
      assert Zeros(n + 1) == "0" + Zeros(n);
      assert t == "0" + (Zeros(n) + d);
      assert t == Zeros(n + 1) + d;
    } else {
      CanonicalDigits(t);
      assert t == Zeros(0) + DigitString(DigitsValue(t));
    }
  }

  /** A zero-padded spelling of m is a non-empty digit string of value m. */
  lemma PaddedValue(t: string, m: nat)
    requires ZeroPadded(t, m)
    ensures AllDigits(t) && |t| >= 1 && DigitsValue(t) == m
  {
    var n: nat :| t == Zeros(n) + DigitString(m);
    ZerosPrefixValue(n, DigitString(m));
    DigitStringValue(m);
  }

  /**
   * Integer.parseInt(s) returns v exactly when v is an int and s spells it: an optional sign
   * that agrees with v, any number of leading zeros, then the digits of |v|.
   */
  lemma ParseIntExact(s: string, v: int)
    ensures (ParseInt(s).Some? && ParseInt(s).value == v) <==> MinInt <= v <= MaxInt && SpelledAs(s, v)
  {
    if ParseInt(s).Some? && ParseInt(s).value == v {
      var body := if s[0] == '-' || s[0] == '+' then s[1..] else s;
      DigitsPadded(body);
    }
    if MinInt <= v <= MaxInt && SpelledAs(s, v) {
      if v >= 0 && ZeroPadded(s, v) {
        PaddedValue(s, v);
        assert IsDigit(s[0]);
      } else if v >= 0 && |s| > 0 && s[0] == '+' && ZeroPadded(s[1..], v) {
        PaddedValue(s[1..], v);
      } else {
        PaddedValue(s[1..], -v);
      }
    }
  }

  /** The decimal text of a value outside the int range does not parse. */
  lemma ParseIntRejectsOutOfRange(n: int)
    requires n < MinInt || MaxInt < n
    ensures ParseInt(Show(n)) == None
  {
    var s := Show(n);
    if n < 0 {
      var m: nat := -n;
      var d := DigitString(m);
      DigitStringValue(m);
      assert s == "-" + d;
      assert s[1..] == d;
    } else {
      var d := DigitString(n);
      DigitStringValue(n);
      assert s == d;
      assert IsDigit(s[0]);
    }
  }

  /** What Integer.toString writes is never empty and never holds ", ". */
  lemma ShowNoDelim(n: int)
    ensures Show(n) != "" && NoDelim(Show(n))
  {
    var s := Show(n);
    forall i | 0 <= i < |s| ensures !DelimAt(s, i) {
      if n < 0 {
        assert i == 0 || s[i] == DigitString(-n)[i - 1];
      }
    }
  }
}
