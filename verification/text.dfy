/** Strings as the JavaScript runtime sees them: `Array.prototype.join` and
    `String.prototype.split` with a one-character separator, and the decimal
    rendering of an integer inside a template literal. */
module Text {

  /** Number of occurrences of `c` in `s`. */
  function Occurrences(s: string, c: char): nat {
    multiset(s)[c]
  }

  /** `parts.join(sep)`: the parts with one separator between neighbours. */
  function Join(parts: seq<string>, sep: char): (r: string)
    ensures |parts| == 0 ==> r == ""
    ensures |parts| == 1 ==> r == parts[0]
    decreases |parts|
  {
    if |parts| == 0 then ""
    else if |parts| == 1 then parts[0]
    else parts[0] + [sep] + Join(parts[1..], sep)
  }

  /** `s.split(sep)`: the maximal separator-free pieces, always at least one. */
  function Split(s: string, sep: char): (parts: seq<string>)
    ensures |parts| >= 1
    ensures forall i :: 0 <= i < |parts| ==> sep !in parts[i]
    decreases |s|
  {
    if |s| == 0 then [""]
    else
      var rest := Split(s[1..], sep);
      if s[0] == sep then [""] + rest
      else [[s[0]] + rest[0]] + rest[1..]
  }

  /** Joining the pieces of a split with the same separator gives the string back. */
  lemma {:induction false} JoinSplit(s: string, sep: char)
    ensures Join(Split(s, sep), sep) == s
    decreases |s|
  {
    if |s| > 0 {
      var rest := Split(s[1..], sep);
      JoinSplit(s[1..], sep);
      if s[0] == sep {
        assert Split(s, sep) == [""] + rest;
        assert Join([""] + rest, sep) == "" + [sep] + Join(rest, sep);
      } else {
        var parts := Split(s, sep);
        assert parts == [[s[0]] + rest[0]] + rest[1..];
        if |rest| == 1 {
          assert Join(rest, sep) == rest[0];
        } else {
          assert Join(rest, sep) == rest[0] + [sep] + Join(rest[1..], sep);
          assert parts[1..] == rest[1..];
        }
      }
    }
  }

  /** Splitting a join of separator-free parts gives the parts back. */
  lemma {:induction false} SplitJoin(parts: seq<string>, sep: char)
    requires |parts| >= 1
    requires forall i :: 0 <= i < |parts| ==> sep !in parts[i]
    ensures Split(Join(parts, sep), sep) == parts
    decreases |parts|
  {
    if |parts| == 1 {
      SplitFree(parts[0], sep);
    } else {
      SplitJoin(parts[1..], sep);
      SplitPrefix(parts[0], Join(parts[1..], sep), sep);
      assert parts == [parts[0]] + parts[1..];
    }
  }

  /** A separator-free string splits into itself. */
  lemma {:induction false} SplitFree(s: string, sep: char)
    requires sep !in s
    ensures Split(s, sep) == [s]
    decreases |s|
  {
    if |s| > 0 {
      assert sep !in s[1..] by {
        forall i | 0 <= i < |s| - 1 ensures s[1..][i] != sep {
          assert s[1..][i] == s[i + 1];
        }
      }
      SplitFree(s[1..], sep);
      assert [s[0]] + s[1..] == s;
    }
  }

  /** Splitting `w + [sep] + t` for separator-free `w` puts `w` in front of the pieces of `t`. */
  lemma {:induction false} SplitPrefix(w: string, t: string, sep: char)
    requires sep !in w
    ensures Split(w + [sep] + t, sep) == [w] + Split(t, sep)
    decreases |w|
  {
    var s := w + [sep] + t;
    if |w| == 0 {
      assert s[0] == sep && s[1..] == t;
    } else {
      assert s[0] == w[0];
      assert s[1..] == w[1..] + [sep] + t;
      assert sep !in w[1..] by {
        forall i | 0 <= i < |w| - 1 ensures w[1..][i] != sep {
          assert w[1..][i] == w[i + 1];
        }
      }
      SplitPrefix(w[1..], t, sep);
      assert [w[0]] + w[1..] == w;
    }
  }

  /** A split has exactly one more piece than the string has separators. */
  lemma {:induction false} SplitCount(s: string, sep: char)
    ensures |Split(s, sep)| == Occurrences(s, sep) + 1
    decreases |s|
  {
    if |s| > 0 {
      SplitCount(s[1..], sep);
      assert s == [s[0]] + s[1..];
      assert multiset(s) == multiset([s[0]]) + multiset(s[1..]);
    }
  }

  /** Decimal digit for `d`. */
  function Digit(d: nat): (c: char)
    requires d < 10
    ensures '0' <= c <= '9'
  {
    "0123456789"[d]
  }

  /** Value of a decimal digit character. */
  function DigitValue(c: char): nat
    requires '0' <= c <= '9'
  {
    (c as int - '0' as int) as nat
  }

  predicate IsDigits(s: string) {
    forall i :: 0 <= i < |s| ==> '0' <= s[i] <= '9'
  }

  /** Decimal rendering of a natural number, without leading zeros. */
  function NatToString(n: nat): (r: string)
    ensures |r| >= 1 && IsDigits(r)
    ensures |r| > 1 ==> r[0] != '0'
    decreases n
  {
    if n < 10 then [Digit(n)] else NatToString(n / 10) + [Digit(n % 10)]
  }

  /** Value of a string of decimal digits. */
  function ParseNat(s: string): nat
    requires IsDigits(s)
    decreases |s|
  {
    if |s| == 0 then 0 else ParseNat(s[..|s| - 1]) * 10 + DigitValue(s[|s| - 1])
  }

  /** Reading back a rendered natural number gives the number. */
  lemma {:induction false} ParseNatToString(n: nat)
    ensures ParseNat(NatToString(n)) == n
    decreases n
  {
    var r := NatToString(n);
    if n < 10 {
      assert r[..0] == [];
      assert DigitValue(Digit(n)) == n;
    } else {
      ParseNatToString(n / 10);
      assert r[..|r| - 1] == NatToString(n / 10);
      assert DigitValue(Digit(n % 10)) == n % 10;
    }
  }

  /** The shape `IntToString` produces: an optional minus sign, then digits. */
  predicate IsIntText(s: string) {
    && |s| >= 1
    && (s[0] == '-' ==> IsDigits(s[1..]))
    && (s[0] != '-' ==> IsDigits(s))
  }

  /** `${n}` for an integer number: optional minus sign, then the digits. */
  function IntToString(n: int): (r: string)
    ensures IsIntText(r)
    ensures n >= 0 <==> r[0] != '-'
  {
    if n >= 0 then NatToString(n)
    else
      var digits := NatToString(-n);
      assert ("-" + digits)[1..] == digits;
      "-" + digits
  }

  /** Inverse of `IntToString`. */
  function ParseInt(s: string): int
    requires IsIntText(s)
  {
    if s[0] == '-' then -(ParseNat(s[1..]) as int) else ParseNat(s)
  }

  /** Reading back a rendered integer gives the integer. */
  lemma IntToStringRoundTrip(n: int)
    ensures ParseInt(IntToString(n)) == n
  {
    if n >= 0 {
      ParseNatToString(n);
    } else {
      assert ("-" + NatToString(-n))[1..] == NatToString(-n);
      ParseNatToString(-n);
    }
  }
}
