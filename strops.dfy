/**
  The Python `str` operations the address resolver calls, on `seq<char>`:
  `s.replace(c, "")`, `s.split(sep)`, `s.strip()`, `s.isdigit()` and
  `int(s)` on a string of digits. `sep.join(parts)` is not called by the
  resolver; it is here to state the round trips of `split` and to rejoin a
  resolved list with commas and resolve it again. Characters are ASCII:
  `strip` trims the ASCII characters CPython counts as whitespace and
  `isdigit` accepts only '0'..'9'.
 */
module StrOps {

  /** Number of occurrences of `c` in `s`. */
  function Count(s: string, c: char): (n: nat)
    ensures n <= |s|
    ensures n == 0 <==> c !in s
  {
    if s == [] then 0 else (if s[0] == c then 1 else 0) + Count(s[1..], c)
  }

  lemma {:induction false} CountAppend(a: string, b: string, c: char)
    ensures Count(a + b, c) == Count(a, c) + Count(b, c)
  {
    if a != [] {
      assert (a + b)[0] == a[0] && (a + b)[1..] == a[1..] + b;
      CountAppend(a[1..], b, c);
    } else {
      assert a + b == b;
    }
  }

  // ---------------------------------------------------------------------
  // s.replace(c, "")

  /** `s` with every occurrence of `c` deleted, the rest kept in order. */
  function Delete(s: string, c: char): (r: string)
    ensures c !in r
    ensures |r| == |s| - Count(s, c)
    ensures c !in s ==> r == s
  {
    if s == [] then []
    else if s[0] == c then Delete(s[1..], c)
    else
      var r := [s[0]] + Delete(s[1..], c);
      assert r[0] == s[0] && r[1..] == Delete(s[1..], c);
      r
  }

  /** Deleting `c` leaves the other characters' counts alone. */
  lemma {:induction false} DeleteCount(s: string, c: char, d: char)
    requires d != c
    ensures Count(Delete(s, c), d) == Count(s, d)
  {
    if s != [] {
      DeleteCount(s[1..], c, d);
      if s[0] != c {
        var r := [s[0]] + Delete(s[1..], c);
        assert r[0] == s[0] && r[1..] == Delete(s[1..], c);
      }
    }
  }

  /** Deleting distributes over concatenation; with the single-character
      cases this fixes `Delete` completely, order included. */
  lemma {:induction false} DeleteAppend(a: string, b: string, c: char)
    ensures Delete(a + b, c) == Delete(a, c) + Delete(b, c)
  {
    if a != [] {
      var ab := a + b;
      assert ab[0] == a[0] && ab[1..] == a[1..] + b;
      DeleteAppend(a[1..], b, c);
      if a[0] == c {
        assert Delete(ab, c) == Delete(a[1..] + b, c);
      } else {
        assert Delete(ab, c) == [a[0]] + Delete(a[1..] + b, c);
        assert Delete(a, c) == [a[0]] + Delete(a[1..], c);
      }
    } else {
      assert a + b == b;
    }
  }

  // ---------------------------------------------------------------------
  // s.split(sep) and sep.join(parts)

  /** Python's `s.split(sep)` for a one-character separator: the maximal
      separator-free pieces between separators, empty pieces included, so
      never fewer than one piece. */
  function Split(s: string, sep: char): (r: seq<string>)
    ensures |r| >= 1
  {
    if s == [] then [""]
    else
      var rest := Split(s[1..], sep);
      if s[0] == sep then [""] + rest else [[s[0]] + rest[0]] + rest[1..]
  }

  /** There is always one piece more than there are separators. */
  lemma {:induction false} SplitCount(s: string, sep: char)
    ensures |Split(s, sep)| == Count(s, sep) + 1
  {
    if s != [] {
      SplitCount(s[1..], sep);
    }
  }

  /** No piece holds the separator. */
  lemma {:induction false} SplitPieces(s: string, sep: char)
    ensures forall k :: 0 <= k < |Split(s, sep)| ==> sep !in Split(s, sep)[k]
  {
    if s != [] {
      SplitPieces(s[1..], sep);
      var rest := Split(s[1..], sep);
      if s[0] != sep {
        var pieces := Split(s, sep);
        forall k | 0 <= k < |pieces| ensures sep !in pieces[k] {
          if k == 0 {
            assert pieces[0] == [s[0]] + rest[0];
          } else {
            assert pieces[k] == rest[k];
          }
        }
      }
    }
  }

  /** No piece holds a character the whole does not. */
  lemma {:induction false} SplitAvoids(s: string, sep: char, c: char)
    requires c !in s
    ensures forall k :: 0 <= k < |Split(s, sep)| ==> c !in Split(s, sep)[k]
  {
    if s != [] {
      assert s == [s[0]] + s[1..];
      SplitAvoids(s[1..], sep, c);
      var rest := Split(s[1..], sep);
      if s[0] != sep {
        var pieces := Split(s, sep);
        forall k | 0 <= k < |pieces| ensures c !in pieces[k] {
          if k == 0 {
            assert pieces[0] == [s[0]] + rest[0];
          } else {
            assert pieces[k] == rest[k];
          }
        }
      }
    }
  }

  /** Python's `sep.join(parts)`. */
  function Join(parts: seq<string>, sep: char): (r: string)
    ensures |parts| == 1 ==> r == parts[0]
  {
    if |parts| == 0 then ""
    else if |parts| == 1 then parts[0]
    else parts[0] + [sep] + Join(parts[1..], sep)
  }

  /** A character put in front of the first part comes out in front of the join. */
  lemma JoinFront(c: char, p: string, ps: seq<string>, sep: char)
    ensures Join([[c] + p] + ps, sep) == [c] + Join([p] + ps, sep)
  {
    if ps != [] {
      assert ([[c] + p] + ps)[1..] == ps && ([p] + ps)[1..] == ps;
    }
  }

  /** Joining the pieces of a split gives back the string. */
  lemma {:induction false} JoinSplit(s: string, sep: char)
    ensures Join(Split(s, sep), sep) == s
  {
    if s != [] {
      var rest := Split(s[1..], sep);
      JoinSplit(s[1..], sep);
      if s[0] == sep {
        assert ([""] + rest)[1..] == rest;
      } else {
        JoinFront(s[0], rest[0], rest[1..], sep);
        assert [rest[0]] + rest[1..] == rest;
      }
      assert s == [s[0]] + s[1..];
    }
  }

  /** A string without the separator is one piece. */
  lemma {:induction false} SplitWhole(p: string, sep: char)
    requires sep !in p
    ensures Split(p, sep) == [p]
  {
    if p != [] {
      assert p == [p[0]] + p[1..];
      SplitWhole(p[1..], sep);
    }
  }

  /** A separator-free prefix ended by the separator is the first piece. */
  lemma {:induction false} SplitAfter(p: string, t: string, sep: char)
    requires sep !in p
    ensures Split(p + [sep] + t, sep) == [p] + Split(t, sep)
  {
    var x := p + [sep] + t;
    if p == [] {
      assert x[1..] == t;
    } else {
      assert p == [p[0]] + p[1..];
      assert x[0] == p[0] && x[1..] == p[1..] + [sep] + t;
      SplitAfter(p[1..], t, sep);
    }
  }

  /** Splitting a join of separator-free parts gives back the parts. */
  lemma {:induction false} SplitJoin(parts: seq<string>, sep: char)
    requires |parts| >= 1
    requires forall k :: 0 <= k < |parts| ==> sep !in parts[k]
    ensures Split(Join(parts, sep), sep) == parts
  {
    if |parts| == 1 {
      SplitWhole(parts[0], sep);
    } else {
      SplitJoin(parts[1..], sep);
      SplitAfter(parts[0], Join(parts[1..], sep), sep);
      assert [parts[0]] + parts[1..] == parts;
    }
  }

  /** A character that is neither the separator nor in any part is not in the join. */
  lemma {:induction false} JoinAvoids(parts: seq<string>, sep: char, c: char)
    requires c != sep
    requires forall i :: 0 <= i < |parts| ==> c !in parts[i]
    ensures c !in Join(parts, sep)
  {
    if |parts| > 1 {
      JoinAvoids(parts[1..], sep, c);
    }
  }

  /** A join of non-empty parts is non-empty. */
  lemma JoinNonEmpty(parts: seq<string>, sep: char)
    requires |parts| >= 1 && parts[0] != ""
    ensures Join(parts, sep) != ""
  {
  }

  // ---------------------------------------------------------------------
  // s.strip()

  /** The ASCII characters CPython's `str.strip()` removes: tab, line feed,
      vertical tab, form feed, carriage return (0x09..0x0D), the four
      separators 0x1C..0x1F, and space (0x20). */
  predicate IsSpace(c: char) {
    (9 <= c as int <= 13) || (28 <= c as int <= 32)
  }

  /** `s` without its leading whitespace. */
  function StripLeft(s: string): (r: string)
    ensures |r| <= |s|
    ensures r == [] || !IsSpace(r[0])
    ensures |s| > 0 && !IsSpace(s[0]) ==> r == s
  {
    if s != [] && IsSpace(s[0]) then StripLeft(s[1..]) else s
  }

  /** `s` without its trailing whitespace. */
  function StripRight(s: string): (r: string)
    ensures |r| <= |s|
    ensures r == [] || !IsSpace(r[|r| - 1])
    ensures |s| > 0 && !IsSpace(s[|s| - 1]) ==> r == s
    ensures r == s[..|r|]
  {
    if s != [] && IsSpace(s[|s| - 1]) then StripRight(s[..|s| - 1]) else s
  }

  /** Python's `s.strip()`: `s` without a leading and a trailing run of
      whitespace; `StripTrims` states that exactly this is removed. */
  function Strip(s: string): (r: string)
    ensures |r| <= |s|
    ensures r == [] || (!IsSpace(r[0]) && !IsSpace(r[|r| - 1]))
  {
    var l := StripLeft(s);
    var r := StripRight(l);
    assert r != [] ==> r[0] == l[0];
    r
  }

  /** `StripLeft` removes a prefix, all of it whitespace. */
  lemma {:induction false} StripLeftDrops(s: string)
    ensures StripLeft(s) == s[|s| - |StripLeft(s)|..]
    ensures forall k :: 0 <= k < |s| - |StripLeft(s)| ==> IsSpace(s[k])
  {
    if s != [] && IsSpace(s[0]) {
      StripLeftDrops(s[1..]);
      forall k | 1 <= k < |s| - |StripLeft(s)| ensures IsSpace(s[k]) {
        assert s[k] == s[1..][k - 1];
      }
    }
  }

  /** `StripRight` removes a suffix, all of it whitespace. */
  lemma {:induction false} StripRightDrops(s: string)
    ensures forall k :: |StripRight(s)| <= k < |s| ==> IsSpace(s[k])
  {
    if s != [] && IsSpace(s[|s| - 1]) {
      var init := s[..|s| - 1];
      StripRightDrops(init);
      forall k | |StripRight(s)| <= k < |s| - 1 ensures IsSpace(s[k]) {
        assert s[k] == init[k];
      }
    }
  }

  /** `strip()` keeps a contiguous slice of `s`, in order, and everything it
      removes before and after that slice is whitespace. */
  lemma StripTrims(s: string)
    ensures (exists i, j :: 0 <= i <= j <= |s| && Strip(s) == s[i..j]
               && (forall k :: 0 <= k < i ==> IsSpace(s[k]))
               && (forall k :: j <= k < |s| ==> IsSpace(s[k])))
  {
    var l := StripLeft(s);
    var r := Strip(s);
    StripLeftDrops(s);
    StripRightDrops(l);
    var i := |s| - |l|;
    assert r == s[i..i + |r|];
    forall k | i + |r| <= k < |s| ensures IsSpace(s[k]) {
      assert s[k] == l[k - i];
    }
  }

  /** A string without whitespace is its own strip. */
  lemma StripNoSpace(s: string)
    requires forall i :: 0 <= i < |s| ==> !IsSpace(s[i])
    ensures Strip(s) == s
  {
  }

  /** Stripping removes only whitespace: every other character keeps its count. */
  lemma StripCount(s: string, c: char)
    requires !IsSpace(c)
    ensures Count(Strip(s), c) == Count(s, c)
  {
    StripLeftCount(s, c);
    StripRightCount(StripLeft(s), c);
  }

  lemma {:induction false} StripLeftCount(s: string, c: char)
    requires !IsSpace(c)
    ensures Count(StripLeft(s), c) == Count(s, c)
  {
    if s != [] && IsSpace(s[0]) {
      StripLeftCount(s[1..], c);
    }
  }

  lemma {:induction false} StripRightCount(s: string, c: char)
    requires !IsSpace(c)
    ensures Count(StripRight(s), c) == Count(s, c)
  {
    if s != [] && IsSpace(s[|s| - 1]) {
      var init := s[..|s| - 1];
      assert s == init + [s[|s| - 1]];
      CountAppend(init, [s[|s| - 1]], c);
      StripRightCount(init, c);
    }
  }

  // ---------------------------------------------------------------------
  // s.isdigit() and int(s)

  predicate IsDigit(c: char) {
    '0' <= c <= '9'
  }

  /** Python's `s.isdigit()` on ASCII: non-empty and all digits. */
  predicate IsDigits(s: string) {
    |s| > 0 && forall i :: 0 <= i < |s| ==> IsDigit(s[i])
  }

  /** Python's `int(s)` for a string of decimal digits; leading zeros are
      allowed and do not change the value. */
  function DecimalValue(s: string): (n: nat)
    requires forall i :: 0 <= i < |s| ==> IsDigit(s[i])
  {
    if s == [] then 0
    else
      assert IsDigit(s[|s| - 1]);
      DecimalValue(s[..|s| - 1]) * 10 + (s[|s| - 1] as int - '0' as int)
  }

  /** The canonical decimal spelling of `n`: no sign, no leading zero. */
  function Decimal(n: nat): (r: string)
    ensures IsDigits(r)
    ensures DecimalValue(r) == n
    ensures |r| > 1 ==> r[0] != '0'
  {
    var last := ('0' as int + n % 10) as char;
    if n < 10 then
      assert [last][..0] == [];
      [last]
    else
      var r := Decimal(n / 10) + [last];
      assert r[..|r| - 1] == Decimal(n / 10);
      r
  }

  /** Leading zeros do not change the value. */
  lemma {:induction false} LeadingZero(s: string)
    requires forall i :: 0 <= i < |s| ==> IsDigit(s[i])
    ensures DecimalValue("0" + s) == DecimalValue(s)
  {
    if s != [] {
      var t := "0" + s;
      assert t[..|t| - 1] == "0" + s[..|s| - 1];
      LeadingZero(s[..|s| - 1]);
    }
  }
}
