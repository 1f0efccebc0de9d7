/**
 * String helpers the adapter relies on: splitting at the `|` separator of the compound
 * outline keys, and JavaScript's `String(n)` for the integer ids the remote API returns.
 */
module Text {
  import opened Wrappers

  /** The separator of the compound `uuid|bookId` keys. */
  const Separator: char := '|'

  /** `s.split('|')[0]`: the text before the first separator, or all of `s` when it has none. */
  function Head(s: string): (h: string)
    ensures h <= s
    ensures Separator !in h
    ensures |h| < |s| ==> s[|h|] == Separator
  {
    if |s| == 0 then ""
    else if s[0] == Separator then ""
    else [s[0]] + Head(s[1..])
  }

  /** The text after the first separator, if `s` has one. */
  function AfterSeparator(s: string): (t: Option<string>)
    ensures t.None? <==> Separator !in s
    ensures t.Some? ==> s == Head(s) + [Separator] + t.value
  {
    if |Head(s)| < |s| then
      assert s == s[..|Head(s)|] + [Separator] + s[|Head(s)| + 1..];
      Some(s[|Head(s)| + 1..])
    else
      assert Head(s) == s;
      None
  }

  /** `s.split('|')[1]`: the text between the first and the second separator;
      `None` (JavaScript's `undefined`) when `s` has no separator at all. */
  function Second(s: string): (o: Option<string>)
    ensures o.Some? <==> Separator in s
    ensures o.Some? ==> Separator !in o.value
    ensures o.Some? ==> Head(s) + [Separator] + o.value <= s
    ensures o.Some? ==> |Head(s)| + 1 + |o.value| == |s| || s[|Head(s)| + 1 + |o.value|] == Separator
  {
    match AfterSeparator(s)
    case None => None
    case Some(t) =>
      var h := Head(t);
      assert s == Head(s) + [Separator] + t;
      assert |h| < |t| ==> s[|Head(s)| + 1 + |h|] == t[|h|];
      Some(h)
  }

  /** `a + '|' + b`. */
  function Join(a: string, b: string): string
  {
    a + [Separator] + b
  }

  /** A string without separator is its own first component. */
  lemma HeadOfPlain(s: string)
    requires Separator !in s
    ensures Head(s) == s
  {
  }

  /** Splitting a joined pair at its first separator gives back the left part ... */
  lemma {:induction false} HeadOfJoin(a: string, b: string)
    requires Separator !in a
    ensures Head(Join(a, b)) == a
  {
    if |a| > 0 {
      assert Join(a, b)[1..] == Join(a[1..], b);
      HeadOfJoin(a[1..], b);
    }
  }

  /** ... and the right part up to its own first separator. */
  lemma SecondOfJoin(a: string, b: string)
    requires Separator !in a
    ensures Second(Join(a, b)) == Some(Head(b))
  {
    HeadOfJoin(a, b);
    var t := AfterSeparator(Join(a, b));
    assert t.Some?;
    assert Join(a, b) == a + [Separator] + t.value;
    assert |a + [Separator]| == |a| + 1;
    assert t.value == Join(a, b)[|a| + 1..];
    assert Join(a, b)[|a| + 1..] == b;
  }

  /** The second component of `a|b` is `b` exactly when `b` itself has no separator. */
  lemma SecondOfJoinIsRight(a: string, b: string)
    requires Separator !in a
    ensures Second(Join(a, b)) == Some(b) <==> Separator !in b
  {
    SecondOfJoin(a, b);
    if Separator !in b {
      HeadOfPlain(b);
    } else {
      assert Head(b) != b by {
        assert Separator !in Head(b);
      }
    }
  }

  // ---------------------------------------------------------------------------------------
  // Decimal rendering of integers (JavaScript `String(n)` / `n.toString()` on an integer)

  predicate IsDigit(c: char)
  {
    '0' <= c <= '9'
  }

  function DigitChar(d: nat): (c: char)
    requires d < 10
    ensures IsDigit(c) && c as int - '0' as int == d
  {
    ['0', '1', '2', '3', '4', '5', '6', '7', '8', '9'][d]
  }

  /** Decimal digits of `n`, most significant first, without leading zeros. */
  function NatToString(n: nat): (s: string)
    ensures 1 <= |s|
    ensures forall i :: 0 <= i < |s| ==> IsDigit(s[i])
    ensures |s| > 1 ==> s[0] != '0'
    decreases n
  {
    if n < 10 then [DigitChar(n)] else NatToString(n / 10) + [DigitChar(n % 10)]
  }

  /** `String(i)` for an integer `i`. */
  function IntToString(i: int): (s: string)
    ensures Separator !in s
  {
    if i < 0 then "-" + NatToString(-i) else NatToString(i)
  }

  /** Reads a string of decimal digits back. */
  function ParseNat(s: string): nat
    requires forall i :: 0 <= i < |s| ==> IsDigit(s[i])
  {
    if |s| == 0 then 0
    else
      assert IsDigit(s[|s| - 1]);
      ParseNat(s[..|s| - 1]) * 10 + (s[|s| - 1] as int - '0' as int)
  }

  /** Reads the output of `IntToString` back. */
  function ParseInt(s: string): int
    requires |s| > 0
    requires s[0] == '-' ==> forall i :: 1 <= i < |s| ==> IsDigit(s[i])
    requires s[0] != '-' ==> forall i :: 0 <= i < |s| ==> IsDigit(s[i])
  {
    if s[0] == '-' then 0 - ParseNat(s[1..]) as int else ParseNat(s)
  }

  lemma {:induction false} ParseNatToString(n: nat)
    ensures ParseNat(NatToString(n)) == n
    decreases n
  {
    if n >= 10 {
      var s := NatToString(n);
      assert s[..|s| - 1] == NatToString(n / 10);
      ParseNatToString(n / 10);
    }
  }

  /** `ParseInt` inverts `IntToString`. */
  lemma ParseIntToString(i: int)
    ensures ParseInt(IntToString(i)) == i
  {
    if i < 0 {
      var t := NatToString(-i);
      var s := "-" + t;
      assert IntToString(i) == s;
      assert s[1..] == t;
      ParseNatToString(-i);
      assert ParseInt(s) == 0 - ParseNat(t) as int;
    } else {
      var t := NatToString(i);
      assert IntToString(i) == t;
      assert t[0] != '-' by { assert IsDigit(t[0]); }
      ParseNatToString(i);
      assert ParseInt(t) == ParseNat(t);
    }
  }

  /** Distinct ids are rendered as distinct strings. */
  lemma IntToStringInjective(a: int, b: int)
    ensures IntToString(a) == IntToString(b) <==> a == b
  {
    if IntToString(a) == IntToString(b) {
      ParseIntToString(a);
      ParseIntToString(b);
    }
  }
}
