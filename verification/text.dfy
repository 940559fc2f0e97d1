/** String helpers the JavaScript runtime provides to the source:
    number-to-string rendering of integers (template literals), splitting on a
    separator character, and lower-casing. */
module Text {
  import opened Wrappers

  predicate IsDigit(c: char) {
    '0' <= c <= '9'
  }

  predicate AllDigits(s: string) {
    forall i :: 0 <= i < |s| ==> IsDigit(s[i])
  }

  function DigitChar(d: nat): (c: char)
    requires d < 10
    ensures IsDigit(c) && c as int - '0' as int == d
  {
    (('0' as int) + d) as char
  }

  /** Decimal rendering of a natural number without leading zeros. */
  function NatToDecimal(n: nat): (r: string)
    ensures |r| >= 1 && AllDigits(r)
    ensures r[0] == '0' ==> n == 0
    decreases n
  {
    if n < 10 then [DigitChar(n)] else NatToDecimal(n / 10) + [DigitChar(n % 10)]
  }

  /** What a template literal `${n}` produces for an integral JavaScript number of
      magnitude at most 2^53, where every integer is exactly representable: an
      optional minus sign followed by digits. */
  function IntToDecimal(n: int): (r: string)
  {
    if n < 0 then "-" + NatToDecimal(-n) else NatToDecimal(n)
  }

  /** The value of a string of decimal digits. */
  function DigitsValue(s: string): nat
    requires AllDigits(s)
  {
    if |s| == 0 then 0 else DigitsValue(s[..|s| - 1]) * 10 + (s[|s| - 1] as int - '0' as int)
  }

  /** Reads back an optionally signed, non-empty string of decimal digits. */
  function ParseInteger(s: string): (r: Option<int>)
    ensures r.Some? ==> |s| >= 1
  {
    if |s| >= 2 && s[0] == '-' && AllDigits(s[1..]) then Some(-(DigitsValue(s[1..]) as int))
    else if |s| >= 1 && AllDigits(s) then Some(DigitsValue(s))
    else None
  }

  lemma {:induction false} NatToDecimalValue(n: nat)
    ensures DigitsValue(NatToDecimal(n)) == n
    decreases n
  {
    var r := NatToDecimal(n);
    if n >= 10 {
      NatToDecimalValue(n / 10);
      assert r[..|r| - 1] == NatToDecimal(n / 10);
    }
  }

  /** Rendering then reading an integer gives it back. */
  lemma IntToDecimalRoundTrip(n: int)
    ensures ParseInteger(IntToDecimal(n)) == Some(n)
  {
    NatToDecimalValue(if n < 0 then -n else n);
    if n < 0 {
      assert IntToDecimal(n)[1..] == NatToDecimal(-n);
    } else {
      assert IntToDecimal(n)[0] != '-';
    }
  }

  /** A rendered integer holds only digits and a leading minus sign, so never `sep`
      when `sep` is neither. */
  lemma IntToDecimalAvoids(n: int, sep: char)
    requires !IsDigit(sep) && sep != '-'
    ensures sep !in IntToDecimal(n)
  {
  }

  /** The position of the first occurrence of `c` in `s`, like `s.indexOf(c)`. */
  function IndexOf(s: string, c: char): (r: Option<nat>)
    ensures r.None? <==> c !in s
    ensures r.Some? ==> r.value < |s| && s[r.value] == c && c !in s[..r.value]
    decreases |s|
  {
    if |s| == 0 then None
    else if s[0] == c then Some(0)
    else
      match IndexOf(s[1..], c)
      case None => None
      case Some(k) =>
        assert s[..k + 1] == [s[0]] + s[1..][..k];
        Some(k + 1)
  }

  /** The position of the last occurrence of `c` in `s`, like `s.lastIndexOf(c)`. */
  function LastIndexOf(s: string, c: char): (r: Option<nat>)
    ensures r.None? <==> c !in s
    ensures r.Some? ==> r.value < |s| && s[r.value] == c && c !in s[r.value + 1..]
    decreases |s|
  {
    if |s| == 0 then None
    else if s[|s| - 1] == c then Some(|s| - 1)
    else
      var r := LastIndexOf(s[..|s| - 1], c);
      assert s == s[..|s| - 1] + [s[|s| - 1]];
      r
  }

  /** In `a + [c] + b` with no `c` in `b`, the last `c` is the one between them. */
  lemma {:induction false} LastIndexOfSeparator(a: string, c: char, b: string)
    requires c !in b
    ensures LastIndexOf(a + [c] + b, c) == Some(|a|)
    decreases |b|
  {
    var s := a + [c] + b;
    if |b| > 0 {
      var b' := b[..|b| - 1];
      assert b[|b| - 1] in b;
      assert s[..|s| - 1] == a + [c] + b';
      LastIndexOfSeparator(a, c, b');
    }
  }

  /** The text after the last `c` in `s`, or all of `s` when it holds no `c`. */
  function AfterLast(s: string, c: char): (r: string)
    ensures c !in r && |r| <= |s|
  {
    match LastIndexOf(s, c)
    case None => s
    case Some(i) => s[i + 1..]
  }

  /** Splits `s` at every occurrence of `sep`, like JavaScript's `s.split(sep)`. */
  function Split(s: string, sep: char): (parts: seq<string>)
    ensures |parts| >= 1
    ensures forall k :: 0 <= k < |parts| ==> sep !in parts[k]
    decreases |s|
  {
    if |s| == 0 then [""]
    else
      var rest := Split(s[1..], sep);
      if s[0] == sep then [""] + rest else [[s[0]] + rest[0]] + rest[1..]
  }

  /** Joins `parts` with `sep` between neighbours, like JavaScript's `parts.join(sep)`. */
  function Join(parts: seq<string>, sep: char): string
    requires |parts| >= 1
    decreases |parts|
  {
    if |parts| == 1 then parts[0] else parts[0] + [sep] + Join(parts[1..], sep)
  }

  /** Splitting peels off the text before the first separator. */
  lemma {:induction false} SplitFirst(s: string, sep: char, p: nat)
    requires p < |s| && s[p] == sep && sep !in s[..p]
    ensures Split(s, sep) == [s[..p]] + Split(s[p + 1..], sep)
    decreases p
  {
    if p > 0 {
      assert s[1..][p - 1] == sep && s[1..][..p - 1] == s[1..p];
      SplitFirst(s[1..], sep, p - 1);
      assert s[1..][p..] == s[p + 1..];
      assert s[..p] == [s[0]] + s[1..p];
    }
  }

  /** Without a separator, the whole string is the one part. */
  lemma {:induction false} SplitNone(s: string, sep: char)
    requires sep !in s
    ensures Split(s, sep) == [s]
    decreases |s|
  {
    if |s| > 0 {
      SplitNone(s[1..], sep);
      assert s[0] != sep && s == [s[0]] + s[1..];
    }
  }

  /** Joining two or more parts ends with the separator and the last part. */
  lemma {:induction false} JoinLast(parts: seq<string>, sep: char)
    requires |parts| >= 2
    ensures Join(parts, sep) == Join(parts[..|parts| - 1], sep) + [sep] + parts[|parts| - 1]
    decreases |parts|
  {
    if |parts| > 2 {
      JoinLast(parts[1..], sep);
      assert parts[1..][..|parts| - 2] == parts[..|parts| - 1][1..];
    }
  }

  /** When `s` splits into two or more parts, the last part is the text after the
      last separator. */
  lemma LastPartFollowsLastSeparator(s: string, sep: char)
    requires |Split(s, sep)| >= 2
    ensures sep in s && LastIndexOf(s, sep).Some?
    ensures s[LastIndexOf(s, sep).value + 1..] == Split(s, sep)[|Split(s, sep)| - 1]
    ensures AfterLast(s, sep) == Split(s, sep)[|Split(s, sep)| - 1]
  {
    var parts := Split(s, sep);
    var last := parts[|parts| - 1];
    var front := Join(parts[..|parts| - 1], sep);
    assert s == front + [sep] + last by {
      JoinSplit(s, sep);
      JoinLast(parts, sep);
    }
    assert sep !in last;
    LastIndexOfSeparator(front, sep, last);
    assert s[|front| + 1..] == last;
  }

  /** Whatever holds of the last part holds of the text after the last separator. */
  lemma LastPartHolds(s: string, sep: char, p: string -> bool)
    requires |Split(s, sep)| >= 2 && p(Split(s, sep)[|Split(s, sep)| - 1])
    ensures sep in s && p(AfterLast(s, sep))
  {
    LastPartFollowsLastSeparator(s, sep);
  }

  lemma {:induction false} JoinSplit(s: string, sep: char)
    ensures Join(Split(s, sep), sep) == s
    decreases |s|
  {
    if |s| > 0 {
      JoinSplit(s[1..], sep);
      var rest := Split(s[1..], sep);
      if s[0] != sep && |rest| > 1 {
        assert rest == [rest[0]] + rest[1..];
      }
    }
  }

  lemma {:induction false} SplitJoin(parts: seq<string>, sep: char)
    requires |parts| >= 1
    requires forall k :: 0 <= k < |parts| ==> sep !in parts[k]
    ensures Split(Join(parts, sep), sep) == parts
    decreases |parts|, |parts[0]|
  {
    if |parts[0]| > 0 {
      var p0 := parts[0];
      var tail := [p0[1..]] + parts[1..];
      SplitJoin(tail, sep);
      var j := Join(parts, sep);
      if |parts| == 1 {
        assert j[1..] == Join(tail, sep);
      } else {
        assert j[1..] == p0[1..] + [sep] + Join(parts[1..], sep);
        assert j[1..] == Join(tail, sep);
      }
      assert j[0] == p0[0] && p0 == [p0[0]] + p0[1..];
    } else if |parts| > 1 {
      SplitJoin(parts[1..], sep);
      var j := Join(parts, sep);
      assert j == [sep] + Join(parts[1..], sep);
      assert j[1..] == Join(parts[1..], sep);
    }
  }

  /** ASCII lower-casing of one character. */
  function LowerChar(c: char): char {
    if 'A' <= c <= 'Z' then (c as int + 32) as char else c
  }

  /** Lower-casing of a string, character by character over the ASCII letters. */
  function Lower(s: string): (r: string)
    ensures |r| == |s|
    ensures forall i :: 0 <= i < |s| ==> r[i] == LowerChar(s[i])
  {
    seq(|s|, i requires 0 <= i < |s| => LowerChar(s[i]))
  }

  predicate NoUpper(s: string) {
    forall i :: 0 <= i < |s| ==> !('A' <= s[i] <= 'Z')
  }

  /** Lower-casing removes every upper-case letter, leaves other characters and
      lower-case letters alone, and so is idempotent. */
  lemma LowerIsNormal(s: string)
    ensures NoUpper(Lower(s))
    ensures Lower(Lower(s)) == Lower(s)
    ensures NoUpper(s) ==> Lower(s) == s
  {
  }
}
