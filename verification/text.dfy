/**
 The string handling the enrichment engine relies on: splitting a record on a
 single-character separator the way Java's `String.split` does, joining with a
 separator, upper-casing input identifiers, and writing counts in decimal.
 Strings are sequences of characters.
 */
module Text {

  /** The pieces of `s` between occurrences of `sep`, empty pieces included. */
  function SplitAll(s: string, sep: char): (parts: seq<string>)
    ensures |parts| >= 1
    ensures forall i :: 0 <= i < |parts| ==> sep !in parts[i]
    decreases |s|
  {
    if |s| == 0 then [""]
    else
      var rest := SplitAll(s[1..], sep);
      if s[0] == sep then [""] + rest
      else [[s[0]] + rest[0]] + rest[1..]
  }

  /** The parts, with one `sep` between consecutive parts and none at either end. */
  function JoinWith(parts: seq<string>, sep: char): string
  {
    if |parts| == 0 then ""
    else if |parts| == 1 then parts[0]
    else parts[0] + [sep] + JoinWith(parts[1..], sep)
  }

  /** Removes the run of empty strings at the end of `parts`. */
  function DropTrailingEmpty(parts: seq<string>): (r: seq<string>)
    ensures |r| <= |parts| && r == parts[..|r|]
    ensures |r| == 0 || r[|r| - 1] != ""
    ensures forall i :: |r| <= i < |parts| ==> parts[i] == ""
  {
    if |parts| > 0 && parts[|parts| - 1] == "" then DropTrailingEmpty(parts[..|parts| - 1])
    else parts
  }

  /**
   Java's `s.split(sep)` for a one-character literal pattern: when the separator
   does not occur the result is `[s]`; otherwise the pieces between separators,
   leading empty pieces kept and trailing empty pieces removed.
   */
  function JavaSplit(s: string, sep: char): (fields: seq<string>)
    ensures forall i :: 0 <= i < |fields| ==> sep !in fields[i]
    ensures sep !in s ==> fields == [s]
    ensures sep in s ==> |fields| <= |SplitAll(s, sep)| && fields == SplitAll(s, sep)[..|fields|]
    ensures sep in s ==> forall i :: |fields| <= i < |SplitAll(s, sep)| ==> SplitAll(s, sep)[i] == ""
    ensures sep in s ==> |fields| == 0 || fields[|fields| - 1] != ""
  {
    if sep !in s then [s] else DropTrailingEmpty(SplitAll(s, sep))
  }

  lemma {:induction false} JoinConsFirst(c: char, p: string, tail: seq<string>, sep: char)
    ensures JoinWith([[c] + p] + tail, sep) == [c] + JoinWith([p] + tail, sep)
  {
    if |tail| == 0 {
      assert [[c] + p] + tail == [[c] + p];
      assert [p] + tail == [p];
    } else {
      assert ([[c] + p] + tail)[1..] == tail;
      assert ([p] + tail)[1..] == tail;
    }
  }

  /** Splitting and then joining with the same separator gives back the string. */
  lemma {:induction false} JoinSplitAll(s: string, sep: char)
    ensures JoinWith(SplitAll(s, sep), sep) == s
    decreases |s|
  {
    if |s| > 0 {
      var rest := SplitAll(s[1..], sep);
      JoinSplitAll(s[1..], sep);
      if s[0] == sep {
        assert ([""] + rest)[1..] == rest;
        assert JoinWith([""] + rest, sep) == "" + [sep] + JoinWith(rest, sep);
        assert [s[0]] + s[1..] == s;
      } else {
        assert [rest[0]] + rest[1..] == rest;
        JoinConsFirst(s[0], rest[0], rest[1..], sep);
        assert [s[0]] + s[1..] == s;
      }
    }
  }

  lemma {:induction false} SplitAllWithout(p: string, sep: char)
    requires sep !in p
    ensures SplitAll(p, sep) == [p]
    decreases |p|
  {
    if |p| > 0 {
      SplitAllWithout(p[1..], sep);
      assert [p[0]] + p[1..] == p;
    }
  }

  lemma {:induction false} SplitAllPrefix(p: string, t: string, sep: char)
    requires sep !in p
    ensures SplitAll(p + [sep] + t, sep) == [p] + SplitAll(t, sep)
    decreases |p|
  {
    var s := p + [sep] + t;
    if |p| == 0 {
      assert s[1..] == t;
    } else {
      assert s[1..] == p[1..] + [sep] + t;
      SplitAllPrefix(p[1..], t, sep);
      assert [p[0]] + p[1..] == p;
    }
  }

  /** Joining separator-free parts and splitting again gives back the parts. */
  lemma {:induction false} SplitAllJoin(parts: seq<string>, sep: char)
    requires |parts| >= 1
    requires forall i :: 0 <= i < |parts| ==> sep !in parts[i]
    ensures SplitAll(JoinWith(parts, sep), sep) == parts
    decreases |parts|
  {
    if |parts| == 1 {
      SplitAllWithout(parts[0], sep);
    } else {
      SplitAllJoin(parts[1..], sep);
      SplitAllPrefix(parts[0], JoinWith(parts[1..], sep), sep);
      assert [parts[0]] + parts[1..] == parts;
    }
  }

  /** Java's `Character.toUpperCase` restricted to the ASCII letters. */
  function UpperChar(c: char): (u: char)
    ensures !('a' <= u <= 'z')
    ensures 'A' <= c <= 'Z' || !('a' <= c <= 'z') ==> u == c
    ensures 'a' <= c <= 'z' ==> u as int == c as int - 32
  {
    if 'a' <= c <= 'z' then (c as int - 32) as char else c
  }

  /** `s.toUpperCase()` on ASCII letters; every other character is kept. */
  function ToUpper(s: string): (u: string)
    ensures |u| == |s|
    ensures forall i :: 0 <= i < |s| ==> u[i] == UpperChar(s[i])
  {
    if |s| == 0 then "" else [UpperChar(s[0])] + ToUpper(s[1..])
  }

  /** Upper-casing twice is upper-casing once. */
  lemma ToUpperIdempotent(s: string)
    ensures ToUpper(ToUpper(s)) == ToUpper(s)
  {
  }

  lemma UpperCharIgnoresCase(c: char, d: char)
    requires || c == d
             || ('a' <= c <= 'z' && d as int == c as int - 32)
             || ('a' <= d <= 'z' && c as int == d as int - 32)
    ensures UpperChar(c) == UpperChar(d)
  {
    if 'a' <= c <= 'z' && d as int == c as int - 32 {
      assert 'A' <= d <= 'Z';
      assert UpperChar(c) as int == d as int;
    } else if 'a' <= d <= 'z' && c as int == d as int - 32 {
      assert 'A' <= c <= 'Z';
      assert UpperChar(d) as int == c as int;
    }
  }

  /** Two identifiers that differ only in ASCII letter case upper-case alike. */
  lemma ToUpperIgnoresCase(s: string, t: string)
    requires |s| == |t|
    requires forall i :: 0 <= i < |s| ==>
               || s[i] == t[i]
               || ('a' <= s[i] <= 'z' && t[i] as int == s[i] as int - 32)
               || ('a' <= t[i] <= 'z' && s[i] as int == t[i] as int - 32)
    ensures ToUpper(s) == ToUpper(t)
  {
    forall i | 0 <= i < |s|
      ensures ToUpper(s)[i] == ToUpper(t)[i]
    {
      UpperCharIgnoresCase(s[i], t[i]);
    }
  }

  predicate IsDigit(c: char) { '0' <= c <= '9' }

  function DigitValue(c: char): (d: nat)
    requires IsDigit(c)
    ensures d < 10
  {
    c as int - '0' as int
  }

  function DigitChar(d: nat): (c: char)
    requires d < 10
    ensures IsDigit(c) && DigitValue(c) == d
  {
    ('0' as int + d) as char
  }

  /** The decimal form of `n` that `StringBuilder.append(int)` writes, no sign, no leading zeros. */
  function NatToString(n: nat): (s: string)
    ensures |s| >= 1
    ensures forall i :: 0 <= i < |s| ==> IsDigit(s[i])
    ensures |s| > 1 ==> s[0] != '0'
  {
    if n < 10 then [DigitChar(n)] else NatToString(n / 10) + [DigitChar(n % 10)]
  }

  /** The value of a string of decimal digits. */
  function DigitsValue(s: string): nat
    requires forall i :: 0 <= i < |s| ==> IsDigit(s[i])
  {
    if |s| == 0 then 0 else 10 * DigitsValue(s[..|s| - 1]) + DigitValue(s[|s| - 1])
  }

  /** Reading back what `NatToString` wrote gives the number. */
  lemma {:induction false} NatToStringRoundTrip(n: nat)
    ensures DigitsValue(NatToString(n)) == n
  {
    if n >= 10 {
      NatToStringRoundTrip(n / 10);
      var s := NatToString(n);
      assert s[..|s| - 1] == NatToString(n / 10);
    }
  }
}
