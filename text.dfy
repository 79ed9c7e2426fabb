/** Text helpers the emitters share: decimal rendering of integers as the C
    library prints them, joining with a separator, prefixes, and the parsers
    that read rendered text back. */
module Text {
  import opened TypeModel

  predicate IsDigit(c: char) {
    '0' <= c <= '9'
  }

  predicate AllDigits(s: string) {
    forall i :: 0 <= i < |s| ==> IsDigit(s[i])
  }

  function DigitChar(d: nat): (c: char)
    requires d < 10
    ensures IsDigit(c)
  {
    "0123456789"[d]
  }

  function DigitValue(c: char): (d: nat)
    requires IsDigit(c)
    ensures d < 10
  {
    (c as int - '0' as int) as nat
  }

  /** Decimal digits of `n`, without leading zeros (`to_string`, `%d`). */
  function NatString(n: nat): (s: string)
    ensures |s| > 0 && AllDigits(s)
    ensures s[0] == '0' <==> n == 0
    ensures |s| > 1 ==> s[0] != '0'
  {
    if n < 10 then [DigitChar(n)] else NatString(n / 10) + [DigitChar(n % 10)]
  }

  /** The value of a non-empty string of decimal digits. */
  function ParseNat(s: string): nat
    requires |s| > 0 && AllDigits(s)
  {
    if |s| == 1 then DigitValue(s[0])
    else ParseNat(s[..|s| - 1]) * 10 + DigitValue(s[|s| - 1])
  }

  lemma {:induction false} NatStringRoundTrip(n: nat)
    ensures ParseNat(NatString(n)) == n
  {
    if n >= 10 {
      var s := NatString(n);
      assert s[..|s| - 1] == NatString(n / 10);
      NatStringRoundTrip(n / 10);
    }
  }

  lemma NatStringInjective(m: nat, n: nat)
    requires NatString(m) == NatString(n)
    ensures m == n
  {
    NatStringRoundTrip(m);
    NatStringRoundTrip(n);
  }

  /** `%" PRId64 "` applied to an unsigned 64-bit value: its signed reading,
      with a leading '-' when negative. */
  function Int64String(v: UInt64): (s: string)
    ensures |s| > 0
  {
    var i := AsInt64(v);
    if i < 0 then "-" + NatString(-i) else NatString(i)
  }

  /** Reads an optionally negative decimal integer. */
  function ParseInt(s: string): Option<int> {
    if |s| > 1 && s[0] == '-' && AllDigits(s[1..]) then Some(-(ParseNat(s[1..]) as int))
    else if |s| > 0 && AllDigits(s) then Some(ParseNat(s))
    else None
  }

  lemma Int64StringRoundTrip(v: UInt64)
    ensures ParseInt(Int64String(v)) == Some(AsInt64(v))
    ensures forall i :: 0 <= i < |Int64String(v)| ==> Int64String(v)[i] == '-' || IsDigit(Int64String(v)[i])
  {
    var i := AsInt64(v);
    if i < 0 {
      var s := Int64String(v);
      assert s[1..] == NatString(-i);
      NatStringRoundTrip(-i);
    } else {
      NatStringRoundTrip(i);
    }
  }

  /** Regrouping a concatenation, stated once so that proofs about long
      texts need not rediscover it element by element. */
  lemma ConcatAssoc(x: string, y: string, z: string)
    ensures x + y + z == x + (y + z)
  {
  }

  predicate StartsWith(s: string, prefix: string) {
    |prefix| <= |s| && s[..|prefix|] == prefix
  }

  /** `parts` joined by `sep`, with the separator only between parts. */
  function Join(sep: string, parts: seq<string>): string {
    if |parts| == 0 then ""
    else if |parts| == 1 then parts[0]
    else Join(sep, parts[..|parts| - 1]) + sep + parts[|parts| - 1]
  }

  /** The printable form of a qualified name: its segments joined by "::". */
  function NameString(q: QName): string {
    Join("::", q)
  }

  /** `init`, then every part followed by `sep`, the last one included:
      text built by appending one part and one separator at a time. */
  function Terminated(init: string, sep: string, parts: seq<string>): string {
    if parts == [] then init else Terminated(init, sep, parts[..|parts| - 1]) + parts[|parts| - 1] + sep
  }

  lemma {:induction false} TerminatedIsJoinThenSep(init: string, sep: string, parts: seq<string>)
    requires |parts| > 0
    ensures Terminated(init, sep, parts) == init + Join(sep, parts) + sep
  {
    if |parts| > 1 {
      var front := parts[..|parts| - 1];
      TerminatedIsJoinThenSep(init, sep, front);
      var last := parts[|parts| - 1];
      calc {
        Terminated(init, sep, parts);
        Terminated(init, sep, front) + last + sep;
        init + Join(sep, front) + sep + last + sep;
        init + (Join(sep, front) + sep + last) + sep;
        init + Join(sep, parts) + sep;
      }
    } else {
      assert parts[..0] == [];
    }
  }

  /** Appending the next part and a separator extends the text by one part. */
  lemma TerminatedStep(init: string, sep: string, parts: seq<string>, k: nat)
    requires k < |parts|
    ensures Terminated(init, sep, parts[..k]) + parts[k] + sep == Terminated(init, sep, parts[..k + 1])
  {
    assert parts[..k + 1][..k] == parts[..k];
  }

  /** Cutting the final separator off text built part by part leaves the
      parts joined. */
  lemma TrimSeparator(init: string, sep: string, parts: seq<string>)
    requires |parts| > 0
    ensures var t := Terminated(init, sep, parts);
      |t| >= |sep| && t[..|t| - |sep|] == init + Join(sep, parts)
  {
    TerminatedIsJoinThenSep(init, sep, parts);
    var t := Terminated(init, sep, parts);
    assert t[..|t| - |sep|] == (init + Join(sep, parts) + sep)[..|init + Join(sep, parts)|];
  }

  /** Index of the first `c` in `s`, or |s| when there is none. */
  function IndexOf(s: string, c: char): (k: nat)
    ensures k <= |s|
    ensures k < |s| ==> s[k] == c
  {
    if s == [] then 0 else if s[0] == c then 0 else 1 + IndexOf(s[1..], c)
  }

  /** Without `c`, the search runs off the end. */
  lemma {:induction false} IndexOfAbsent(s: string, c: char)
    requires c !in s
    ensures IndexOf(s, c) == |s|
    decreases |s|
  {
    if s != [] {
      IndexOfAbsent(s[1..], c);
    }
  }

  /** The search stops at the first `c`. */
  lemma {:induction false} IndexOfAfter(a: string, c: char, b: string)
    requires c !in a
    ensures IndexOf(a + [c] + b, c) == |a|
    decreases |a|
  {
    if a == [] {
      assert (a + [c] + b)[0] == c;
    } else {
      assert (a + [c] + b)[1..] == a[1..] + [c] + b;
      IndexOfAfter(a[1..], c, b);
    }
  }

  lemma {:induction false} JoinFront(sep: string, a: string, rest: seq<string>)
    requires |rest| > 0
    ensures Join(sep, [a] + rest) == a + sep + Join(sep, rest)
    decreases |rest|
  {
    var parts := [a] + rest;
    if |rest| == 1 {
      assert parts[..1] == [a];
    } else {
      assert parts[..|parts| - 1] == [a] + rest[..|rest| - 1];
      JoinFront(sep, a, rest[..|rest| - 1]);
    }
  }

  /** The pieces of a list written as `p0, p1, ...`: cut at every comma,
      skipping the comma and the blank after it. */
  function SplitList(s: string): seq<string>
    decreases |s|
  {
    var k := IndexOf(s, ',');
    if k + 2 <= |s| then [s[..k]] + SplitList(s[k + 2..]) else [s[..k]]
  }

  /** Joining comma-free pieces with ", " and splitting the result gives the
      pieces back, in order. */
  lemma {:induction false} JoinSplitRoundTrip(parts: seq<string>)
    requires |parts| > 0
    requires forall i :: 0 <= i < |parts| ==> ',' !in parts[i]
    ensures SplitList(Join(", ", parts)) == parts
    decreases |parts|
  {
    if |parts| == 1 {
      IndexOfAbsent(parts[0], ',');
      assert Join(", ", parts) == parts[0];
      assert parts[0][..|parts[0]|] == parts[0];
      assert SplitList(parts[0]) == [parts[0]];
    } else {
      var rest := parts[1..];
      assert parts == [parts[0]] + rest;
      JoinFront(", ", parts[0], rest);
      var tail := " " + Join(", ", rest);
      assert Join(", ", parts) == parts[0] + [','] + tail;
      IndexOfAfter(parts[0], ',', tail);
      var s := Join(", ", parts);
      assert s[..|parts[0]|] == parts[0];
      assert s[|parts[0]| + 2..] == Join(", ", rest);
      JoinSplitRoundTrip(rest);
    }
  }
}
