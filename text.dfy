/**
 * The string operations of Python that the notebook converter relies on:
 * `in`, `str.split`/`str.rsplit` without a limit, `str.split(sep, 1)`,
 * `str.replace`, `str.strip(chars)`, `str.lstrip()`, `str(n)` and `f"{n:04d}"`.
 * Strings are sequences of Unicode scalar values; a Python `str` may also hold lone surrogates,
 * which this model does not represent.
 */
module Text {
  import opened Wrappers

  /** `t` occurs in `s` at index `i`. */
  predicate OccursAt(s: string, t: string, i: int) {
    0 <= i <= |s| && t <= s[i..]
  }

  lemma OccursAtTail(s: string, t: string, i: int)
    requires |s| > 0 && i >= 0
    ensures OccursAt(s[1..], t, i) <==> OccursAt(s, t, i + 1)
  {
    if 0 <= i <= |s| - 1 {
      assert s[1..][i..] == s[i + 1..];
    }
  }

  /** The index of the first occurrence of `t` in `s`, as `str.find` gives it. */
  function IndexOf(s: string, t: string): (r: Option<nat>)
    ensures r.Some? ==> OccursAt(s, t, r.value)
    ensures r.Some? ==> forall i :: 0 <= i < r.value ==> !OccursAt(s, t, i)
    ensures r.None? ==> forall i :: !OccursAt(s, t, i)
    decreases |s|
  {
    if t <= s then Some(0)
    else if |s| == 0 then None
    else
      var r := IndexOf(s[1..], t);
      assert forall i :: 0 <= i ==> (OccursAt(s[1..], t, i) <==> OccursAt(s, t, i + 1)) by {
        forall i | 0 <= i { OccursAtTail(s, t, i); }
      }
      assert forall i :: OccursAt(s, t, i) ==> i == 0 || OccursAt(s[1..], t, i - 1) by {
        forall i | OccursAt(s, t, i) && i != 0 { OccursAtTail(s, t, i - 1); }
      }
      match r
      case None => None
      case Some(i) => Some(i + 1)
  }

  /** Python's `t in s`. */
  predicate Contains(s: string, t: string)
    decreases |s|
  {
    t <= s || (|s| > 0 && Contains(s[1..], t))
  }

  /** `in` holds exactly when the search finds an index. */
  lemma {:induction false} ContainsIndexOf(s: string, t: string)
    ensures Contains(s, t) <==> IndexOf(s, t).Some?
    decreases |s|
  {
    if !(t <= s) && |s| > 0 {
      ContainsIndexOf(s[1..], t);
    }
  }

  /** `str.split(sep)`. Without a limit, `str.rsplit(sep)` gives the same pieces whenever the
      occurrences of `sep` cannot overlap, i.e. no proper prefix of `sep` is also a suffix of it
      (true of `## @answer\n`); for a separator like "aa" the two differ. */
  function Split(s: string, sep: string): (parts: seq<string>)
    requires sep != []
    ensures |parts| >= 1
    decreases |s|
  {
    match IndexOf(s, sep)
    case None => [s]
    case Some(i) => [s[..i]] + Split(s[i + |sep|..], sep)
  }

  /** `sep.join(parts)`. */
  function Join(parts: seq<string>, sep: string): string {
    if |parts| == 0 then ""
    else if |parts| == 1 then parts[0]
    else parts[0] + sep + Join(parts[1..], sep)
  }

  /** `s.replace(pattern, replacement)`: every non-overlapping occurrence, left to right. */
  function Replace(s: string, pattern: string, replacement: string): string
    requires pattern != []
  {
    Join(Split(s, pattern), replacement)
  }

  /** The text after the first `sep`, i.e. `s.split(sep, 1)[1]`, absent when `sep` does not occur. */
  function After(s: string, sep: string): (r: Option<string>)
    ensures r.Some? <==> Contains(s, sep)
  {
    ContainsIndexOf(s, sep);
    match IndexOf(s, sep)
    case None => None
    case Some(i) => Some(s[i + |sep|..])
  }

  /** Where the longest prefix made of characters in `drop` ends (see `LeadEndSpec`). */
  function LeadEnd(s: string, drop: set<char>): (n: nat)
    ensures n <= |s|
    decreases |s|
  {
    if |s| > 0 && s[0] in drop then 1 + LeadEnd(s[1..], drop) else 0
  }

  /** Where the longest suffix made of characters in `drop` starts (see `TrailStartSpec`). */
  function TrailStart(s: string, drop: set<char>): (n: nat)
    ensures n <= |s|
    decreases |s|
  {
    if |s| > 0 && s[|s| - 1] in drop then TrailStart(s[..|s| - 1], drop) else |s|
  }

  /** Every character before `LeadEnd` is in `drop`, and the one at `LeadEnd` is not. */
  lemma {:induction false} LeadEndSpec(s: string, drop: set<char>)
    ensures forall k :: 0 <= k < LeadEnd(s, drop) ==> s[k] in drop
    ensures LeadEnd(s, drop) < |s| ==> s[LeadEnd(s, drop)] !in drop
    decreases |s|
  {
    if |s| > 0 && s[0] in drop {
      var t := s[1..];
      LeadEndSpec(t, drop);
      forall k | 1 <= k < LeadEnd(s, drop) ensures s[k] in drop {
        assert s[k] == t[k - 1];
      }
      if LeadEnd(s, drop) < |s| {
        assert s[LeadEnd(s, drop)] == t[LeadEnd(t, drop)];
      }
    }
  }

  /** Every character from `TrailStart` on is in `drop`, and the one before it is not. */
  lemma {:induction false} TrailStartSpec(s: string, drop: set<char>)
    ensures forall k :: TrailStart(s, drop) <= k < |s| ==> s[k] in drop
    ensures 0 < TrailStart(s, drop) ==> s[TrailStart(s, drop) - 1] !in drop
    decreases |s|
  {
    if |s| > 0 && s[|s| - 1] in drop {
      var t := s[..|s| - 1];
      TrailStartSpec(t, drop);
      forall k | TrailStart(s, drop) <= k < |s| - 1 ensures s[k] in drop {
        assert s[k] == t[k];
      }
      if 0 < TrailStart(s, drop) {
        assert s[TrailStart(s, drop) - 1] == t[TrailStart(t, drop) - 1];
      }
    }
  }

  /** `s.lstrip(chars)`. */
  function LStrip(s: string, drop: set<char>): string {
    s[LeadEnd(s, drop)..]
  }

  /** `s.rstrip(chars)`. */
  function RStrip(s: string, drop: set<char>): string {
    s[..TrailStart(s, drop)]
  }

  /** `s.strip(chars)`: both ends; `chars` is a set of characters, not a prefix. */
  function Strip(s: string, drop: set<char>): string {
    RStrip(LStrip(s, drop), drop)
  }

  /** The characters for which Python's `str.isspace()` holds: what `lstrip()` removes. */
  const Whitespace: set<char> := {
    '\t', '\n', '\U{0b}', '\U{0c}', '\r', '\U{1c}', '\U{1d}', '\U{1e}', '\U{1f}', ' ',
    '\U{85}', '\U{a0}', '\U{1680}', '\U{2000}', '\U{2001}', '\U{2002}', '\U{2003}',
    '\U{2004}', '\U{2005}', '\U{2006}', '\U{2007}', '\U{2008}', '\U{2009}', '\U{200a}',
    '\U{2028}', '\U{2029}', '\U{202f}', '\U{205f}', '\U{3000}'
  }

  // ---------------------------------------------------------------- numbers

  predicate IsDigit(c: char) {
    '0' <= c <= '9'
  }

  predicate AllDigits(s: string) {
    forall i :: 0 <= i < |s| ==> IsDigit(s[i])
  }

  function DigitChar(d: nat): (c: char)
    requires d < 10
    ensures IsDigit(c) && c as int - '0' as int == d
  {
    (d + '0' as int) as char
  }

  /** `str(n)` for a non-negative integer: decimal, no leading zero. */
  function Decimal(n: nat): (r: string)
    ensures |r| >= 1 && AllDigits(r)
    ensures |r| > 1 ==> r[0] != '0'
    ensures n < 10 <==> |r| == 1
  {
    if n < 10 then [DigitChar(n)] else Decimal(n / 10) + [DigitChar(n % 10)]
  }

  function Zeros(k: nat): (r: string)
    ensures |r| == k && AllDigits(r)
  {
    if k == 0 then "" else "0" + Zeros(k - 1)
  }

  /** `f"{n:04d}"`: decimal, left-padded with zeros to at least four characters. */
  function Pad4(n: nat): (r: string)
    ensures AllDigits(r) && |r| >= 4
  {
    var d := Decimal(n);
    if |d| < 4 then Zeros(4 - |d|) + d else d
  }

  /** The number a string of decimal digits denotes (what `int(s)` gives back). */
  function ValueOf(s: string): nat
    requires AllDigits(s)
  {
    if s == [] then 0 else 10 * ValueOf(s[..|s| - 1]) + (s[|s| - 1] as int - '0' as int)
  }

  // ---------------------------------------------------------------- lemmas

  /** `in` is the existence of an occurrence. */
  lemma ContainsIff(s: string, t: string)
    ensures Contains(s, t) <==> exists i :: OccursAt(s, t, i)
  {
    ContainsIndexOf(s, t);
    if Contains(s, t) {
      assert OccursAt(s, t, IndexOf(s, t).value);
    }
  }

  /** The search finds the first occurrence. */
  lemma IndexOfFirst(s: string, t: string, i: nat)
    requires OccursAt(s, t, i) && forall k :: 0 <= k < i ==> !OccursAt(s, t, k)
    ensures IndexOf(s, t) == Some(i)
  {
  }

  /** `s.split(sep, 1)[1]` is the text after the first occurrence of `sep`. */
  lemma AfterFirst(s: string, sep: string, i: nat)
    requires OccursAt(s, sep, i) && forall k :: 0 <= k < i ==> !OccursAt(s, sep, k)
    ensures After(s, sep) == Some(s[i + |sep|..])
  {
    IndexOfFirst(s, sep, i);
  }

  /** A prefix that ends before the first occurrence of `t` does not contain `t`. */
  lemma PrefixBeforeFirst(s: string, t: string, i: nat)
    requires t != [] && i <= |s|
    requires forall j :: 0 <= j < i ==> !OccursAt(s, t, j)
    ensures !Contains(s[..i], t)
  {
    ContainsIndexOf(s[..i], t);
    if Contains(s[..i], t) {
      var j := IndexOf(s[..i], t).value;
      assert t <= s[..i][j..];
      assert s[..i][j..] <= s[j..];
      assert OccursAt(s, t, j);
    }
  }

  /** Splitting and joining again with the same separator gives the string back. */
  lemma {:induction false} SplitJoin(s: string, sep: string)
    requires sep != []
    ensures Join(Split(s, sep), sep) == s
    decreases |s|
  {
    var found := IndexOf(s, sep);
    if found.Some? {
      var i := found.value;
      var rest := s[i + |sep|..];
      var tail := Split(rest, sep);
      SplitJoin(rest, sep);
      var parts := Split(s, sep);
      assert parts == [s[..i]] + tail;
      assert parts[1..] == tail;
      calc {
        Join(parts, sep);
        s[..i] + sep + Join(tail, sep);
        s[..i] + sep + rest;
        { assert sep <= s[i..]; assert s[i..] == s[i..i + |sep|] + rest; }
        s;
      }
    }
  }

  /** No piece of a split contains the separator. */
  lemma {:induction false} SplitPiecesFree(s: string, sep: string)
    requires sep != []
    ensures forall k :: 0 <= k < |Split(s, sep)| ==> !Contains(Split(s, sep)[k], sep)
    decreases |s|
  {
    match IndexOf(s, sep)
    case None => ContainsIndexOf(s, sep);
    case Some(i) =>
      var rest := s[i + |sep|..];
      var parts, tail := Split(s, sep), Split(rest, sep);
      SplitPiecesFree(rest, sep);
      PrefixBeforeFirst(s, sep, i);
      assert parts == [s[..i]] + tail;
      forall k | 0 <= k < |parts| ensures !Contains(parts[k], sep) {
        if k > 0 {
          assert parts[k] == tail[k - 1];
        }
      }
  }

  /** The split has more than one piece exactly when the separator occurs. */
  lemma SplitSeveral(s: string, sep: string)
    requires sep != []
    ensures |Split(s, sep)| > 1 <==> Contains(s, sep)
  {
    ContainsIndexOf(s, sep);
  }

  /** The first piece is the text before the first occurrence (all of `s` when there is none). */
  lemma SplitFirst(s: string, sep: string)
    requires sep != []
    ensures Contains(s, sep) <==> IndexOf(s, sep).Some?
    ensures Split(s, sep)[0] == if IndexOf(s, sep).Some? then s[..IndexOf(s, sep).value] else s
  {
    ContainsIndexOf(s, sep);
  }

  /** With the first occurrence at `i`, the first piece is the text before it and the second
      the text from there up to the next occurrence, or to the end when there is none. */
  lemma SplitSecond(s: string, sep: string, i: nat)
    requires sep != [] && OccursAt(s, sep, i)
    requires forall k :: 0 <= k < i ==> !OccursAt(s, sep, k)
    ensures var rest := s[i + |sep|..];
      && |Split(s, sep)| > 1 && Split(s, sep)[0] == s[..i]
      && Split(s, sep)[1] == match IndexOf(rest, sep) case Some(j) => rest[..j] case None => rest
  {
    IndexOfFirst(s, sep, i);
    SplitAt(s, sep, i);
    SplitFirst(s[i + |sep|..], sep);
  }

  /** Splitting at the first occurrence: its prefix, then the split of what follows it. */
  lemma SplitAt(s: string, sep: string, i: nat)
    requires sep != [] && IndexOf(s, sep) == Some(i)
    ensures Split(s, sep) == [s[..i]] + Split(s[i + |sep|..], sep)
  {
  }

  /** What `strip` leaves neither starts nor ends with a character of the set. */
  lemma StripEnds(s: string, drop: set<char>)
    ensures var r := Strip(s, drop); r == [] || (r[0] !in drop && r[|r| - 1] !in drop)
  {
    var i := LeadEnd(s, drop);
    var l := s[i..];
    var n := TrailStart(l, drop);
    LeadEndSpec(s, drop);
    TrailStartSpec(l, drop);
    if n > 0 {
      assert l[0] == s[i];
    }
  }

  /** `strip` removes exactly a prefix and a suffix made of characters of the set, up to the
      first and from the last character outside it: `s[i..j]` is the result whenever `i` and
      `j` are such bounds. */
  lemma StripAt(s: string, drop: set<char>, i: nat, j: nat)
    requires i <= j <= |s|
    requires forall k :: 0 <= k < i ==> s[k] in drop
    requires forall k :: j <= k < |s| ==> s[k] in drop
    requires i < j ==> s[i] !in drop && s[j - 1] !in drop
    ensures Strip(s, drop) == s[i..j]
  {
    if i == j {
      LeadEndAt(s, drop, |s|);
    } else {
      LeadEndAt(s, drop, i);
      var l := s[i..];
      forall k | j - i <= k < |l| ensures l[k] in drop {
        assert l[k] == s[k + i];
      }
      TrailStartAt(l, drop, j - i);
      assert l[..j - i] == s[i..j];
    }
  }

  /** The prefix `strip` removes is determined by where its characters stop. */
  lemma LeadEndAt(s: string, drop: set<char>, n: nat)
    requires n <= |s| && (forall k :: 0 <= k < n ==> s[k] in drop) && (n < |s| ==> s[n] !in drop)
    ensures LeadEnd(s, drop) == n
  {
    LeadEndSpec(s, drop);
  }

  /** The suffix `strip` removes is determined by where its characters start. */
  lemma TrailStartAt(s: string, drop: set<char>, n: nat)
    requires n <= |s| && (forall k :: n <= k < |s| ==> s[k] in drop) && (0 < n ==> s[n - 1] !in drop)
    ensures TrailStart(s, drop) == n
  {
    TrailStartSpec(s, drop);
  }

  lemma {:induction false} DecimalRoundTrip(n: nat)
    ensures ValueOf(Decimal(n)) == n
  {
    if n >= 10 {
      DecimalRoundTrip(n / 10);
      var d := Decimal(n);
      assert d[..|d| - 1] == Decimal(n / 10);
    }
  }

  /** Leading zeros do not change the value. */
  lemma {:induction false} ZerosValue(k: nat, s: string)
    requires AllDigits(s)
    ensures AllDigits(Zeros(k) + s) && ValueOf(Zeros(k) + s) == ValueOf(s)
    decreases |s|
  {
    var z := Zeros(k) + s;
    if s == [] {
      ZerosValueAlone(k);
      assert z == Zeros(k);
    } else {
      ZerosValue(k, s[..|s| - 1]);
      assert z[..|z| - 1] == Zeros(k) + s[..|s| - 1];
    }
  }

  lemma {:induction false} ZerosValueAlone(k: nat)
    ensures ValueOf(Zeros(k)) == 0
  {
    if k > 0 {
      ZerosValueAlone(k - 1);
      var z := Zeros(k);
      ZerosSnoc(k - 1);
      assert z[..|z| - 1] == Zeros(k - 1);
    }
  }

  lemma ZerosSnoc(k: nat)
    ensures Zeros(k + 1) == Zeros(k) + "0"
  {
    if k > 0 { ZerosSnoc(k - 1); }
  }

  /** `f"{n:04d}"` can be read back: the padded form still denotes `n`. */
  lemma Pad4RoundTrip(n: nat)
    ensures ValueOf(Pad4(n)) == n
  {
    DecimalRoundTrip(n);
    var d := Decimal(n);
    if |d| < 4 { ZerosValue(4 - |d|, d); }
  }

  /** Distinct counters give distinct ids. */
  lemma Pad4Injective(m: nat, n: nat)
    ensures Pad4(m) == Pad4(n) <==> m == n
  {
    Pad4RoundTrip(m);
    Pad4RoundTrip(n);
  }
}
