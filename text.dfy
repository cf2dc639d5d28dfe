/**
 * String operations of Rust's standard library that the modelled code calls:
 * `str::find`, `str::contains`, `str::trim`, `str::lines`, `ends_with`,
 * `[T]::join`, and decimal formatting of an unsigned integer.
 *
 * Strings are sequences of Unicode scalar values, so a length here is a
 * number of characters (Rust counts UTF-8 bytes; the two agree on ASCII).
 */
module Text {
  import opened Common

  // ---------------------------------------------------------------------
  // Substring search (`str::find`, `str::contains`)
  // ---------------------------------------------------------------------

  /** `pat` occurs in `s` starting at index `i`. */
  predicate OccursAt(s: string, pat: string, i: nat) {
    i + |pat| <= |s| && s[i..i + |pat|] == pat
  }

  predicate Contains(s: string, pat: string) {
    exists i: nat :: i <= |s| && OccursAt(s, pat, i)
  }

  /** First occurrence of `pat` in `s` at or after `k`. */
  function FindFrom(s: string, pat: string, k: nat): (r: Option<nat>)
    requires k <= |s|
    ensures r.Some? ==> k <= r.value <= |s| && OccursAt(s, pat, r.value)
    ensures r.Some? ==> forall j: nat :: k <= j < r.value ==> !OccursAt(s, pat, j)
    ensures r.None? ==> forall j: nat :: k <= j ==> !OccursAt(s, pat, j)
    decreases |s| - k
  {
    if OccursAt(s, pat, k) then Some(k)
    else if k == |s| then None
    else FindFrom(s, pat, k + 1)
  }

  /** `str::find`: the index of the first occurrence of `pat`, if any. */
  function Find(s: string, pat: string): (r: Option<nat>)
    ensures r.Some? ==> r.value <= |s| && OccursAt(s, pat, r.value)
    ensures r.Some? ==> forall j: nat :: j < r.value ==> !OccursAt(s, pat, j)
    ensures r.None? <==> !Contains(s, pat)
  {
    FindFrom(s, pat, 0)
  }

  lemma OccursInLeft(a: string, b: string, pat: string, i: nat)
    requires OccursAt(a, pat, i)
    ensures OccursAt(a + b, pat, i)
  {
    assert (a + b)[i..i + |pat|] == a[i..i + |pat|];
  }

  lemma OccursWithinLeft(a: string, b: string, pat: string, i: nat)
    ensures i + |pat| <= |a| ==> (OccursAt(a + b, pat, i) <==> OccursAt(a, pat, i))
  {
    if i + |pat| <= |a| {
      assert (a + b)[i..i + |pat|] == a[i..i + |pat|];
    }
  }

  lemma OccursInRight(a: string, b: string, pat: string, j: nat)
    ensures OccursAt(a + b, pat, |a| + j) <==> OccursAt(b, pat, j)
  {
    if |a| + j + |pat| <= |a + b| {
      assert (a + b)[|a| + j..|a| + j + |pat|] == b[j..j + |pat|];
    }
  }

  /** Appending text after a string does not move its first occurrence. */
  lemma FindPrefixStable(a: string, b: string, pat: string)
    requires Find(a, pat).Some?
    ensures Find(a + b, pat) == Find(a, pat)
  {
    var i := Find(a, pat).value;
    OccursInLeft(a, b, pat, i);
    forall j: nat | j < i
      ensures !OccursAt(a + b, pat, j)
    {
      OccursWithinLeft(a, b, pat, j);
    }
  }

  /** When no occurrence starts inside `a`, the first occurrence in `a + b` is that of `b`, shifted. */
  lemma FindAfter(a: string, b: string, pat: string)
    requires forall i: nat :: i < |a| ==> !OccursAt(a + b, pat, i)
    ensures Find(a + b, pat) == (match Find(b, pat)
                                 case None => None
                                 case Some(j) => Some(|a| + j))
  {
    match Find(b, pat)
    case None =>
      forall i: nat
        ensures !OccursAt(a + b, pat, i)
      {
        if i >= |a| {
          OccursInRight(a, b, pat, i - |a|);
        }
      }
    case Some(j) =>
      OccursInRight(a, b, pat, j);
      forall i: nat | i < |a| + j
        ensures !OccursAt(a + b, pat, i)
      {
        if i >= |a| {
          OccursInRight(a, b, pat, i - |a|);
        }
      }
  }

  /** A pattern without a line feed cannot span a line feed of the text. */
  lemma NewlineBarrier(s: string, pat: string, k: nat, i: nat)
    requires '\n' !in pat
    requires k < |s| && s[k] == '\n'
    requires i <= k
    ensures OccursAt(s, pat, i) ==> i + |pat| <= k
  {
  }

  /** The first character of an occurrence (stated without a precondition). */
  lemma FirstCharOf(s: string, pat: string, i: nat)
    ensures OccursAt(s, pat, i) && |pat| > 0 ==> s[i] == pat[0]
  {
    if OccursAt(s, pat, i) && |pat| > 0 {
      assert s[i..i + |pat|][0] == pat[0];
    }
  }

  // ---------------------------------------------------------------------
  // Whitespace and `str::trim`
  // ---------------------------------------------------------------------

  /** `char::is_whitespace`: the Unicode White_Space property. */
  predicate IsWhitespace(c: char) {
    ('\t' <= c <= '\r') || c == ' ' || c == '\U{85}' || c == '\U{A0}' || c == '\U{1680}'
    || ('\U{2000}' <= c <= '\U{200A}') || c == '\U{2028}' || c == '\U{2029}'
    || c == '\U{202F}' || c == '\U{205F}' || c == '\U{3000}'
  }

  predicate AllWhitespace(s: string) {
    forall i :: 0 <= i < |s| ==> IsWhitespace(s[i])
  }

  /** Neither end of `s` is whitespace. */
  predicate IsTrimmed(s: string) {
    s == [] || (!IsWhitespace(s[0]) && !IsWhitespace(s[|s| - 1]))
  }

  function TrimStart(s: string): (r: string)
    ensures |r| <= |s|
    decreases |s|
  {
    if s != [] && IsWhitespace(s[0]) then TrimStart(s[1..]) else s
  }

  function TrimEnd(s: string): (r: string)
    ensures |r| <= |s|
    decreases |s|
  {
    if s != [] && IsWhitespace(s[|s| - 1]) then TrimEnd(s[..|s| - 1]) else s
  }

  /** `trim_start` returns a suffix that does not start with whitespace. */
  lemma {:induction false} TrimStartIsSuffix(s: string)
    ensures TrimStart(s) == s[|s| - |TrimStart(s)|..]
    ensures TrimStart(s) != [] ==> !IsWhitespace(TrimStart(s)[0])
    decreases |s|
  {
    if s != [] && IsWhitespace(s[0]) {
      TrimStartIsSuffix(s[1..]);
      assert s[1..][|s[1..]| - |TrimStart(s)|..] == s[|s| - |TrimStart(s)|..];
    }
  }

  /** `trim_end` returns a prefix that does not end with whitespace. */
  lemma {:induction false} TrimEndIsPrefix(s: string)
    ensures TrimEnd(s) == s[..|TrimEnd(s)|]
    ensures TrimEnd(s) != [] ==> !IsWhitespace(TrimEnd(s)[|TrimEnd(s)| - 1])
    decreases |s|
  {
    if s != [] && IsWhitespace(s[|s| - 1]) {
      TrimEndIsPrefix(s[..|s| - 1]);
      assert s[..|s| - 1][..|TrimEnd(s)|] == s[..|TrimEnd(s)|];
    }
  }

  /** What `trim_start` drops is whitespace. */
  lemma {:induction false} TrimStartDropsWhitespace(s: string)
    ensures AllWhitespace(s[..|s| - |TrimStart(s)|])
    decreases |s|
  {
    if s != [] && IsWhitespace(s[0]) {
      TrimStartDropsWhitespace(s[1..]);
      var k := |s| - |TrimStart(s)|;
      forall i | 0 <= i < k ensures IsWhitespace(s[i]) {
        if i > 0 {
          assert s[1..][..k - 1][i - 1] == s[i];
        }
      }
    }
  }

  /** What `trim_end` drops is whitespace. */
  lemma {:induction false} TrimEndDropsWhitespace(s: string)
    ensures AllWhitespace(s[|TrimEnd(s)|..])
    decreases |s|
  {
    if s != [] && IsWhitespace(s[|s| - 1]) {
      var init := s[..|s| - 1];
      TrimEndDropsWhitespace(init);
      var k := |TrimEnd(s)|;
      forall i | k <= i < |s| ensures IsWhitespace(s[i]) {
        if i < |s| - 1 {
          assert init[k..][i - k] == s[i];
        }
      }
    }
  }

  /** `str::trim`: drops leading and trailing whitespace. */
  function Trim(s: string): (r: string)
    ensures |r| <= |s|
  {
    TrimEnd(TrimStart(s))
  }

  /** Neither end of what `trim` returns is whitespace. */
  lemma TrimIsTrimmed(s: string)
    ensures IsTrimmed(Trim(s))
  {
    var ts := TrimStart(s);
    TrimStartIsSuffix(s);
    TrimEndIsPrefix(ts);
    var t := Trim(s);
    if t != [] {
      assert t[0] == ts[0];
    }
  }

  lemma TrimOfTrimmed(s: string)
    requires IsTrimmed(s)
    ensures Trim(s) == s
  {
  }

  lemma {:induction false} TrimStartSkips(w: string, x: string)
    requires AllWhitespace(w)
    ensures TrimStart(w + x) == TrimStart(x)
    decreases |w|
  {
    if w == [] {
      assert w + x == x;
    } else {
      assert (w + x)[1..] == w[1..] + x;
      TrimStartSkips(w[1..], x);
    }
  }

  lemma {:induction false} TrimEndSkips(x: string, w: string)
    requires AllWhitespace(w)
    ensures TrimEnd(x + w) == TrimEnd(x)
    decreases |w|
  {
    if w == [] {
      assert x + w == x;
    } else {
      var w' := w[..|w| - 1];
      assert (x + w)[..|x + w| - 1] == x + w';
      TrimEndSkips(x, w');
    }
  }

  lemma {:induction false} TrimWithTrailing(s: string, w: string)
    requires AllWhitespace(w)
    ensures TrimEnd(TrimStart(s + w)) == TrimEnd(TrimStart(s))
    decreases |s|
  {
    if s == [] {
      assert s + w == w + [];
      TrimStartSkips(w, []);
    } else if IsWhitespace(s[0]) {
      assert (s + w)[1..] == s[1..] + w;
      TrimWithTrailing(s[1..], w);
    } else {
      TrimEndSkips(s, w);
    }
  }

  /** Whitespace around a text does not change what `trim` returns. */
  lemma TrimIgnoresPadding(w1: string, s: string, w2: string)
    requires AllWhitespace(w1) && AllWhitespace(w2)
    ensures Trim(w1 + s + w2) == Trim(s)
  {
    var x := s + w2;
    assert w1 + s + w2 == w1 + x;
    TrimStartSkips(w1, x);
    assert TrimStart(w1 + s + w2) == TrimStart(x);
    TrimWithTrailing(s, w2);
  }

  lemma SuffixPrefixSlice(s: string, a: string, b: string)
    requires |a| <= |s| && a == s[|s| - |a|..]
    requires |b| <= |a| && b == a[..|b|]
    ensures b == s[|s| - |a|..|s| - |a| + |b|]
  {
  }

  /** `trim` returns a slice of its input. */
  lemma TrimIsSlice(s: string)
    ensures |s| - |TrimStart(s)| + |Trim(s)| <= |s|
    ensures Trim(s) == s[|s| - |TrimStart(s)|..|s| - |TrimStart(s)| + |Trim(s)|]
  {
    TrimStartIsSuffix(s);
    TrimEndIsPrefix(TrimStart(s));
    SuffixPrefixSlice(s, TrimStart(s), TrimEnd(TrimStart(s)));
  }

  // ---------------------------------------------------------------------
  // Line splitting (`str::lines`) and its inverse
  // ---------------------------------------------------------------------

  function IndexOfChar(s: string, c: char): (r: Option<nat>)
    ensures r.Some? ==> r.value < |s| && s[r.value] == c
    ensures r.Some? ==> forall j :: 0 <= j < r.value ==> s[j] != c
    ensures r.None? <==> c !in s
  {
    if s == [] then None
    else if s[0] == c then Some(0)
    else match IndexOfChar(s[1..], c)
      case None => None
      case Some(i) => Some(i + 1)
  }

  /** Removes one trailing carriage return. */
  function StripCr(line: string): string {
    if |line| > 0 && line[|line| - 1] == '\r' then line[..|line| - 1] else line
  }

  /**
   * `str::lines`: splits at "\n" (and "\r\n"); the final line ending is
   * optional, and a bare '\r' at the very end stays in the last line.
   */
  function Lines(s: string): (r: seq<string>)
    ensures (s == []) <==> (r == [])
    ensures forall k :: 0 <= k < |r| ==> '\n' !in r[k]
    decreases |s|
  {
    if s == [] then []
    else match IndexOfChar(s, '\n')
      case None => [s]
      case Some(i) => [StripCr(s[..i])] + Lines(s[i + 1..])
  }

  /** Text without a newline is a single line. */
  lemma LinesOfOneLine(s: string)
    requires s != [] && '\n' !in s
    ensures Lines(s) == [s]
  {
    assert IndexOfChar(s, '\n').None?;
  }

  /** Each line followed by "\n", as the truncation loops emit them. */
  function JoinLines(ls: seq<string>): string {
    if ls == [] then [] else ls[0] + "\n" + JoinLines(ls[1..])
  }

  lemma {:induction false} JoinLinesSnoc(ls: seq<string>, l: string)
    ensures JoinLines(ls + [l]) == JoinLines(ls) + l + "\n"
  {
    if ls == [] {
      assert ls + [l] == [l];
    } else {
      assert (ls + [l])[1..] == ls[1..] + [l];
      JoinLinesSnoc(ls[1..], l);
    }
  }

  lemma {:induction false} JoinLinesAppend(xs: seq<string>, ys: seq<string>)
    ensures JoinLines(xs + ys) == JoinLines(xs) + JoinLines(ys)
    decreases |xs|
  {
    if xs == [] {
      assert xs + ys == ys;
    } else {
      assert (xs + ys)[1..] == xs[1..] + ys;
      JoinLinesAppend(xs[1..], ys);
    }
  }

  lemma {:induction false} JoinLinesSplit(ls: seq<string>, k: nat)
    requires k <= |ls|
    ensures JoinLines(ls[..k]) + JoinLines(ls[k..]) == JoinLines(ls)
  {
    var a, b := ls[..k], ls[k..];
    assert a + b == ls;
    JoinLinesAppend(a, b);
  }

  function LineTerminatorNeeded(s: string): string {
    if s == [] || s[|s| - 1] == '\n' then "" else "\n"
  }

  predicate NoCarriageReturn(s: string) {
    forall k :: 0 <= k < |s| ==> s[k] != '\r'
  }

  lemma {:induction false} LinesStep(s: string, i: nat)
    requires NoCarriageReturn(s)
    requires IndexOfChar(s, '\n') == Some(i)
    ensures Lines(s) == [s[..i]] + Lines(s[i + 1..])
    ensures NoCarriageReturn(s[i + 1..])
    ensures s == s[..i] + "\n" + s[i + 1..]
    ensures LineTerminatorNeeded(s) == LineTerminatorNeeded(s[i + 1..])
  {
    var line := s[..i];
    if i > 0 {
      assert line[i - 1] == s[i - 1];
    }
    assert StripCr(line) == line;
    var rest := s[i + 1..];
    forall k | 0 <= k < |rest| ensures rest[k] != '\r' {
      assert rest[k] == s[i + 1 + k];
    }
    assert s == line + "\n" + rest;
    if rest != [] {
      assert s[|s| - 1] == rest[|rest| - 1];
    }
  }

  /** Without carriage returns, re-joining the lines gives back the text, newline-terminated. */
  lemma {:induction false} JoinLinesOfLines(s: string)
    requires NoCarriageReturn(s)
    ensures JoinLines(Lines(s)) == s + LineTerminatorNeeded(s)
    decreases |s|
  {
    if s == [] {
    } else if '\n' !in s {
      LinesOfOneLine(s);
      JoinLinesCons(s, []);
      assert s[|s| - 1] != '\n';
    } else {
      var i := IndexOfChar(s, '\n').value;
      var line, rest := s[..i], s[i + 1..];
      LinesStep(s, i);
      JoinLinesOfLines(rest);
      JoinLinesCons(line, Lines(rest));
      calc {
        JoinLines(Lines(s));
        line + "\n" + JoinLines(Lines(rest));
        line + "\n" + (rest + LineTerminatorNeeded(rest));
        (line + "\n" + rest) + LineTerminatorNeeded(s);
      }
    }
  }

  lemma JoinLinesCons(line: string, ls: seq<string>)
    ensures JoinLines([line] + ls) == line + "\n" + JoinLines(ls)
  {
    assert ([line] + ls)[0] == line && ([line] + ls)[1..] == ls;
  }

  // ---------------------------------------------------------------------
  // `[String]::join`
  // ---------------------------------------------------------------------

  function Join(parts: seq<string>, sep: string): string {
    if parts == [] then []
    else if |parts| == 1 then parts[0]
    else parts[0] + sep + Join(parts[1..], sep)
  }

  // ---------------------------------------------------------------------
  // Decimal formatting of an unsigned integer (`format!("{}", n)`)
  // ---------------------------------------------------------------------

  predicate IsDigit(c: char) {
    '0' <= c <= '9'
  }

  predicate AllDigits(s: string) {
    forall i :: 0 <= i < |s| ==> IsDigit(s[i])
  }

  function DigitChar(d: nat): (c: char)
    requires d < 10
    ensures IsDigit(c)
  {
    ('0' as int + d) as char
  }

  function DigitValue(c: char): (d: nat)
    requires IsDigit(c)
    ensures d < 10
  {
    c as int - '0' as int
  }

  /** The decimal text of `n`, without leading zeros. */
  function NatToString(n: nat): (r: string)
    ensures |r| > 0 && AllDigits(r)
    ensures |r| > 1 ==> r[0] != '0'
  {
    if n < 10 then [DigitChar(n)] else NatToString(n / 10) + [DigitChar(n % 10)]
  }

  function ParseNat(s: string): nat
    requires AllDigits(s)
  {
    if s == [] then 0 else ParseNat(s[..|s| - 1]) * 10 + DigitValue(s[|s| - 1])
  }

  /** Reading back the formatted number gives the number. */
  lemma {:induction false} ParseNatToString(n: nat)
    ensures ParseNat(NatToString(n)) == n
  {
    if n >= 10 {
      var s := NatToString(n);
      assert s[..|s| - 1] == NatToString(n / 10);
      ParseNatToString(n / 10);
    }
  }
}
