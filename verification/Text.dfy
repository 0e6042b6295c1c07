/**
 Text as the program handles it: decimal numerals, lexicographic order, whitespace,
 and joining and splitting on a separator character.
 */
module Text {

  // ---------------------------------------------------------------- numerals

  /** Python's `str(n)` for a natural number. */
  function NatToString(n: nat): string {
    if n < 10 then [Digit(n)] else NatToString(n / 10) + [Digit(n % 10)]
  }

  function Digit(d: nat): char
    requires d < 10
  {
    "0123456789"[d]
  }

  /** Python's `str(i)` for an integer. */
  function IntToString(i: int): string {
    if i < 0 then "-" + NatToString(-i) else NatToString(i)
  }

  predicate IsDigit(c: char) {
    '0' <= c <= '9'
  }

  predicate Numeral(s: string) {
    s != "" && forall i :: 0 <= i < |s| ==> IsDigit(s[i])
  }

  function ParseNat(s: string): nat
    requires Numeral(s)
  {
    var d := s[|s| - 1] as int - '0' as int;
    if |s| == 1 then d else 10 * ParseNat(s[..|s| - 1]) + d
  }

  lemma {:induction false} ParseNatToString(n: nat)
    ensures Numeral(NatToString(n)) && ParseNat(NatToString(n)) == n
  {
    if n >= 10 {
      ParseNatToString(n / 10);
      var s := NatToString(n);
      assert s[..|s| - 1] == NatToString(n / 10);
    }
  }

  /** `s` is the decimal notation of `n`. */
  ghost predicate NaturalOf(n: nat, s: string) {
    Numeral(s) && ParseNat(s) == n && (|s| > 1 ==> s[0] != '0')
  }

  ghost predicate DecimalOf(n: int, s: string) {
    if n >= 0 then NaturalOf(n, s) else s != "" && s[0] == '-' && NaturalOf(-n, s[1..])
  }

  lemma {:induction false} NoLeadingZero(n: nat)
    ensures n > 0 ==> NatToString(n)[0] != '0'
  {
    if n >= 10 { NoLeadingZero(n / 10); }
  }

  lemma IntToStringDecimal(n: int)
    ensures DecimalOf(n, IntToString(n))
  {
    var m := if n < 0 then -n else n;
    ParseNatToString(m);
    NoLeadingZero(m);
    if n < 0 { assert IntToString(n)[1..] == NatToString(m); }
  }

  lemma NatToStringInjective(m: nat, n: nat)
    requires NatToString(m) == NatToString(n)
    ensures m == n
  {
    ParseNatToString(m);
    ParseNatToString(n);
  }

  // ------------------------------------------------------- lexicographic order

  /** `a <= b` on strings, character by character, as both Python and SQLite compare them. */
  predicate StrLe(a: string, b: string) {
    a == "" || (b != "" && (a[0] < b[0] || (a[0] == b[0] && StrLe(a[1..], b[1..]))))
  }

  /** A text comes before its extensions, and otherwise the first difference decides. */
  lemma {:induction false} StrLeExactly(a: string, b: string)
    ensures StrLe(a, b) <==> a <= b || exists k :: 0 <= k < |a| && k < |b| && a[..k] == b[..k] && a[k] < b[k]
  {
    if a != "" && b != "" && a[0] == b[0] {
      StrLeExactly(a[1..], b[1..]);
      assert a <= b <==> a[1..] <= b[1..];
      if k :| 0 <= k < |a| && k < |b| && a[..k] == b[..k] && a[k] < b[k] {
        assert k > 0;
        assert a[1..][..k - 1] == a[..k][1..] && b[1..][..k - 1] == b[..k][1..];
        assert a[1..][k - 1] < b[1..][k - 1];
      }
      if k :| 0 <= k < |a[1..]| && k < |b[1..]| && a[1..][..k] == b[1..][..k] && a[1..][k] < b[1..][k] {
        assert a[..k + 1] == [a[0]] + a[1..][..k] && b[..k + 1] == [b[0]] + b[1..][..k];
        assert a[k + 1] < b[k + 1];
      }
    } else if a != "" && b != "" && a[0] < b[0] {
      assert a[..0] == b[..0];
    }
  }

  lemma {:induction false} StrLeTotal(a: string, b: string)
    ensures StrLe(a, b) || StrLe(b, a)
  {
    if a != "" && b != "" { StrLeTotal(a[1..], b[1..]); }
  }

  lemma {:induction false} StrLeTransitive(a: string, b: string, c: string)
    requires StrLe(a, b) && StrLe(b, c)
    ensures StrLe(a, c)
  {
    if a != "" && a[0] == b[0] == c[0] { StrLeTransitive(a[1..], b[1..], c[1..]); }
  }

  lemma {:induction false} StrLeAntisymmetric(a: string, b: string)
    requires StrLe(a, b) && StrLe(b, a)
    ensures a == b
  {
    if a != "" {
      StrLeAntisymmetric(a[1..], b[1..]);
      assert a == [a[0]] + a[1..] && b == [b[0]] + b[1..];
    }
  }

  // ------------------------------------------------------------- join and split

  function Join(sep: char, parts: seq<string>): string {
    if parts == [] then ""
    else if |parts| == 1 then parts[0]
    else parts[0] + [sep] + Join(sep, parts[1..])
  }

  /** The text before the first separator, and the text after it (None when there is none). */
  function Cut(sep: char, s: string): (r: (string, bool, string)) {
    if s == "" then ("", false, "")
    else if s[0] == sep then ("", true, s[1..])
    else var r := Cut(sep, s[1..]); ([s[0]] + r.0, r.1, r.2)
  }

  lemma {:induction false} CutAfter(sep: char, head: string, tail: string)
    requires sep !in head
    ensures Cut(sep, head + [sep] + tail) == (head, true, tail)
    ensures Cut(sep, head) == (head, false, "")
  {
    if head == "" {
      assert head + [sep] + tail == [sep] + tail;
    } else {
      CutAfter(sep, head[1..], tail);
      assert (head + [sep] + tail)[1..] == head[1..] + [sep] + tail;
      assert head == [head[0]] + head[1..];
    }
  }

  lemma {:induction false} CutShortens(sep: char, s: string)
    ensures Cut(sep, s).1 ==> |Cut(sep, s).2| < |s|
  {
    if s != "" { CutShortens(sep, s[1..]); }
  }

  function Split(sep: char, s: string): seq<string>
    decreases |s|
  {
    var c := Cut(sep, s);
    CutShortens(sep, s);
    if c.1 then [c.0] + Split(sep, c.2) else [c.0]
  }

  lemma {:induction false} SplitJoin(sep: char, parts: seq<string>)
    requires parts != []
    requires forall p :: p in parts ==> sep !in p
    ensures Split(sep, Join(sep, parts)) == parts
  {
    if |parts| == 1 {
      CutAfter(sep, parts[0], "");
    } else {
      CutAfter(sep, parts[0], Join(sep, parts[1..]));
      SplitJoin(sep, parts[1..]);
    }
  }

  // ------------------------------------------------------------------ whitespace

  /** The characters for which Python's `str.isspace` holds, which `strip` removes. */
  predicate IsSpace(c: char) {
    || '\t' <= c <= '\r' || '\U{1C}' <= c <= ' ' || c == '\U{85}' || c == '\U{A0}'
    || c == '\U{1680}' || '\U{2000}' <= c <= '\U{200A}' || c == '\U{2028}' || c == '\U{2029}'
    || c == '\U{202F}' || c == '\U{205F}' || c == '\U{3000}'
  }

  function LStrip(s: string): string {
    if s != "" && IsSpace(s[0]) then LStrip(s[1..]) else s
  }

  function RStrip(s: string): string {
    if s != "" && IsSpace(s[|s| - 1]) then RStrip(s[..|s| - 1]) else s
  }

  function Strip(s: string): string {
    RStrip(LStrip(s))
  }

  ghost predicate AllSpace(s: string) {
    forall i :: 0 <= i < |s| ==> IsSpace(s[i])
  }

  /** `t` is `s` without the white space around it. */
  ghost predicate Stripped(s: string, t: string) {
    && (exists i :: 0 <= i <= |s| - |t| && s[i..i + |t|] == t && AllSpace(s[..i]) && AllSpace(s[i + |t|..]))
    && (t != "" ==> !IsSpace(t[0]) && !IsSpace(t[|t| - 1]))
  }

  lemma {:induction false} LStripIsRest(s: string) returns (i: nat)
    ensures i <= |s| && LStrip(s) == s[i..] && AllSpace(s[..i])
    ensures LStrip(s) != "" ==> !IsSpace(LStrip(s)[0])
  {
    i := 0;
    if s != "" && IsSpace(s[0]) {
      var j := LStripIsRest(s[1..]);
      i := j + 1;
      forall k | 0 <= k < i ensures IsSpace(s[k]) { assert k > 0 ==> s[k] == s[1..][..j][k - 1]; }
    }
  }

  lemma {:induction false} RStripIsFront(s: string) returns (n: nat)
    ensures n <= |s| && RStrip(s) == s[..n] && AllSpace(s[n..])
    ensures RStrip(s) != "" ==> !IsSpace(RStrip(s)[n - 1])
  {
    n := |s|;
    if s != "" && IsSpace(s[|s| - 1]) {
      var front := s[..|s| - 1];
      n := RStripIsFront(front);
      assert front[..n] == s[..n];
      forall k | n <= k < |s| ensures IsSpace(s[k]) { assert k < |front| ==> s[k] == front[n..][k - n]; }
    }
  }

  lemma StripExactly(s: string)
    ensures Stripped(s, Strip(s))
  {
    var i := LStripIsRest(s);
    var rest := s[i..];
    var n := RStripIsFront(rest);
    assert Strip(s) == s[i..i + n] && rest[n..] == s[i + n..];
  }

  lemma StrippedAt(s: string, t: string) returns (i: nat)
    requires Stripped(s, t)
    ensures i + |t| <= |s| && s[i..i + |t|] == t && AllSpace(s[..i]) && AllSpace(s[i + |t|..])
  {
    i :| 0 <= i <= |s| - |t| && s[i..i + |t|] == t && AllSpace(s[..i]) && AllSpace(s[i + |t|..]);
  }

  /** Positions at which the text is no space are inside what is left after stripping. */
  lemma InsideStripped(s: string, t: string, i: nat, k: nat)
    requires i + |t| <= |s| && AllSpace(s[..i]) && AllSpace(s[i + |t|..])
    requires k < |s| && !IsSpace(s[k])
    ensures i <= k < i + |t|
  {
    forall m | 0 <= m < i ensures IsSpace(s[m]) { assert s[..i][m] == s[m]; }
    forall m | i + |t| <= m < |s| ensures IsSpace(s[m]) { assert s[i + |t|..][m - i - |t|] == s[m]; }
  }

  /** What begins and ends with no space is inside what is left after stripping. */
  lemma WithinStripped(s: string, t: string, i: nat, u: string, j: nat)
    requires i + |t| <= |s| && AllSpace(s[..i]) && AllSpace(s[i + |t|..])
    requires u != "" && j + |u| <= |s| && s[j..j + |u|] == u && !IsSpace(u[0]) && !IsSpace(u[|u| - 1])
    ensures i <= j && j + |u| <= i + |t|
  {
    assert s[j] == s[j..j + |u|][0] && s[j + |u| - 1] == s[j..j + |u|][|u| - 1];
    InsideStripped(s, t, i, j);
    InsideStripped(s, t, i, j + |u| - 1);
  }

  /** Being what is left after stripping determines a text. */
  lemma StrippedDetermines(s: string, t: string, u: string)
    requires Stripped(s, t) && Stripped(s, u)
    ensures t == u
  {
    var i := StrippedAt(s, t);
    var j := StrippedAt(s, u);
    if t != "" { WithinStripped(s, u, j, t, i); }
    if u != "" { WithinStripped(s, t, i, u, j); }
  }

  // ------------------------------------------------------------- part of a text

  /** `str.rfind` of one character. */
  function RFind(c: char, s: string): (r: int)
    ensures -1 <= r < |s|
    ensures r >= 0 ==> s[r] == c
    ensures forall i :: r < i < |s| ==> s[i] != c
  {
    if s == "" then -1
    else if s[|s| - 1] == c then |s| - 1
    else RFind(c, s[..|s| - 1])
  }

  predicate EndsWith(s: string, suffix: string) {
    |suffix| <= |s| && s[|s| - |suffix|..] == suffix
  }

  predicate FoundAt(text: string, needle: string, i: int) {
    0 <= i <= |text| - |needle| && text[i..i + |needle|] == needle
  }

  /** Python's `needle in text`. */
  predicate Contains(text: string, needle: string) {
    exists i :: 0 <= i <= |text| && FoundAt(text, needle, i)
  }

  lemma ContainsTransitive(a: string, b: string, c: string)
    requires Contains(a, b) && Contains(b, c)
    ensures Contains(a, c)
  {
    var i :| 0 <= i <= |a| && FoundAt(a, b, i);
    var j :| 0 <= j <= |b| && FoundAt(b, c, j);
    forall t | 0 <= t < |c| ensures a[i + j + t] == c[t] {
      assert c[t] == b[j..j + |c|][t] == b[j + t] == a[i..i + |b|][j + t];
    }
    assert a[i + j..i + j + |c|] == c;
    assert FoundAt(a, c, i + j);
  }

  function LowerChar(c: char): (r: char)
    ensures !('A' <= r <= 'Z')
    ensures if r == c then !('A' <= c <= 'Z') else r as int - c as int == 'a' as int - 'A' as int
  {
    if 'A' <= c <= 'Z' then (c as int + 32) as char else c
  }

  /** `str.lower` on the ASCII letters. */
  function Lower(s: string): (r: string)
    ensures |r| == |s| && forall i :: 0 <= i < |s| ==> r[i] == LowerChar(s[i])
  {
    seq(|s|, i requires 0 <= i < |s| => LowerChar(s[i]))
  }
}
