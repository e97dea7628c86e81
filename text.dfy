/**
 * The java.lang.String operations the event manager relies on, written out
 * over `seq<char>`: trim, ASCII case mapping, contains, the two flavours of
 * split on a single-character pattern, String.join, decimal digits, and the
 * line structure that BufferedReader.readLine / BufferedWriter.newLine give
 * a file.
 */
module Text {

  // ---------------------------------------------------------------- trim

  /** String.trim() strips every character at or below U+0020. */
  predicate IsSpace(c: char) { c <= ' ' }

  predicate IsBlank(s: string) { forall i :: 0 <= i < |s| ==> IsSpace(s[i]) }

  /** Neither end of `s` carries a character that trim would strip. */
  predicate IsTrimmed(s: string) {
    s == [] || (!IsSpace(s[0]) && !IsSpace(s[|s| - 1]))
  }

  function TrimStart(s: string): (r: string)
    ensures |r| <= |s| && r == s[|s| - |r|..]
    ensures forall i :: 0 <= i < |s| - |r| ==> IsSpace(s[i])
    ensures r == [] || !IsSpace(r[0])
    ensures r == [] <==> IsBlank(s)
  {
    if s != [] && IsSpace(s[0]) then
      var r := TrimStart(s[1..]);
      TrimStartStep(s, r);
      r
    else s
  }

  /** Stripping one more leading blank keeps every property of TrimStart. */
  lemma TrimStartStep(s: string, r: string)
    requires s != [] && IsSpace(s[0])
    requires |r| <= |s| - 1 && r == s[1..][|s| - 1 - |r|..]
    requires forall i :: 0 <= i < |s| - 1 - |r| ==> IsSpace(s[1..][i])
    requires r == [] <==> IsBlank(s[1..])
    ensures r == s[|s| - |r|..]
    ensures forall i :: 0 <= i < |s| - |r| ==> IsSpace(s[i])
    ensures r == [] <==> IsBlank(s)
  {
    assert s[1..][|s| - 1 - |r|..] == s[|s| - |r|..];
    forall i | 1 <= i < |s| - |r| ensures IsSpace(s[i]) { assert s[i] == s[1..][i - 1]; }
    if IsBlank(s[1..]) {
      forall i | 0 <= i < |s| ensures IsSpace(s[i]) { if i > 0 { assert s[i] == s[1..][i - 1]; } }
    }
    if IsBlank(s) {
      forall i | 0 <= i < |s| - 1 ensures IsSpace(s[1..][i]) { assert s[1..][i] == s[i + 1]; }
    }
  }

  function TrimEnd(s: string): (r: string)
    ensures |r| <= |s| && r == s[..|r|]
    ensures forall i :: |r| <= i < |s| ==> IsSpace(s[i])
    ensures r == [] || !IsSpace(r[|r| - 1])
    ensures r == [] <==> IsBlank(s)
  {
    if s != [] && IsSpace(s[|s| - 1]) then TrimEnd(s[..|s| - 1]) else s
  }

  /** `r` is `s` with some blanks cut from its front and some from its back, and nothing else. */
  predicate IsTrimOf(r: string, s: string) {
    exists a :: 0 <= a <= |s| - |r| && r == s[a..a + |r|] && IsBlank(s[..a]) && IsBlank(s[a + |r|..])
  }

  /** String.trim(): `s` with its leading and trailing blanks removed, and nothing else. */
  function Trim(s: string): (r: string)
    ensures IsTrimmed(r)
    ensures |r| <= |s|
    ensures IsTrimOf(r, s)
    ensures r == [] <==> IsBlank(s)
    ensures IsTrimmed(s) ==> r == s
  {
    var t := TrimStart(s);
    assert t != [] ==> t[0] == TrimEnd(t)[0] || TrimEnd(t) == [];
    TrimSlice(s, t, TrimEnd(t));
    TrimEnd(t)
  }

  /** A part of `s` with only blanks cut from its front, then from its back, is a slice between blank ends. */
  lemma TrimSlice(s: string, t: string, r: string)
    requires |t| <= |s| && t == s[|s| - |t|..] && forall i :: 0 <= i < |s| - |t| ==> IsSpace(s[i])
    requires |r| <= |t| && r == t[..|r|] && forall i :: |r| <= i < |t| ==> IsSpace(t[i])
    ensures IsTrimOf(r, s)
  {
    var a := |s| - |t|;
    assert s[a..a + |r|] == r;
    forall i | 0 <= i < a ensures IsSpace(s[..a][i]) {
      assert s[..a][i] == s[i];
    }
    var back := s[a + |r|..];
    forall i | 0 <= i < |back| ensures IsSpace(back[i]) {
      assert back[i] == t[|r| + i];
    }
    assert IsBlank(s[..a]) && IsBlank(back);
  }

  // ------------------------------------------------------ case, contains

  /** Character.toLowerCase restricted to ASCII letters. */
  function LowerChar(c: char): char {
    if 'A' <= c <= 'Z' then (c as int + 32) as char else c
  }

  /** String.toLowerCase() on the ASCII range. */
  function ToLower(s: string): (r: string)
    ensures |r| == |s|
  {
    seq(|s|, i requires 0 <= i < |s| => LowerChar(s[i]))
  }

  /** String.equalsIgnoreCase on the ASCII range. */
  predicate EqualsIgnoreCase(a: string, b: string) {
    ToLower(a) == ToLower(b)
  }

  /** String.contains: `q` occurs as a contiguous block of `s`. */
  predicate Contains(s: string, q: string)
    decreases |s|
  {
    q <= s || (s != [] && Contains(s[1..], q))
  }

  // ---------------------------------------------------------- join/split

  /** String.join(sep, parts); the empty list joins to "". */
  function Join(parts: seq<string>, sep: char): string {
    if parts == [] then ""
    else if |parts| == 1 then parts[0]
    else parts[0] + [sep] + Join(parts[1..], sep)
  }

  predicate NoneContains(parts: seq<string>, c: char) {
    forall k :: 0 <= k < |parts| ==> c !in parts[k]
  }

  lemma {:induction false} JoinHead(x: string, parts: seq<string>, sep: char)
    requires parts != []
    ensures Join([x + parts[0]] + parts[1..], sep) == x + Join(parts, sep)
  {
    var ps := [x + parts[0]] + parts[1..];
    assert ps[1..] == parts[1..];
  }

  /**
   * String.split(pattern, -1) for a one-character pattern: every piece is
   * kept, including empty ones, so there is always one more piece than
   * there are separators. Joining the pieces gives back the input.
   */
  function SplitAll(s: string, sep: char): (parts: seq<string>)
    ensures |parts| >= 1
    ensures NoneContains(parts, sep)
    ensures Join(parts, sep) == s
  {
    if s == [] then [""]
    else
      var rest := SplitAll(s[1..], sep);
      if s[0] == sep then
        assert ([""] + rest)[1..] == rest;
        [""] + rest
      else
        JoinHead([s[0]], rest, sep);
        [[s[0]] + rest[0]] + rest[1..]
  }

  lemma {:induction false} SplitAllNoSep(s: string, sep: char)
    requires sep !in s
    ensures SplitAll(s, sep) == [s]
  {
    if s != [] {
      SplitAllNoSep(s[1..], sep);
      assert [s[0]] + s[1..] == s;
    }
  }

  lemma {:induction false} SplitAllCons(a: string, b: string, sep: char)
    requires sep !in a
    ensures SplitAll(a + [sep] + b, sep) == [a] + SplitAll(b, sep)
  {
    var s := a + [sep] + b;
    if a == [] {
      assert s[1..] == b;
    } else {
      assert s[1..] == a[1..] + [sep] + b;
      SplitAllCons(a[1..], b, sep);
      assert [a[0]] + a[1..] == a;
    }
  }

  /** Splitting a join of separator-free pieces recovers the pieces. */
  lemma {:induction false} SplitJoin(parts: seq<string>, sep: char)
    requires parts != []
    requires NoneContains(parts, sep)
    ensures SplitAll(Join(parts, sep), sep) == parts
  {
    if |parts| == 1 {
      SplitAllNoSep(parts[0], sep);
    } else {
      SplitJoin(parts[1..], sep);
      SplitAllCons(parts[0], Join(parts[1..], sep), sep);
      assert [parts[0]] + parts[1..] == parts;
    }
  }

  /** The trailing-empty-string removal that String.split applies when its limit is 0. */
  function DropTrailingEmpty(parts: seq<string>): (r: seq<string>)
    ensures |r| <= |parts| && r == parts[..|r|]
    ensures r == [] || r[|r| - 1] != ""
    ensures forall k :: |r| <= k < |parts| ==> parts[k] == ""
  {
    if parts != [] && parts[|parts| - 1] == "" then DropTrailingEmpty(parts[..|parts| - 1])
    else parts
  }

  /**
   * String.split(pattern) for a one-character pattern: an input without the
   * separator comes back whole (so "" gives [""]); otherwise the pieces of
   * SplitAll with the trailing empty ones removed.
   */
  function Split(s: string, sep: char): (parts: seq<string>)
    ensures NoneContains(parts, sep)
    ensures sep !in s ==> parts == [s]
    ensures sep in s ==> parts == DropTrailingEmpty(SplitAll(s, sep))
  {
    if sep !in s then [s] else DropTrailingEmpty(SplitAll(s, sep))
  }

  /** Split undoes Join when the pieces are separator-free and the last one is not empty. */
  lemma SplitJoinNonEmptyLast(parts: seq<string>, sep: char)
    requires parts != [] && parts[|parts| - 1] != ""
    requires NoneContains(parts, sep)
    ensures Split(Join(parts, sep), sep) == parts
  {
    SplitJoin(parts, sep);
    if |parts| > 1 {
      var s := Join(parts, sep);
      assert s == parts[0] + [sep] + Join(parts[1..], sep);
      assert s[|parts[0]|] == sep;
    }
  }

  // --------------------------------------------------------------- digits

  predicate IsDigit(c: char) { '0' <= c <= '9' }

  predicate AllDigits(s: string) { forall i :: 0 <= i < |s| ==> IsDigit(s[i]) }

  function DigitChar(d: nat): (c: char)
    requires d < 10
    ensures IsDigit(c)
  {
    ('0' as int + d) as char
  }

  function Pow10(n: nat): (p: nat)
    ensures p >= 1
  {
    if n == 0 then 1 else 10 * Pow10(n - 1)
  }

  /** Value of a string of decimal digits. */
  function DigitsValue(s: string): nat
    requires AllDigits(s)
  {
    if s == [] then 0
    else DigitsValue(s[..|s| - 1]) * 10 + (s[|s| - 1] as int - '0' as int)
  }

  /** The last `width` decimal digits of `n`, zero padded (a fixed-width date field). */
  function PadDigits(n: nat, width: nat): (r: string)
    ensures |r| == width && AllDigits(r)
  {
    if width == 0 then "" else PadDigits(n / 10, width - 1) + [DigitChar(n % 10)]
  }

  lemma {:induction false} PadDigitsValue(n: nat, width: nat)
    requires n < Pow10(width)
    ensures DigitsValue(PadDigits(n, width)) == n
  {
    if width > 0 {
      assert n / 10 < Pow10(width - 1);
      PadDigitsValue(n / 10, width - 1);
      var r := PadDigits(n, width);
      assert r[..|r| - 1] == PadDigits(n / 10, width - 1);
    }
  }

  /** Integer.toString for a non-negative value. */
  function NatToString(n: nat): (r: string)
    ensures r != [] && AllDigits(r)
  {
    if n < 10 then [DigitChar(n)] else NatToString(n / 10) + [DigitChar(n % 10)]
  }

  lemma {:induction false} NatToStringValue(n: nat)
    ensures DigitsValue(NatToString(n)) == n
  {
    if n >= 10 {
      NatToStringValue(n / 10);
      var r := NatToString(n);
      assert r[..|r| - 1] == NatToString(n / 10);
    }
  }

  /** The number of digits Integer.toString prints: at least k + 1 exactly when n >= 10^k. */
  lemma {:induction false} NatToStringLength(n: nat, k: nat)
    requires k >= 1
    ensures |NatToString(n)| > k <==> n >= Pow10(k)
  {
    assert Pow10(k) >= 10 by { PowMonotone(1, k); }
    if n >= 10 {
      assert |NatToString(n)| == |NatToString(n / 10)| + 1;
      if k > 1 {
        NatToStringLength(n / 10, k - 1);
        assert n >= Pow10(k) <==> n / 10 >= Pow10(k - 1);
      } else {
        assert |NatToString(n / 10)| >= 1;
      }
    }
  }

  lemma {:induction false} PowMonotone(a: nat, b: nat)
    requires a <= b
    ensures Pow10(a) <= Pow10(b)
  {
    if a < b { PowMonotone(a, b - 1); }
  }

  // ---------------------------------------------------------------- lines

  /** A line terminator for BufferedReader.readLine: '\n', '\r' (and so "\r\n"). */
  predicate IsLineBreak(c: char) { c == '\n' || c == '\r' }

  predicate HasLineBreak(s: string) { exists i :: 0 <= i < |s| && IsLineBreak(s[i]) }

  /** Index of the first line terminator, or |s| when there is none. */
  function LineEnd(s: string): (i: nat)
    ensures i <= |s|
    ensures i < |s| ==> IsLineBreak(s[i])
    ensures forall k :: 0 <= k < i ==> !IsLineBreak(s[k])
  {
    if s == [] || IsLineBreak(s[0]) then 0 else 1 + LineEnd(s[1..])
  }

  /**
   * The lines BufferedReader.readLine returns one after another: a terminator
   * is "\n", "\r" or "\r\n", and a final line without terminator still counts.
   */
  function ReadLines(s: string): (lines: seq<string>)
    ensures forall k :: 0 <= k < |lines| ==> !HasLineBreak(lines[k])
    ensures lines == [] <==> s == []
    decreases |s|
  {
    if s == [] then []
    else
      var i := LineEnd(s);
      var next := if i < |s| && s[i] == '\r' && i + 1 < |s| && s[i + 1] == '\n' then i + 2
                  else if i < |s| then i + 1 else i;
      [s[..i]] + ReadLines(s[next..])
  }

  /** A file written line by line with BufferedWriter.newLine ("\n" as line separator). */
  function WriteLines(lines: seq<string>): string {
    if lines == [] then "" else lines[0] + "\n" + WriteLines(lines[1..])
  }

  /** Writing one more line appends it with its terminator (the writer loops rely on this). */
  lemma {:induction false} WriteLinesAppend(lines: seq<string>, line: string)
    ensures WriteLines(lines + [line]) == WriteLines(lines) + line + "\n"
  {
    if lines != [] {
      assert (lines + [line])[1..] == lines[1..] + [line];
      WriteLinesAppend(lines[1..], line);
    }
  }

  /** A join of pieces free of `c` is free of `c`, if `c` is not the separator. */
  lemma {:induction false} JoinAvoids(parts: seq<string>, sep: char, c: char)
    requires c != sep && NoneContains(parts, c)
    ensures c !in Join(parts, sep)
  {
    if |parts| > 1 { JoinAvoids(parts[1..], sep, c); }
  }

  /** Reading back what WriteLines wrote gives the same lines, when none holds a terminator. */
  lemma {:induction false} ReadWriteLines(lines: seq<string>)
    requires forall k :: 0 <= k < |lines| ==> !HasLineBreak(lines[k])
    ensures ReadLines(WriteLines(lines)) == lines
  {
    if lines != [] {
      ReadLinesCons(lines[0], WriteLines(lines[1..]));
      ReadWriteLines(lines[1..]);
      assert [lines[0]] + lines[1..] == lines;
    }
  }

  lemma ReadLinesCons(l: string, rest: string)
    requires !HasLineBreak(l)
    ensures ReadLines(l + "\n" + rest) == [l] + ReadLines(rest)
  {
    var s := l + "\n" + rest;
    LineEndOf(l, "\n" + rest);
    assert s[|l|] == '\n';
    assert s[..|l|] == l;
    assert s[|l| + 1..] == rest;
  }

  /**
   * Each of the three terminators ends one line: "\n", "\r\n", and a "\r"
   * not followed by "\n".
   */
  lemma ReadLinesTerminated(l: string, t: string, rest: string)
    requires !HasLineBreak(l)
    requires t == "\n" || t == "\r\n" || (t == "\r" && (rest == [] || rest[0] != '\n'))
    ensures ReadLines(l + t + rest) == [l] + ReadLines(rest)
  {
    var s := l + (t + rest);
    assert l + t + rest == s;
    LineEndOf(l, t + rest);
    var i := |l|;
    assert s[..i] == l;
    assert s[i] == t[0];
    assert s[i + |t|..] == rest;
    if t == "\r\n" {
      assert s[i + 1] == '\n';
    } else if t == "\r" && rest != [] {
      assert s[i + 1] == rest[0];
    }
  }

  /** A last line without a terminator is still read. */
  lemma ReadLastLine(l: string)
    requires l != [] && !HasLineBreak(l)
    ensures ReadLines(l) == [l]
  {
    LineEndAll(l);
    assert l[..|l|] == l;
    assert l[|l|..] == [];
    assert ReadLines(l) == [l[..|l|]] + ReadLines(l[|l|..]);
  }

  lemma {:induction false} LineEndAll(l: string)
    requires !HasLineBreak(l)
    ensures LineEnd(l) == |l|
  {
    if l != [] {
      assert !IsLineBreak(l[0]);
      LineEndAll(l[1..]);
    }
  }

  lemma {:induction false} LineEndOf(l: string, rest: string)
    requires !HasLineBreak(l)
    requires rest != [] && IsLineBreak(rest[0])
    ensures LineEnd(l + rest) == |l|
  {
    if l == [] {
      assert (l + rest)[0] == rest[0];
    } else {
      assert !IsLineBreak(l[0]);
      assert (l + rest)[1..] == l[1..] + rest;
      LineEndOf(l[1..], rest);
    }
  }
}
