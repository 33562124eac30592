/**
 * The few Python string operations the configuration and instance readers rely on:
 * `str.isspace`, `str.upper`, `str.lower`, `str.strip`, `str.split()` with no
 * separator, `str(int)`, `", ".join`, and `readlines()` on a file's text.
 * Character classes are those of the ASCII range.
 */
module Text {
  import opened Wrappers

  /** Python's `int(text)` and `float(text)`; the model keeps them abstract. */
  datatype Converters = Converters(parseInt: string -> Option<int>, parseReal: string -> Option<real>)

  /** `c.isspace()` for an ASCII character: space, tab through carriage return, and 0x1c-0x1f. */
  predicate IsSpace(c: char) {
    c == ' ' || (9 <= c as int <= 13) || (28 <= c as int <= 31)
  }

  predicate NoSpace(s: string) {
    forall i :: 0 <= i < |s| ==> !IsSpace(s[i])
  }

  predicate AllSpace(s: string) {
    forall i :: 0 <= i < |s| ==> IsSpace(s[i])
  }

  predicate IsUpperLetter(c: char) { 'A' <= c <= 'Z' }

  predicate IsLowerLetter(c: char) { 'a' <= c <= 'z' }

  function UpperChar(c: char): char {
    if IsLowerLetter(c) then (c as int - 32) as char else c
  }

  function LowerChar(c: char): char {
    if IsUpperLetter(c) then (c as int + 32) as char else c
  }

  /** `s.upper()` */
  function Upper(s: string): (r: string)
    ensures |r| == |s|
    ensures forall i :: 0 <= i < |s| ==> r[i] == UpperChar(s[i])
  {
    seq(|s|, i requires 0 <= i < |s| => UpperChar(s[i]))
  }

  /** `s.lower()` */
  function Lower(s: string): (r: string)
    ensures |r| == |s|
    ensures forall i :: 0 <= i < |s| ==> r[i] == LowerChar(s[i]) && !IsUpperLetter(r[i])
  {
    seq(|s|, i requires 0 <= i < |s| => LowerChar(s[i]))
  }

  /** Lower-casing first does not change what upper-casing gives: the two compare case-insensitively. */
  lemma UpperOfLower(s: string)
    ensures Upper(Lower(s)) == Upper(s)
  {
    forall i | 0 <= i < |s| ensures Upper(Lower(s))[i] == Upper(s)[i] {
      var c := s[i];
      if IsUpperLetter(c) {
        assert LowerChar(c) as int == c as int + 32;
      }
    }
  }

  /** A string without lower-case letters is its own `upper()`. */
  lemma UpperIdentity(s: string)
    requires forall i :: 0 <= i < |s| ==> !IsLowerLetter(s[i])
    ensures Upper(s) == s
  {
  }

  /** A string without upper-case letters is its own `lower()`. */
  lemma LowerIdentity(s: string)
    requires forall i :: 0 <= i < |s| ==> !IsUpperLetter(s[i])
    ensures Lower(s) == s
  {
  }

  /** `s.strip()`: drop white space at both ends. */
  function Strip(s: string): (r: string)
    ensures |r| <= |s|
    ensures r != [] ==> !IsSpace(r[0]) && !IsSpace(r[|r| - 1])
  {
    StripLeft(StripRight(s))
  }

  function StripLeft(s: string): (r: string)
    ensures |r| <= |s|
    ensures r != [] ==> !IsSpace(r[0]) && r[|r| - 1] == s[|s| - 1]
    decreases |s|
  {
    if s != [] && IsSpace(s[0]) then StripLeft(s[1..]) else s
  }

  function StripRight(s: string): (r: string)
    ensures |r| <= |s|
    ensures r != [] ==> !IsSpace(r[|r| - 1])
    decreases |s|
  {
    if s != [] && IsSpace(s[|s| - 1]) then StripRight(s[..|s| - 1]) else s
  }

  /** `lstrip` removes a white-space prefix of `s` and keeps the rest. */
  lemma {:induction false} StripLeftMeaning(s: string)
    ensures exists k :: 0 <= k <= |s| && StripLeft(s) == s[k..] && AllSpace(s[..k])
    decreases |s|
  {
    if s != [] && IsSpace(s[0]) {
      var t := s[1..];
      StripLeftMeaning(t);
      var k :| 0 <= k <= |t| && StripLeft(t) == t[k..] && AllSpace(t[..k]);
      assert t[k..] == s[k + 1..];
      var p := s[..k + 1];
      forall i | 0 <= i < |p| ensures IsSpace(p[i]) {
        if i > 0 {
          assert p[i] == t[..k][i - 1];
        }
      }
    } else {
      assert s[0..] == s;
    }
  }

  /** `rstrip` removes a white-space suffix of `s` and keeps the rest. */
  lemma {:induction false} StripRightMeaning(s: string)
    ensures exists k :: 0 <= k <= |s| && StripRight(s) == s[..k] && AllSpace(s[k..])
    decreases |s|
  {
    if s != [] && IsSpace(s[|s| - 1]) {
      var t := s[..|s| - 1];
      StripRightMeaning(t);
      var k :| 0 <= k <= |t| && StripRight(t) == t[..k] && AllSpace(t[k..]);
      assert t[..k] == s[..k];
      var p := s[k..];
      forall i | 0 <= i < |p| ensures IsSpace(p[i]) {
        if i < |t| - k {
          assert p[i] == t[k..][i];
        }
      }
    } else {
      assert s[..|s|] == s;
    }
  }

  /** `s.strip()` is `s` with only white space removed, and only at its two ends. */
  lemma StripMeaning(s: string)
    ensures exists i, j :: 0 <= i <= j <= |s| && Strip(s) == s[i..j] && AllSpace(s[..i]) && AllSpace(s[j..])
  {
    StripRightMeaning(s);
    var j :| 0 <= j <= |s| && StripRight(s) == s[..j] && AllSpace(s[j..]);
    var u := s[..j];
    StripLeftMeaning(u);
    var i :| 0 <= i <= |u| && StripLeft(u) == u[i..] && AllSpace(u[..i]);
    assert u[i..] == s[i..j];
    assert u[..i] == s[..i];
  }

  /** `s.strip()` is empty exactly when `s` is all white space. */
  lemma StripEmpty(s: string)
    ensures Strip(s) == [] <==> AllSpace(s)
  {
    StripMeaning(s);
    var i, j :| 0 <= i <= j <= |s| && Strip(s) == s[i..j] && AllSpace(s[..i]) && AllSpace(s[j..]);
    if Strip(s) == [] {
      forall m | 0 <= m < |s| ensures IsSpace(s[m]) {
        if m < i {
          assert s[m] == s[..i][m];
        } else {
          assert s[m] == s[j..][m - j];
        }
      }
    }
  }

  /** Stripping a string that already starts and ends with a non-space character changes nothing. */
  lemma StripTrimmed(s: string)
    requires s != [] && !IsSpace(s[0]) && !IsSpace(s[|s| - 1])
    ensures Strip(s) == s
  {
    assert StripRight(s) == s;
    assert StripLeft(s) == s;
  }

  /** A trailing white-space character (the newline `readlines` keeps) is removed by `strip`. */
  lemma StripTrailingSpace(s: string, c: char)
    requires IsSpace(c)
    ensures Strip(s + [c]) == Strip(s)
  {
    var t := s + [c];
    assert t[..|t| - 1] == s;
    assert StripRight(t) == StripRight(s);
  }

  /** Length of the maximal non-space prefix of `s`. */
  function TokenLength(s: string): (k: nat)
    ensures k <= |s|
    ensures forall i :: 0 <= i < k ==> !IsSpace(s[i])
    ensures k < |s| ==> IsSpace(s[k])
    ensures s != [] && !IsSpace(s[0]) ==> k >= 1
    decreases |s|
  {
    if s == [] || IsSpace(s[0]) then 0 else 1 + TokenLength(s[1..])
  }

  /** `s.split()`: the maximal runs of non-space characters, in order. */
  function Split(s: string): (r: seq<string>)
    decreases |s|
  {
    if s == [] then []
    else if IsSpace(s[0]) then Split(s[1..])
    else
      var k := TokenLength(s);
      [s[..k]] + Split(s[k..])
  }

  lemma {:induction false} TokenLengthOfWord(w: string, rest: string)
    requires NoSpace(w)
    requires rest == [] || IsSpace(rest[0])
    ensures TokenLength(w + rest) == |w|
    decreases |w|
  {
    if w != [] {
      assert (w + rest)[1..] == w[1..] + rest;
      TokenLengthOfWord(w[1..], rest);
    }
  }

  lemma SplitWord(w: string)
    requires w != [] && NoSpace(w)
    ensures Split(w) == [w]
  {
    TokenLengthOfWord(w, []);
    assert w + [] == w;
  }

  /** A line `name value` with two space-free words splits into exactly those two words. */
  lemma SplitTwoWords(a: string, b: string)
    requires a != [] && NoSpace(a)
    requires b != [] && NoSpace(b)
    ensures Split(a + " " + b) == [a, b]
  {
    var s := a + " " + b;
    TokenLengthOfWord(a, " " + b);
    assert s == a + (" " + b);
    assert s[..|a|] == a;
    assert s[|a|..] == " " + b;
    assert (" " + b)[1..] == b;
    SplitWord(b);
  }

  function DigitChar(d: nat): (c: char)
    requires d < 10
    ensures '0' <= c <= '9'
  {
    "0123456789"[d]
  }

  predicate IsDigit(c: char) { '0' <= c <= '9' }

  /** Decimal digits of a natural number, most significant first. */
  function NatToString(n: nat): (r: string)
    ensures r != []
    ensures forall i :: 0 <= i < |r| ==> IsDigit(r[i])
    decreases n
  {
    if n < 10 then [DigitChar(n)] else NatToString(n / 10) + [DigitChar(n % 10)]
  }

  /** `str(i)` for an integer: an optional minus sign, then the decimal digits. */
  function IntToString(i: int): (r: string)
    ensures r != [] && NoSpace(r)
    ensures forall k :: 0 <= k < |r| ==> IsDigit(r[k]) || r[k] == '-'
    ensures r[0] != '#'
  {
    if i < 0 then "-" + NatToString(-i) else NatToString(i)
  }

  /** `sep.join(parts)` */
  function Join(parts: seq<string>, sep: string): string
  {
    if |parts| == 0 then ""
    else if |parts| == 1 then parts[0]
    else parts[0] + sep + Join(parts[1..], sep)
  }

  /** The lines of a text concatenated back together. */
  function Concat(lines: seq<string>): string
  {
    if lines == [] then "" else lines[0] + Concat(lines[1..])
  }

  lemma AppendAssociative<T>(a: seq<T>, b: seq<T>, c: seq<T>)
    ensures (a + b) + c == a + (b + c)
  {
  }

  /** Appending one more line to a text appends it to the concatenation. */
  lemma {:induction false} ConcatSnoc(lines: seq<string>, l: string)
    ensures Concat(lines + [l]) == Concat(lines) + l
  {
    if lines == [] {
      assert [l][1..] == [];
    } else {
      assert (lines + [l])[1..] == lines[1..] + [l];
      ConcatSnoc(lines[1..], l);
    }
  }

  /** Lower-casing keeps a space-free string space-free. */
  lemma LowerNoSpace(s: string)
    requires NoSpace(s)
    ensures NoSpace(Lower(s))
  {
    forall i | 0 <= i < |s| ensures !IsSpace(Lower(s)[i]) {
      if IsUpperLetter(s[i]) {
        assert LowerChar(s[i]) as int == s[i] as int + 32;
      }
    }
  }

  /** Length of the first line of `s`, its newline included when there is one. */
  function LineLength(s: string): (k: nat)
    ensures k <= |s|
    ensures s != [] ==> k >= 1
    ensures forall i :: 0 <= i < k - 1 ==> s[i] != '\n'
    ensures 0 < k < |s| ==> s[k - 1] == '\n'
    decreases |s|
  {
    if s == [] then 0
    else if s[0] == '\n' then 1
    else 1 + LineLength(s[1..])
  }

  /** `readlines()`: the text cut after every newline, each piece keeping its newline. */
  function ReadLines(s: string): (r: seq<string>)
    decreases |s|
  {
    if s == [] then [] else
      var k := LineLength(s);
      [s[..k]] + ReadLines(s[k..])
  }

  /** A line as a writer emits it: non-empty, ending in its only newline. */
  predicate IsTerminatedLine(l: string) {
    l != [] && l[|l| - 1] == '\n' && forall i :: 0 <= i < |l| - 1 ==> l[i] != '\n'
  }

  lemma {:induction false} LineLengthOfTerminated(l: string, rest: string)
    requires IsTerminatedLine(l)
    ensures LineLength(l + rest) == |l|
    decreases |l|
  {
    if |l| > 1 {
      assert (l + rest)[1..] == l[1..] + rest;
      LineLengthOfTerminated(l[1..], rest);
    }
  }

  /** Reading back the concatenation of newline-terminated lines gives exactly those lines. */
  lemma {:induction false} ReadLinesOfConcat(lines: seq<string>)
    requires forall k :: 0 <= k < |lines| ==> IsTerminatedLine(lines[k])
    ensures ReadLines(Concat(lines)) == lines
  {
    if lines != [] {
      var s := Concat(lines);
      LineLengthOfTerminated(lines[0], Concat(lines[1..]));
      assert s[..|lines[0]|] == lines[0];
      assert s[|lines[0]|..] == Concat(lines[1..]);
      ReadLinesOfConcat(lines[1..]);
    }
  }
}
