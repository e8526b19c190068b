// The few Python string operations the DCD text format is read and written with:
// `str.split('\n')`, `str.rstrip('\0')`, `str.split()`, `int(s)` and `int(s, 0)`,
// and the `{:d}` / `{:08X}` formats.
module PyText {
  import opened Base

  // ---------------------------------------------------------------------------
  // Lines

  /** `s.split('\n')`: the pieces between newlines; there is always at least one. */
  function SplitLines(s: string): (r: seq<string>)
    ensures |r| >= 1
    ensures forall i :: 0 <= i < |r| ==> '\n' !in r[i]
    decreases |s|
  {
    if |s| == 0 then [""]
    else
      var rest := SplitLines(s[1..]);
      if s[0] == '\n' then [""] + rest
      else [[s[0]] + rest[0]] + rest[1..]
  }

  /** `'\n'.join(lines)`. */
  function JoinLines(lines: seq<string>): string
  {
    if |lines| == 0 then ""
    else if |lines| == 1 then lines[0]
    else lines[0] + "\n" + JoinLines(lines[1..])
  }

  /** Every line followed by a newline: the text `txt_data += line + "\n"` builds. */
  function Terminated(lines: seq<string>): string
  {
    if |lines| == 0 then "" else lines[0] + "\n" + Terminated(lines[1..])
  }

  /** A line with no newline in it, followed by a newline, splits off as one piece. */
  lemma {:induction false} SplitFirstLine(line: string, rest: string)
    requires '\n' !in line
    ensures SplitLines(line + "\n" + rest) == [line] + SplitLines(rest)
    decreases |line|
  {
    var s := line + "\n" + rest;
    if |line| == 0 {
      assert s == "\n" + rest;
      assert s[1..] == rest;
    } else {
      assert s[1..] == line[1..] + "\n" + rest;
      SplitFirstLine(line[1..], rest);
      assert [s[0]] + line[1..] == line;
    }
  }

  /** Splitting newline-terminated lines gives them back, then the empty piece after the last newline. */
  lemma {:induction false} SplitTerminated(lines: seq<string>, rest: string)
    requires forall i :: 0 <= i < |lines| ==> '\n' !in lines[i]
    ensures SplitLines(Terminated(lines) + rest) == lines + SplitLines(rest)
    decreases |lines|
  {
    if |lines| > 0 {
      SplitTerminated(lines[1..], rest);
      assert Terminated(lines) + rest == lines[0] + "\n" + (Terminated(lines[1..]) + rest);
      SplitFirstLine(lines[0], Terminated(lines[1..]) + rest);
      calc {
        SplitLines(Terminated(lines) + rest);
        SplitLines(lines[0] + "\n" + (Terminated(lines[1..]) + rest));
        [lines[0]] + SplitLines(Terminated(lines[1..]) + rest);
        [lines[0]] + (lines[1..] + SplitLines(rest));
        { assert lines == [lines[0]] + lines[1..]; }
        lines + SplitLines(rest);
      }
    } else {
      assert Terminated(lines) + rest == rest;
    }
  }

  lemma {:induction false} TerminatedConcat(a: seq<string>, b: seq<string>)
    ensures Terminated(a + b) == Terminated(a) + Terminated(b)
    decreases |a|
  {
    if |a| > 0 {
      assert (a + b)[1..] == a[1..] + b;
      TerminatedConcat(a[1..], b);
    } else {
      assert a + b == b;
    }
  }

  /** One more line adds that line and its newline to the text. */
  lemma {:induction false} TerminatedSnoc(a: seq<string>, line: string)
    ensures Terminated(a + [line]) == Terminated(a) + (line + "\n")
  {
    TerminatedConcat(a, [line]);
    assert [line][1..] == [];
    assert Terminated([line]) == line + "\n" + Terminated([]);
  }

  /** Appending one line to text that ends with the lines so far. */
  lemma {:induction false} AppendLine(txt: string, out: string, a: seq<string>, line: string, whole: seq<string>)
    requires whole == a + [line] && out == txt + Terminated(a)
    ensures out + (line + "\n") == txt + Terminated(whole)
  {
    TerminatedSnoc(a, line);
  }

  /** Joining what `split('\n')` produced gives the text back. */
  lemma {:induction false} JoinSplit(s: string)
    ensures JoinLines(SplitLines(s)) == s
    decreases |s|
  {
    if |s| > 0 {
      var rest := SplitLines(s[1..]);
      JoinSplit(s[1..]);
      if s[0] == '\n' {
        assert SplitLines(s) == [""] + rest;
        assert SplitLines(s)[1..] == rest;
        assert s == "" + "\n" + s[1..];
      } else {
        var l := SplitLines(s);
        assert l[0] == [s[0]] + rest[0] && l[1..] == rest[1..];
        if |rest| == 1 {
          assert s == [s[0]] + rest[0];
        } else {
          assert JoinLines(rest) == rest[0] + "\n" + JoinLines(rest[1..]);
          assert s == [s[0]] + s[1..];
        }
      }
    }
  }

  /** `line.rstrip('\0')`: the longest prefix that drops only trailing NUL characters. */
  function RStripNul(s: string): (r: string)
    ensures |r| <= |s| && r == s[..|r|]
    ensures |r| > 0 ==> r[|r| - 1] != '\0'
    ensures forall i :: |r| <= i < |s| ==> s[i] == '\0'
    decreases |s|
  {
    if |s| > 0 && s[|s| - 1] == '\0' then RStripNul(s[..|s| - 1]) else s
  }

  // ---------------------------------------------------------------------------
  // Words

  /** The ASCII characters `str.split()` separates on (tab to carriage return, the four separators, space). */
  predicate IsSpace(c: char)
  {
    (9 <= c as int <= 13) || (28 <= c as int <= 32)
  }

  /** A word of `str.split()`: non-empty, without whitespace. */
  predicate IsWord(t: string)
  {
    |t| > 0 && forall i :: 0 <= i < |t| ==> !IsSpace(t[i])
  }

  /** The length of the run of non-space characters at the start of `s`. */
  function WordLength(s: string): (n: nat)
    ensures n <= |s|
    ensures forall i :: 0 <= i < n ==> !IsSpace(s[i])
    ensures n < |s| ==> IsSpace(s[n])
    decreases |s|
  {
    if |s| == 0 || IsSpace(s[0]) then 0 else 1 + WordLength(s[1..])
  }

  /** `s.split()`: the maximal runs of non-space characters, in order. */
  function Words(s: string): (r: seq<string>)
    ensures forall i :: 0 <= i < |r| ==> IsWord(r[i])
    decreases |s|
  {
    if |s| == 0 then []
    else if IsSpace(s[0]) then Words(s[1..])
    else
      var n := WordLength(s);
      [s[..n]] + Words(s[n..])
  }

  /** `' '.join(words)`. */
  function JoinWords(words: seq<string>): string
  {
    if |words| == 0 then ""
    else if |words| == 1 then words[0]
    else words[0] + " " + JoinWords(words[1..])
  }

  lemma {:induction false} WordLengthOfWord(t: string, s: string)
    requires IsWord(t) && (|s| == 0 || IsSpace(s[0]))
    ensures WordLength(t + s) == |t|
    decreases |t|
  {
    var u := t + s;
    assert u[1..] == t[1..] + s;
    if |t| > 1 {
      WordLengthOfWord(t[1..], s);
    } else {
      assert u[1..] == s;
    }
  }

  /** A word followed by a separator (or nothing) is the first of the words. */
  lemma {:induction false} WordsOfWordThen(t: string, s: string)
    requires IsWord(t) && (|s| == 0 || IsSpace(s[0]))
    ensures Words(t + s) == [t] + Words(s)
  {
    var u := t + s;
    WordLengthOfWord(t, s);
    assert u[..|t|] == t && u[|t|..] == s;
  }

  /** `split()` undoes `' '.join` of words. */
  lemma {:induction false} WordsJoin(words: seq<string>)
    requires forall i :: 0 <= i < |words| ==> IsWord(words[i])
    ensures Words(JoinWords(words)) == words
    decreases |words|
  {
    if |words| == 1 {
      WordsOfWordThen(words[0], "");
      assert words[0] + "" == words[0];
    } else if |words| > 1 {
      var rest := JoinWords(words[1..]);
      WordsJoin(words[1..]);
      var tail := " " + rest;
      assert IsSpace(tail[0]) && tail[1..] == rest;
      assert JoinWords(words) == words[0] + tail;
      WordsOfWordThen(words[0], tail);
      assert words == [words[0]] + words[1..];
    }
  }

  // ---------------------------------------------------------------------------
  // Integer literals

  /** The value of a digit or letter as Python reads it in bases up to 36; 36 for anything else. */
  function DigitValue(c: char): (v: nat)
    ensures v <= 36
  {
    if '0' <= c <= '9' then c as int - '0' as int
    else if 'a' <= c <= 'z' then c as int - 'a' as int + 10
    else if 'A' <= c <= 'Z' then c as int - 'A' as int + 10
    else 36
  }

  /** A non-empty run of digits of `base`. */
  predicate DigitsIn(s: string, base: nat)
  {
    |s| > 0 && forall i :: 0 <= i < |s| ==> DigitValue(s[i]) < base
  }

  /** The number the digits denote, most significant first. */
  function ValueOf(s: string, base: nat): nat
    decreases |s|
  {
    if |s| == 0 then 0 else ValueOf(s[..|s| - 1], base) * base + DigitValue(s[|s| - 1])
  }

  /** The digits of `s` in `base`, or ValueError. */
  function Digits(s: string, base: nat): (r: Result<nat>)
    ensures r.Success? <==> DigitsIn(s, base)
    ensures r.Failure? ==> r.error == ValueErr
  {
    if DigitsIn(s, base) then Success(ValueOf(s, base)) else Failure(ValueErr)
  }

  /** The sign a literal starts with and the rest. */
  function Unsigned(s: string): (string, bool)
  {
    if |s| > 0 && (s[0] == '-' || s[0] == '+') then (s[1..], s[0] == '-') else (s, false)
  }

  /** `int(s)`: an optional sign, then decimal digits. */
  function IntDecimal(s: string): (r: Result<int>)
    ensures r.Success? <==> DigitsIn(Unsigned(s).0, 10)
  {
    var (u, neg) := Unsigned(s);
    var m :- Digits(u, 10);
    var v: int := if neg then -(m as int) else m;
    Success(v)
  }

  /** A decimal literal in Python source: no leading zero unless every digit is zero. */
  predicate DecimalLiteral(u: string)
  {
    DigitsIn(u, 10) && (u[0] != '0' || forall i :: 0 <= i < |u| ==> u[i] == '0')
  }

  /** The magnitude `int(u, 0)` reads: a 0x/0o/0b prefix picks the base, else a decimal literal. */
  function Magnitude(u: string): (r: Result<nat>)
    ensures r.Failure? ==> r.error == ValueErr
  {
    if |u| >= 2 && u[0] == '0' && (u[1] == 'x' || u[1] == 'X') then Digits(u[2..], 16)
    else if |u| >= 2 && u[0] == '0' && (u[1] == 'o' || u[1] == 'O') then Digits(u[2..], 8)
    else if |u| >= 2 && u[0] == '0' && (u[1] == 'b' || u[1] == 'B') then Digits(u[2..], 2)
    else if DecimalLiteral(u) then Success(ValueOf(u, 10))
    else Failure(ValueErr)
  }

  /** `int(s, 0)`: an optional sign, then a literal whose prefix names its base. */
  function IntAuto(s: string): (r: Result<int>)
    ensures r.Failure? ==> r.error == ValueErr
    ensures r.Success? && (|s| == 0 || s[0] != '-') ==> r.value >= 0
  {
    var (u, neg) := Unsigned(s);
    var m :- Magnitude(u);
    var v: int := if neg then -(m as int) else m;
    Success(v)
  }

  // ---------------------------------------------------------------------------
  // Formats

  const DECIMAL: string := "0123456789"
  const HEX_UPPER: string := "0123456789ABCDEF"

  function Pow16(n: nat): (p: nat)
    ensures p >= 1
  {
    if n == 0 then 1 else 16 * Pow16(n - 1)
  }

  /** `'{:0nX}'.format(x)` for an `x` below 16^n: exactly `n` upper-case digits. */
  function HexDigits(x: nat, n: nat): (s: string)
    ensures |s| == n
  {
    if n == 0 then "" else HexDigits(x / 16, n - 1) + [HEX_UPPER[x % 16]]
  }

  /** `'{:d}'.format(x)` for a natural number. */
  function DecimalOf(x: nat): (s: string)
    ensures |s| > 0
    decreases x
  {
    if x < 10 then [DECIMAL[x]] else DecimalOf(x / 10) + [DECIMAL[x % 10]]
  }

  /** `'0x{:08X}'.format(x)`: the form the DCD text writes addresses and values in. */
  function Hex32(x: nat): string
  {
    "0x" + HexDigits(x, 8)
  }

  lemma {:induction false} HexDigitValues()
    ensures forall d :: 0 <= d < 16 ==> DigitValue(HEX_UPPER[d]) == d
  {
  }

  lemma {:induction false} DecimalDigitValues()
    ensures forall d :: 0 <= d < 10 ==> DigitValue(DECIMAL[d]) == d
  {
  }

  lemma {:induction false} ValueOfSnoc(s: string, c: char, base: nat)
    ensures ValueOf(s + [c], base) == ValueOf(s, base) * base + DigitValue(c)
  {
    assert (s + [c])[..|s|] == s;
  }

  /** The upper-case digits read back, in base 16, as the number they were written from. */
  lemma {:induction false} HexDigitsValue(x: nat, n: nat)
    requires x < Pow16(n)
    ensures ValueOf(HexDigits(x, n), 16) == x
    ensures forall i :: 0 <= i < n ==> DigitValue(HexDigits(x, n)[i]) < 16
    decreases n
  {
    HexDigitValues();
    if n == 0 {
      assert x == 0;
    } else {
      var q, d := x / 16, x % 16;
      assert x == 16 * q + d;
      assert q < Pow16(n - 1);
      HexDigitsValue(q, n - 1);
      ValueOfSnoc(HexDigits(q, n - 1), HEX_UPPER[d], 16);
      var s := HexDigits(x, n);
      assert s == HexDigits(q, n - 1) + [HEX_UPPER[d]];
      forall i | 0 <= i < n
        ensures DigitValue(s[i]) < 16
      {
        if i < n - 1 {
          assert s[i] == HexDigits(q, n - 1)[i];
        }
      }
    }
  }

  /** The decimal digits read back as the number, and start with a zero only for zero itself. */
  lemma {:induction false} DecimalOfValue(x: nat)
    ensures DigitsIn(DecimalOf(x), 10) && ValueOf(DecimalOf(x), 10) == x
    ensures DecimalOf(x)[0] == '0' <==> x == 0
    decreases x
  {
    DecimalDigitValues();
    var s := DecimalOf(x);
    if x < 10 {
      assert s == [DECIMAL[x]];
      assert s[..0] == "";
    } else {
      var q, d := x / 10, x % 10;
      DecimalOfValue(q);
      ValueOfSnoc(DecimalOf(q), DECIMAL[d], 10);
      assert s == DecimalOf(q) + [DECIMAL[d]];
      assert s[0] == DecimalOf(q)[0];
      forall i | 0 <= i < |s|
        ensures DigitValue(s[i]) < 10
      {
        if i < |s| - 1 {
          assert s[i] == DecimalOf(q)[i];
        }
      }
    }
  }

  lemma {:induction false} Pow16Eight()
    ensures Pow16(8) == 0x1_0000_0000
  {
    assert Pow16(4) == 0x1_0000;
  }

  /** `int('0x{:08X}'.format(x), 0) == x` for every 32-bit `x`. */
  lemma {:induction false} IntAutoHex32(x: nat)
    requires x < 0x1_0000_0000
    ensures IntAuto(Hex32(x)) == Success(x)
  {
    Pow16Eight();
    HexDigitsValue(x, 8);
    var s := Hex32(x);
    assert Unsigned(s) == (s, false);
    assert s[2..] == HexDigits(x, 8);
  }

  /** `int('{:d}'.format(x)) == x`. */
  lemma {:induction false} IntDecimalOf(x: nat)
    ensures IntDecimal(DecimalOf(x)) == Success(x)
  {
    DecimalOfValue(x);
    var s := DecimalOf(x);
    DecimalDigitValues();
    assert DigitValue(s[0]) < 10;
    assert s[0] != '-' && s[0] != '+';
  }

  /** `int('{:d}'.format(x), 0) == x` for a positive `x`: no leading zero, no base prefix. */
  lemma {:induction false} IntAutoDecimalOf(x: nat)
    requires x > 0
    ensures IntAuto(DecimalOf(x)) == Success(x)
  {
    DecimalOfValue(x);
    var s := DecimalOf(x);
    assert DigitValue(s[0]) < 10;
    assert s[0] != '-' && s[0] != '+';
    assert Unsigned(s) == (s, false);
    if |s| >= 2 {
      assert DigitValue(s[1]) < 10;
    }
  }

  /** The upper-case hexadecimal digits contain no whitespace, so `0x…` is one word. */
  lemma {:induction false} Hex32IsWord(x: nat)
    ensures IsWord(Hex32(x)) && |Hex32(x)| == 10
    ensures Hex32(x)[9] != '\0' && '\n' !in Hex32(x)
  {
    var s := Hex32(x);
    forall i | 2 <= i < 10
      ensures s[i] in HEX_UPPER
    {
      HexDigitsIn(x, 8, i - 2);
    }
  }

  lemma {:induction false} HexDigitsIn(x: nat, n: nat, i: nat)
    requires i < n
    ensures HexDigits(x, n)[i] in HEX_UPPER
    decreases n
  {
    if i < n - 1 {
      HexDigitsIn(x / 16, n - 1, i);
    }
  }

  lemma {:induction false} DecimalOfIsWord(x: nat)
    ensures IsWord(DecimalOf(x))
    ensures forall i :: 0 <= i < |DecimalOf(x)| ==> DecimalOf(x)[i] in DECIMAL
    decreases x
  {
    var s := DecimalOf(x);
    if x >= 10 {
      DecimalOfIsWord(x / 10);
      assert s == DecimalOf(x / 10) + [DECIMAL[x % 10]];
      assert forall i :: 0 <= i < |s| - 1 ==> s[i] == DecimalOf(x / 10)[i];
    }
  }
}
