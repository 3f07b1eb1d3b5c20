/** The JavaScript string operations that the modelled code relies on.
    A JavaScript string is modelled as a `string`, a sequence of Unicode
    scalar values: lengths and indices agree with JavaScript's UTF-16 code
    units only for characters of the Basic Multilingual Plane. */
module JsStrings {

  /** `s.slice(n)` for a non-negative `n`: drops the first `n` characters,
      or everything when `n` is at least the length. */
  function Slice(s: string, n: nat): (r: string)
    ensures n <= |s| ==> r == s[n..]
    ensures n > |s| ==> r == ""
  {
    if n <= |s| then s[n..] else ""
  }

  /** `s.startsWith(p)` */
  predicate StartsWith(s: string, p: string) {
    |p| <= |s| && s[..|p|] == p
  }

  /** True when `pat` occurs somewhere in `s` (`s.includes(pat)`). */
  predicate HasInfix(s: string, pat: string)
    decreases |s|
  {
    StartsWith(s, pat) || (|s| > 0 && HasInfix(s[1..], pat))
  }

  /** `s.replace(pat, rep)` with a string pattern: only the first occurrence
      of `pat` is replaced. */
  function ReplaceFirst(s: string, pat: string, rep: string): (r: string)
    decreases |s|
  {
    if StartsWith(s, pat) then rep + s[|pat|..]
    else if |s| == 0 then s
    else [s[0]] + ReplaceFirst(s[1..], pat, rep)
  }

  /** Replacing a pattern that does not occur changes nothing. */
  lemma {:induction false} ReplaceFirstAbsent(s: string, pat: string, rep: string)
    requires !HasInfix(s, pat)
    ensures ReplaceFirst(s, pat, rep) == s
  {
    if |s| > 0 {
      ReplaceFirstAbsent(s[1..], pat, rep);
    }
  }

  /** Replacing a one-character pattern that `x` does not contain replaces
      the occurrence right after `x`. */
  lemma {:induction false} ReplaceFirstChar(x: string, c: char, rep: string, rest: string)
    requires c !in x
    ensures ReplaceFirst(x + [c] + rest, [c], rep) == x + rep + rest
  {
    if |x| == 0 {
      assert x + [c] + rest == [c] + rest;
    } else {
      assert (x + [c] + rest)[1..] == x[1..] + [c] + rest;
      ReplaceFirstChar(x[1..], c, rep, rest);
    }
  }

  /** `name.replace('.js', '')` on `x + ".js"` gives back `x` when `x` does not
      itself contain ".js": the first occurrence is the extension. */
  lemma {:induction false} StripJsExtension(x: string)
    requires !HasInfix(x, ".js")
    ensures ReplaceFirst(x + ".js", ".js", "") == x
  {
    var s := x + ".js";
    if |x| == 0 {
      assert s == ".js";
    } else {
      assert !StartsWith(s, ".js") by {
        if |x| >= 3 {
          assert s[..3] == x[..3];
          assert StartsWith(x, ".js") ==> HasInfix(x, ".js");
        } else if |x| == 2 {
          assert s[2] == '.';
        } else {
          assert s[1] == '.';
        }
      }
      assert s[1..] == x[1..] + ".js";
      StripJsExtension(x[1..]);
    }
  }

  /** `ch` as an ASCII upper-case letter when it is a lower-case one. */
  function UpperChar(ch: char): char {
    if 'a' <= ch <= 'z' then (ch as int - 32) as char else ch
  }

  /** `s.toUpperCase()` restricted to ASCII letters. */
  function ToUpperAscii(s: string): (r: string)
    ensures |r| == |s|
    ensures forall i :: 0 <= i < |r| ==> r[i] == UpperChar(s[i])
  {
    if s == "" then "" else [UpperChar(s[0])] + ToUpperAscii(s[1..])
  }

  /** The characters `String.prototype.trim` removes: the ECMAScript
      WhiteSpace and LineTerminator code points. */
  const JsWhitespace: set<char> := {
    '\t', '\n', '\U{000B}', '\U{000C}', '\r', ' ', '\U{00A0}', '\U{1680}',
    '\U{2000}', '\U{2001}', '\U{2002}', '\U{2003}', '\U{2004}', '\U{2005}',
    '\U{2006}', '\U{2007}', '\U{2008}', '\U{2009}', '\U{200A}',
    '\U{2028}', '\U{2029}', '\U{202F}', '\U{205F}', '\U{3000}', '\U{FEFF}'
  }

  predicate IsJsWhitespace(ch: char) {
    ch in JsWhitespace
  }

  /** `s.split(c)` with a one-character separator: the maximal pieces between
      separators, at least one (`"".split(",")` is `[""]`). */
  function Split(s: string, c: char): (parts: seq<string>)
    ensures |parts| >= 1
    decreases |s|
  {
    if |s| == 0 then [""]
    else
      var rest := Split(s[1..], c);
      if s[0] == c then [""] + rest
      else [[s[0]] + rest[0]] + rest[1..]
  }

  /** `parts.join(sep)` */
  function Join(parts: seq<string>, sep: string): string {
    if |parts| == 0 then ""
    else if |parts| == 1 then parts[0]
    else parts[0] + sep + Join(parts[1..], sep)
  }

  /** Splitting and joining with the same separator gives back the string. */
  lemma {:induction false} JoinSplit(s: string, c: char)
    ensures Join(Split(s, c), [c]) == s
  {
    if |s| > 0 {
      JoinSplit(s[1..], c);
      var rest := Split(s[1..], c);
      if s[0] == c {
        assert Split(s, c) == [""] + rest;
        assert ([""] + rest)[1..] == rest;
      } else {
        var parts := Split(s, c);
        assert parts == [[s[0]] + rest[0]] + rest[1..];
        if |rest| == 1 {
          assert parts == [[s[0]] + rest[0]];
        } else {
          assert parts[1..] == rest[1..];
          assert Join(rest, [c]) == rest[0] + [c] + Join(rest[1..], [c]);
        }
      }
    }
  }

  /** A separator splits the string into the pieces on its two sides. */
  lemma {:induction false} SplitAround(a: string, c: char, b: string)
    ensures Split(a + [c] + b, c) == Split(a, c) + Split(b, c)
  {
    if |a| == 0 {
      assert a + [c] + b == [c] + b;
      assert ([c] + b)[1..] == b;
    } else {
      assert (a + [c] + b)[1..] == a[1..] + [c] + b;
      SplitAround(a[1..], c, b);
    }
  }

  /** A string free of the separator splits into itself alone. */
  lemma {:induction false} SplitWithout(s: string, c: char)
    requires c !in s
    ensures Split(s, c) == [s]
  {
    if |s| > 0 {
      SplitWithout(s[1..], c);
      assert [s[0]] + s[1..] == s;
    }
  }

  /** The first piece of a split is a prefix of the string. */
  lemma {:induction false} SplitFirstIsPrefix(s: string, c: char)
    ensures StartsWith(s, Split(s, c)[0])
    decreases |s|
  {
    if |s| > 0 && s[0] != c {
      SplitFirstIsPrefix(s[1..], c);
      var first := Split(s[1..], c)[0];
      assert Split(s, c)[0] == [s[0]] + first;
      assert s[..|first| + 1] == [s[0]] + s[1..][..|first|];
    }
  }

  /** `s.trimStart()` */
  function TrimStart(s: string): string
    decreases |s|
  {
    if |s| > 0 && IsJsWhitespace(s[0]) then TrimStart(s[1..]) else s
  }

  /** `trimStart` drops exactly the leading whitespace: what remains is a
      suffix that is empty or starts with a non-whitespace character, and
      everything dropped is whitespace. */
  lemma {:induction false} TrimStartSpec(s: string)
    ensures |TrimStart(s)| <= |s| && TrimStart(s) == s[|s| - |TrimStart(s)|..]
    ensures TrimStart(s) == "" || !IsJsWhitespace(TrimStart(s)[0])
    ensures forall i :: 0 <= i < |s| - |TrimStart(s)| ==> IsJsWhitespace(s[i])
    decreases |s|
  {
    if |s| > 0 && IsJsWhitespace(s[0]) {
      TrimStartSpec(s[1..]);
      forall i | 0 <= i < |s| - |TrimStart(s)| ensures IsJsWhitespace(s[i]) {
        if i > 0 {
          assert s[i] == s[1..][i - 1];
        }
      }
    }
  }

  /** `s.trimEnd()` */
  function TrimEnd(s: string): string
    decreases |s|
  {
    if |s| > 0 && IsJsWhitespace(s[|s| - 1]) then TrimEnd(s[..|s| - 1]) else s
  }

  /** `trimEnd` drops exactly the trailing whitespace. */
  lemma {:induction false} TrimEndSpec(s: string)
    ensures |TrimEnd(s)| <= |s| && TrimEnd(s) == s[..|TrimEnd(s)|]
    ensures TrimEnd(s) == "" || !IsJsWhitespace(TrimEnd(s)[|TrimEnd(s)| - 1])
    ensures forall i :: |TrimEnd(s)| <= i < |s| ==> IsJsWhitespace(s[i])
    decreases |s|
  {
    if |s| > 0 && IsJsWhitespace(s[|s| - 1]) {
      TrimEndSpec(s[..|s| - 1]);
      forall i | |TrimEnd(s)| <= i < |s| ensures IsJsWhitespace(s[i]) {
        if i < |s| - 1 {
          assert s[i] == s[..|s| - 1][i];
        }
      }
    }
  }

  /** A string that does not start with whitespace is its own `trimStart`. */
  lemma TrimStartUnchanged(s: string)
    requires s == "" || !IsJsWhitespace(s[0])
    ensures TrimStart(s) == s
  {
  }

  /** A string that does not end with whitespace is its own `trimEnd`. */
  lemma TrimEndUnchanged(s: string)
    requires s == "" || !IsJsWhitespace(s[|s| - 1])
    ensures TrimEnd(s) == s
  {
  }

  /** `s.trim()` */
  function Trim(s: string): string {
    TrimEnd(TrimStart(s))
  }

  /** `trim` leaves no whitespace at either end, and removes only
      whitespace: the result is a slice of the input with whitespace on
      both sides of it. */
  lemma TrimSpec(s: string)
    ensures Trim(s) == "" || (!IsJsWhitespace(Trim(s)[0]) && !IsJsWhitespace(Trim(s)[|Trim(s)| - 1]))
    ensures exists i, j ::
      (0 <= i <= j <= |s| && Trim(s) == s[i..j] &&
       (forall k :: 0 <= k < i ==> IsJsWhitespace(s[k])) && (forall k :: j <= k < |s| ==> IsJsWhitespace(s[k])))
  {
    TrimStartSpec(s);
    var t := TrimStart(s);
    TrimEndSpec(t);
    var r := TrimEnd(t);
    var i := |s| - |t|;
    var j := i + |r|;
    assert r == s[i..j];
    if r != "" {
      assert r[0] == t[0];
    }
    forall k | j <= k < |s| ensures IsJsWhitespace(s[k]) {
      assert s[k] == t[k - i];
    }
  }

  /** The decimal digit for `d`. */
  function DigitChar(d: nat): char
    requires d < 10
  {
    ('0' as int + d) as char
  }

  /** `String(n)` for a non-negative integer: its decimal representation. */
  function NatToString(n: nat): (r: string)
    ensures |r| >= 1
    ensures forall i :: 0 <= i < |r| ==> '0' <= r[i] <= '9'
  {
    if n < 10 then [DigitChar(n)] else NatToString(n / 10) + [DigitChar(n % 10)]
  }

  /** The value of a string of decimal digits. */
  function DecimalValue(s: string): nat
    requires forall i :: 0 <= i < |s| ==> '0' <= s[i] <= '9'
  {
    if s == "" then 0 else 10 * DecimalValue(s[..|s| - 1]) + (s[|s| - 1] as int - '0' as int)
  }

  /** The decimal representation reads back as the number it was made from. */
  lemma {:induction false} NatToStringRoundTrip(n: nat)
    ensures DecimalValue(NatToString(n)) == n
  {
    var r := NatToString(n);
    var d := n % 10;
    DigitCharValue(d);
    if n >= 10 {
      NatToStringRoundTrip(n / 10);
      assert r == NatToString(n / 10) + [DigitChar(d)];
      assert r[..|r| - 1] == NatToString(n / 10);
      assert r[|r| - 1] == DigitChar(d);
      assert DecimalValue(r) == 10 * (n / 10) + d;
    } else {
      assert r == [DigitChar(n)];
      assert r[..0] == "";
    }
  }

  lemma DigitCharValue(d: nat)
    requires d < 10
    ensures DigitChar(d) as int - '0' as int == d
  {
  }
}
