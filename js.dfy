/** The JavaScript built-ins the SMTP client is written with, stated over Dafny
    strings: `split` on a one-character separator, `Array.prototype.join`,
    `substr`, `trim`, `toUpperCase`, `parseInt`, number-to-string, the `\s`
    character class and `replace(/\s\s+/g, ' ')`. */
module Js {

  /** `undefined` (or `null`) versus a present value. */
  datatype Option<+T> = None | Some(value: T)

  /** A JavaScript number as `parseInt` produces it: an integer or NaN. */
  datatype Number = Int(value: int) | NaN

  /** ECMAScript LineTerminator: what `.` does not match and what `^` follows in multiline mode. */
  predicate IsLineTerminator(c: char) {
    c == '\n' || c == '\r' || c == '\U{2028}' || c == '\U{2029}'
  }

  /** The `\s` class: WhiteSpace and LineTerminator. `trim` and `parseInt` skip the same set. */
  predicate IsSpace(c: char) {
    || IsLineTerminator(c)
    || c == '\t' || c == '\U{000B}' || c == '\U{000C}' || c == ' '
    || c == '\U{00A0}' || c == '\U{1680}' || ('\U{2000}' <= c <= '\U{200A}')
    || c == '\U{202F}' || c == '\U{205F}' || c == '\U{3000}' || c == '\U{FEFF}'
  }

  /** `s.substr(start)`: the suffix from `start`, or "" past the end. */
  function Substr(s: string, start: nat): (suffix: string)
    ensures start <= |s| ==> s[..start] + suffix == s
    ensures start >= |s| ==> suffix == ""
  {
    if start <= |s| then s[start..] else ""
  }

  /** `s.split(sep)` for a one-character separator: every occurrence splits, empty pieces are kept. */
  function Split(s: string, sep: char): (parts: seq<string>)
    ensures |parts| > 0
    ensures forall i :: 0 <= i < |parts| ==> sep !in parts[i]
  {
    if s == [] then [""]
    else
      var rest := Split(s[1..], sep);
      if s[0] == sep then [""] + rest
      else [[s[0]] + rest[0]] + rest[1..]
  }

  /** The first piece is the text before the first separator, or all of it. */
  lemma {:induction false} SplitHead(s: string, sep: char)
    ensures var head := Split(s, sep)[0];
            && |head| <= |s| && head == s[..|head|]
            && (|head| == |s| || s[|head|] == sep)
  {
    if s != [] && s[0] != sep {
      SplitHead(s[1..], sep);
      var rest := Split(s[1..], sep);
      assert [s[0]] + rest[0] == s[..|rest[0]| + 1];
    }
  }

  /** `parts.join(sep)`. */
  function Join(parts: seq<string>, sep: string): string {
    if |parts| == 0 then ""
    else if |parts| == 1 then parts[0]
    else parts[0] + sep + Join(parts[1..], sep)
  }

  /** Joining puts the separator between each piece and the next, and nowhere else: a
      piece added at the end follows the join of the others and one separator. */
  lemma {:induction false} JoinAppend(parts: seq<string>, last: string, sep: string)
    ensures Join(parts + [last], sep) == if parts == [] then last else Join(parts, sep) + sep + last
  {
    if |parts| > 1 {
      assert (parts + [last])[1..] == parts[1..] + [last];
      JoinAppend(parts[1..], last, sep);
    } else if |parts| == 1 {
      assert parts + [last] == [parts[0], last];
    } else {
      assert parts + [last] == [last];
    }
  }

  /** Joining the pieces of a split with the separator gives the string back. */
  lemma {:induction false} JoinSplit(s: string, sep: char)
    ensures Join(Split(s, sep), [sep]) == s
  {
    if s != [] {
      JoinSplit(s[1..], sep);
      var rest := Split(s[1..], sep);
      if s[0] == sep {
        assert ([""] + rest)[1..] == rest;
      } else {
        var parts := [[s[0]] + rest[0]] + rest[1..];
        if |rest| > 1 {
          assert parts[1..] == rest[1..];
        }
      }
    }
  }

  /** Splitting a string whose first piece `a` has no separator. */
  lemma {:induction false} SplitAppend(a: string, t: string, sep: char)
    requires sep !in a
    ensures Split(a + t, sep) == [a + Split(t, sep)[0]] + Split(t, sep)[1..]
  {
    if a == [] {
      assert a + t == t;
      assert a + Split(t, sep)[0] == Split(t, sep)[0];
      assert [Split(t, sep)[0]] + Split(t, sep)[1..] == Split(t, sep);
    } else {
      SplitAppend(a[1..], t, sep);
      assert (a + t)[1..] == a[1..] + t;
      assert [a[0]] + (a[1..] + Split(t, sep)[0]) == a + Split(t, sep)[0];
    }
  }

  /** Splitting a join of separator-free pieces gives the pieces back. */
  lemma {:induction false} SplitJoin(parts: seq<string>, sep: char)
    requires |parts| > 0
    requires forall i :: 0 <= i < |parts| ==> sep !in parts[i]
    ensures Split(Join(parts, [sep]), sep) == parts
  {
    assert parts[0] + "" == parts[0];
    if |parts| == 1 {
      SplitAppend(parts[0], "", sep);
    } else {
      var tail := Join(parts[1..], [sep]);
      SplitJoin(parts[1..], sep);
      assert parts[0] + [sep] + tail == parts[0] + ([sep] + tail);
      SplitAppend(parts[0], [sep] + tail, sep);
      assert ([sep] + tail)[1..] == tail;
      assert Split([sep] + tail, sep) == [""] + parts[1..];
      assert parts == [parts[0] + ""] + parts[1..];
    }
  }

  /** Drops the leading `\s` characters (`trimStart`, and the first step of `parseInt`). */
  function TrimStart(s: string): (r: string)
    ensures |r| <= |s| && r == s[|s| - |r|..]
    ensures r == [] || !IsSpace(r[0])
    ensures forall i :: 0 <= i < |s| - |r| ==> IsSpace(s[i])
  {
    if s != [] && IsSpace(s[0]) then TrimStart(s[1..]) else s
  }

  /** Drops the trailing `\s` characters. */
  function TrimEnd(s: string): (r: string)
    ensures |r| <= |s| && r == s[..|r|]
    ensures r == [] || !IsSpace(r[|r| - 1])
    ensures forall i :: |r| <= i < |s| ==> IsSpace(s[i])
  {
    if s != [] && IsSpace(s[|s| - 1]) then TrimEnd(s[..|s| - 1]) else s
  }

  /** No `\s` character at either end. */
  predicate IsTrimmed(s: string) {
    s == [] || (!IsSpace(s[0]) && !IsSpace(s[|s| - 1]))
  }

  /** `s.trim()`: the slice of `s` left once the whitespace at both ends is dropped
      (TrimSlice). */
  function Trim(s: string): (r: string)
    ensures IsTrimmed(r)
  {
    TrimEnd(TrimStart(s))
  }

  /** What trimming keeps is one slice of the text, and everything it drops is `\s`. */
  lemma TrimSlice(s: string)
    ensures var r, i := Trim(s), |s| - |TrimStart(s)|;
            && i + |r| <= |s| && r == s[i..i + |r|]
            && (forall k :: 0 <= k < i ==> IsSpace(s[k]))
            && (forall k :: i + |r| <= k < |s| ==> IsSpace(s[k]))
  {
    var t := TrimStart(s);
    var r := TrimEnd(t);
    assert r == Trim(s);
    SliceOfSuffix(s, t, r);
    assert |s| - |t| == |s| - |TrimStart(s)|;
  }

  /** A prefix of a suffix is a slice; when all that lies before the suffix and all that
      the prefix leaves of it is `\s`, everything around the slice is `\s`. */
  lemma SliceOfSuffix(s: string, t: string, r: string)
    requires |t| <= |s| && t == s[|s| - |t|..]
    requires |r| <= |t| && r == t[..|r|]
    requires forall k :: 0 <= k < |s| - |t| ==> IsSpace(s[k])
    requires forall k :: |r| <= k < |t| ==> IsSpace(t[k])
    ensures var i := |s| - |t|;
            && i + |r| <= |s| && r == s[i..i + |r|]
            && (forall k :: 0 <= k < i ==> IsSpace(s[k]))
            && (forall k :: i + |r| <= k < |s| ==> IsSpace(s[k]))
  {
    var i := |s| - |t|;
    forall k | i + |r| <= k < |s|
      ensures IsSpace(s[k])
    {
      assert s[k] == t[k - i];
    }
  }

  /** `toUpperCase` on one character, for the ASCII letters. */
  function UpperChar(c: char): char {
    if 'a' <= c <= 'z' then (c as int - 32) as char else c
  }

  predicate IsUpperCased(s: string) {
    forall i :: 0 <= i < |s| ==> !('a' <= s[i] <= 'z')
  }

  /** `s.toUpperCase()` for the ASCII letters; every other character is kept. */
  function ToUpper(s: string): (r: string)
    ensures IsUpperCased(r)
    ensures |r| == |s| && forall i :: 0 <= i < |s| && !('a' <= s[i] <= 'z') ==> r[i] == s[i]
    ensures forall i :: 0 <= i < |s| && 'a' <= s[i] <= 'z' ==> r[i] as int == s[i] as int - 32
    ensures forall i :: 0 <= i < |s| ==> (IsSpace(r[i]) <==> IsSpace(s[i]))
  {
    seq(|s|, i requires 0 <= i < |s| => UpperChar(s[i]))
  }

  predicate IsDecimalDigit(c: char) {
    '0' <= c <= '9'
  }

  predicate IsDigitIn(c: char, radix: nat) {
    if radix == 16 then IsDecimalDigit(c) || 'a' <= c <= 'f' || 'A' <= c <= 'F'
    else IsDecimalDigit(c)
  }

  function DigitValue(c: char): nat {
    if IsDecimalDigit(c) then c as int - '0' as int
    else if 'a' <= c <= 'f' then c as int - 'a' as int + 10
    else if 'A' <= c <= 'F' then c as int - 'A' as int + 10
    else 0
  }

  /** The longest prefix of `s` made of digits of `radix`. */
  function DigitPrefix(s: string, radix: nat): (d: string)
    ensures |d| <= |s| && d == s[..|d|]
    ensures forall i :: 0 <= i < |d| ==> IsDigitIn(d[i], radix)
    ensures |d| == |s| || !IsDigitIn(s[|d|], radix)
  {
    if s != [] && IsDigitIn(s[0], radix) then [s[0]] + DigitPrefix(s[1..], radix) else ""
  }

  /** The value of a digit string, most significant digit first. */
  function DigitsValue(d: string, radix: nat): nat {
    if d == [] then 0 else DigitsValue(d[..|d| - 1], radix) * radix + DigitValue(d[|d| - 1])
  }

  /** `parseInt(s)` with no radix: leading `\s` skipped, an optional sign, a `0x`/`0X`
      prefix selecting base 16, then the longest run of digits; NaN when there is none. */
  function ParseInt(s: string): (n: Number)
    ensures var t := TrimStart(s);
            t == [] || !(IsDecimalDigit(t[0]) || t[0] == '+' || t[0] == '-') ==> n == NaN
    ensures var t := TrimStart(s);
            t != [] && '1' <= t[0] <= '9' ==> n.Int? && n.value >= 0
    ensures var t := TrimStart(s);
            |t| >= 2 && t[0] == '-' && '1' <= t[1] <= '9' ==> n.Int? && n.value <= 0
  {
    var t := TrimStart(s);
    var sign := if t != [] && t[0] == '-' then -1 else 1;
    var u := if t != [] && (t[0] == '-' || t[0] == '+') then t[1..] else t;
    var hex := |u| >= 2 && u[0] == '0' && (u[1] == 'x' || u[1] == 'X');
    var radix := if hex then 16 else 10;
    var d := DigitPrefix(if hex then u[2..] else u, radix);
    if d == [] then NaN else Int(sign * DigitsValue(d, radix))
  }

  function DecimalDigit(n: nat): char
    requires n < 10
  {
    ('0' as int + n) as char
  }

  /** A natural number in decimal, as `String(n)` writes it. */
  function NatToDecimal(n: nat): (s: string)
    ensures |s| > 0 && forall i :: 0 <= i < |s| ==> IsDecimalDigit(s[i])
    ensures |s| > 1 ==> s[0] != '0'
  {
    if n < 10 then [DecimalDigit(n)] else NatToDecimal(n / 10) + [DecimalDigit(n % 10)]
  }

  /** An integer in decimal with a leading `-` when negative, as `String(n)` writes it:
      digits only after the sign, and a sign exactly when the integer is negative. */
  function IntToDecimal(n: int): (s: string)
    ensures |s| > 0 && (s[0] == '-' <==> n < 0)
    ensures forall i :: (if n < 0 then 1 else 0) <= i < |s| ==> IsDecimalDigit(s[i])
  {
    if n < 0 then "-" + NatToDecimal(-n) else NatToDecimal(n)
  }

  lemma {:induction false} DecimalValue(n: nat)
    ensures DigitsValue(NatToDecimal(n), 10) == n
  {
    if n >= 10 {
      DecimalValue(n / 10);
      var s := NatToDecimal(n / 10) + [DecimalDigit(n % 10)];
      assert s[..|s| - 1] == NatToDecimal(n / 10);
    }
  }

  lemma {:induction false} DigitPrefixOfDigits(s: string)
    requires forall i :: 0 <= i < |s| ==> IsDecimalDigit(s[i])
    ensures DigitPrefix(s, 10) == s
  {
    if s != [] {
      DigitPrefixOfDigits(s[1..]);
    }
  }

  /** A digit string as `String` writes it: no superfluous leading zero. */
  predicate IsDecimal(digits: string) {
    && digits != [] && (forall i :: 0 <= i < |digits| ==> IsDecimalDigit(digits[i]))
    && (|digits| > 1 ==> digits[0] != '0')
  }

  /** `parseInt` of such a digit string is its value. */
  lemma {:induction false} ParseIntOfDigits(digits: string)
    requires IsDecimal(digits)
    ensures ParseInt(digits) == Int(DigitsValue(digits, 10))
  {
    DigitPrefixOfDigits(digits);
    assert !IsSpace(digits[0]);
    assert TrimStart(digits) == digits;
    assert !(|digits| >= 2 && digits[0] == '0');
  }

  /** ... and with a leading `-`, its negation. */
  lemma {:induction false} ParseIntOfNegative(digits: string)
    requires IsDecimal(digits)
    ensures ParseInt("-" + digits) == Int(-(DigitsValue(digits, 10) as int))
  {
    DigitPrefixOfDigits(digits);
    var negative := "-" + digits;
    assert !IsSpace(negative[0]);
    assert TrimStart(negative) == negative;
    assert negative[0] == '-' && negative[1..] == digits;
    assert !(|digits| >= 2 && digits[0] == '0');
  }

  /** `parseInt` reads back every integer that `String` writes. */
  lemma {:induction false} ParseIntOfDecimal(n: int)
    ensures ParseInt(IntToDecimal(n)) == Int(n)
  {
    var m: nat := if n < 0 then -n else n;
    DecimalValue(m);
    if n < 0 {
      ParseIntOfNegative(NatToDecimal(m));
    } else {
      ParseIntOfDigits(NatToDecimal(m));
    }
  }

  /** The string with every `\s` character removed. */
  function NonSpaces(s: string): string {
    if s == [] then [] else (if IsSpace(s[0]) then [] else [s[0]]) + NonSpaces(s[1..])
  }

  lemma {:induction false} NonSpacesAppend(a: string, b: string)
    ensures NonSpaces(a + b) == NonSpaces(a) + NonSpaces(b)
  {
    if a == [] {
      assert a + b == b;
    } else {
      NonSpacesAppend(a[1..], b);
      var head := if IsSpace(a[0]) then [] else [a[0]];
      assert (a + b)[0] == a[0] && (a + b)[1..] == a[1..] + b;
      assert NonSpaces(a + b) == head + NonSpaces(a[1..] + b);
      assert head + (NonSpaces(a[1..]) + NonSpaces(b)) == (head + NonSpaces(a[1..])) + NonSpaces(b);
    }
  }

  lemma {:induction false} NonSpacesTrimStart(s: string)
    ensures NonSpaces(TrimStart(s)) == NonSpaces(s)
  {
    if s != [] && IsSpace(s[0]) {
      NonSpacesTrimStart(s[1..]);
    }
  }

  /** A word: no `\s` character at all. */
  predicate NoSpace(s: string) {
    forall k :: 0 <= k < |s| ==> !IsSpace(s[k])
  }

  /** A run of `\s` characters only. */
  predicate AllSpaces(s: string) {
    forall k :: 0 <= k < |s| ==> IsSpace(s[k])
  }

  /** A word is its own trim. */
  lemma TrimWord(s: string)
    requires NoSpace(s)
    ensures Trim(s) == s
  {
  }

  /** Trimming the start drops a leading run of `\s` characters and stops at the next word. */
  lemma {:induction false} TrimStartRun(run: string, b: string)
    requires AllSpaces(run) && (b == [] || !IsSpace(b[0]))
    ensures TrimStart(run + b) == b
  {
    if run != [] {
      assert (run + b)[1..] == run[1..] + b;
      TrimStartRun(run[1..], b);
    } else {
      assert run + b == b;
    }
  }

  /** No two `\s` characters stand next to each other. */
  predicate SingleSpaced(s: string) {
    forall i, j :: 0 <= i < |s| && 0 <= j < |s| && j == i + 1 ==> !(IsSpace(s[i]) && IsSpace(s[j]))
  }

  /** `s.replace(/\s\s+/g, ' ')`: every run of two or more `\s` characters becomes one
      space, scanning left to right; a lone `\s` character is kept as it is. */
  function CollapseSpaceRuns(s: string): (r: string)
    ensures |r| <= |s|
    decreases |s|
  {
    if |s| < 2 then s
    else if IsSpace(s[0]) && IsSpace(s[1]) then " " + CollapseSpaceRuns(TrimStart(s))
    else [s[0]] + CollapseSpaceRuns(s[1..])
  }

  /** The collapsed string has no two `\s` characters in a row, keeps every other
      character in order, is no longer than the original, and starts with a `\s`
      character exactly when the original does. */
  lemma {:induction false} CollapseSpaceRunsSpec(s: string)
    ensures SingleSpaced(CollapseSpaceRuns(s))
    ensures NonSpaces(CollapseSpaceRuns(s)) == NonSpaces(s)
    ensures |CollapseSpaceRuns(s)| <= |s|
    ensures |s| > 0 ==> |CollapseSpaceRuns(s)| > 0 && (IsSpace(CollapseSpaceRuns(s)[0]) <==> IsSpace(s[0]))
    decreases |s|
  {
    var r := CollapseSpaceRuns(s);
    if |s| < 2 {
    } else if IsSpace(s[0]) && IsSpace(s[1]) {
      var t := TrimStart(s);
      var rest := CollapseSpaceRuns(t);
      CollapseSpaceRunsSpec(t);
      NonSpacesTrimStart(s);
      assert r == " " + rest;
      assert r[1..] == rest;
      NonSpacesAppend(" ", rest);
      SingleSpacedCons(' ', rest);
    } else {
      var rest := CollapseSpaceRuns(s[1..]);
      CollapseSpaceRunsSpec(s[1..]);
      assert r == [s[0]] + rest;
      assert r[1..] == rest;
      NonSpacesAppend([s[0]], rest);
      NonSpacesAppend([s[0]], s[1..]);
      assert [s[0]] + s[1..] == s;
      SingleSpacedCons(s[0], rest);
    }
  }

  /** Putting a character in front keeps a string single-spaced unless both it and the
      string's first character are `\s` characters. */
  lemma SingleSpacedCons(c: char, rest: string)
    requires SingleSpaced(rest)
    requires rest != [] && IsSpace(c) ==> !IsSpace(rest[0])
    ensures SingleSpaced([c] + rest)
  {
    var s := [c] + rest;
    forall i, j | 0 <= i < |s| && 0 <= j < |s| && j == i + 1
      ensures !(IsSpace(s[i]) && IsSpace(s[j]))
    {
      if i > 0 {
        assert s[i] == rest[i - 1] && s[j] == rest[j - 1];
      }
    }
  }

  /** A string with no run of `\s` characters is left alone, so collapsing is idempotent. */
  lemma {:induction false} CollapseSingleSpaced(s: string)
    requires SingleSpaced(s)
    ensures CollapseSpaceRuns(s) == s
  {
    if |s| >= 2 {
      assert SingleSpaced(s[1..]) by {
        forall i, j | 0 <= i < j < |s[1..]| && j == i + 1 ensures !(IsSpace(s[1..][i]) && IsSpace(s[1..][j])) {
          assert s[1..][i] == s[i + 1] && s[1..][j] == s[j + 1];
        }
      }
      CollapseSingleSpaced(s[1..]);
    }
  }

  /** A leading run of two or more `\s` characters becomes one space. */
  lemma CollapseLeadingRun(run: string, rest: string)
    requires AllSpaces(run) && |run| >= 2
    requires (rest == [] || !IsSpace(rest[0])) && SingleSpaced(rest)
    ensures CollapseSpaceRuns(run + rest) == " " + rest
  {
    var s := run + rest;
    assert s[0] == run[0] && s[1] == run[1];
    TrimStartRun(run, rest);
    CollapseSingleSpaced(rest);
  }

  /** A run of two or more `\s` characters after a word becomes one space; the rest,
      already single-spaced, is kept. */
  lemma {:induction false} CollapseRun(word: string, run: string, rest: string)
    requires NoSpace(word) && AllSpaces(run) && |run| >= 2
    requires (rest == [] || !IsSpace(rest[0])) && SingleSpaced(rest)
    ensures CollapseSpaceRuns(word + run + rest) == word + " " + rest
  {
    if word == [] {
      assert word + run + rest == run + rest;
      CollapseLeadingRun(run, rest);
    } else {
      var s := word + run + rest;
      assert s[0] == word[0] && s[1..] == word[1..] + run + rest;
      assert NoSpace(word[1..]) by {
        forall k | 0 <= k < |word[1..]| ensures !IsSpace(word[1..][k]) {
          assert word[1..][k] == word[k + 1];
        }
      }
      CollapseRun(word[1..], run, rest);
      CollapseStep(s);
      assert word + " " + rest == [word[0]] + (word[1..] + " " + rest);
    }
  }

  /** Trimming the start of a text that ends in a word stops inside that text. */
  lemma {:induction false} TrimStartPrefix(a: string, t: string)
    requires a != [] && !IsSpace(a[|a| - 1])
    ensures TrimStart(a + t) == TrimStart(a) + t
  {
    if IsSpace(a[0]) {
      assert (a + t)[0] == a[0] && (a + t)[1..] == a[1..] + t;
      TrimStartPrefix(a[1..], t);
    }
  }

  /** A run of `\s` characters at the very start collapses on its own. */
  lemma {:induction false} CollapseStartRun(run: string, b: string)
    requires run != [] && AllSpaces(run)
    requires b == [] || !IsSpace(b[0])
    ensures CollapseSpaceRuns(run + b) == (if |run| == 1 then run else " ") + CollapseSpaceRuns(b)
  {
    if |run| >= 2 {
      assert (run + b)[0] == run[0] && (run + b)[1] == run[1];
      TrimStartRun(run, b);
    } else if b == [] {
      assert run + b == run;
    } else {
      assert (run + b)[1] == b[0] && (run + b)[1..] == b;
    }
  }

  /** One step of the scan when the text does not start with two `\s` characters:
      the first character is kept, and the scan goes on after it. */
  lemma CollapseStep(s: string)
    requires |s| >= 2 && !(IsSpace(s[0]) && IsSpace(s[1]))
    ensures CollapseSpaceRuns(s) == [s[0]] + CollapseSpaceRuns(s[1..])
  {
  }

  /** One step of the scan when the text starts with two `\s` characters. */
  lemma CollapseTrimStep(s: string)
    requires |s| >= 2 && IsSpace(s[0]) && IsSpace(s[1])
    ensures CollapseSpaceRuns(s) == " " + CollapseSpaceRuns(TrimStart(s))
  {
  }

  /** Concatenation regroups; stated once so that proofs about collapsed texts and filtered
      token lists need not rediscover it element by element. */
  lemma ConcatAssoc<T>(x: seq<T>, y: seq<T>, z: seq<T>)
    ensures x + (y + z) == x + y + z
  {
  }

  /** A leading run in a text that ends in a word is trimmed within that text. */
  lemma CollapseTrimStepAppend(a: string, t: string)
    requires |a| >= 2 && IsSpace(a[0]) && IsSpace(a[1]) && !IsSpace(a[|a| - 1])
    ensures CollapseSpaceRuns(a + t) == " " + CollapseSpaceRuns(TrimStart(a) + t)
  {
    var s := a + t;
    assert s[0] == a[0] && s[1] == a[1];
    TrimStartPrefix(a, t);
    CollapseTrimStep(s);
  }

  /** Trimming a text that ends in a word leaves that word in place. */
  lemma TrimStartWord(a: string)
    requires a != [] && IsSpace(a[0]) && !IsSpace(a[|a| - 1])
    ensures var a' := TrimStart(a); 0 < |a'| < |a| && a'[|a'| - 1] == a[|a| - 1]
  {
    var a' := TrimStart(a);
    assert a' == a[|a| - |a'|..];
  }

  /** A text that ends in a word collapses independently of what follows it. */
  lemma {:induction false} CollapseAppend(a: string, t: string)
    requires a == [] || !IsSpace(a[|a| - 1])
    ensures CollapseSpaceRuns(a + t) == CollapseSpaceRuns(a) + CollapseSpaceRuns(t)
    decreases |a|
  {
    if a == [] {
      assert a + t == t;
    } else if t == [] {
      assert a + t == a;
    } else if |a| == 1 {
      CollapseStep(a + t);
      assert (a + t)[1..] == t;
    } else if IsSpace(a[0]) && IsSpace(a[1]) {
      CollapseAppendRun(a, t);
    } else {
      CollapseAppendWord(a, t);
    }
  }

  /** CollapseAppend when the text starts with a run of two or more `\s` characters. */
  lemma {:induction false} CollapseAppendRun(a: string, t: string)
    requires |a| >= 2 && IsSpace(a[0]) && IsSpace(a[1]) && !IsSpace(a[|a| - 1])
    ensures CollapseSpaceRuns(a + t) == CollapseSpaceRuns(a) + CollapseSpaceRuns(t)
    decreases |a|, 0
  {
    var a' := TrimStart(a);
    CollapseTrimStepAppend(a, t);
    CollapseTrimStep(a);
    TrimStartWord(a);
    CollapseAppend(a', t);
    ConcatAssoc(" ", CollapseSpaceRuns(a'), CollapseSpaceRuns(t));
  }

  /** CollapseAppend when the first character is kept. */
  lemma {:induction false} CollapseAppendWord(a: string, t: string)
    requires |a| >= 2 && !(IsSpace(a[0]) && IsSpace(a[1])) && !IsSpace(a[|a| - 1])
    ensures CollapseSpaceRuns(a + t) == CollapseSpaceRuns(a) + CollapseSpaceRuns(t)
    decreases |a|, 0
  {
    var s := a + t;
    assert s[0] == a[0] && s[1] == a[1] && s[1..] == a[1..] + t;
    CollapseStep(s);
    CollapseStep(a);
    CollapseAppend(a[1..], t);
    ConcatAssoc([a[0]], CollapseSpaceRuns(a[1..]), CollapseSpaceRuns(t));
  }

  /** Every run of `\s` characters between two words is collapsed on its own: a lone one
      is kept as it is, a longer one becomes one space, and the text on either side is
      collapsed as if the other were not there. */
  lemma CollapseAroundRun(a: string, run: string, b: string)
    requires a == [] || !IsSpace(a[|a| - 1])
    requires run != [] && AllSpaces(run)
    requires b == [] || !IsSpace(b[0])
    ensures CollapseSpaceRuns(a + run + b) ==
              CollapseSpaceRuns(a) + (if |run| == 1 then run else " ") + CollapseSpaceRuns(b)
  {
    ConcatAssoc(a, run, b);
    CollapseAppend(a, run + b);
    CollapseStartRun(run, b);
    ConcatAssoc(CollapseSpaceRuns(a), if |run| == 1 then run else " ", CollapseSpaceRuns(b));
  }

  /** Every text collapsed on its own. */
  function CollapseEach(parts: seq<string>): (r: seq<string>)
    ensures |r| == |parts|
    ensures forall i :: 0 <= i < |parts| ==> r[i] == CollapseSpaceRuns(parts[i])
  {
    if parts == [] then [] else [CollapseSpaceRuns(parts[0])] + CollapseEach(parts[1..])
  }

  /** Texts that are already single-spaced are left as they are. */
  lemma CollapseEachSingleSpaced(parts: seq<string>)
    requires forall p :: p in parts ==> SingleSpaced(p)
    ensures CollapseEach(parts) == parts
  {
    forall k | 0 <= k < |parts| ensures CollapseEach(parts)[k] == parts[k] {
      assert parts[k] in parts;
      CollapseSingleSpaced(parts[k]);
    }
  }

  /** A join of non-empty pieces starts where its first piece does. */
  lemma JoinHead(parts: seq<string>, sep: string)
    requires |parts| > 0 && parts[0] != []
    ensures Join(parts, sep) != [] && Join(parts, sep)[0] == parts[0][0]
  {
  }

  /** Joining texts that begin and end in a word with single spaces, then collapsing,
      is the same as collapsing each text on its own: the joining space is kept, so no
      two texts are fused and none is split. */
  lemma {:induction false} CollapseJoin(parts: seq<string>)
    requires forall p :: p in parts ==> p != [] && IsTrimmed(p)
    ensures CollapseSpaceRuns(Join(parts, " ")) == Join(CollapseEach(parts), " ")
  {
    if |parts| >= 2 {
      var rest := Join(parts[1..], " ");
      assert parts[1] in parts && parts[1..][0] == parts[1];
      JoinHead(parts[1..], " ");
      assert parts[0] in parts;
      CollapseAroundRun(parts[0], " ", rest);
      assert forall p :: p in parts[1..] ==> p in parts;
      CollapseJoin(parts[1..]);
      assert CollapseEach(parts)[1..] == CollapseEach(parts[1..]);
    }
  }
}
