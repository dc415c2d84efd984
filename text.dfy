/**
 * The string operations the notation code relies on, with JavaScript's
 * meaning: number-to-string for non-negative integers, `parseInt` without a
 * radix, `split` and `join` on a one-character separator.
 */
module Text {
  import opened Wrappers

  // ------------------------------------------------------------- printing

  predicate IsDecimalDigit(c: char)
  {
    '0' <= c <= '9'
  }

  function DigitChar(d: int): (c: char)
    requires 0 <= d <= 9
    ensures IsDecimalDigit(c)
  {
    (48 + d) as char
  }

  /** The decimal text of a non-negative integer, as `String(n)` writes it: digits only and no
      leading zero. */
  function NatToString(n: nat): (s: string)
    ensures |s| >= 1 && forall i | 0 <= i < |s| :: IsDecimalDigit(s[i])
    ensures s[0] == '0' ==> n == 0 && |s| == 1
  {
    if n < 10 then [DigitChar(n)] else NatToString(n / 10) + [DigitChar(n % 10)]
  }

  // -------------------------------------------------------------- parsing

  /** The white space and line terminators `parseInt` skips before the number. */
  predicate IsJsSpace(c: char)
  {
    ('\t' <= c <= '\r') || c == ' ' || c == '\U{00A0}' || c == '\U{1680}'
    || ('\U{2000}' <= c <= '\U{200A}') || c == '\U{2028}' || c == '\U{2029}' || c == '\U{202F}'
    || c == '\U{205F}' || c == '\U{3000}' || c == '\U{FEFF}'
  }

  /** `s` without its leading white space. */
  function TrimStart(s: string): (t: string)
    ensures |t| <= |s|
    ensures t != [] ==> !IsJsSpace(t[0])
  {
    if s != [] && IsJsSpace(s[0]) then TrimStart(s[1..]) else s
  }

  /** The value of `c` as a digit in `radix` (10 or 16), or -1 when it is not one. */
  function DigitValue(c: char, radix: int): (v: int)
    ensures v == -1 || 0 <= v < radix
    ensures radix == 10 ==> (v >= 0 <==> IsDecimalDigit(c))
    ensures v >= 0 ==> v < (if radix == 16 then 16 else 10)
  {
    if '0' <= c <= '9' then (if c as int - 48 < radix || radix == 16 then c as int - 48 else -1)
    else if radix == 16 && 'a' <= c <= 'f' then c as int - 97 + 10
    else if radix == 16 && 'A' <= c <= 'F' then c as int - 65 + 10
    else -1
  }

  /** The length of the longest prefix of `s` made of digits of `radix`. */
  function DigitRun(s: string, radix: int): (n: nat)
    ensures n <= |s|
    ensures forall i | 0 <= i < n :: DigitValue(s[i], radix) >= 0
    ensures n < |s| ==> DigitValue(s[n], radix) < 0
  {
    if s == [] || DigitValue(s[0], radix) < 0 then 0 else 1 + DigitRun(s[1..], radix)
  }

  /** The value of a run of digits in `radix`, most significant first. */
  function DigitsValue(s: string, radix: int): nat
    requires forall i | 0 <= i < |s| :: DigitValue(s[i], radix) >= 0
  {
    if s == [] then 0
    else DigitsValue(s[..|s| - 1], radix) * (if radix == 16 then 16 else 10) + DigitValue(s[|s| - 1], radix)
  }

  /** The longest run of `radix` digits at the front of `w`, read as a number; `None` when
      there is none. */
  function ParseDigits(w: string, radix: int): Option<nat>
  {
    var n := DigitRun(w, radix);
    if n == 0 then None else Some(DigitsValue(w[..n], radix))
  }

  /** An unsigned number: base 16 after `0x`/`0X`, base 10 otherwise. */
  function ParseMagnitude(u: string): Option<nat>
  {
    if |u| >= 2 && u[0] == '0' && (u[1] == 'x' || u[1] == 'X') then ParseDigits(u[2..], 16)
    else ParseDigits(u, 10)
  }

  /** A number after the white space: one optional sign, then the magnitude. */
  function ParseSigned(t: string): Option<int>
  {
    if t != [] && t[0] == '-' then
      (match ParseMagnitude(t[1..]) case None => None case Some(v) => Some(-(v as int)))
    else if t != [] && t[0] == '+' then
      (match ParseMagnitude(t[1..]) case None => None case Some(v) => Some(v))
    else
      (match ParseMagnitude(t) case None => None case Some(v) => Some(v))
  }

  /** `parseInt(s)` with no radix: skip leading white space, take one sign, then read the
      magnitude; `None` is NaN. Negative zero is 0. */
  function ParseInt(s: string): Option<int>
  {
    ParseSigned(TrimStart(s))
  }

  lemma {:induction false} DigitsValueOfNat(n: nat)
    ensures DigitsValue(NatToString(n), 10) == n
  {
    if n >= 10 {
      DigitsValueOfNat(n / 10);
      var s := NatToString(n);
      assert s[..|s| - 1] == NatToString(n / 10);
    }
  }

  /** On a run of decimal digits with no leading zero, `parseInt` is the value of the digits. */
  lemma ParseIntOfDigits(s: string)
    requires |s| >= 1 && forall i | 0 <= i < |s| :: IsDecimalDigit(s[i])
    requires s[0] == '0' ==> |s| == 1
    ensures ParseInt(s) == Some(DigitsValue(s, 10))
  {
    assert !IsJsSpace(s[0]) && s[0] != '-' && s[0] != '+';
    assert TrimStart(s) == s;
    assert !(|s| >= 2 && s[0] == '0');
    DigitRunAll(s, 10);
    assert s[..|s|] == s;
  }

  /** `parseInt` reads back exactly the number `String(n)` wrote. */
  lemma ParseIntOfNat(n: nat)
    ensures ParseInt(NatToString(n)) == Some(n)
  {
    ParseIntOfDigits(NatToString(n));
    DigitsValueOfNat(n);
  }

  lemma {:induction false} DigitRunAll(s: string, radix: int)
    requires forall i | 0 <= i < |s| :: DigitValue(s[i], radix) >= 0
    ensures DigitRun(s, radix) == |s|
  {
    if s != [] {
      DigitRunAll(s[1..], radix);
    }
  }

  /** Illustrations on single inputs of the JavaScript reading (the general statements are
      `ParseIntOfNat` and `ParseIntSkipsSpace`): white space and `+` are skipped, reading stops
      at the first non-digit, `0x` switches to base 16, and text without digits is NaN. */
  lemma ParseIntExamples()
    ensures ParseInt(" 7") == Some(7)
    ensures ParseInt("+12x") == Some(12)
    ensures ParseInt("0x1F") == Some(31)
    ensures ParseInt("-0") == Some(0)
    ensures ParseInt("K") == None
    ensures ParseInt("") == None
  {
    ParseIntSpace();
    ParseIntPlus();
    ParseIntHex();
    ParseIntMinusZero();
    ParseIntLetter();
  }

  /** Leading white space never changes what `parseInt` reads. */
  lemma ParseIntSkipsSpace(c: char, s: string)
    requires IsJsSpace(c)
    ensures ParseInt([c] + s) == ParseInt(s)
  {
    assert ([c] + s)[1..] == s;
    assert TrimStart([c] + s) == TrimStart(s);
  }

  lemma ParseIntSpace()
    ensures ParseInt(" 7") == Some(7)
  {
    ParseIntSkipsSpace(' ', "7");
    assert [' '] + "7" == " 7";
    assert TrimStart("7") == "7";
    assert ParseDigits("7", 10) == Some(7) by {
      assert DigitRun("7", 10) == 1 by { assert "7"[1..] == ""; }
      assert "7"[..1] == "7" && "7"[..0] == "";
    }
    assert ParseMagnitude("7") == Some(7);
  }

  lemma ParseIntPlus()
    ensures ParseInt("+12x") == Some(12)
  {
    var t := TrimStart("+12x");
    assert t == "+12x";
    assert t[1..] == "12x";
    TwelveDigits();
    assert ParseMagnitude("12x") == Some(12);
  }

  lemma TwelveDigits()
    ensures ParseDigits("12x", 10) == Some(12)
  {
    assert DigitRun("12x", 10) == 2 by {
      assert "12x"[1..] == "2x" && "2x"[1..] == "x";
      assert DigitRun("x", 10) == 0;
    }
    assert "12x"[..2] == "12" && "12"[..1] == "1" && "1"[..0] == "";
  }

  lemma ParseIntHex()
    ensures ParseInt("0x1F") == Some(31)
  {
    assert TrimStart("0x1F") == "0x1F";
    assert "0x1F"[2..] == "1F";
    assert ParseDigits("1F", 16) == Some(31) by {
      assert DigitRun("1F", 16) == 2 by {
        assert "1F"[1..] == "F" && "F"[1..] == "";
      }
      assert "1F"[..2] == "1F" && "1F"[..1] == "1" && "1"[..0] == "";
    }
  }

  lemma ParseIntMinusZero()
    ensures ParseInt("-0") == Some(0)
  {
    assert TrimStart("-0") == "-0";
    assert "-0"[1..] == "0";
    assert ParseDigits("0", 10) == Some(0) by {
      assert DigitRun("0", 10) == 1 by { assert "0"[1..] == ""; }
      assert "0"[..1] == "0" && "0"[..0] == "";
    }
  }

  lemma ParseIntLetter()
    ensures ParseInt("K") == None
    ensures ParseInt("") == None
  {
    assert TrimStart("K") == "K";
    assert DigitRun("K", 10) == 0;
  }

  // ------------------------------------------------------- split and join

  /** The index of the first `c` in `s`, or `|s|` when there is none. */
  function IndexOf(s: string, c: char): (i: nat)
    ensures i <= |s| && (i < |s| ==> s[i] == c)
    ensures forall j | 0 <= j < i :: s[j] != c
  {
    if s == [] then 0 else if s[0] == c then 0 else 1 + IndexOf(s[1..], c)
  }

  /** `s.split(sep)`: the pieces between separators, at least one, none holding `sep`. */
  function Split(s: string, sep: char): (parts: seq<string>)
    ensures |parts| >= 1
    ensures forall p | p in parts :: sep !in p
    decreases |s|
  {
    var i := IndexOf(s, sep);
    if i == |s| then [s] else [s[..i]] + Split(s[i + 1..], sep)
  }

  /** `parts.join(sep)`. */
  function Join(parts: seq<string>, sep: char): string
  {
    if parts == [] then "" else if |parts| == 1 then parts[0] else parts[0] + [sep] + Join(parts[1..], sep)
  }

  /** Splitting what `join` wrote gives back the parts, when no part contains the separator. */
  lemma {:induction false} SplitJoin(parts: seq<string>, sep: char)
    requires |parts| >= 1 && forall p | p in parts :: sep !in p
    ensures Split(Join(parts, sep), sep) == parts
  {
    if |parts| > 1 {
      var rest := parts[1..];
      assert forall p | p in rest :: p in parts;
      assert parts[0] in parts;
      SplitJoin(rest, sep);
      JoinCons(parts, sep);
      SplitAtFirst(parts[0], sep, Join(rest, sep));
      assert parts == [parts[0]] + rest;
    } else {
      assert parts[0] in parts;
      assert IndexOf(parts[0], sep) == |parts[0]|;
    }
  }

  /** A join of more than one part is the first part, the separator and the join of the rest. */
  lemma JoinCons(parts: seq<string>, sep: char)
    requires |parts| > 1
    ensures Join(parts, sep) == parts[0] + [sep] + Join(parts[1..], sep)
  {
  }

  /** A string with a first separator after `a` splits into `a` and the split of the rest. */
  lemma SplitAtFirst(a: string, c: char, b: string)
    requires c !in a
    ensures Split(a + [c] + b, c) == [a] + Split(b, c)
  {
    var s := a + [c] + b;
    IndexOfPrefix(a, c, b);
    assert s[..|a|] == a;
    assert s[|a| + 1..] == b;
  }

  lemma {:induction false} IndexOfPrefix(a: string, c: char, b: string)
    requires c !in a
    ensures IndexOf(a + [c] + b, c) == |a|
  {
    if a != [] {
      assert (a + [c] + b)[1..] == a[1..] + [c] + b;
      IndexOfPrefix(a[1..], c, b);
    }
  }

  /** Joining the pieces of a split rebuilds the string. */
  lemma {:induction false} JoinSplit(s: string, sep: char)
    ensures Join(Split(s, sep), sep) == s
    decreases |s|
  {
    var i := IndexOf(s, sep);
    if i < |s| {
      var rest := Split(s[i + 1..], sep);
      var parts := [s[..i]] + rest;
      assert Split(s, sep) == parts;
      assert |parts| > 1 && parts[0] == s[..i] && parts[1..] == rest;
      JoinSplit(s[i + 1..], sep);
      assert Join(parts, sep) == s[..i] + [sep] + Join(rest, sep);
      assert s == s[..i] + [sep] + s[i + 1..];
    }
  }

  /** Joining two non-empty lists one after the other puts one separator between their joins. */
  lemma {:induction false} JoinAppend(p: seq<string>, q: seq<string>, sep: char)
    requires p != [] && q != []
    ensures Join(p + q, sep) == Join(p, sep) + [sep] + Join(q, sep)
  {
    if |p| == 1 {
      assert (p + q)[1..] == q;
    } else {
      assert (p + q)[1..] == p[1..] + q;
      JoinAppend(p[1..], q, sep);
    }
  }

  /** A joined list is empty only if it has no parts or a single empty part. */
  lemma {:induction false} JoinEmpty(parts: seq<string>, sep: char)
    ensures |Join(parts, sep)| == 0 <==> parts == [] || (|parts| == 1 && parts[0] == [])
  {
  }

  /** A character that is not the separator and occurs in no part does not occur in the join. */
  lemma {:induction false} JoinAvoids(parts: seq<string>, sep: char, c: char)
    requires c != sep && forall p | p in parts :: c !in p
    ensures c !in Join(parts, sep)
  {
    if |parts| > 1 {
      assert forall p | p in parts[1..] :: p in parts;
      JoinAvoids(parts[1..], sep, c);
    }
  }
}
