/** The JavaScript string built-ins the core relies on, on strings as sequences of characters. */
module Strings {

  predicate IsDigit(c: char) {
    '0' <= c <= '9'
  }

  predicate AllDigits(s: string) {
    forall i | 0 <= i < |s| :: IsDigit(s[i])
  }

  function DigitChar(d: nat): (c: char)
    requires d < 10
    ensures IsDigit(c)
  {
    ['0', '1', '2', '3', '4', '5', '6', '7', '8', '9'][d]
  }

  function DigitValue(c: char): (d: nat)
    requires IsDigit(c)
    ensures d < 10
  {
    (c as int - '0' as int) as nat
  }

  /** `n.toString()` for a non-negative integer: its shortest decimal numeral. */
  function NatToString(n: nat): (s: string)
    ensures 1 <= |s|
    ensures AllDigits(s)
    ensures |s| > 1 ==> s[0] != '0'
  {
    if n < 10 then [DigitChar(n)] else NatToString(n / 10) + [DigitChar(n % 10)]
  }

  /** The number a numeral of decimal digits denotes, leading zeros allowed. */
  function DigitsValue(s: string): nat
    requires AllDigits(s)
  {
    if s == [] then 0 else DigitsValue(s[..|s| - 1]) * 10 + DigitValue(s[|s| - 1])
  }

  /** Reading back `n.toString()` gives `n`. */
  lemma {:induction false} NatToStringRoundTrip(n: nat)
    ensures DigitsValue(NatToString(n)) == n
  {
    if n >= 10 {
      var s := NatToString(n);
      assert s[..|s| - 1] == NatToString(n / 10);
      NatToStringRoundTrip(n / 10);
    }
  }

  /** Numerals of different values are different strings. */
  lemma DistinctNumerals(s: string, t: string)
    requires AllDigits(s) && AllDigits(t) && DigitsValue(s) != DigitsValue(t)
    ensures s != t
  {
  }

  /** A leading '0' does not change the value of a numeral. */
  lemma {:induction false} LeadingZero(s: string)
    requires AllDigits(s)
    ensures AllDigits(['0'] + s) && DigitsValue(['0'] + s) == DigitsValue(s)
  {
    if s != [] {
      var t := ['0'] + s;
      assert t[..|t| - 1] == ['0'] + s[..|s| - 1];
      LeadingZero(s[..|s| - 1]);
    }
  }

  function Repeat(c: char, n: nat): (s: string)
    ensures |s| == n
    ensures forall i | 0 <= i < n :: s[i] == c
  {
    if n == 0 then [] else [c] + Repeat(c, n - 1)
  }

  /** `s.padStart(width, c)` for a one-character pad string. */
  function PadStart(s: string, width: nat, c: char): (r: string)
    ensures |r| == if |s| >= width then |s| else width
  {
    if |s| >= width then s else Repeat(c, width - |s|) + s
  }

  /** The padded string ends with the original and starts with pad characters only. */
  lemma PadStartParts(s: string, width: nat, c: char)
    ensures var r := PadStart(s, width, c);
            r[|r| - |s|..] == s && forall i | 0 <= i < |r| - |s| :: r[i] == c
  {
    var r := PadStart(s, width, c);
    if |s| < width {
      assert r == Repeat(c, width - |s|) + s;
    }
  }

  /** Padding a numeral with zeros keeps its value. */
  lemma {:induction false} ZeroPadValue(s: string, width: nat)
    requires AllDigits(s)
    ensures AllDigits(PadStart(s, width, '0'))
    ensures DigitsValue(PadStart(s, width, '0')) == DigitsValue(s)
    decreases width - |s|
  {
    if |s| < width {
      LeadingZero(s);
      ZeroPadValue(['0'] + s, width);
      assert PadStart(s, width, '0') == PadStart(['0'] + s, width, '0');
    }
  }

  function ToLowerChar(c: char): (r: char)
    ensures 'A' <= c <= 'Z' ==> 'a' <= r <= 'z'
    ensures !('A' <= c <= 'Z') ==> r == c
  {
    if 'A' <= c <= 'Z' then (c as int - 'A' as int + 'a' as int) as char else c
  }

  /** `s.toLowerCase()` restricted to ASCII letters. */
  function ToLower(s: string): (r: string)
    ensures |r| == |s|
    ensures forall i | 0 <= i < |s| :: r[i] == ToLowerChar(s[i])
  {
    if s == [] then [] else [ToLowerChar(s[0])] + ToLower(s[1..])
  }

  /** Lowercasing twice is lowercasing once. */
  lemma ToLowerIdempotent(s: string)
    ensures ToLower(ToLower(s)) == ToLower(s)
  {
  }

  /** `s.startsWith(p)`. */
  predicate StartsWith(s: string, p: string) {
    |p| <= |s| && s[..|p|] == p
  }

  /** `sub` occurs in `s` at index `i`. */
  predicate OccursAt(s: string, sub: string, i: nat) {
    i + |sub| <= |s| && s[i..i + |sub|] == sub
  }

  /** `s.includes(sub)`. */
  predicate Contains(s: string, sub: string) {
    exists i | 0 <= i <= |s| - |sub| :: OccursAt(s, sub, i)
  }

  /** A string contains any of its infixes. */
  lemma ContainsInfix(a: string, sub: string, b: string)
    ensures Contains(a + sub + b, sub)
  {
    var s := a + sub + b;
    assert s[|a|..|a| + |sub|] == sub;
    assert OccursAt(s, sub, |a|);
  }

  /** A string in which the `k`-th character of `sub` never occurs does not contain `sub`. */
  lemma NotContainsChar(s: string, sub: string, k: nat)
    requires k < |sub|
    requires forall i | 0 <= i < |s| :: s[i] != sub[k]
    ensures !Contains(s, sub)
  {
    forall i | 0 <= i <= |s| - |sub|
      ensures !OccursAt(s, sub, i)
    {
      assert s[i..i + |sub|][k] == s[i + k];
    }
  }

  /** The index of the last occurrence of `c` in `s`, or -1 (`s.lastIndexOf(c)`). */
  function LastIndexOf(s: string, c: char): (k: int)
    ensures -1 <= k < |s|
    ensures k >= 0 ==> s[k] == c
    ensures forall i | k < i < |s| :: s[i] != c
  {
    if s == [] then -1
    else if s[|s| - 1] == c then |s| - 1
    else LastIndexOf(s[..|s| - 1], c)
  }

  /** `path.basename(p)` for a path without trailing separator: the part after the last '/'. */
  function Basename(p: string): (b: string)
    ensures forall i | 0 <= i < |b| :: b[i] != '/'
    ensures |b| <= |p|
  {
    p[LastIndexOf(p, '/') + 1..]
  }

  /** `path.extname(name)` for a name without '/': from the last '.' to the end, except that a
      name whose only dot leads it, a name without dot and the name ".." have none. */
  function Extname(name: string): (e: string)
    ensures |e| <= |name|
  {
    var k := LastIndexOf(name, '.');
    if k <= 0 || name == ".." then [] else name[k..]
  }

  /** An extension is empty or a dot followed by no other dot, and it ends the name, which is
      longer than it. */
  lemma ExtnameShape(name: string)
    ensures var e := Extname(name);
            && (e == [] || (e[0] == '.' && forall i | 1 <= i < |e| :: e[i] != '.'))
            && (e != [] ==> |e| < |name| && name[|name| - |e|..] == e)
  {
  }

  /** `path.parse(p).name`: the base name without its extension. */
  function ParseName(p: string): (n: string)
    ensures |n| <= |Basename(p)|
  {
    var b := Basename(p);
    b[..|b| - |Extname(b)|]
  }

  /** The name followed by the extension is the base name. */
  lemma ParseNameSplits(p: string)
    ensures ParseName(p) + Extname(Basename(p)) == Basename(p)
  {
    var b := Basename(p);
    ExtnameShape(b);
    assert b[..|b| - |Extname(b)|] + Extname(b) == b;
  }

  /** The base name ends the path, right after its last '/' when there is one. */
  lemma BasenameIsLastSegment(p: string)
    ensures var b := Basename(p);
            && p[|p| - |b|..] == b
            && (|b| < |p| ==> p[|p| - |b| - 1] == '/')
  {
  }

  /** A string that starts with `p` contains it. */
  lemma StartsWithContains(s: string, p: string)
    ensures StartsWith(s, p) ==> Contains(s, p)
  {
    if StartsWith(s, p) {
      assert OccursAt(s, p, 0);
    }
  }

  /** A string that contains `sub` contains every prefix of `sub`. */
  lemma ContainsPrefixOf(s: string, sub: string, pre: string)
    requires StartsWith(sub, pre)
    ensures Contains(s, sub) ==> Contains(s, pre)
  {
    if Contains(s, sub) {
      var i :| 0 <= i <= |s| - |sub| && OccursAt(s, sub, i);
      assert s[i..i + |pre|] == s[i..i + |sub|][..|pre|];
      assert OccursAt(s, pre, i);
    }
  }

  /** A string that does not contain the one-character string `[c]` holds no `c`. */
  lemma CharContained(s: string, c: char)
    ensures !Contains(s, [c]) ==> forall i | 0 <= i < |s| :: s[i] != c
  {
    forall i | 0 <= i < |s| && s[i] == c
      ensures Contains(s, [c])
    {
      assert OccursAt(s, [c], i);
    }
  }

  /** The name `path.parse` finds in `base + "." + ext` is `base`. */
  lemma ParseNameOfJoined(base: string, ext: string)
    requires base != [] && ext != []
    requires forall i | 0 <= i < |ext| :: ext[i] != '.' && ext[i] != '/'
    requires forall i | 0 <= i < |base| :: base[i] != '/'
    ensures ParseName(base + "." + ext) == base
  {
    var name := base + "." + ext;
    assert forall i | 0 <= i < |name| :: name[i] != '/' by {
      assert forall i | |base| < i < |name| :: name[i] == ext[i - |base| - 1];
    }
    assert Basename(name) == name;
    ExtnameOfJoined(base, ext);
  }

  /** The extension of `base + "." + ext` is `"." + ext` when `base` is not empty and `ext`
      holds no dot. */
  lemma ExtnameOfJoined(base: string, ext: string)
    requires base != [] && ext != []
    requires forall i | 0 <= i < |ext| :: ext[i] != '.'
    ensures Extname(base + "." + ext) == "." + ext
  {
    var name := base + "." + ext;
    assert name[|base|] == '.';
    assert forall i | |base| < i < |name| :: name[i] == ext[i - |base| - 1];
    LastIndexOfAt(name, '.', |base|);
    assert name[|base|..] == "." + ext;
  }

  /** The last occurrence is where `c` occurs with no `c` after it. */
  lemma {:induction false} LastIndexOfAt(s: string, c: char, k: nat)
    requires k < |s| && s[k] == c
    requires forall i | k < i < |s| :: s[i] != c
    ensures LastIndexOf(s, c) == k
  {
    if k < |s| - 1 {
      LastIndexOfAt(s[..|s| - 1], c, k);
    }
  }

  /** A string with no two dots in a row does not contain "..". */
  lemma NoDoubleDot(s: string)
    requires forall i | 0 <= i < |s| - 1 :: !(s[i] == '.' && s[i + 1] == '.')
    ensures !Contains(s, "..")
  {
    forall i | 0 <= i <= |s| - 2
      ensures !OccursAt(s, "..", i)
    {
      assert s[i..i + 2] == [s[i], s[i + 1]];
    }
  }

  /** Lowercasing a string without capital letters changes nothing. */
  lemma AlreadyLower(s: string)
    requires forall i | 0 <= i < |s| :: !('A' <= s[i] <= 'Z')
    ensures ToLower(s) == s
  {
  }
}
