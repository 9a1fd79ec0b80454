/**
 * The JavaScript string operations the application relies on: the `\s`
 * character class, `trim`, ASCII `toLowerCase`, `includes`, `split` on a
 * literal separator, `join`, `parseInt` and the word runs that
 * `trim().split(/\s+/).filter(w => w.length > 0)` produces.
 */
module Text {
  import opened Wrappers

  /** JavaScript's `\s` class, which is also the set of characters `trim` strips. */
  predicate IsSpace(c: char) {
    || c == ' ' || c == '\t' || c == '\n' || c == '\U{000B}' || c == '\U{000C}' || c == '\r'
    || c == '\U{00A0}' || c == '\U{1680}' || ('\U{2000}' <= c <= '\U{200A}')
    || c == '\U{2028}' || c == '\U{2029}' || c == '\U{202F}' || c == '\U{205F}'
    || c == '\U{3000}' || c == '\U{FEFF}'
  }

  predicate HasSpace(s: string) {
    exists i | 0 <= i < |s| :: IsSpace(s[i])
  }

  predicate AllSpace(s: string) {
    forall i | 0 <= i < |s| :: IsSpace(s[i])
  }

  /** `toLowerCase` on one character, for the ASCII letters. */
  function LowerChar(c: char): char {
    if 'A' <= c <= 'Z' then (c as int + 32) as char else c
  }

  function ToLower(s: string): (r: string)
    ensures |r| == |s|
  {
    seq(|s|, i requires 0 <= i < |s| => LowerChar(s[i]))
  }

  /** Lower-casing works character by character. */
  lemma ToLowerAppend(a: string, b: string)
    ensures ToLower(a + b) == ToLower(a) + ToLower(b)
  {
  }

  /** Lower-casing neither creates nor removes whitespace. */
  lemma ToLowerKeepsSpaces(s: string)
    ensures HasSpace(ToLower(s)) <==> HasSpace(s)
  {
    if HasSpace(s) {
      var i :| 0 <= i < |s| && IsSpace(s[i]);
      assert IsSpace(ToLower(s)[i]);
    }
    if HasSpace(ToLower(s)) {
      var i :| 0 <= i < |s| && IsSpace(ToLower(s)[i]);
      assert IsSpace(s[i]);
    }
  }

  /** Lower-casing twice is lower-casing once. */
  lemma ToLowerIdempotent(s: string)
    ensures ToLower(ToLower(s)) == ToLower(s)
  {
  }

  /** A string that does not contain `sep` splits into itself alone. */
  lemma {:induction false} SplitWithout(s: string, sep: string)
    requires sep != [] && !Contains(s, sep)
    ensures Split(s, sep) == [s]
    decreases |s|
  {
    if |s| >= |sep| {
      assert !(sep <= s[0..]);
      assert s[0..] == s;
      assert !Contains(s[1..], sep) by {
        forall i | 0 <= i <= |s[1..]|
          ensures !(sep <= s[1..][i..])
        {
          assert s[1..][i..] == s[i + 1..];
        }
      }
      SplitWithout(s[1..], sep);
      assert [s[0]] + s[1..] == s;
    }
  }

  lemma AllSpaceCons(s: string)
    requires s != []
    ensures AllSpace(s) <==> IsSpace(s[0]) && AllSpace(s[1..])
  {
    if IsSpace(s[0]) && AllSpace(s[1..]) {
      forall i | 1 <= i < |s| ensures IsSpace(s[i]) { assert s[i] == s[1..][i - 1]; }
    }
  }

  /** Length of the leading run of whitespace characters. */
  function SpaceRun(s: string): (n: nat)
    ensures n <= |s|
    ensures forall i | 0 <= i < n :: IsSpace(s[i])
    ensures n == |s| || !IsSpace(s[n])
  {
    if s != [] && IsSpace(s[0]) then 1 + SpaceRun(s[1..]) else 0
  }

  /** Length of the trailing run of whitespace characters. */
  function TrailRun(s: string): (n: nat)
    ensures n <= |s|
    ensures forall i | |s| - n <= i < |s| :: IsSpace(s[i])
    ensures n == |s| || !IsSpace(s[|s| - n - 1])
  {
    if s != [] && IsSpace(s[|s| - 1]) then 1 + TrailRun(s[..|s| - 1]) else 0
  }

  /** `String.prototype.trimStart`. */
  function TrimStart(s: string): (r: string)
    ensures |r| <= |s| && r == s[|s| - |r|..]
    ensures AllSpace(s[..|s| - |r|])
    ensures r == [] || !IsSpace(r[0])
    ensures r == [] <==> AllSpace(s)
  {
    var n := SpaceRun(s);
    assert forall i | 0 <= i < n :: s[..n][i] == s[i];
    s[n..]
  }

  /** `String.prototype.trimEnd`. */
  function TrimEnd(s: string): (r: string)
    ensures |r| <= |s| && r == s[..|r|]
    ensures AllSpace(s[|r|..])
    ensures r == [] || !IsSpace(r[|r| - 1])
  {
    var n := TrailRun(s);
    assert forall i | |s| - n <= i < |s| :: s[|s| - n..][i - (|s| - n)] == s[i];
    s[..|s| - n]
  }

  /** `String.prototype.trim`: the result has no whitespace at either end,
      and it is empty exactly when the input is all whitespace. */
  function Trim(s: string): (r: string)
    ensures r == [] || (!IsSpace(r[0]) && !IsSpace(r[|r| - 1]))
    ensures r == [] <==> AllSpace(s)
  {
    var t := TrimStart(s);
    var r := TrimEnd(t);
    assert r != [] ==> r[0] == t[0];
    assert r == [] ==> AllSpace(t) by { assert r == [] ==> t[|r|..] == t; }
    assert t != [] ==> !AllSpace(t);
    r
  }

  /** A string with no whitespace at either end is its own trim. */
  lemma TrimUnchanged(s: string)
    requires s != [] && !IsSpace(s[0]) && !IsSpace(s[|s| - 1])
    ensures Trim(s) == s
  {
    assert SpaceRun(s) == 0;
    assert TrailRun(s) == 0;
  }

  /** Trimming twice is trimming once. */
  lemma TrimIdempotent(s: string)
    ensures Trim(Trim(s)) == Trim(s)
  {
    var r := Trim(s);
    assert TrimStart(r) == r;
    assert TrimEnd(r) == r;
  }

  /** A string value that JavaScript treats as true: present and non-empty. */
  predicate Truthy(s: Option<string>) {
    s.Some? && s.value != ""
  }

  /** `s || d` for a string value that may be absent. */
  function OrElse(s: Option<string>, d: string): (r: string)
    ensures Truthy(s) ==> r == s.value
    ensures !Truthy(s) ==> r == d
  {
    if Truthy(s) then s.value else d
  }

  /** `s.includes(sub)`. */
  predicate Contains(s: string, sub: string) {
    exists i | 0 <= i <= |s| :: sub <= s[i..]
  }

  lemma ContainsEmpty(s: string)
    ensures Contains(s, "")
  {
    assert "" <= s[0..];
  }

  /** `s.split(sep)` for a non-empty literal separator, scanning left to right. */
  function Split(s: string, sep: string): (r: seq<string>)
    requires sep != []
    ensures |r| >= 1
    decreases |s|
  {
    if |s| < |sep| then [s]
    else if sep <= s then [""] + Split(s[|sep|..], sep)
    else
      var rest := Split(s[1..], sep);
      [[s[0]] + rest[0]] + rest[1..]
  }

  /** `pieces.join(sep)`. */
  function Join(pieces: seq<string>, sep: string): string {
    if |pieces| == 0 then ""
    else if |pieces| == 1 then pieces[0]
    else pieces[0] + sep + Join(pieces[1..], sep)
  }

  lemma JoinCons(p: string, ps: seq<string>, sep: string)
    requires ps != []
    ensures Join([p] + ps, sep) == p + sep + Join(ps, sep)
  {
    assert ([p] + ps)[1..] == ps;
  }

  /** Joining non-empty pieces gives the empty text only for no pieces. */
  lemma JoinEmpty(ps: seq<string>, sep: string)
    requires forall i | 0 <= i < |ps| :: ps[i] != []
    ensures Join(ps, sep) == "" <==> ps == []
  {
    if |ps| > 1 {
      assert |Join(ps, sep)| >= |ps[0]|;
    }
  }

  lemma JoinPrependChar(c: char, ps: seq<string>, sep: string)
    requires ps != []
    ensures Join([[c] + ps[0]] + ps[1..], sep) == [c] + Join(ps, sep)
  {
    if |ps| == 1 {
    } else {
      JoinCons([c] + ps[0], ps[1..], sep);
      JoinCons(ps[0], ps[1..], sep);
      assert [ps[0]] + ps[1..] == ps;
    }
  }

  /** Joining the pieces of a split with the same separator gives the string back. */
  lemma {:induction false} JoinSplit(s: string, sep: string)
    requires sep != []
    ensures Join(Split(s, sep), sep) == s
    decreases |s|
  {
    if |s| < |sep| {
    } else if sep <= s {
      var rest := Split(s[|sep|..], sep);
      assert Split(s, sep) == [""] + rest;
      JoinSplit(s[|sep|..], sep);
      JoinCons("", rest, sep);
      assert s == sep + s[|sep|..];
    } else {
      var rest := Split(s[1..], sep);
      assert Split(s, sep) == [[s[0]] + rest[0]] + rest[1..];
      JoinSplit(s[1..], sep);
      JoinPrependChar(s[0], rest, sep);
      assert s == [s[0]] + s[1..];
    }
  }

  /** The first piece of a split on a one-character separator is the text
      before its first occurrence. */
  lemma {:induction false} SplitFirst(s: string, c: char, k: nat)
    requires k < |s| && s[k] == c && c !in s[..k]
    ensures Split(s, [c])[0] == s[..k]
    decreases k
  {
    if k == 0 {
      assert [c] <= s;
    } else {
      assert s[0] in s[..k];
      assert !([c] <= s);
      assert s[1..][..k - 1] == s[..k][1..];
      SplitFirst(s[1..], c, k - 1);
      assert s[..k] == [s[0]] + s[1..k];
    }
  }

  /** `sep` occurs at position k of `s`. */
  predicate SepAt(s: string, sep: string, k: nat) {
    k + |sep| <= |s| && s[k..k + |sep|] == sep
  }

  /** An occurrence in the tail is one position further on in the text. */
  lemma SepAtTail(s: string, sep: string, i: nat)
    requires s != []
    ensures SepAt(s[1..], sep, i) <==> SepAt(s, sep, i + 1)
  {
    if i + 1 + |sep| <= |s| {
      assert s[1..][i..i + |sep|] == s[i + 1..i + 1 + |sep|];
    }
  }

  /** Without the separator in front, the first character joins the first
      piece of the tail's split. */
  lemma SplitStep(s: string, sep: string)
    requires sep != [] && |sep| <= |s| && !SepAt(s, sep, 0)
    ensures var rest := Split(s[1..], sep);
      Split(s, sep) == [[s[0]] + rest[0]] + rest[1..]
  {
    assert s[0..|sep|] == s[..|sep|];
  }

  /** A split cuts at the first occurrence of the separator: the first piece
      is the text before it, and the rest is the split of the text after it. */
  lemma {:induction false} SplitAt(s: string, sep: string, k: nat)
    requires sep != [] && SepAt(s, sep, k)
    requires forall i | 0 <= i < k :: !SepAt(s, sep, i)
    ensures Split(s, sep) == [s[..k]] + Split(s[k + |sep|..], sep)
    decreases k
  {
    if k == 0 {
      assert s[..|sep|] == sep;
      assert sep <= s;
    } else {
      var t := s[1..];
      SplitStep(s, sep);
      SepAtTail(s, sep, k - 1);
      forall i | 0 <= i < k - 1
        ensures !SepAt(t, sep, i)
      {
        SepAtTail(s, sep, i);
      }
      SplitAt(t, sep, k - 1);
      assert t[k - 1 + |sep|..] == s[k + |sep|..];
      assert [s[0]] + t[..k - 1] == s[..k];
    }
  }

  /** A string shorter than the separator is a single piece. */
  lemma SplitShort(s: string, sep: string)
    requires sep != [] && |s| < |sep|
    ensures Split(s, sep) == [s]
  {
  }

  predicate IsDigit(c: char) {
    '0' <= c <= '9'
  }

  /** The radixes `parseInt` chooses between without an explicit radix. */
  type Radix = r: int | r == 10 || r == 16 witness 10

  /** A digit of the radix: a decimal digit, or for sixteen also `a`-`f` and
      `A`-`F`. */
  predicate IsDigitIn(c: char, radix: Radix) {
    IsDigit(c) || (radix == 16 && ('a' <= c <= 'f' || 'A' <= c <= 'F'))
  }

  function DigitValue(c: char, radix: Radix): (v: nat)
    requires IsDigitIn(c, radix)
    ensures v < radix
  {
    if IsDigit(c) then c as int - '0' as int
    else if 'a' <= c <= 'f' then c as int - 'a' as int + 10
    else c as int - 'A' as int + 10
  }

  /** Length of the leading run of digits of the radix. */
  function DigitRun(s: string, radix: Radix): (n: nat)
    ensures n <= |s|
    ensures forall i | 0 <= i < n :: IsDigitIn(s[i], radix)
    ensures n == |s| || !IsDigitIn(s[n], radix)
  {
    if s != [] && IsDigitIn(s[0], radix) then 1 + DigitRun(s[1..], radix) else 0
  }

  /** The value of a string of digits of the radix, most significant first. */
  function DigitsValue(ds: string, radix: Radix): (v: nat)
    requires forall i | 0 <= i < |ds| :: IsDigitIn(ds[i], radix)
  {
    if ds == [] then 0
    else
      var d := ds[|ds| - 1];
      assert IsDigitIn(d, radix);
      radix * DigitsValue(ds[..|ds| - 1], radix) + DigitValue(d, radix)
  }

  /** What follows the leading whitespace and an optional sign. */
  function Unsigned(s: string): string {
    var t := TrimStart(s);
    if t != [] && (t[0] == '+' || t[0] == '-') then t[1..] else t
  }

  predicate HexPrefixed(u: string) {
    |u| >= 2 && u[0] == '0' && (u[1] == 'x' || u[1] == 'X')
  }

  /** `parseInt(s)` without a radix: leading whitespace, an optional sign,
      then a `0x`/`0X` prefix selecting radix sixteen (ten otherwise), then
      the longest run of digits of that radix; `None` stands for `NaN` (no
      digit after the prefix). */
  function ParseInt(s: string): (r: Option<int>)
    ensures var u := Unsigned(s);
      r.None? <==> if HexPrefixed(u) then DigitRun(u[2..], 16) == 0 else DigitRun(u, 10) == 0
  {
    var t := TrimStart(s);
    var negative := t != [] && t[0] == '-';
    var u := Unsigned(s);
    var radix: Radix := if HexPrefixed(u) then 16 else 10;
    var body := if HexPrefixed(u) then u[2..] else u;
    var n := DigitRun(body, radix);
    if n == 0 then None
    else
      var ds := body[..n];
      assert forall i | 0 <= i < |ds| :: IsDigitIn(ds[i], radix);
      var v: int := DigitsValue(ds, radix);
      Some(if negative then -v else v)
  }

  /** A text starting with neither blank nor sign is its own unsigned part. */
  lemma UnsignedPlain(s: string)
    requires s != [] && !IsSpace(s[0]) && s[0] != '+' && s[0] != '-'
    ensures TrimStart(s) == s && Unsigned(s) == s
  {
    assert SpaceRun(s) == 0;
  }

  /** A text of digits without prefix, sign or leading blank parses to its
      decimal value, whatever follows the digits. */
  lemma {:induction false} ParseIntDecimal(ds: string, rest: string)
    requires ds != [] && forall i | 0 <= i < |ds| :: IsDigit(ds[i])
    requires !(|ds| == 1 && ds[0] == '0' && rest != [] && (rest[0] == 'x' || rest[0] == 'X'))
    requires rest == [] || !IsDigit(rest[0])
    ensures ParseInt(ds + rest) == Some(DigitsValue(ds, 10))
  {
    var s := ds + rest;
    assert s[0] == ds[0];
    UnsignedPlain(s);
    assert !HexPrefixed(s) by {
      if |ds| > 1 { assert s[1] == ds[1]; }
    }
    assert forall i | 0 <= i < |ds| :: IsDigitIn(s[i], 10) by {
      forall i | 0 <= i < |ds| ensures IsDigitIn(s[i], 10) { assert s[i] == ds[i]; }
    }
    DigitRunPrefix(s, |ds|, 10);
    assert s[..|ds|] == ds;
  }

  /** The digit run stops exactly where a non-digit follows `n` digits. */
  lemma {:induction false} DigitRunPrefix(s: string, n: nat, radix: Radix)
    requires n <= |s|
    requires forall i | 0 <= i < n :: IsDigitIn(s[i], radix)
    requires n == |s| || !IsDigitIn(s[n], radix)
    ensures DigitRun(s, radix) == n
  {
    if n > 0 {
      DigitRunPrefix(s[1..], n - 1, radix);
    }
  }

  /** After a `0x` or `0X` prefix the digits are read in radix sixteen, and
      a prefix without any is `NaN`. */
  lemma {:induction false} ParseIntHexPrefix(x: char, ds: string, rest: string)
    requires x == 'x' || x == 'X'
    requires forall i | 0 <= i < |ds| :: IsDigitIn(ds[i], 16)
    requires rest == [] || !IsDigitIn(rest[0], 16)
    ensures ParseInt(['0', x] + ds + rest) == if ds == [] then None else Some(DigitsValue(ds, 16))
  {
    var s := ['0', x] + ds + rest;
    UnsignedPlain(s);
    assert HexPrefixed(s);
    var body := s[2..];
    assert body == ds + rest;
    assert forall i | 0 <= i < |ds| :: IsDigitIn(body[i], 16) by {
      forall i | 0 <= i < |ds| ensures IsDigitIn(body[i], 16) { assert body[i] == ds[i]; }
    }
    DigitRunPrefix(body, |ds|, 16);
    assert body[..|ds|] == ds;
  }

  /** Worked example: `parseInt("0x2")` is 2, not 0. */
  lemma ParseIntHexExample()
    ensures ParseInt("0x2") == Some(2)
  {
    var ds := ['2'];
    assert DigitsValue(ds, 16) == 2 by {
      assert ds[..0] == [];
    }
    ParseIntHexPrefix('x', ds, []);
    assert ['0', 'x'] + ds + [] == "0x2";
  }

  /** The decimal rendering of a natural number, as `String(n)` gives it. */
  function NatToString(n: nat): (s: string)
    ensures s != [] && forall i | 0 <= i < |s| :: IsDigit(s[i])
  {
    var d := ['0' + (n % 10) as char];
    if n < 10 then d else NatToString(n / 10) + d
  }

  lemma {:induction false} DigitsValueNatToString(n: nat)
    ensures DigitsValue(NatToString(n), 10) == n
  {
    var s := NatToString(n);
    if n >= 10 {
      DigitsValueNatToString(n / 10);
      assert s[..|s| - 1] == NatToString(n / 10);
    } else {
      assert s[..|s| - 1] == [];
    }
  }

  /** `parseInt(String(n))` gives `n` back. */
  lemma ParseIntNatToString(n: nat)
    ensures ParseInt(NatToString(n)) == Some(n)
  {
    var s := NatToString(n);
    assert s + [] == s;
    ParseIntDecimal(s, []);
    DigitsValueNatToString(n);
  }

  /** Length of the leading run of non-whitespace characters. */
  function RunLength(t: string): (n: nat)
    ensures n <= |t|
    ensures forall i | 0 <= i < n :: !IsSpace(t[i])
    ensures n == |t| || IsSpace(t[n])
  {
    if t == [] || IsSpace(t[0]) then 0 else 1 + RunLength(t[1..])
  }

  /** A word: a non-empty string without whitespace. */
  predicate IsWord(w: string) {
    w != [] && !HasSpace(w)
  }

  /** The leading run of a string that starts with a non-space is a word. */
  lemma LeadingRunIsWord(t: string)
    requires t != [] && !IsSpace(t[0])
    ensures IsWord(t[..RunLength(t)])
  {
    var w := t[..RunLength(t)];
    assert w[0] == t[0];
    forall i | 0 <= i < |w| ensures !IsSpace(w[i]) { assert w[i] == t[i]; }
  }

  /** The maximal runs of non-whitespace characters of `s`, left to right:
      what `s.trim().split(/\s+/).filter(w => w.length > 0)` yields. */
  function Words(s: string): (r: seq<string>)
    ensures forall w | w in r :: IsWord(w)
    decreases |s|
  {
    var t := TrimStart(s);
    if t == [] then []
    else
      var n := RunLength(t);
      LeadingRunIsWord(t);
      [t[..n]] + Words(t[n..])
  }

  /** Independent reference: scan `s` once, counting each non-whitespace
      character that follows whitespace (or the start of the string). */
  function RunStarts(s: string, afterSpace: bool): nat {
    if s == [] then 0
    else (if afterSpace && !IsSpace(s[0]) then 1 else 0) + RunStarts(s[1..], IsSpace(s[0]))
  }

  lemma {:induction false} RunStartsSkipSpace(sp: string, t: string, afterSpace: bool)
    requires AllSpace(sp) && sp != []
    ensures RunStarts(sp + t, afterSpace) == RunStarts(t, true)
    decreases |sp|
  {
    assert (sp + t)[1..] == sp[1..] + t;
    if |sp| > 1 {
      RunStartsSkipSpace(sp[1..], t, true);
    }
  }

  lemma {:induction false} RunStartsSkipRun(w: string, t: string)
    requires forall i | 0 <= i < |w| :: !IsSpace(w[i])
    requires t == [] || IsSpace(t[0])
    ensures RunStarts(w + t, false) == RunStarts(t, true)
    decreases |w|
  {
    if w == [] {
      assert w + t == t;
    } else {
      assert (w + t)[1..] == w[1..] + t;
      RunStartsSkipRun(w[1..], t);
    }
  }

  /** Skipping the leading whitespace does not change the count of run starts. */
  lemma RunStartsTrimStart(s: string)
    ensures RunStarts(s, true) == RunStarts(TrimStart(s), true)
  {
    var t := TrimStart(s);
    var k := |s| - |t|;
    if k > 0 {
      assert s == s[..k] + t;
      RunStartsSkipSpace(s[..k], t, true);
    }
  }

  /** A string starting with a word: one run start, then the rest after the word. */
  lemma RunStartsFirstWord(t: string)
    requires t != [] && !IsSpace(t[0])
    ensures RunStarts(t, true) == 1 + RunStarts(t[RunLength(t)..], true)
  {
    var n := RunLength(t);
    assert t[1..] == t[1..n] + t[n..];
    RunStartsSkipRun(t[1..n], t[n..]);
  }

  /** The number of words is the number of run starts. */
  lemma {:induction false} WordCountIsRunStarts(s: string)
    ensures |Words(s)| == RunStarts(s, true)
    decreases |s|
  {
    var t := TrimStart(s);
    RunStartsTrimStart(s);
    if t != [] {
      var n := RunLength(t);
      RunStartsFirstWord(t);
      WordCountIsRunStarts(t[n..]);
      assert |Words(s)| == 1 + |Words(t[n..])|;
    }
  }

  /** Whitespace-only text has no words, and any other text has at least one. */
  lemma {:induction false} NoWordsIffAllSpace(s: string)
    ensures Words(s) == [] <==> AllSpace(s)
  {
    var t := TrimStart(s);
    var k := |s| - |t|;
    if t == [] {
      forall i | 0 <= i < |s| ensures IsSpace(s[i]) { assert s[i] == s[..k][i]; }
    } else {
      assert s[k] == t[0];
    }
  }
}
