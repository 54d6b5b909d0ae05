/**
 * The parts of Python's `str` and `int` built-ins that the bot's handlers
 * rely on: whitespace splitting (`str.split()` with and without `maxsplit`),
 * `strip`, `lower`, substring search, `str(int)` and `int(str)`.
 */
module PyStr {
  import opened Wrappers

  /** Python's notion of whitespace for `str.split()` and `str.strip()`. */
  predicate IsSpace(c: char) {
    var n := c as int;
    n == 0x20 || 0x09 <= n <= 0x0D || 0x1C <= n <= 0x1F || n == 0x85 || n == 0xA0
    || n == 0x1680 || 0x2000 <= n <= 0x200A || n == 0x2028 || n == 0x2029
    || n == 0x202F || n == 0x205F || n == 0x3000
  }

  predicate IsDigit(c: char) {
    '0' as int <= c as int <= '9' as int
  }

  predicate NoSpace(s: string) {
    forall i :: 0 <= i < |s| ==> !IsSpace(s[i])
  }

  /** `s.lstrip()` */
  function LStrip(s: string): (r: string)
    ensures |r| <= |s|
    ensures r == [] || !IsSpace(r[0])
  {
    if s != [] && IsSpace(s[0]) then LStrip(s[1..]) else s
  }

  /** `s.rstrip()` */
  function RStrip(s: string): (r: string)
    ensures |r| <= |s|
    ensures r == [] || !IsSpace(r[|r| - 1])
  {
    if s != [] && IsSpace(s[|s| - 1]) then RStrip(s[..|s| - 1]) else s
  }

  /** `s.strip()` */
  function Strip(s: string): string {
    RStrip(LStrip(s))
  }

  /** The length of the leading run of non-whitespace characters. */
  function WordEnd(s: string): (i: nat)
    ensures i <= |s|
    ensures forall j :: 0 <= j < i ==> !IsSpace(s[j])
    ensures i < |s| ==> IsSpace(s[i])
  {
    if s == [] || IsSpace(s[0]) then 0 else 1 + WordEnd(s[1..])
  }

  /** `s.split()`: the maximal runs of non-whitespace characters, in order. */
  function Split(s: string): (r: seq<string>)
    decreases |s|
  {
    var t := LStrip(s);
    if t == [] then []
    else
      var e := WordEnd(t);
      [t[..e]] + Split(t[e..])
  }

  /**
   * `s.split(None, maxsplit)`: at most `maxsplit` splits; the last piece is
   * the rest of the string with its leading whitespace removed.
   */
  function SplitMax(s: string, maxsplit: nat): (r: seq<string>)
    decreases |s|
  {
    var t := LStrip(s);
    if t == [] then []
    else if maxsplit == 0 then [t]
    else
      var e := WordEnd(t);
      [t[..e]] + SplitMax(t[e..], maxsplit - 1)
  }

  /**
   * `s.split(None, k)` agrees with `s.split()` on its first `k` pieces and
   * has one piece more than `k` exactly when `s.split()` does.
   */
  lemma {:induction false} SplitMaxAgrees(s: string, k: nat)
    ensures |SplitMax(s, k)| == if |Split(s)| <= k then |Split(s)| else k + 1
    ensures forall i :: 0 <= i < k && i < |Split(s)| ==> SplitMax(s, k)[i] == Split(s)[i]
    decreases |s|
  {
    var t := LStrip(s);
    if t == [] {
      assert Split(s) == [] && SplitMax(s, k) == [];
    } else if k == 0 {
      assert |Split(s)| >= 1 && SplitMax(s, k) == [t];
    } else {
      var e := WordEnd(t);
      var rest := t[e..];
      assert Split(s) == [t[..e]] + Split(rest);
      assert SplitMax(s, k) == [t[..e]] + SplitMax(rest, k - 1);
      SplitMaxAgrees(rest, k - 1);
      ConsAgrees(t[..e], Split(rest), SplitMax(rest, k - 1), k);
    }
  }

  /** Putting the same first piece before both splits keeps them agreeing, one piece further. */
  lemma ConsAgrees(w: string, a: seq<string>, b: seq<string>, k: nat)
    requires k > 0
    requires |b| == if |a| <= k - 1 then |a| else k
    requires forall i :: 0 <= i < k - 1 && i < |a| ==> b[i] == a[i]
    ensures |[w] + b| == if |[w] + a| <= k then |[w] + a| else k + 1
    ensures forall i :: 0 <= i < k && i < |[w] + a| ==> ([w] + b)[i] == ([w] + a)[i]
  {
    forall i | 0 < i < k && i < |[w] + a|
      ensures ([w] + b)[i] == ([w] + a)[i]
    {
      assert ([w] + b)[i] == b[i - 1];
    }
  }

  /** Leading whitespace is exactly what `lstrip` removes. */
  lemma {:induction false} LStripAfterSpaces(gap: string, s: string)
    requires forall i :: 0 <= i < |gap| ==> IsSpace(gap[i])
    requires s == [] || !IsSpace(s[0])
    ensures LStrip(gap + s) == s
  {
    if gap != [] {
      assert (gap + s)[1..] == gap[1..] + s;
      LStripAfterSpaces(gap[1..], s);
    }
  }

  /** `lstrip` leaves nothing exactly when the text is all whitespace. */
  lemma {:induction false} LStripEmpty(s: string)
    ensures LStrip(s) == [] <==> forall i :: 0 <= i < |s| ==> IsSpace(s[i])
  {
    if s != [] && IsSpace(s[0]) {
      LStripEmpty(s[1..]);
      assert forall i :: 1 <= i < |s| ==> s[i] == s[1..][i - 1];
    }
  }

  /** A word followed by whitespace (or by nothing) ends where the word does. */
  lemma {:induction false} WordEndOfWord(w: string, rest: string)
    requires NoSpace(w)
    requires rest == [] || IsSpace(rest[0])
    ensures WordEnd(w + rest) == |w|
  {
    if w != [] {
      assert (w + rest)[1..] == w[1..] + rest;
      WordEndOfWord(w[1..], rest);
    }
  }

  /**
   * `(w + gap + arg).split(None, 1)` is `[w, arg]` for a word `w`, a
   * whitespace gap and an `arg` that starts with a non-space character.
   */
  lemma SplitOnceAfterWord(w: string, gap: string, arg: string)
    requires w != [] && NoSpace(w)
    requires gap != [] && forall i :: 0 <= i < |gap| ==> IsSpace(gap[i])
    requires arg != [] && !IsSpace(arg[0])
    ensures SplitMax(w + gap + arg, 1) == [w, arg]
  {
    var rest := gap + arg;
    var s := w + rest;
    assert w + gap + arg == s;
    assert s[0] == w[0];
    WordEndOfWord(w, rest);
    SplitOnceUnfolds(s);
    assert s[..|w|] == w && s[|w|..] == rest;
    RestOfLastPiece(gap, arg);
  }

  /** With no split left, the piece is the argument after the whitespace. */
  lemma RestOfLastPiece(gap: string, arg: string)
    requires forall i :: 0 <= i < |gap| ==> IsSpace(gap[i])
    requires arg != [] && !IsSpace(arg[0])
    ensures SplitMax(gap + arg, 0) == [arg]
  {
    LStripAfterSpaces(gap, arg);
  }

  /** One unfolding of `split(None, 1)` on a text that starts with a word. */
  lemma SplitOnceUnfolds(s: string)
    requires s != [] && !IsSpace(s[0])
    ensures SplitMax(s, 1) == [s[..WordEnd(s)]] + SplitMax(s[WordEnd(s)..], 0)
  {
    assert LStrip(s) == s;
  }

  /** One unfolding of `split(None, k)` on a text that starts with a word, for `k > 0`. */
  lemma SplitMaxUnfolds(s: string, k: nat)
    requires s != [] && !IsSpace(s[0]) && k > 0
    ensures SplitMax(s, k) == [s[..WordEnd(s)]] + SplitMax(s[WordEnd(s)..], k - 1)
  {
    assert LStrip(s) == s;
  }

  /** Whitespace in front of a word does not change how the text splits. */
  lemma SplitMaxSkipsGap(gap: string, tail: string, k: nat)
    requires forall i :: 0 <= i < |gap| ==> IsSpace(gap[i])
    requires tail != [] && !IsSpace(tail[0])
    ensures SplitMax(gap + tail, k) == SplitMax(tail, k)
  {
    LStripAfterSpaces(gap, tail);
    assert LStrip(tail) == tail;
  }

  /**
   * `(w + gap + tail).split(None, k)` for `k > 0` is the word `w` followed
   * by `tail.split(None, k - 1)`.
   */
  lemma SplitMaxAfterWord(w: string, gap: string, tail: string, k: nat)
    requires w != [] && NoSpace(w)
    requires gap != [] && forall i :: 0 <= i < |gap| ==> IsSpace(gap[i])
    requires tail != [] && !IsSpace(tail[0])
    requires k > 0
    ensures SplitMax(w + gap + tail, k) == [w] + SplitMax(tail, k - 1)
  {
    var rest := gap + tail;
    var s := w + rest;
    assert w + gap + tail == s;
    assert s[0] == w[0];
    WordEndOfWord(w, rest);
    SplitMaxUnfolds(s, k);
    assert s[..|w|] == w && s[|w|..] == rest;
    SplitMaxSkipsGap(gap, tail, k - 1);
  }

  /** `w.split(None, 1)` is `[w]` for a single word. */
  lemma SplitOnceOfWord(w: string)
    requires w != [] && NoSpace(w)
    ensures SplitMax(w, 1) == [w]
  {
    assert LStrip(w) == w;
    WordEndOfWord(w, []);
    assert w + [] == w;
    assert w[|w|..] == [];
  }

  /** `lower` maps whitespace to whitespace and nothing else to whitespace. */
  lemma LowerKeepsSpaces(c: char)
    ensures IsSpace(LowerChar(c)) <==> IsSpace(c)
  {
  }

  /** `s.lower()` on the ASCII letters. */
  function Lower(s: string): (r: string)
    ensures |r| == |s|
    ensures forall i :: 0 <= i < |s| ==> r[i] == LowerChar(s[i])
  {
    if s == [] then [] else [LowerChar(s[0])] + Lower(s[1..])
  }

  function LowerChar(c: char): char {
    if 'A' <= c <= 'Z' then (c as int + 32) as char else c
  }

  predicate IsPrefix(p: string, s: string) {
    |p| <= |s| && s[..|p|] == p
  }

  /** `sub` occurs in `s` starting at index `j`. */
  predicate OccursAt(s: string, sub: string, j: int) {
    0 <= j && j + |sub| <= |s| && s[j..j + |sub|] == sub
  }

  /** `s.find(sub)`: the lowest index at which `sub` occurs, or -1. */
  function Find(s: string, sub: string): (r: int)
    ensures -1 <= r <= |s|
    ensures r >= 0 ==> OccursAt(s, sub, r)
    ensures forall j :: 0 <= j <= |s| && (r < 0 || j < r) ==> !OccursAt(s, sub, j)
  {
    if IsPrefix(sub, s) then 0
    else if s == [] then -1
    else
      var k := Find(s[1..], sub);
      assert forall j :: 1 <= j <= |s| ==> (OccursAt(s, sub, j) <==> OccursAt(s[1..], sub, j - 1)) by {
        forall j | 1 <= j <= |s| {
          OccursInTail(s, sub, j);
        }
      }
      if k < 0 then -1 else k + 1
  }

  lemma OccursInTail(s: string, sub: string, j: int)
    requires 1 <= j <= |s|
    ensures OccursAt(s, sub, j) <==> OccursAt(s[1..], sub, j - 1)
  {
    if j + |sub| <= |s| {
      var here, there := s[j..j + |sub|], s[1..][j - 1..j - 1 + |sub|];
      forall m | 0 <= m < |sub| ensures here[m] == there[m] {
        assert here[m] == s[j + m];
      }
      assert here == there;
    }
  }

  /** `sub in s` */
  predicate Contains(s: string, sub: string) {
    Find(s, sub) >= 0
  }

  lemma ContainsAt(s: string, sub: string, j: nat)
    requires OccursAt(s, sub, j)
    ensures Contains(s, sub)
  {
  }

  /** `s.split(sep)[-1]`: what follows the last of the occurrences of `sep` found left to right. */
  function AfterLast(s: string, sep: string): (r: string)
    requires sep != []
    decreases |s|
  {
    var i := Find(s, sep);
    if i < 0 then s else AfterLast(s[i + |sep|..], sep)
  }

  /** The piece after the last separator holds no separator. */
  lemma {:induction false} AfterLastHasNoSep(s: string, sep: string)
    requires sep != []
    ensures !Contains(AfterLast(s, sep), sep)
    decreases |s|
  {
    var i := Find(s, sep);
    if i >= 0 {
      AfterLastHasNoSep(s[i + |sep|..], sep);
    }
  }

  lemma ConcatAssoc(a: string, b: string, c: string, d: string)
    ensures a + b + (c + b + d) == (a + b + c) + b + d
  {
  }

  /** When `sep` occurs in `s`, `s` is some prefix `p`, then `sep`, then the piece after the last one. */
  lemma {:induction false} AfterLastFollowsSep(s: string, sep: string) returns (p: string)
    requires sep != [] && Contains(s, sep)
    ensures s == p + sep + AfterLast(s, sep)
    decreases |s|
  {
    var i := Find(s, sep);
    var rest := s[i + |sep|..];
    var pre := s[..i];
    assert s == pre + sep + rest by {
      assert s == s[..i] + s[i..i + |sep|] + rest;
    }
    var r := AfterLast(rest, sep);
    assert AfterLast(s, sep) == r;
    if Contains(rest, sep) {
      var q := AfterLastFollowsSep(rest, sep);
      p := pre + sep + q;
      ConcatAssoc(pre, sep, q, r);
    } else {
      p := pre;
    }
  }

  function DigitChar(d: nat): (c: char)
    requires d < 10
    ensures IsDigit(c) && c as int - '0' as int == d
  {
    "0123456789"[d]
  }

  /** `str(n)` for a non-negative `n` */
  function NatToString(n: nat): (r: string)
  {
    if n < 10 then [DigitChar(n)] else NatToString(n / 10) + [DigitChar(n % 10)]
  }

  /** `str(n)` */
  function IntToString(n: int): string {
    if n < 0 then "-" + NatToString(-n) else NatToString(n)
  }

  /** The decimal value of a string of ASCII digits. */
  function DigitsValue(d: string): nat
    requires forall i :: 0 <= i < |d| ==> IsDigit(d[i])
  {
    if d == [] then 0
    else
      var last := d[|d| - 1];
      assert IsDigit(last);
      DigitsValue(d[..|d| - 1]) * 10 + (last as int - '0' as int)
  }

  /**
   * Digits with single underscores allowed between two digits (PEP 515):
   * first and last a digit, every character a digit or `_`, no `__`.
   */
  predicate WellFormedDigits(s: string) {
    && |s| > 0
    && IsDigit(s[0])
    && IsDigit(s[|s| - 1])
    && (forall i :: 0 <= i < |s| ==> IsDigit(s[i]) || s[i] == '_')
    && (forall i :: 0 <= i < |s| - 1 ==> !DoubleUnderscoreAt(s, i))
  }

  /** Two underscores in a row start at `i`. */
  predicate DoubleUnderscoreAt(s: string, i: int)
    requires 0 <= i < |s| - 1
  {
    s[i] == '_' && s[i + 1] == '_'
  }

  function DropUnderscores(s: string): (r: string)
    requires forall i :: 0 <= i < |s| ==> IsDigit(s[i]) || s[i] == '_'
    ensures forall i :: 0 <= i < |r| ==> IsDigit(r[i])
    ensures (forall i :: 0 <= i < |s| ==> IsDigit(s[i])) ==> r == s
  {
    if s == [] then []
    else if s[0] == '_' then DropUnderscores(s[1..])
    else [s[0]] + DropUnderscores(s[1..])
  }

  /**
   * `int(s)` with base 10: `None` where Python raises `ValueError`. Blank
   * text is refused, and a negative value needs a leading minus sign.
   */
  function ParseInt(s: string): (r: Option<int>)
    ensures Strip(s) == [] ==> r.None?
    ensures r.Some? && r.value < 0 ==> Strip(s)[0] == '-'
  {
    ParseSigned(Strip(s))
  }

  /** An optional sign followed by digits. */
  function ParseSigned(t: string): Option<int> {
    if |t| > 0 && t[0] == '-' then
      match ParseDigits(t[1..])
      case Some(v) => Some(-v)
      case None => None
    else if |t| > 0 && t[0] == '+' then ParseDigits(t[1..])
    else ParseDigits(t)
  }

  function ParseDigits(b: string): Option<int> {
    if WellFormedDigits(b) then Some(DigitsValue(DropUnderscores(b))) else None
  }

  lemma {:induction false} NatToStringDigits(n: nat)
    ensures NatToString(n) != []
    ensures forall i :: 0 <= i < |NatToString(n)| ==> IsDigit(NatToString(n)[i])
    ensures DigitsValue(NatToString(n)) == n
  {
    if n >= 10 {
      NatToStringDigits(n / 10);
      var s := NatToString(n / 10) + [DigitChar(n % 10)];
      assert s[..|s| - 1] == NatToString(n / 10);
    }
  }

  /** A string with no whitespace at either end is its own `strip()`. */
  lemma StripUnchanged(s: string)
    requires s != [] && !IsSpace(s[0]) && !IsSpace(s[|s| - 1])
    ensures Strip(s) == s
  {
    assert LStrip(s) == s;
  }

  lemma ParsePlainDigits(d: string)
    requires d != [] && forall i :: 0 <= i < |d| ==> IsDigit(d[i])
    ensures ParseDigits(d) == Some(DigitsValue(d))
  {
    assert DropUnderscores(d) == d;
    assert WellFormedDigits(d);
  }

  /** `int(d)` of a plain string of digits is its decimal value. */
  lemma ParseDigitString(d: string)
    requires d != [] && forall i :: 0 <= i < |d| ==> IsDigit(d[i])
    ensures ParseInt(d) == Some(DigitsValue(d))
  {
    assert IsDigit(d[0]) && IsDigit(d[|d| - 1]);
    StripUnchanged(d);
    ParsePlainDigits(d);
  }

  lemma StripSignedDigits(d: string)
    requires d != [] && forall i :: 0 <= i < |d| ==> IsDigit(d[i])
    ensures Strip("-" + d) == "-" + d
  {
    var m := "-" + d;
    assert m[|m| - 1] == d[|d| - 1];
    assert IsDigit(d[|d| - 1]);
    StripUnchanged(m);
  }

  /** `int("-" + d)` of well-formed digits is their negated value. */
  lemma ParseNegativeDigitString(d: string, v: int)
    requires d != [] && forall i :: 0 <= i < |d| ==> IsDigit(d[i])
    requires ParseDigits(d) == Some(v)
    ensures ParseInt("-" + d) == Some(-v)
  {
    StripSignedDigits(d);
    ParseIntOfStripped("-" + d);
    ParseMinus(d, v);
  }

  lemma ParseIntOfStripped(s: string)
    requires Strip(s) == s
    ensures ParseInt(s) == ParseSigned(s)
  {
  }

  lemma ParseMinus(b: string, v: int)
    requires ParseDigits(b) == Some(v)
    ensures ParseSigned("-" + b) == Some(-v)
  {
    assert ("-" + b)[1..] == b;
  }

  /** `int(str(n)) == n` */
  lemma ParseIntRoundTrip(n: int)
    ensures ParseInt(IntToString(n)) == Some(n)
  {
    var m := if n < 0 then -n else n;
    NatToStringDigits(m);
    if n < 0 {
      ParsePlainDigits(NatToString(m));
      ParseNegativeDigitString(NatToString(m), m);
    } else {
      ParseDigitString(NatToString(m));
    }
  }

  /**
   * A decimal representation that begins with "100" belongs to a number of
   * at least 100.
   */
  lemma LongNatIsLarge(n: nat)
    ensures |NatToString(n)| >= 3 ==> n >= 100
  {
    if n >= 10 {
      assert NatToString(n) == NatToString(n / 10) + [DigitChar(n % 10)];
    }
  }

  /** `str(n).startswith("-100")` holds only of `n <= -100`. */
  lemma SupergroupPrefixIsNegative(n: int)
    requires IsPrefix("-100", IntToString(n))
    ensures n <= -100
  {
    var s := IntToString(n);
    assert s[..4][0] == '-';
    if n >= 0 {
      NatToStringDigits(n);
      assert false;
    } else {
      assert s[1..] == NatToString(-n);
      LongNatIsLarge(-n);
    }
  }
}
