/** The JavaScript string and array primitives the application relies on:
    `trim`, `startsWith`, `endsWith`, `includes`, `indexOf`, `split` on one
    character, `replace` of a literal (first occurrence or global),
    `substring(0, n)`, `slice(0, n)`, `padStart`, and `Number.prototype.toString`
    for integers. Strings are sequences of characters. */
module Text {
  import opened Types


  /** The characters String.prototype.trim removes: the ECMAScript WhiteSpace
      and LineTerminator code points. */
  predicate IsSpace(c: char) {
    || c == ' ' || c == '\t' || c == '\n' || c == '\r'
    || c == '\U{000B}' || c == '\U{000C}' || c == '\U{00A0}' || c == '\U{FEFF}'
    || c == '\U{1680}' || ('\U{2000}' <= c <= '\U{200A}')
    || c == '\U{2028}' || c == '\U{2029}' || c == '\U{202F}' || c == '\U{205F}' || c == '\U{3000}'
  }

  /** The number of leading trim characters of `s`. */
  function LeadingSpaces(s: string): (k: nat)
    ensures k <= |s|
    ensures forall i :: 0 <= i < k ==> IsSpace(s[i])
    ensures k < |s| ==> !IsSpace(s[k])
  {
    if |s| == 0 || !IsSpace(s[0]) then 0 else 1 + LeadingSpaces(s[1..])
  }

  /** The index where the run of trailing trim characters of `s` starts. */
  function TrailingStart(s: string): (k: nat)
    ensures k <= |s|
    ensures forall i :: k <= i < |s| ==> IsSpace(s[i])
    ensures 0 < k ==> !IsSpace(s[k - 1])
  {
    if |s| == 0 || !IsSpace(s[|s| - 1]) then |s| else TrailingStart(s[..|s| - 1])
  }

  /** String.prototype.trim. */
  function Trim(s: string): string {
    var t := s[LeadingSpaces(s)..];
    t[..TrailingStart(t)]
  }

  /** What trimming means: the result is a contiguous piece of the input that
      neither begins nor ends with a trim character, and everything cut off
      is a trim character. */
  lemma TrimSpec(s: string)
    ensures |Trim(s)| == 0 || (!IsSpace(Trim(s)[0]) && !IsSpace(Trim(s)[|Trim(s)| - 1]))
    ensures LeadingSpaces(s) + |Trim(s)| <= |s|
    ensures s[LeadingSpaces(s)..LeadingSpaces(s) + |Trim(s)|] == Trim(s)
    ensures forall j :: 0 <= j < LeadingSpaces(s) ==> IsSpace(s[j])
    ensures forall j :: LeadingSpaces(s) + |Trim(s)| <= j < |s| ==> IsSpace(s[j])
  {
    var a := LeadingSpaces(s);
    var t := s[a..];
    var b := TrailingStart(t);
    assert Trim(s) == s[a..a + b];
    if b > 0 {
      assert !IsSpace(t[0]);
    }
  }

  /** A string that neither begins nor ends with a trim character is its own trim. */
  lemma TrimUnchanged(s: string)
    requires |s| == 0 || (!IsSpace(s[0]) && !IsSpace(s[|s| - 1]))
    ensures Trim(s) == s
  {
  }

  /** The trim of a string is empty exactly when every character is a trim character. */
  lemma TrimEmptyIff(s: string)
    ensures Trim(s) == "" <==> forall i :: 0 <= i < |s| ==> IsSpace(s[i])
  {
    var a := LeadingSpaces(s);
    if a < |s| {
      var t := s[a..];
      assert !IsSpace(t[0]);
      assert TrailingStart(t) > 0;
    }
  }

  predicate StartsWith(s: string, p: string) {
    |p| <= |s| && s[..|p|] == p
  }

  predicate EndsWith(s: string, p: string) {
    |p| <= |s| && s[|s| - |p|..] == p
  }

  /** The first index at or after `from` where `p` occurs in `s`. */
  function FindFrom(s: string, p: string, from: nat): (r: Option<nat>)
    requires from <= |s|
    ensures r.Some? ==> from <= r.value <= |s| && StartsWith(s[r.value..], p)
    ensures r.Some? ==> forall j :: from <= j < r.value ==> !StartsWith(s[j..], p)
    ensures r.None? ==> forall j :: from <= j <= |s| ==> !StartsWith(s[j..], p)
    decreases |s| - from
  {
    if StartsWith(s[from..], p) then Some(from)
    else if from == |s| then None
    else FindFrom(s, p, from + 1)
  }

  /** String.prototype.includes. */
  predicate Includes(s: string, p: string) {
    FindFrom(s, p, 0).Some?
  }

  /** `s.replace(p, rep)` with a literal pattern: only the first occurrence is replaced. */
  function ReplaceFirst(s: string, p: string, rep: string): string {
    match FindFrom(s, p, 0)
    case None => s
    case Some(i) => s[..i] + rep + s[i + |p|..]
  }

  /** Deleting a pattern the string starts with removes exactly that prefix. */
  lemma ReplaceFirstOfPrefix(s: string, p: string)
    requires StartsWith(s, p)
    ensures ReplaceFirst(s, p, "") == s[|p|..]
  {
    assert s[0..] == s;
  }

  /** `s.replace(/p/g, '')` for a literal pattern: scanning from the left, every
      non-overlapping occurrence of `p` is deleted. */
  function RemoveAll(s: string, p: string): string
    requires |p| > 0
    decreases |s|
  {
    if |s| == 0 then ""
    else if StartsWith(s, p) then RemoveAll(s[|p|..], p)
    else [s[0]] + RemoveAll(s[1..], p)
  }

  /** A string with no occurrence of the pattern passes through unchanged. */
  lemma {:induction false} RemoveAllNoMatch(s: string, p: string)
    requires |p| > 0
    requires !Includes(s, p)
    ensures RemoveAll(s, p) == s
    decreases |s|
  {
    if |s| > 0 {
      assert !StartsWith(s[0..], p);
      assert s[0..] == s;
      var t := s[1..];
      assert forall j :: 0 <= j <= |t| ==> t[j..] == s[j + 1..];
      assert !Includes(t, p);
      RemoveAllNoMatch(t, p);
    }
  }

  /** `p` occurs nowhere in `s`. */
  ghost predicate NoOccurrence(s: string, p: string) {
    forall j :: 0 <= j <= |s| ==> !StartsWith(s[j..], p)
  }

  /** The number of leading `c` characters of `s`. */
  function LeadRun(s: string, c: char): (k: nat)
    ensures k <= |s|
    ensures forall i :: 0 <= i < k ==> s[i] == c
    ensures k < |s| ==> s[k] != c
  {
    if |s| == 0 || s[0] != c then 0 else 1 + LeadRun(s[1..], c)
  }

  /** Deleting every "ccc" from the left shrinks the leading run of `c` to
      its length modulo 3. */
  lemma {:induction false} RemoveTripleLead(s: string, c: char)
    ensures LeadRun(RemoveAll(s, [c, c, c]), c) == LeadRun(s, c) % 3
    decreases |s|
  {
    var p := [c, c, c];
    if |s| > 0 {
      RunOfThree(s, c);
      if StartsWith(s, p) {
        RemoveTripleLead(s[3..], c);
        LeadDropThree(s, c);
      } else if s[0] == c {
        RemoveTripleLead(s[1..], c);
        LeadKeepOne(s, c);
      } else {
        assert RemoveAll(s, p) == [s[0]] + RemoveAll(s[1..], p);
        LeadRunConsAny(s[0], RemoveAll(s[1..], p), c);
      }
    }
  }

  lemma LeadDropThree(s: string, c: char)
    requires StartsWith(s, [c, c, c])
    requires LeadRun(RemoveAll(s[3..], [c, c, c]), c) == LeadRun(s[3..], c) % 3
    ensures LeadRun(RemoveAll(s, [c, c, c]), c) == LeadRun(s, c) % 3
  {
    assert RemoveAll(s, [c, c, c]) == RemoveAll(s[3..], [c, c, c]);
    assert s[..3] == [c, c, c];
    assert s[0] == c && s[1] == c && s[2] == c;
    RunOfThree(s, c);
    LeadRunDrop(s, c, 3);
    var n := LeadRun(s[3..], c);
    assert LeadRun(s, c) == n + 3;
    ModThree(n);
  }

  lemma SmallMod(n: nat)
    requires n < 3
    ensures n % 3 == n
  {
    assert n == 0 || n == 1 || n == 2;
  }

  lemma ModThree(n: nat)
    ensures (n + 3) % 3 == n % 3
  {
  }

  lemma LeadKeepOne(s: string, c: char)
    requires |s| > 0 && s[0] == c && !StartsWith(s, [c, c, c])
    requires LeadRun(RemoveAll(s[1..], [c, c, c]), c) == LeadRun(s[1..], c) % 3
    ensures LeadRun(RemoveAll(s, [c, c, c]), c) == LeadRun(s, c) % 3
  {
    RunOfThree(s, c);
    var k := LeadRun(s, c);
    var k1 := LeadRun(s[1..], c);
    assert k == 1 + k1;
    assert k < 3;
    SmallMod(k1);
    SmallMod(k);
    var rt := RemoveAll(s[1..], [c, c, c]);
    assert RemoveAll(s, [c, c, c]) == [c] + rt;
    LeadRunConsAny(c, rt, c);
  }

  /** A leading run of at least three `c` is an occurrence of "ccc". */
  lemma RunOfThree(s: string, c: char)
    ensures LeadRun(s, c) >= 3 ==> StartsWith(s, [c, c, c])
    ensures |s| >= 3 && s[0] == c && s[1] == c && s[2] == c ==> LeadRun(s, c) >= 3
  {
    if LeadRun(s, c) >= 3 {
      assert s[..3] == [c, c, c];
    }
    if |s| >= 3 && s[0] == c && s[1] == c && s[2] == c {
      assert LeadRun(s[1..], c) >= 2 by {
        assert LeadRun(s[1..][1..], c) >= 1;
      }
    }
  }

  /** Deleting every "ccc" from the left leaves no "ccc". */
  lemma {:induction false} RemoveTripleClean(s: string, c: char)
    ensures NoOccurrence(RemoveAll(s, [c, c, c]), [c, c, c])
    decreases |s|
  {
    var p := [c, c, c];
    if |s| > 0 {
      if StartsWith(s, p) {
        RemoveTripleClean(s[3..], c);
      } else {
        var t := s[1..];
        RemoveTripleClean(t, c);
        RunOfThree(s, c);
        if s[0] == c {
          RemoveTripleLead(t, c);
          LeadRunDrop(s, c, 1);
        }
        NoTripleCons(s[0], RemoveAll(t, p), c);
      }
    }
  }

  /** Prefixing one character to a string without "ccc" creates no "ccc"
      unless the character and the next two are all `c`. */
  lemma NoTripleCons(x: char, t: string, c: char)
    requires NoOccurrence(t, [c, c, c])
    requires x == c ==> LeadRun(t, c) < 2
    ensures NoOccurrence([x] + t, [c, c, c])
  {
    var r := [x] + t;
    RunOfThree(r, c);
    LeadRunConsAny(x, t, c);
    forall j | 0 <= j <= |r|
      ensures !StartsWith(r[j..], [c, c, c])
    {
      if j > 0 {
        assert r[j..] == t[j - 1..];
      } else {
        assert r[j..] == r;
      }
    }
  }

  lemma LeadRunConsAny(x: char, t: string, c: char)
    ensures x == c ==> LeadRun([x] + t, c) == LeadRun(t, c) + 1
    ensures x != c ==> LeadRun([x] + t, c) == 0
  {
    assert ([x] + t)[1..] == t;
  }

  lemma LeadRunDrop(s: string, c: char, n: nat)
    requires n <= LeadRun(s, c)
    ensures LeadRun(s[n..], c) == LeadRun(s, c) - n
    decreases n
  {
    if n > 0 {
      LeadRunDrop(s[1..], c, n - 1);
      assert s[1..][n - 1..] == s[n..];
    }
  }

  /** A piece of a string in which `p` does not occur contains no `p` either. */
  lemma NoOccurrenceSlice(s: string, p: string, a: nat, b: nat)
    requires a <= b <= |s|
    requires NoOccurrence(s, p)
    ensures NoOccurrence(s[a..b], p)
  {
    forall j | 0 <= j <= b - a
      ensures !StartsWith(s[a..b][j..], p)
    {
      if |p| <= b - a - j {
        assert s[a..b][j..][..|p|] == s[a + j..][..|p|];
      }
    }
  }

  /** A string without `p` contains no string that begins with `p`. */
  lemma IncludesLonger(s: string, p: string, q: string)
    requires StartsWith(q, p)
    requires !Includes(s, p)
    ensures !Includes(s, q)
  {
    forall j | 0 <= j <= |s|
      ensures !StartsWith(s[j..], q)
    {
      if |q| <= |s[j..]| {
        assert s[j..][..|p|] == s[j..][..|q|][..|p|];
      }
    }
  }

  /** The number of occurrences of `c` in `s`. */
  function CountChar(s: string, c: char): nat {
    multiset(s)[c]
  }

  /** String.prototype.split with a one-character separator. */
  function Split(s: string, c: char): (parts: seq<string>)
    ensures |parts| >= 1
    ensures forall k :: 0 <= k < |parts| ==> c !in parts[k]
    decreases |s|
  {
    if |s| == 0 then [""]
    else
      var rest := Split(s[1..], c);
      if s[0] == c then [""] + rest
      else [[s[0]] + rest[0]] + rest[1..]
  }

  /** Array.prototype.join with a one-character separator. */
  function Join(parts: seq<string>, c: char): string
    requires |parts| >= 1
    decreases |parts|
  {
    if |parts| == 1 then parts[0] else parts[0] + [c] + Join(parts[1..], c)
  }

  /** Splitting yields one more piece than there are separators. */
  lemma {:induction false} SplitCount(s: string, c: char)
    ensures |Split(s, c)| == CountChar(s, c) + 1
    decreases |s|
  {
    if |s| > 0 {
      assert s == [s[0]] + s[1..];
      assert multiset(s) == multiset{s[0]} + multiset(s[1..]);
      SplitCount(s[1..], c);
    }
  }

  /** Joining the pieces with the separator gives back the original string. */
  lemma {:induction false} SplitJoin(s: string, c: char)
    ensures Join(Split(s, c), c) == s
    decreases |s|
  {
    if |s| > 0 {
      var rest := Split(s[1..], c);
      SplitJoin(s[1..], c);
      if s[0] == c {
        assert Split(s, c) == [""] + rest;
        assert ([""] + rest)[1..] == rest;
        assert s == [c] + s[1..];
      } else {
        var parts := [[s[0]] + rest[0]] + rest[1..];
        assert Split(s, c) == parts;
        if |rest| == 1 {
          assert s == [s[0]] + rest[0];
        } else {
          assert parts[1..] == rest[1..];
          assert Join(rest, c) == rest[0] + [c] + Join(rest[1..], c);
          assert s == [s[0]] + s[1..];
        }
      }
    }
  }

  /** A string without the separator is one piece. */
  lemma {:induction false} SplitNone(s: string, c: char)
    requires c !in s
    ensures Split(s, c) == [s]
    decreases |s|
  {
    if |s| > 0 {
      assert c !in s[1..] by {
        assert forall k :: 0 <= k < |s[1..]| ==> s[1..][k] == s[k + 1];
      }
      SplitNone(s[1..], c);
      assert [s[0]] + s[1..] == s;
    }
  }

  /** Two separator-free strings joined by one separator split back into the two. */
  lemma {:induction false} SplitTwo(a: string, b: string, c: char)
    requires c !in a && c !in b
    ensures Split(a + [c] + b, c) == [a, b]
    decreases |a|
  {
    var s := a + [c] + b;
    if |a| == 0 {
      assert s == [c] + b;
      assert s[1..] == b;
      SplitNone(b, c);
    } else {
      assert s[1..] == a[1..] + [c] + b;
      assert c !in a[1..] by {
        assert forall k :: 0 <= k < |a[1..]| ==> a[1..][k] == a[k + 1];
      }
      SplitTwo(a[1..], b, c);
      assert [a[0]] + a[1..] == a;
    }
  }

  /** `s.substring(0, n)`: the first `n` characters, clamped to the string. */
  function Prefix(s: string, n: int): (r: string)
    ensures r <= s
    ensures |r| == if n <= 0 then 0 else if n >= |s| then |s| else n
  {
    if n <= 0 then "" else if n >= |s| then s else s[..n]
  }

  /** `a.slice(0, end)` on an array: a negative end counts back from the end. */
  function SliceTo<T>(a: seq<T>, end: int): (r: seq<T>)
    ensures r <= a
    ensures end >= 0 ==> |r| == if end >= |a| then |a| else end
    ensures end < 0 ==> |r| == if |a| + end <= 0 then 0 else |a| + end
  {
    var e := if end < 0 then (if |a| + end <= 0 then 0 else |a| + end)
             else if end >= |a| then |a| else end;
    a[..e]
  }

  /** Array.prototype.indexOf with strict equality: the first index of `x`, or -1. */
  function IndexOf<T(==)>(a: seq<T>, x: T): (r: int)
    ensures -1 <= r < |a|
    ensures r >= 0 ==> a[r] == x && forall j :: 0 <= j < r ==> a[j] != x
    ensures r == -1 <==> x !in a
  {
    if |a| == 0 then -1
    else if a[0] == x then 0
    else
      var k := IndexOf(a[1..], x);
      if k == -1 then -1 else k + 1
  }

  predicate IsDigit(c: char) {
    '0' <= c <= '9'
  }

  function DigitChar(d: nat): char
    requires d < 10
  {
    "0123456789"[d]
  }

  /** Decimal digits of a natural number, most significant first, no leading zeros. */
  function NatToString(n: nat): (r: string)
    ensures |r| >= 1
    ensures forall i :: 0 <= i < |r| ==> IsDigit(r[i])
    ensures n < 10 <==> |r| == 1
    decreases n
  {
    if n < 10 then [DigitChar(n)] else NatToString(n / 10) + [DigitChar(n % 10)]
  }

  /** Number.prototype.toString for an integer value. */
  function IntToString(i: int): string {
    if i < 0 then "-" + NatToString(-i) else NatToString(i)
  }

  /** The value of a string of decimal digits. */
  function DigitsValue(s: string): nat
    requires forall i :: 0 <= i < |s| ==> IsDigit(s[i])
  {
    if |s| == 0 then 0
    else
      var c := s[|s| - 1];
      assert IsDigit(c);
      10 * DigitsValue(s[..|s| - 1]) + ((c as int) - ('0' as int))
  }

  /** Reading the decimal digits back gives the number printed. */
  lemma {:induction false} NatToStringRoundTrip(n: nat)
    ensures DigitsValue(NatToString(n)) == n
    decreases n
  {
    if n >= 10 {
      NatToStringRoundTrip(n / 10);
      var r := NatToString(n);
      assert r[..|r| - 1] == NatToString(n / 10);
    }
  }

  /** Digits of a digit string are preserved under prefixing zeros. */
  lemma {:induction false} LeadingZeros(z: nat, s: string)
    requires forall i :: 0 <= i < |s| ==> IsDigit(s[i])
    ensures forall i :: 0 <= i < |Repeat('0', z) + s| ==> IsDigit((Repeat('0', z) + s)[i])
    ensures DigitsValue(Repeat('0', z) + s) == DigitsValue(s)
    decreases |s|
  {
    var t := Repeat('0', z) + s;
    if |s| > 0 {
      LeadingZeros(z, s[..|s| - 1]);
      assert t[..|t| - 1] == Repeat('0', z) + s[..|s| - 1];
    } else {
      assert t == Repeat('0', z);
      RepeatZerosValue(z);
    }
  }

  lemma {:induction false} RepeatZerosValue(z: nat)
    ensures DigitsValue(Repeat('0', z)) == 0
    decreases z
  {
    if z > 0 {
      assert Repeat('0', z)[..z - 1] == Repeat('0', z - 1);
      RepeatZerosValue(z - 1);
    }
  }

  function Repeat(c: char, n: nat): (r: string)
    ensures |r| == n
    ensures forall i :: 0 <= i < n ==> r[i] == c
  {
    if n == 0 then "" else Repeat(c, n - 1) + [c]
  }

  /** String.prototype.padStart: prefixes `c` until the length is at least `n`;
      a longer string is never truncated. */
  function PadStart(s: string, n: nat, c: char): (r: string)
    ensures |r| == if |s| >= n then |s| else n
    ensures r[|r| - |s|..] == s
    ensures forall i :: 0 <= i < |r| - |s| ==> r[i] == c
  {
    if |s| >= n then s else Repeat(c, n - |s|) + s
  }
}
