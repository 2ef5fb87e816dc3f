/** The handful of Python `str` operations the modelled code relies on:
    `str(int)`, `int(str)`, `split`, `join`, `lower`, `startswith`, `in`,
    `replace` and `strip`, each written out on `seq<char>`. */
module Strings {
  import opened Wrappers

  predicate IsDigit(c: char) { '0' <= c <= '9' }

  predicate AllDigits(s: string) { forall i :: 0 <= i < |s| ==> IsDigit(s[i]) }

  function DigitChar(d: nat): (c: char)
    requires d < 10
    ensures IsDigit(c)
  {
    ['0', '1', '2', '3', '4', '5', '6', '7', '8', '9'][d]
  }

  function DigitValue(c: char): (d: nat)
    requires IsDigit(c)
    ensures d < 10 && DigitChar(d) == c
  {
    (c as int - '0' as int) as nat
  }

  /** Decimal digits of a natural number, most significant first. */
  function NatToString(n: nat): (s: string)
    ensures |s| > 0 && AllDigits(s)
    decreases n
  {
    if n < 10 then [DigitChar(n)] else NatToString(n / 10) + [DigitChar(n % 10)]
  }

  /** Python's `str(n)` for an `int`: a leading "-" for negative numbers. */
  function IntToString(n: int): string {
    if n < 0 then "-" + NatToString(-n) else NatToString(n)
  }

  /** The value of a string of decimal digits. */
  function DigitsValue(s: string): nat
    requires AllDigits(s)
    decreases |s|
  {
    if |s| == 0 then 0 else DigitsValue(s[..|s| - 1]) * 10 + DigitValue(s[|s| - 1])
  }

  /** The value of a non-empty string of decimal digits, `None` for anything else. */
  function ParseDigits(s: string): (r: Option<nat>)
    ensures r.Some? <==> |s| > 0 && AllDigits(s)
  {
    if |s| > 0 && AllDigits(s) then Some(DigitsValue(s)) else None
  }

  /** Python's `int(s)` on the forms the model accepts: an optional sign
      followed by at least one ASCII digit. Anything else is a ValueError. */
  function ParseInt(s: string): Result<int> {
    var signed := |s| > 0 && (s[0] == '-' || s[0] == '+');
    var digits := if signed then ParseDigits(s[1..]) else ParseDigits(s);
    if digits.None? then Err(ValueError("invalid literal for int(): " + s))
    else if signed && s[0] == '-' then Ok(-(digits.value as int))
    else Ok(digits.value)
  }

  lemma {:induction false} DigitsOfNat(n: nat)
    ensures DigitsValue(NatToString(n)) == n
    decreases n
  {
    if n >= 10 {
      var s := NatToString(n);
      DigitsOfNat(n / 10);
      assert s[..|s| - 1] == NatToString(n / 10);
      assert DigitValue(s[|s| - 1]) == n % 10;
    } else {
      assert DigitValue(DigitChar(n)) == n;
    }
  }

  /** `int(str(n)) == n` for every integer. */
  lemma ParseIntOfIntToString(n: int)
    ensures ParseInt(IntToString(n)) == Ok(n)
  {
    if n < 0 {
      ParseIntOfNegative(n);
    } else {
      ParseIntOfNatToString(n);
    }
  }

  lemma ParseIntOfNatToString(n: nat)
    ensures ParseInt(NatToString(n)) == Ok(n)
  {
    var s := NatToString(n);
    assert IsDigit(s[0]);
    DigitsOfNat(n);
  }

  lemma ParseIntOfNegative(n: int)
    requires n < 0
    ensures ParseInt(IntToString(n)) == Ok(n)
  {
    var digits := NatToString(-n);
    DigitsOfNat(-n);
    assert ParseDigits(digits) == Some(-n);
    var s := "-" + digits;
    assert s[1..] == digits;
  }

  /** Python's `s.split(sep)` for a one-character separator: always at least one
      field, and no field contains the separator. */
  function Split(s: string, sep: char): (r: seq<string>)
    ensures |r| >= 1
    ensures forall i :: 0 <= i < |r| ==> sep !in r[i]
    ensures forall i, c :: 0 <= i < |r| && c in r[i] ==> c in s
    decreases |s|
  {
    if |s| == 0 then [""]
    else
      var rest := Split(s[1..], sep);
      assert forall c :: c in s[1..] ==> c in s;
      if s[0] == sep then [""] + rest
      else [[s[0]] + rest[0]] + rest[1..]
  }

  /** Python's `sep.join(parts)` for a one-character separator. */
  function Join(parts: seq<string>, sep: char): string
    decreases |parts|
  {
    if |parts| == 0 then ""
    else if |parts| == 1 then parts[0]
    else parts[0] + [sep] + Join(parts[1..], sep)
  }

  /** Splitting and joining back on the same separator gives the string back. */
  lemma {:induction false} JoinOfSplit(s: string, sep: char)
    ensures Join(Split(s, sep), sep) == s
    decreases |s|
  {
    if |s| > 0 {
      var rest := Split(s[1..], sep);
      JoinOfSplit(s[1..], sep);
      if s[0] == sep {
        assert Split(s, sep) == [""] + rest;
      } else {
        var r := Split(s, sep);
        assert r == [[s[0]] + rest[0]] + rest[1..];
        if |rest| == 1 {
          assert Join(r, sep) == [s[0]] + rest[0];
        } else {
          assert r[1..] == rest[1..];
          assert Join(r, sep) == [s[0]] + rest[0] + [sep] + Join(rest[1..], sep);
          assert Join(rest, sep) == rest[0] + [sep] + Join(rest[1..], sep);
        }
      }
    }
  }

  lemma {:induction false} SplitOfPrefix(a: string, sep: char, b: string)
    requires sep !in a
    ensures Split(a + [sep] + b, sep) == [a] + Split(b, sep)
    decreases |a|
  {
    if |a| == 0 {
      assert a + [sep] + b == [sep] + b;
      assert ([sep] + b)[1..] == b;
    } else {
      assert (a + [sep] + b)[1..] == a[1..] + [sep] + b;
      SplitOfPrefix(a[1..], sep, b);
      assert [a[0]] + a[1..] == a;
    }
  }

  lemma {:induction false} SplitOfPlain(a: string, sep: char)
    requires sep !in a
    ensures Split(a, sep) == [a]
    decreases |a|
  {
    if |a| > 0 {
      SplitOfPlain(a[1..], sep);
      assert [a[0]] + a[1..] == a;
    }
  }

  /** Joining fields that do not contain the separator and splitting again gives
      the fields back. */
  lemma {:induction false} SplitOfJoin(parts: seq<string>, sep: char)
    requires |parts| >= 1
    requires forall i :: 0 <= i < |parts| ==> sep !in parts[i]
    ensures Split(Join(parts, sep), sep) == parts
    decreases |parts|
  {
    if |parts| == 1 {
      SplitOfPlain(parts[0], sep);
    } else {
      SplitOfJoin(parts[1..], sep);
      SplitOfPrefix(parts[0], sep, Join(parts[1..], sep));
    }
  }

  /** Lower-casing of one character: the ASCII capitals, and the KELVIN SIGN
      U+212A, the one character outside ASCII whose lower case is an ASCII
      letter ('k'). Other characters are kept. */
  function LowerChar(c: char): char {
    if 'A' <= c <= 'Z' then (c as int - 'A' as int + 'a' as int) as char
    else if c == '\U{212A}' then 'k'
    else c
  }

  /** Python's `s.lower()`, character by character as `LowerChar` maps them. */
  function Lower(s: string): (r: string)
    ensures |r| == |s|
    ensures forall i :: 0 <= i < |s| ==> r[i] == LowerChar(s[i])
  {
    seq(|s|, i requires 0 <= i < |s| => LowerChar(s[i]))
  }

  predicate StartsWith(s: string, prefix: string) {
    |prefix| <= |s| && s[..|prefix|] == prefix
  }

  /** True when `pat` occurs in `s` at position `i`. */
  predicate OccursAt(s: string, pat: string, i: int) {
    0 <= i && i + |pat| <= |s| && s[i..i + |pat|] == pat
  }

  /** The first position at or after `from` where `pat` occurs (Python's `s.find`). */
  function FindFrom(s: string, pat: string, from: nat): (r: Option<nat>)
    requires |pat| > 0
    ensures r.Some? ==> from <= r.value && OccursAt(s, pat, r.value)
    ensures r.Some? ==> forall j :: from <= j < r.value ==> !OccursAt(s, pat, j)
    ensures r.None? ==> forall j :: from <= j ==> !OccursAt(s, pat, j)
    decreases |s| - from
  {
    if from + |pat| > |s| then None
    else if s[from..from + |pat|] == pat then Some(from)
    else FindFrom(s, pat, from + 1)
  }

  function Find(s: string, pat: string): (r: Option<nat>)
    requires |pat| > 0
    ensures r.Some? ==> OccursAt(s, pat, r.value)
    ensures r.Some? ==> forall j :: 0 <= j < r.value ==> !OccursAt(s, pat, j)
    ensures r.None? ==> forall j :: 0 <= j ==> !OccursAt(s, pat, j)
  {
    FindFrom(s, pat, 0)
  }

  /** Python's `pat in s`. */
  predicate Contains(s: string, pat: string)
    requires |pat| > 0
  {
    Find(s, pat).Some?
  }

  /** A prefix of `s` that ends before the first occurrence of `pat` in `s`
      does not contain `pat`. */
  lemma PrefixBeforeFirst(s: string, pat: string, j: nat)
    requires |pat| > 0 && j <= |s|
    requires forall k :: 0 <= k < j ==> !OccursAt(s, pat, k)
    ensures Find(s[..j], pat).None?
  {
    var t := s[..j];
    forall k | 0 <= k && OccursAt(t, pat, k) ensures false {
      assert t[k..k + |pat|] == s[k..k + |pat|];
      assert k < j && OccursAt(s, pat, k);
    }
  }

  /** A string lacking one of the characters of `pat` does not contain `pat`. */
  lemma MissingCharNoFind(s: string, pat: string, k: nat)
    requires k < |pat| && pat[k] !in s
    ensures Find(s, pat).None?
  {
    forall j | 0 <= j ensures !OccursAt(s, pat, j) {
      if j + |pat| <= |s| {
        assert s[j..j + |pat|][k] == s[j + k];
      }
    }
  }

  /** Python's `s.replace(pat, rep)`: every non-overlapping occurrence, left to right. */
  function ReplaceAll(s: string, pat: string, rep: string): string
    requires |pat| > 0
    decreases |s|
  {
    if |s| < |pat| then s
    else if s[..|pat|] == pat then rep + ReplaceAll(s[|pat|..], pat, rep)
    else [s[0]] + ReplaceAll(s[1..], pat, rep)
  }

  /** Replacing a pattern that does not occur changes nothing. */
  lemma {:induction false} ReplaceAllAbsent(s: string, pat: string, rep: string)
    requires |pat| > 0 && Find(s, pat).None?
    ensures ReplaceAll(s, pat, rep) == s
    decreases |s|
  {
    if |s| >= |pat| {
      assert !OccursAt(s, pat, 0);
      assert s[..|pat|] != pat;
      forall j | 0 <= j && OccursAt(s[1..], pat, j) ensures false {
        assert s[1..][j..j + |pat|] == s[j + 1..j + 1 + |pat|];
        assert OccursAt(s, pat, j + 1);
      }
      ReplaceAllAbsent(s[1..], pat, rep);
      assert s == [s[0]] + s[1..];
    }
  }

  /** The first occurrence of `pat` is replaced by `rep`, everything before it
      is kept, and the replacing goes on after that occurrence. */
  lemma ReplaceAtFirst(s: string, pat: string, rep: string)
    requires |pat| > 0 && Find(s, pat).Some?
    ensures var i := Find(s, pat).value;
            i + |pat| <= |s| &&
            ReplaceAll(s, pat, rep) == s[..i] + rep + ReplaceAll(s[i + |pat|..], pat, rep)
  {
    ReplaceAtFirstOccurrence(s, pat, rep, Find(s, pat).value);
  }

  /** The same, for a position `i` where `pat` occurs and before which it
      does not. */
  lemma {:induction false} ReplaceAtFirstOccurrence(s: string, pat: string, rep: string, i: nat)
    requires |pat| > 0 && OccursAt(s, pat, i) && forall j :: 0 <= j < i ==> !OccursAt(s, pat, j)
    ensures i + |pat| <= |s| &&
            ReplaceAll(s, pat, rep) == s[..i] + rep + ReplaceAll(s[i + |pat|..], pat, rep)
    decreases i
  {
    if i == 0 {
      ReplaceAtStart(s, pat, rep);
    } else {
      var t := s[1..];
      TailOccurrences(s, pat, i);
      ReplaceAtFirstOccurrence(t, pat, rep, i - 1);
      assert i + |pat| <= |s| && !OccursAt(s, pat, 0);
      ReplaceThroughTail(s, pat, rep, i);
    }
  }

  /** The step of the induction: what holds for the tail at `i - 1` holds
      for `s` at `i`, the first character being kept. */
  lemma ReplaceThroughTail(s: string, pat: string, rep: string, i: nat)
    requires |pat| > 0 && 0 < i && i + |pat| <= |s| && !OccursAt(s, pat, 0)
    requires ReplaceAll(s[1..], pat, rep) == s[1..][..i - 1] + rep + ReplaceAll(s[1..][i - 1 + |pat|..], pat, rep)
    ensures ReplaceAll(s, pat, rep) == s[..i] + rep + ReplaceAll(s[i + |pat|..], pat, rep)
  {
    var t := s[1..];
    SlicesOfTail(s, i, |pat|);
    ReplacePastFirst(s, pat, rep);
    ReplaceAllOfEqual(t[i - 1 + |pat|..], s[i + |pat|..], pat, rep);
    Regroup(ReplaceAll(s, pat, rep), ReplaceAll(t, pat, rep), s[0], t[..i - 1], rep,
            ReplaceAll(t[i - 1 + |pat|..], pat, rep), ReplaceAll(s[i + |pat|..], pat, rep));
  }

  /** Occurrences in the tail are those of `s`, one position earlier. */
  lemma TailOccurrences(s: string, pat: string, i: nat)
    requires |pat| > 0 && 0 < i && OccursAt(s, pat, i) && forall j :: 0 <= j < i ==> !OccursAt(s, pat, j)
    ensures |s| >= |pat| && !OccursAt(s, pat, 0)
    ensures OccursAt(s[1..], pat, i - 1) && forall j :: 0 <= j < i - 1 ==> !OccursAt(s[1..], pat, j)
  {
    var t := s[1..];
    assert t[i - 1..i - 1 + |pat|] == s[i..i + |pat|];
    forall j | 0 <= j < i - 1 ensures !OccursAt(t, pat, j) {
      if j + |pat| <= |t| {
        assert t[j..j + |pat|] == s[j + 1..j + 1 + |pat|];
        assert !OccursAt(s, pat, j + 1);
      }
    }
  }

  /** Replacing in a string that starts with `pat`. */
  lemma ReplaceAtStart(s: string, pat: string, rep: string)
    requires |pat| > 0 && OccursAt(s, pat, 0)
    ensures ReplaceAll(s, pat, rep) == s[..0] + rep + ReplaceAll(s[|pat|..], pat, rep)
  {
    assert s[..|pat|] == pat;
  }

  /** Replacing in a string that does not start with `pat` keeps its first
      character. */
  lemma ReplacePastFirst(s: string, pat: string, rep: string)
    requires |pat| > 0 && |s| >= |pat| && !OccursAt(s, pat, 0)
    ensures ReplaceAll(s, pat, rep) == [s[0]] + ReplaceAll(s[1..], pat, rep)
  {
    assert s[..|pat|] != pat;
  }

  /** Equal strings give equal replacements. */
  lemma ReplaceAllOfEqual(a: string, b: string, pat: string, rep: string)
    requires |pat| > 0 && a == b
    ensures ReplaceAll(a, pat, rep) == ReplaceAll(b, pat, rep)
  {
  }

  /** A string that is a character followed by `before + mid + rest` is
      `[x] + before`, then `mid`, then `rest`. */
  lemma Regroup(whole: string, tail: string, x: char, before: string, mid: string, rest: string, rest2: string)
    requires whole == [x] + tail && tail == before + mid + rest && rest == rest2
    ensures whole == [x] + before + mid + rest2
  {
  }

  /** How the slices of `s` around position `i` relate to those of its tail. */
  lemma SlicesOfTail(s: string, i: nat, n: nat)
    requires 0 < i && i + n <= |s|
    ensures s[..i] == [s[0]] + s[1..][..i - 1]
    ensures s[1..][i - 1 + n..] == s[i + n..]
  {
  }

  /** Python's `s.replace(" ", "")` for one character: every occurrence of
      `c` goes, every other character stays as often as it was there. */
  function RemoveChar(s: string, c: char): (r: string)
    ensures c !in r
    ensures multiset(r) == multiset(s)[c := 0]
    ensures forall x :: x != c ==> (x in r <==> x in s)
    ensures c !in s ==> r == s
    decreases |s|
  {
    if |s| == 0 then ""
    else
      assert s == [s[0]] + s[1..];
      if s[0] == c then RemoveChar(s[1..], c)
      else [s[0]] + RemoveChar(s[1..], c)
  }

  /** Removal works piece by piece, so the kept characters keep their order. */
  lemma {:induction false} RemoveCharOfConcat(a: string, b: string, c: char)
    ensures RemoveChar(a + b, c) == RemoveChar(a, c) + RemoveChar(b, c)
    decreases |a|
  {
    if |a| > 0 {
      var head := if a[0] == c then "" else [a[0]];
      assert (a + b)[1..] == a[1..] + b;
      RemoveCharCons(a + b, c);
      RemoveCharCons(a, c);
      RemoveCharOfConcat(a[1..], b, c);
      assert RemoveChar(a + b, c) == head + (RemoveChar(a[1..], c) + RemoveChar(b, c));
    } else {
      assert a + b == b;
    }
  }

  /** One step of `RemoveChar`: the first character goes when it is `c`. */
  lemma RemoveCharCons(s: string, c: char)
    requires |s| > 0
    ensures RemoveChar(s, c) == (if s[0] == c then "" else [s[0]]) + RemoveChar(s[1..], c)
  {
  }

  /** The characters `str.isspace` accepts, which the argument-less `strip`
      removes: ASCII tab to carriage return, the separators U+001C to U+001F,
      the space, and the Unicode spaces and line separators. */
  predicate IsSpace(c: char) {
    ('\t' <= c <= '\r') || ('\U{1C}' <= c <= ' ') || c == '\U{85}' || c == '\U{A0}' || c == '\U{1680}'
    || ('\U{2000}' <= c <= '\U{200A}') || c == '\U{2028}' || c == '\U{2029}' || c == '\U{202F}'
    || c == '\U{205F}' || c == '\U{3000}'
  }

  /** The end of the run of whitespace that starts at position `i`. */
  function SpaceRunEnd(s: string, i: nat): (n: nat)
    requires i <= |s|
    ensures i <= n <= |s|
    ensures forall j :: i <= j < n ==> IsSpace(s[j])
    ensures n == |s| || !IsSpace(s[n])
    decreases |s| - i
  {
    if i < |s| && IsSpace(s[i]) then SpaceRunEnd(s, i + 1) else i
  }

  /** The start of the run of whitespace that ends just before position `n`. */
  function SpaceRunStart(s: string, n: nat): (m: nat)
    requires n <= |s|
    ensures m <= n
    ensures forall j :: m <= j < n ==> IsSpace(s[j])
    ensures m == 0 || !IsSpace(s[m - 1])
    decreases n
  {
    if n > 0 && IsSpace(s[n - 1]) then SpaceRunStart(s, n - 1) else n
  }

  /** Python's `s.lstrip()`: the longest whitespace prefix goes, the rest stays. */
  function StripLeft(s: string): (r: string)
    ensures |r| <= |s| && forall i :: 0 <= i < |r| ==> r[i] == s[|s| - |r| + i]
    ensures forall i :: 0 <= i < |s| - |r| ==> IsSpace(s[i])
    ensures |r| == 0 || !IsSpace(r[0])
  {
    s[SpaceRunEnd(s, 0)..]
  }

  /** Python's `s.rstrip()`: the longest whitespace suffix goes, the rest stays. */
  function StripRight(s: string): (r: string)
    ensures |r| <= |s| && forall i :: 0 <= i < |r| ==> r[i] == s[i]
    ensures forall i :: |r| <= i < |s| ==> IsSpace(s[i])
    ensures |r| == 0 || !IsSpace(r[|r| - 1])
  {
    s[..SpaceRunStart(s, |s|)]
  }

  /** Python's `s.strip()`: a slice of `s` with whitespace only around it,
      and none at either end of it. */
  function Strip(s: string): (r: string)
    ensures |r| <= |s|
    ensures |r| == 0 || (!IsSpace(r[0]) && !IsSpace(r[|r| - 1]))
    ensures var k := |s| - |StripLeft(s)|;
            k + |r| <= |s| && (forall i :: 0 <= i < |r| ==> r[i] == s[k + i]) &&
            (forall i :: 0 <= i < k ==> IsSpace(s[i])) &&
            (forall i :: k + |r| <= i < |s| ==> IsSpace(s[i]))
    ensures (forall i :: 0 <= i < |s| ==> !IsSpace(s[i])) ==> r == s
  {
    StripSlice(s);
    StripRightOfLeft(s);
    StripNoSpace(s);
    StripRight(StripLeft(s))
  }

  /** The two strips in a row keep a slice of `s`. */
  lemma StripSlice(s: string)
    ensures var l := StripLeft(s);
            var r := StripRight(l);
            var k := |s| - |l|;
            k + |r| <= |s| && (forall i :: 0 <= i < |r| ==> r[i] == s[k + i])
  {
  }

  /** What the right strip removes is whitespace of `s`. */
  lemma StripRightOfLeft(s: string)
    ensures var l := StripLeft(s);
            var r := StripRight(l);
            var k := |s| - |l|;
            forall i :: k + |r| <= i < |s| ==> IsSpace(s[i])
  {
    var l := StripLeft(s);
    SpaceShift(s, l, |s| - |l|, |StripRight(l)|);
  }

  /** Whitespace at the end of a slice of `s` is whitespace of `s` itself. */
  lemma SpaceShift(s: string, l: string, k: nat, m: nat)
    requires k + |l| == |s| && m <= |l|
    requires forall j :: 0 <= j < |l| ==> l[j] == s[k + j]
    requires forall j :: m <= j < |l| ==> IsSpace(l[j])
    ensures forall i :: k + m <= i < |s| ==> IsSpace(s[i])
  {
    forall i | k + m <= i < |s| ensures IsSpace(s[i]) {
      assert l[i - k] == s[i];
    }
  }

  /** A string without whitespace is its own strip. */
  lemma StripNoSpace(s: string)
    ensures (forall i :: 0 <= i < |s| ==> !IsSpace(s[i])) ==> StripRight(StripLeft(s)) == s
  {
    if forall i :: 0 <= i < |s| ==> !IsSpace(s[i]) {
      assert StripLeft(s) == s;
    }
  }
}
