/** The handful of Python `str` operations the haymaker code relies on
    (`startswith`, `endswith`, `find`, `in`, `split`, `join`, `replace`,
    `lower`, `upper`, `int()` on digit strings and zero-padded integer
    formatting), with the facts about them the other modules use. */
module Text {

  /** Python `s.startswith(p)`. */
  predicate StartsWith(s: string, p: string)
  {
    |p| <= |s| && s[..|p|] == p
  }

  /** Python `s.endswith(p)`. */
  predicate EndsWith(s: string, p: string)
  {
    |p| <= |s| && s[|s| - |p|..] == p
  }

  /** Python `s.find(p)`: the index of the first occurrence of `p`, or -1. */
  function Find(s: string, p: string): (r: int)
    ensures -1 <= r <= |s|
    ensures r >= 0 ==> StartsWith(s[r..], p)
    decreases |s|
  {
    if StartsWith(s, p) then 0
    else if |s| == 0 then -1
    else
      var k := Find(s[1..], p);
      assert k >= 0 ==> s[k + 1..] == s[1..][k..];
      if k < 0 then -1 else k + 1
  }

  /** `Find` finds the first occurrence: none starts before it. */
  lemma {:induction false} FindFirst(s: string, p: string)
    ensures forall j | 0 <= j <= |s| && (Find(s, p) < 0 || j < Find(s, p)) :: !StartsWith(s[j..], p)
    decreases |s|
  {
    if !StartsWith(s, p) && |s| > 0 {
      FindFirst(s[1..], p);
      assert forall j | 1 <= j <= |s| :: s[j..] == s[1..][j - 1..];
    }
  }

  /** Python `p in s` for strings. */
  predicate Contains(s: string, p: string)
  {
    Find(s, p) >= 0
  }

  lemma ContainsAt(s: string, p: string, j: nat)
    requires j <= |s| && StartsWith(s[j..], p)
    ensures Contains(s, p)
  {
    FindFirst(s, p);
  }

  /** `Find` is pinned down by the first occurrence. */
  lemma FindAt(s: string, p: string, i: nat)
    requires i <= |s| && StartsWith(s[i..], p)
    requires forall j | 0 <= j < i :: !StartsWith(s[j..], p)
    ensures Find(s, p) == i
  {
    FindFirst(s, p);
  }

  /** A one-character pattern occurs exactly where that character stands. */
  lemma StartsWithChar(s: string, c: char, j: nat)
    requires j <= |s|
    ensures StartsWith(s[j..], [c]) <==> j < |s| && s[j] == c
  {
    if j < |s| {
      assert s[j..][..1] == [s[j]];
    }
  }

  lemma ContainsChar(s: string, c: char)
    ensures Contains(s, [c]) <==> c in s
  {
    if c in s {
      var j :| 0 <= j < |s| && s[j] == c;
      StartsWithChar(s, c, j);
      ContainsAt(s, [c], j);
    } else if Contains(s, [c]) {
      StartsWithChar(s, c, Find(s, [c]));
    }
  }

  /** No occurrence lies wholly before the first one. */
  lemma NotContainsBefore(s: string, p: string, i: nat)
    requires |p| > 0 && i <= |s|
    requires forall j | 0 <= j < i :: !StartsWith(s[j..], p)
    ensures !Contains(s[..i], p)
  {
    forall j | 0 <= j <= i
      ensures !StartsWith(s[..i][j..], p)
    {
      StartsWithInPrefix(s, p, i, j);
    }
  }

  lemma StartsWithInPrefix(s: string, p: string, i: nat, j: nat)
    requires j <= i <= |s|
    ensures StartsWith(s[..i][j..], p) ==> StartsWith(s[j..], p)
  {
    if |p| <= i - j {
      assert s[..i][j..][..|p|] == s[j..][..|p|];
    }
  }

  /** Python `s.split(sep)` for a non-empty separator. */
  function Split(s: string, sep: string): (parts: seq<string>)
    requires |sep| > 0
    ensures |parts| >= 1
    decreases |s|
  {
    var i := Find(s, sep);
    if i < 0 then [s] else [s[..i]] + Split(s[i + |sep|..], sep)
  }

  /** Python `sep.join(parts)`. */
  function Join(parts: seq<string>, sep: string): string
  {
    if |parts| == 0 then ""
    else if |parts| == 1 then parts[0]
    else parts[0] + sep + Join(parts[1..], sep)
  }

  function Last<T>(s: seq<T>): T
    requires |s| > 0
  {
    s[|s| - 1]
  }

  lemma JoinCons(a: string, tail: seq<string>, sep: string)
    requires |tail| >= 1
    ensures Join([a] + tail, sep) == a + sep + Join(tail, sep)
  {
    assert ([a] + tail)[1..] == tail;
  }

  /** Joining the pieces of a split with the same separator restores the string. */
  lemma {:induction false} JoinSplit(s: string, sep: string)
    requires |sep| > 0
    ensures Join(Split(s, sep), sep) == s
    decreases |s|
  {
    var i := Find(s, sep);
    if i >= 0 {
      var rest := s[i + |sep|..];
      var tail := Split(rest, sep);
      JoinCons(s[..i], tail, sep);
      JoinSplit(rest, sep);
      assert s[i..][..|sep|] == sep;
      assert s == s[..i] + s[i..][..|sep|] + rest;
    }
  }

  /** No piece of a split contains the separator. */
  lemma {:induction false} SplitPartsFree(s: string, sep: string)
    requires |sep| > 0
    ensures forall k | 0 <= k < |Split(s, sep)| :: !Contains(Split(s, sep)[k], sep)
    decreases |s|
  {
    var i := Find(s, sep);
    var parts := Split(s, sep);
    if i >= 0 {
      var rest := s[i + |sep|..];
      var tail := Split(rest, sep);
      assert parts == [s[..i]] + tail;
      FindFirst(s, sep);
      NotContainsBefore(s, sep, i);
      SplitPartsFree(rest, sep);
      forall k | 0 <= k < |parts|
        ensures !Contains(parts[k], sep)
      {
        if k > 0 {
          assert parts[k] == tail[k - 1];
        }
      }
    } else {
      assert parts == [s];
    }
  }

  lemma SplitNone(s: string, sep: string)
    requires |sep| > 0 && !Contains(s, sep)
    ensures Split(s, sep) == [s]
  {
  }

  /** Splitting `a + sep + b` when no occurrence of `sep` starts inside `a`. */
  lemma SplitCons(a: string, sep: string, b: string)
    requires |sep| > 0
    requires forall j | 0 <= j < |a| :: !StartsWith((a + sep + b)[j..], sep)
    ensures Split(a + sep + b, sep) == [a] + Split(b, sep)
  {
    var s := a + sep + b;
    assert s[|a|..][..|sep|] == sep;
    FindAt(s, sep, |a|);
    assert s[..|a|] == a;
    assert s[|a| + |sep|..] == b;
  }

  /** How the pieces of a split on `b` change when one more character `c`
      is read: the separator opens a new empty piece, any other character
      extends the last piece. */
  function Extend(parts: seq<string>, c: char, b: char): (r: seq<string>)
    requires |parts| >= 1
    ensures |r| >= 1
  {
    if c == b then parts + [""] else parts[..|parts| - 1] + [Last(parts) + [c]]
  }

  lemma ExtendCons(a: string, q: seq<string>, c: char, b: char)
    requires |q| >= 1
    ensures Extend([a] + q, c, b) == [a] + Extend(q, c, b)
  {
    if c != b {
      assert ([a] + q)[..|q|] == [a] + q[..|q| - 1];
    }
  }

  lemma {:induction false} SplitSnoc(s: string, c: char, b: char)
    ensures Split(s + [c], [b]) == Extend(Split(s, [b]), c, b)
    decreases |s|
  {
    var i := Find(s, [b]);
    var sc := s + [c];
    if i >= 0 {
      SplitSnocFound(s, c, b, i);
      SplitSnoc(s[i + 1..], c, b);
      ExtendCons(s[..i], Split(s[i + 1..], [b]), c, b);
    } else {
      SplitSnocAbsent(s, c, b);
    }
  }

  lemma SplitSnocFound(s: string, c: char, b: char, i: int)
    requires i == Find(s, [b]) && i >= 0
    ensures Split(s, [b]) == [s[..i]] + Split(s[i + 1..], [b])
    ensures Split(s + [c], [b]) == [s[..i]] + Split(s[i + 1..] + [c], [b])
  {
    var sc := s + [c];
    FindFirst(s, [b]);
    StartsWithChar(s, b, i);
    StartsWithChar(sc, b, i);
    forall j | 0 <= j < i
      ensures !StartsWith(sc[j..], [b])
    {
      StartsWithChar(s, b, j);
      StartsWithChar(sc, b, j);
    }
    FindAt(sc, [b], i);
    assert sc[..i] == s[..i];
    assert sc[i + 1..] == s[i + 1..] + [c];
  }

  lemma SplitSnocAbsent(s: string, c: char, b: char)
    requires Find(s, [b]) < 0
    ensures Split(s, [b]) == [s]
    ensures Split(s + [c], [b]) == Extend([s], c, b)
  {
    var sc := s + [c];
    ContainsChar(s, b);
    if c == b {
      StartsWithChar(sc, b, |s|);
      forall j | 0 <= j < |s|
        ensures !StartsWith(sc[j..], [b])
      {
        StartsWithChar(sc, b, j);
      }
      FindAt(sc, [b], |s|);
      assert sc[..|s|] == s;
      assert sc[|s| + 1..] == "";
    } else {
      assert b !in sc;
      ContainsChar(sc, b);
    }
  }

  /** A split on one character has one more piece than there are
      occurrences of that character. */
  lemma {:induction false} SplitCount(s: string, b: char)
    ensures |Split(s, [b])| == multiset(s)[b] + 1
    decreases |s|
  {
    if |s| > 0 {
      var t := s[..|s| - 1];
      assert s == t + [s[|s| - 1]];
      SplitSnoc(t, s[|s| - 1], b);
      SplitCount(t, b);
      assert multiset(s) == multiset(t) + multiset{s[|s| - 1]};
    } else {
      ContainsChar(s, b);
    }
  }

  /** For a one-character separator, `split` undoes `join` when no part
      contains the separator. */
  lemma {:induction false} SplitJoin(parts: seq<string>, c: char)
    requires |parts| >= 1
    requires forall k | 0 <= k < |parts| :: c !in parts[k]
    ensures Split(Join(parts, [c]), [c]) == parts
  {
    if |parts| == 1 {
      ContainsChar(parts[0], c);
    } else {
      var a, b := parts[0], Join(parts[1..], [c]);
      forall j | 0 <= j < |a|
        ensures !StartsWith((a + [c] + b)[j..], [c])
      {
        StartsWithChar(a + [c] + b, c, j);
      }
      SplitCons(a, [c], b);
      SplitJoin(parts[1..], c);
    }
  }

  /** Python `s.replace(p, r)`: every non-overlapping occurrence of `p`,
      scanning left to right, becomes `r`; an empty `p` inserts `r` before
      every character and at the end. */
  function Replace(s: string, p: string, r: string): string
    decreases |s|
  {
    if |p| == 0 then
      if |s| == 0 then r else r + [s[0]] + Replace(s[1..], p, r)
    else if |s| == 0 then ""
    else if StartsWith(s, p) then r + Replace(s[|p|..], p, r)
    else [s[0]] + Replace(s[1..], p, r)
  }

  /** An occurrence after the first character is an occurrence in the tail. */
  lemma ContainsTail(s: string, p: string)
    requires |s| > 0 && !StartsWith(s, p)
    ensures Contains(s, p) <==> Contains(s[1..], p)
  {
    if Contains(s, p) {
      var i := Find(s, p);
      assert s[i..] == s[1..][i - 1..];
      ContainsAt(s[1..], p, i - 1);
    }
    if Contains(s[1..], p) {
      var i := Find(s[1..], p);
      assert s[1..][i..] == s[i + 1..];
      ContainsAt(s, p, i + 1);
    }
  }

  /** Replacing a pattern that does not occur changes nothing. */
  lemma {:induction false} ReplaceAbsent(s: string, p: string, r: string)
    requires |p| > 0 && !Contains(s, p)
    ensures Replace(s, p, r) == s
    decreases |s|
  {
    if |s| > 0 {
      assert s[0..] == s;
      ContainsTail(s, p);
      ReplaceAbsent(s[1..], p, r);
    }
  }

  /** With a replacement at least as long as the pattern, the result never
      shrinks, and grows strictly once a longer replacement is made. */
  lemma {:induction false} ReplaceGrows(s: string, p: string, r: string)
    requires |r| >= |p|
    ensures |Replace(s, p, r)| >= |s|
    ensures |r| > |p| && Contains(s, p) ==> |Replace(s, p, r)| > |s|
    decreases |s|
  {
    if |p| == 0 {
      if |s| > 0 { ReplaceGrows(s[1..], p, r); }
    } else if |s| > 0 {
      if StartsWith(s, p) {
        ReplaceGrows(s[|p|..], p, r);
      } else {
        ContainsTail(s, p);
        ReplaceGrows(s[1..], p, r);
      }
    }
  }

  /** With a replacement shorter than the pattern, the result never grows,
      and shrinks strictly once a replacement is made. */
  lemma {:induction false} ReplaceShrinks(s: string, p: string, r: string)
    requires |r| < |p|
    ensures |Replace(s, p, r)| <= |s|
    ensures Contains(s, p) ==> |Replace(s, p, r)| < |s|
    decreases |s|
  {
    if |s| > 0 {
      if StartsWith(s, p) {
        ReplaceShrinks(s[|p|..], p, r);
      } else {
        ContainsTail(s, p);
        ReplaceShrinks(s[1..], p, r);
      }
    }
  }

  /** Same-length case: a fixed point of the replacement has no occurrence. */
  lemma {:induction false} ReplaceSameLength(s: string, p: string, r: string)
    requires |p| > 0 && |r| == |p| && r != p
    requires Replace(s, p, r) == s
    ensures !Contains(s, p)
    decreases |s|
  {
    if |s| > 0 {
      if !StartsWith(s, p) {
        assert Replace(s[1..], p, r) == s[1..];
        ReplaceSameLength(s[1..], p, r);
        ContainsTail(s, p);
      }
    }
  }

  /** `s.replace(p, r) == s` exactly when `p` does not occur in `s`
      (for a replacement different from the pattern). */
  lemma ReplaceUnchangedIff(s: string, p: string, r: string)
    requires r != p
    ensures Replace(s, p, r) == s <==> !Contains(s, p)
  {
    if |p| == 0 {
      ContainsAt(s, p, 0);
      ReplaceGrows(s, p, r);
    } else if !Contains(s, p) {
      ReplaceAbsent(s, p, r);
    } else if |r| > |p| {
      ReplaceGrows(s, p, r);
    } else if |r| < |p| {
      ReplaceShrinks(s, p, r);
    } else if Replace(s, p, r) == s {
      ReplaceSameLength(s, p, r);
    }
  }

  /** Replacing a character by text without it removes every occurrence. */
  lemma {:induction false} ReplaceCharGone(s: string, c: char, r: string)
    requires c !in r
    ensures c !in Replace(s, [c], r)
    decreases |s|
  {
    if |s| > 0 {
      StartsWithChar(s, c, 0);
      if StartsWith(s, [c]) {
        ReplaceCharGone(s[1..], c, r);
      } else {
        ReplaceCharGone(s[1..], c, r);
      }
    }
  }

  /** Characters other than the replaced one are neither added nor lost
      when the replacement does not contain them. */
  lemma {:induction false} ReplaceCharKeeps(s: string, c: char, r: string, d: char)
    requires d != c && d !in r
    ensures d in Replace(s, [c], r) <==> d in s
    decreases |s|
  {
    if |s| > 0 {
      StartsWithChar(s, c, 0);
      ReplaceCharKeeps(s[1..], c, r, d);
      assert s == [s[0]] + s[1..];
    }
  }

  /** ASCII case mapping (Python's `lower`/`upper` restricted to ASCII). */
  function LowerChar(c: char): char
  {
    if 'A' <= c <= 'Z' then (c as int + 32) as char else c
  }

  function UpperChar(c: char): char
  {
    if 'a' <= c <= 'z' then (c as int - 32) as char else c
  }

  function Lower(s: string): (r: string)
    ensures |r| == |s|
  {
    seq(|s|, i requires 0 <= i < |s| => LowerChar(s[i]))
  }

  function Upper(s: string): (r: string)
    ensures |r| == |s|
  {
    seq(|s|, i requires 0 <= i < |s| => UpperChar(s[i]))
  }

  predicate IsDigit(c: char)
  {
    '0' <= c <= '9'
  }

  predicate AllDigits(s: string)
  {
    forall i | 0 <= i < |s| :: IsDigit(s[i])
  }

  /** The strings Python's `int()` accepts in this model: plain, non-empty
      runs of ASCII digits. */
  predicate IsDigits(s: string)
  {
    |s| > 0 && AllDigits(s)
  }

  function DigitValue(c: char): nat
    requires IsDigit(c)
  {
    c as int - '0' as int
  }

  function DigitChar(d: nat): (c: char)
    requires d < 10
    ensures IsDigit(c) && DigitValue(c) == d
  {
    ('0' as int + d) as char
  }

  /** Python `int(s)` on a digit string (leading zeros allowed). */
  function ParseNat(s: string): nat
    requires AllDigits(s)
    decreases |s|
  {
    if |s| == 0 then 0 else 10 * ParseNat(s[..|s| - 1]) + DigitValue(s[|s| - 1])
  }

  /** Python `str(n)` for a non-negative integer. */
  function NatToString(n: nat): (s: string)
    ensures IsDigits(s)
    decreases n
  {
    if n < 10 then [DigitChar(n)] else NatToString(n / 10) + [DigitChar(n % 10)]
  }

  function Repeat(c: char, n: nat): (s: string)
    ensures |s| == n
  {
    seq(n, _ => c)
  }

  /** Left-pads with '0' up to `width` characters. */
  function ZeroPad(s: string, width: nat): (r: string)
    ensures |r| >= width && |r| >= |s|
  {
    if |s| < width then Repeat('0', width - |s|) + s else s
  }

  /** Python `f'{n:0<width>}'` for an integer: zero-padded to at least
      `width` characters, the sign counting towards the width. */
  function FormatInt(n: int, width: nat): (r: string)
    ensures |r| >= width
  {
    if n >= 0 then ZeroPad(NatToString(n), width)
    else "-" + ZeroPad(NatToString(-n), if width > 0 then width - 1 else 0)
  }

  lemma {:induction false} ParseNatToString(n: nat)
    ensures ParseNat(NatToString(n)) == n
    decreases n
  {
    if n >= 10 {
      var s := NatToString(n);
      assert s[..|s| - 1] == NatToString(n / 10);
      ParseNatToString(n / 10);
    }
  }

  lemma {:induction false} ParseLeadingZeros(k: nat, s: string)
    requires AllDigits(s)
    ensures AllDigits(Repeat('0', k) + s)
    ensures ParseNat(Repeat('0', k) + s) == ParseNat(s)
    decreases |s| + k
  {
    var z := Repeat('0', k) + s;
    if |s| > 0 {
      assert z[..|z| - 1] == Repeat('0', k) + s[..|s| - 1];
      ParseLeadingZeros(k, s[..|s| - 1]);
    } else if k > 0 {
      assert z[..|z| - 1] == Repeat('0', k - 1) + s;
      ParseLeadingZeros(k - 1, s);
    }
  }

  /** A non-negative number formatted with zero padding parses back to itself. */
  lemma FormatIntParses(n: nat, width: nat)
    ensures IsDigits(FormatInt(n, width))
    ensures ParseNat(FormatInt(n, width)) == n
  {
    var s := NatToString(n);
    ParseNatToString(n);
    if |s| < width {
      ParseLeadingZeros(width - |s|, s);
    }
  }

  /** The decimal digits of a number of two or more digits do not start with '0'. */
  lemma {:induction false} NatToStringLeading(n: nat)
    ensures |NatToString(n)| > 1 ==> NatToString(n)[0] != '0'
    decreases n
  {
    if n >= 10 {
      NatToStringLeading(n / 10);
      assert NatToString(n)[0] == NatToString(n / 10)[0];
    }
  }

  /** Zero padding of a non-negative number is exactly `width` wide, and
      a longer result carries no leading '0': the padding is minimal. */
  lemma FormatIntPadding(n: nat, width: nat)
    requires width >= 1
    ensures |FormatInt(n, width)| == width || FormatInt(n, width)[0] != '0'
    ensures |FormatInt(n, width)| == if |NatToString(n)| < width then width else |NatToString(n)|
  {
    NatToStringLeading(n);
  }

  /** A formatted integer consists of digits and at most a leading '-'. */
  lemma FormatIntChars(n: int, width: nat)
    ensures forall i | 0 <= i < |FormatInt(n, width)| ::
      IsDigit(FormatInt(n, width)[i]) || (i == 0 && n < 0 && FormatInt(n, width)[i] == '-')
  {
  }

  lemma EndsWithTrans(a: string, b: string, c: string)
    requires EndsWith(a, b) && EndsWith(b, c)
    ensures EndsWith(a, c)
  {
    assert a[|a| - |c|..] == b[|b| - |c|..];
  }

  /** The last piece of a split is what follows the last separator: a
      suffix free of the separator, preceded by it when there are several
      pieces. */
  lemma SplitLast(s: string, sep: string)
    requires |sep| > 0
    ensures EndsWith(s, Last(Split(s, sep)))
    ensures !Contains(Last(Split(s, sep)), sep)
    ensures |Split(s, sep)| > 1 ==> EndsWith(s, sep + Last(Split(s, sep)))
  {
    SplitPartsFree(s, sep);
    SplitLastSuffix(s, sep);
  }

  lemma {:induction false} SplitLastSuffix(s: string, sep: string)
    requires |sep| > 0
    ensures EndsWith(s, Last(Split(s, sep)))
    ensures |Split(s, sep)| > 1 ==> EndsWith(s, sep + Last(Split(s, sep)))
    decreases |s|
  {
    var i := Find(s, sep);
    if i < 0 {
      var parts := Split(s, sep);
      assert parts == [s];
      assert s[|s| - |s|..] == s;
    } else {
      SplitFound(s, sep, i);
      SplitAfterFirst(s, sep, i);
      var rest := s[i + |sep|..];
      var parts, tail := Split(s, sep), Split(rest, sep);
      assert Last(parts) == Last(tail) && |parts| > 1;
      SplitLastSuffix(rest, sep);
      SuffixStep(s, rest, sep, Last(tail), |tail| > 1);
    }
  }

  lemma SplitFound(s: string, sep: string, i: int)
    requires |sep| > 0 && i == Find(s, sep) && i >= 0
    ensures Split(s, sep) == [s[..i]] + Split(s[i + |sep|..], sep)
  {
    var parts := Split(s, sep);
    assert parts == [s[..i]] + Split(s[i + |sep|..], sep);
  }

  /** What the last piece ends up as when a first piece is split off. */
  lemma SuffixStep(s: string, rest: string, sep: string, x: string, many: bool)
    requires EndsWith(s, rest) && EndsWith(s, sep + rest) && EndsWith(rest, x)
    requires many ==> EndsWith(rest, sep + x)
    requires !many ==> x == rest
    ensures EndsWith(s, x) && EndsWith(s, sep + x)
  {
    EndsWithTrans(s, rest, x);
    if many {
      EndsWithTrans(s, rest, sep + x);
    }
  }

  lemma SplitAfterFirst(s: string, sep: string, i: int)
    requires |sep| > 0 && i == Find(s, sep) && i >= 0
    ensures EndsWith(s, s[i + |sep|..]) && EndsWith(s, sep + s[i + |sep|..])
  {
    assert s[i..][..|sep|] == sep;
    assert s[i..] == sep + s[i + |sep|..];
  }

  /** A suffix of a string without an occurrence of `p` has none either. */
  lemma NotContainsSuffix(s: string, x: string, p: string)
    requires EndsWith(s, x) && !Contains(s, p)
    ensures !Contains(x, p)
  {
    FindFirst(s, p);
    forall j | 0 <= j <= |x|
      ensures !StartsWith(x[j..], p)
    {
      assert x[j..] == s[|s| - |x| + j..];
    }
  }

  /** A character absent from a string is absent from every piece of its split. */
  lemma {:induction false} SplitPartsChars(s: string, sep: string, c: char)
    requires |sep| > 0 && c !in s
    ensures forall k | 0 <= k < |Split(s, sep)| :: c !in Split(s, sep)[k]
    decreases |s|
  {
    var i := Find(s, sep);
    if i >= 0 {
      SplitPartsChars(s[i + |sep|..], sep, c);
    }
  }

  /** Appending a separator and a piece without it adds that piece to the split. */
  lemma {:induction false} SplitAppend(s: string, c: char, x: string)
    requires c !in x
    ensures Split(s + [c] + x, [c]) == Split(s, [c]) + [x]
    decreases |x|
  {
    if |x| == 0 {
      SplitSnoc(s, c, c);
      assert s + [c] + x == s + [c];
    } else {
      var y, d := x[..|x| - 1], x[|x| - 1];
      assert d != c by { assert x[|x| - 1] in x; }
      assert c !in y by { assert forall i | 0 <= i < |y| :: y[i] == x[i]; }
      var t := s + [c] + y;
      var parts := Split(s, [c]);
      SplitAppend(s, c, y);
      assert Split(t, [c]) == parts + [y];
      SplitSnoc(t, d, c);
      assert s + [c] + x == t + [d] by { assert x == y + [d]; }
      calc {
        Extend(parts + [y], d, c);
        (parts + [y])[..|parts|] + [y + [d]];
        { assert (parts + [y])[..|parts|] == parts; }
        parts + [y + [d]];
        { assert y + [d] == x; }
        parts + [x];
      }
    }
  }
}
