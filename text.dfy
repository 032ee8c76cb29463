/**
 * String operations the two macro scripts take from Python's `str` type:
 * removing characters (`str.replace(c, '')`), slicing with clamped bounds,
 * `str.strip()`, `' '.join(...)` with its inverse `str.split(' ')`, and the
 * decimal conversion done by `int(...)`.
 */
module Text {
  import opened Wrappers

  // ---------------------------------------------------------------------
  // Removing characters
  // ---------------------------------------------------------------------

  /** `s` with every character that occurs in `drop` removed. */
  function Filter(s: string, drop: seq<char>): (r: string)
    ensures |r| <= |s|
    decreases |s|
  {
    if s == [] then []
    else if s[0] in drop then Filter(s[1..], drop)
    else [s[0]] + Filter(s[1..], drop)
  }

  /** `Filter` keeps exactly the characters of `s` that are not in `drop`. */
  lemma {:induction false} FilterMembers(s: string, drop: seq<char>)
    ensures forall c :: c in Filter(s, drop) <==> c in s && c !in drop
    decreases |s|
  {
    if s != [] {
      FilterMembers(s[1..], drop);
      assert forall c :: c in s <==> c == s[0] || c in s[1..];
    }
  }

  /** The positions of `s` whose character survives `Filter`, in increasing order. */
  function KeptPositions(s: string, drop: seq<char>): seq<nat>
    decreases |s|
  {
    if s == [] then []
    else
      var shifted := Shift(KeptPositions(s[1..], drop));
      if s[0] in drop then shifted else [0] + shifted
  }

  function Shift(ks: seq<nat>): (r: seq<nat>)
    ensures |r| == |ks| && forall k :: 0 <= k < |ks| ==> r[k] == ks[k] + 1
  {
    seq(|ks|, k requires 0 <= k < |ks| => ks[k] + 1)
  }

  lemma {:induction false} KeptLength(s: string, drop: seq<char>)
    ensures |KeptPositions(s, drop)| == |Filter(s, drop)|
    decreases |s|
  {
    if s != [] {
      KeptLength(s[1..], drop);
    }
  }

  lemma {:induction false} KeptIncreasing(s: string, drop: seq<char>)
    ensures forall k :: 0 <= k < |KeptPositions(s, drop)| ==>
              KeptPositions(s, drop)[k] < |s| && s[KeptPositions(s, drop)[k]] !in drop
    ensures forall k, l :: 0 <= k < l < |KeptPositions(s, drop)| ==>
              KeptPositions(s, drop)[k] < KeptPositions(s, drop)[l]
    decreases |s|
  {
    if s != [] {
      KeptIncreasing(s[1..], drop);
      var rest := KeptPositions(s[1..], drop);
      var shifted := Shift(rest);
      forall k | 0 <= k < |rest|
        ensures shifted[k] < |s| && s[shifted[k]] !in drop
      {
        assert s[1..][rest[k]] == s[rest[k] + 1];
      }
    }
  }

  lemma {:induction false} KeptComplete(s: string, drop: seq<char>)
    ensures forall j :: 0 <= j < |s| && s[j] !in drop ==> j in KeptPositions(s, drop)
    decreases |s|
  {
    if s != [] {
      KeptComplete(s[1..], drop);
      var rest := KeptPositions(s[1..], drop);
      var shifted := Shift(rest);
      forall j | 1 <= j < |s| && s[j] !in drop
        ensures j in shifted
      {
        assert s[1..][j - 1] == s[j];
        var k :| 0 <= k < |rest| && rest[k] == j - 1;
        assert shifted[k] == j;
      }
    }
  }

  lemma {:induction false} KeptReads(s: string, drop: seq<char>)
    requires |KeptPositions(s, drop)| == |Filter(s, drop)|
    requires forall k :: 0 <= k < |KeptPositions(s, drop)| ==> KeptPositions(s, drop)[k] < |s|
    ensures forall k :: 0 <= k < |KeptPositions(s, drop)| ==> Filter(s, drop)[k] == s[KeptPositions(s, drop)[k]]
    decreases |s|
  {
    if s != [] {
      KeptLength(s[1..], drop);
      KeptIncreasing(s[1..], drop);
      KeptReads(s[1..], drop);
      var rest := KeptPositions(s[1..], drop);
      forall k | 0 <= k < |rest|
        ensures s[1..][rest[k]] == s[rest[k] + 1]
      {
      }
    }
  }

  /** `Filter` keeps exactly the characters at `KeptPositions`: these are strictly
      increasing, every position holding a character outside `drop` is among
      them, and the filtered string reads the characters at them in order. */
  lemma FilterKeepsOrder(s: string, drop: seq<char>)
    ensures var ks := KeptPositions(s, drop);
            && |ks| == |Filter(s, drop)|
            && (forall k :: 0 <= k < |ks| ==> ks[k] < |s| && s[ks[k]] !in drop && Filter(s, drop)[k] == s[ks[k]])
            && (forall k, l :: 0 <= k < l < |ks| ==> ks[k] < ks[l])
            && (forall j :: 0 <= j < |s| && s[j] !in drop ==> j in ks)
  {
    KeptLength(s, drop);
    KeptIncreasing(s, drop);
    KeptComplete(s, drop);
    KeptReads(s, drop);
  }

  /** Filtering a string that starts with `c` keeps `c` unless it is dropped. */
  lemma FilterCons(c: char, s: string, drop: seq<char>)
    ensures Filter([c] + s, drop) == (if c in drop then [] else [c]) + Filter(s, drop)
  {
    assert ([c] + s)[1..] == s;
  }

  /** Filtering commutes with concatenation: it works character by character. */
  lemma {:induction false} FilterAppend(a: string, b: string, drop: seq<char>)
    ensures Filter(a + b, drop) == Filter(a, drop) + Filter(b, drop)
    decreases |a|
  {
    if a == [] {
      assert a + b == b;
    } else {
      var t := a[1..];
      assert a == [a[0]] + t;
      assert a + b == [a[0]] + (t + b);
      FilterAppend(t, b, drop);
      FilterCons(a[0], t + b, drop);
      FilterCons(a[0], t, drop);
    }
  }


  /** Removing the characters of `a` and then those of `b` removes those of `a + b`. */
  lemma {:induction false} FilterTwice(s: string, a: seq<char>, b: seq<char>)
    ensures Filter(Filter(s, a), b) == Filter(s, a + b)
    decreases |s|
  {
    if s != [] {
      FilterTwice(s[1..], a, b);
      if s[0] !in a {
        assert Filter(s, a) == [s[0]] + Filter(s[1..], a);
        assert ([s[0]] + Filter(s[1..], a))[1..] == Filter(s[1..], a);
      }
    }
  }

  /** Only the members of the removal list matter, not their order or repetition. */
  lemma {:induction false} FilterSameMembers(s: string, a: seq<char>, b: seq<char>)
    requires forall c :: c in a <==> c in b
    ensures Filter(s, a) == Filter(s, b)
    decreases |s|
  {
    if s != [] {
      FilterSameMembers(s[1..], a, b);
    }
  }

  /** Removing a set of single characters twice removes nothing more. */
  lemma FilterIdempotent(s: string, drop: seq<char>)
    ensures Filter(Filter(s, drop), drop) == Filter(s, drop)
  {
    FilterTwice(s, drop, drop);
    FilterSameMembers(s, drop + drop, drop);
  }

  /** A string none of whose characters is in the removal list is left as it is. */
  lemma {:induction false} FilterKeepsClean(s: string, drop: seq<char>)
    requires forall k :: 0 <= k < |s| ==> s[k] !in drop
    ensures Filter(s, drop) == s
    decreases |s|
  {
    if s != [] {
      FilterKeepsClean(s[1..], drop);
    }
  }

  // ---------------------------------------------------------------------
  // str.replace(c, t) for a single character c
  // ---------------------------------------------------------------------

  /** Every occurrence of the character `c` in `s` replaced by the string `t`. */
  function ReplaceChar(s: string, c: char, t: string): (r: string)
    ensures forall d :: d in r ==> (d in s && d != c) || d in t
    ensures forall d :: d in s && d != c ==> d in r
    decreases |s|
  {
    if s == [] then []
    else
      var rest := ReplaceChar(s[1..], c, t);
      assert forall d :: d in s <==> d == s[0] || d in s[1..];
      (if s[0] == c then t else [s[0]]) + rest
  }

  /** Replacing one character by the empty string is removing it. */
  lemma {:induction false} ReplaceByEmpty(s: string, c: char)
    ensures ReplaceChar(s, c, []) == Filter(s, [c])
    decreases |s|
  {
    if s != [] {
      ReplaceByEmpty(s[1..], c);
    }
  }

  /** Replacement works character by character, so it commutes with concatenation. */
  lemma {:induction false} ReplaceAppend(a: string, b: string, c: char, t: string)
    ensures ReplaceChar(a + b, c, t) == ReplaceChar(a, c, t) + ReplaceChar(b, c, t)
    decreases |a|
  {
    if a == [] {
      assert a + b == b;
    } else {
      assert (a + b)[0] == a[0];
      assert (a + b)[1..] == a[1..] + b;
      ReplaceAppend(a[1..], b, c, t);
      var head := if a[0] == c then t else [a[0]];
      calc {
        ReplaceChar(a + b, c, t);
        head + ReplaceChar(a[1..] + b, c, t);
        head + (ReplaceChar(a[1..], c, t) + ReplaceChar(b, c, t));
        (head + ReplaceChar(a[1..], c, t)) + ReplaceChar(b, c, t);
      }
    }
  }

  /** Replacing a character that does not occur changes nothing. */
  lemma {:induction false} ReplaceAbsent(s: string, c: char, t: string)
    requires c !in s
    ensures ReplaceChar(s, c, t) == s
    decreases |s|
  {
    if s != [] {
      ReplaceAbsent(s[1..], c, t);
    }
  }

  // ---------------------------------------------------------------------
  // Slicing with clamped bounds: s[:n] and s[-n:]
  // ---------------------------------------------------------------------

  function Min(a: int, b: int): int { if a <= b then a else b }

  /** Python's `s[:n]`: the first `n` characters, or all of `s` when it is shorter. */
  function TakeFirst(s: string, n: nat): (r: string)
    ensures |r| == Min(n, |s|)
    ensures r == s[..|r|]
  {
    if |s| <= n then s else s[..n]
  }

  /** Python's `s[-n:]` for `n > 0`: the last `n` characters, or all of `s` when it is shorter. */
  function TakeLast(s: string, n: nat): (r: string)
    requires n > 0
    ensures |r| == Min(n, |s|)
    ensures r == s[|s| - |r|..]
  {
    if |s| <= n then s else s[|s| - n..]
  }

  // ---------------------------------------------------------------------
  // str.strip()
  // ---------------------------------------------------------------------

  /** Python's `str.isspace` for one character: the characters `str.strip()`
      removes when called without arguments. */
  predicate IsSpace(c: char)
  {
    ('\t' <= c <= '\r') || ('\U{1C}' <= c <= ' ') || c == '\U{85}' || c == '\U{A0}'
    || c == '\U{1680}' || ('\U{2000}' <= c <= '\U{200A}') || c == '\U{2028}' || c == '\U{2029}'
    || c == '\U{202F}' || c == '\U{205F}' || c == '\U{3000}'
  }

  /** `s` without its leading white space. */
  function TrimLeft(s: string): (r: string)
    ensures |r| <= |s|
    decreases |s|
  {
    if s != [] && IsSpace(s[0]) then TrimLeft(s[1..]) else s
  }

  /** `TrimLeft` drops a run of white space from the front and stops at the
      first other character. */
  lemma {:induction false} TrimLeftMeaning(s: string)
    ensures TrimLeft(s) == s[|s| - |TrimLeft(s)|..]
    ensures forall k :: 0 <= k < |s| - |TrimLeft(s)| ==> IsSpace(s[k])
    ensures TrimLeft(s) == [] || !IsSpace(TrimLeft(s)[0])
    decreases |s|
  {
    if s != [] && IsSpace(s[0]) {
      TrimLeftMeaning(s[1..]);
      assert forall k :: 1 <= k < |s| ==> s[k] == s[1..][k - 1];
    }
  }

  /** `s` without its trailing white space. */
  function TrimRight(s: string): (r: string)
    ensures |r| <= |s|
    decreases |s|
  {
    if s != [] && IsSpace(s[|s| - 1]) then TrimRight(s[..|s| - 1]) else s
  }

  /** `TrimRight` drops a run of white space from the back and stops at the
      last other character. */
  lemma {:induction false} TrimRightMeaning(s: string)
    ensures TrimRight(s) == s[..|TrimRight(s)|]
    ensures forall k :: |TrimRight(s)| <= k < |s| ==> IsSpace(s[k])
    ensures TrimRight(s) == [] || !IsSpace(TrimRight(s)[|TrimRight(s)| - 1])
    decreases |s|
  {
    if s != [] && IsSpace(s[|s| - 1]) {
      TrimRightMeaning(s[..|s| - 1]);
    }
  }

  /** The number of white-space characters `Strip` removes from the front. */
  function LeadingSpace(s: string): nat
  {
    |s| - |TrimLeft(s)|
  }

  /** Python's `str.strip()`: the infix of `s` left after removing white space at
      both ends; it neither starts nor ends with white space. */
  function Strip(s: string): string
  {
    TrimRight(TrimLeft(s))
  }

  /** What `Strip` keeps: an infix of `s` with only white space around it, and
      neither end of it is white space. */
  lemma StripMeaning(s: string)
    ensures LeadingSpace(s) + |Strip(s)| <= |s|
    ensures Strip(s) == s[LeadingSpace(s)..LeadingSpace(s) + |Strip(s)|]
    ensures forall k :: 0 <= k < LeadingSpace(s) ==> IsSpace(s[k])
    ensures forall k :: LeadingSpace(s) + |Strip(s)| <= k < |s| ==> IsSpace(s[k])
    ensures Strip(s) == [] || (!IsSpace(Strip(s)[0]) && !IsSpace(Strip(s)[|Strip(s)| - 1]))
  {
    var t := TrimLeft(s);
    var i := |s| - |t|;
    TrimLeftMeaning(s);
    TrimRightMeaning(t);
    var r := TrimRight(t);
    assert Strip(s) == r && LeadingSpace(s) == i;
    assert t == s[i..];
    assert r == t[..|r|];
    assert forall k :: i + |r| <= k < |s| ==> s[k] == t[k - i] && |r| <= k - i < |t|;
  }

  /** A string with no white space at either end is its own strip; hence
      stripping twice is stripping once. */
  lemma StripUnpadded(s: string)
    requires s == [] || (!IsSpace(s[0]) && !IsSpace(s[|s| - 1]))
    ensures Strip(s) == s
  {
  }

  lemma StripIdempotent(s: string)
    ensures Strip(Strip(s)) == Strip(s)
  {
    StripMeaning(s);
    StripUnpadded(Strip(s));
  }

  // ---------------------------------------------------------------------
  // Searching, joining and splitting
  // ---------------------------------------------------------------------

  /** The first position of `c` in `s` (Python's `s.index(c)`). */
  function FirstIndex(s: string, c: char): (k: nat)
    requires c in s
    ensures k < |s| && s[k] == c && c !in s[..k]
    decreases |s|
  {
    if s[0] == c then 0
    else
      assert c in s[1..];
      var k := FirstIndex(s[1..], c);
      assert s[..k + 1] == [s[0]] + s[1..][..k];
      k + 1
  }

  /** The first occurrence of `c` in `p + [c] + q` is the one after `p` when `p` has none. */
  lemma FirstIndexAfter(p: string, c: char, q: string)
    requires c !in p
    ensures FirstIndex(p + [c] + q, c) == |p|
  {
    var s := p + [c] + q;
    var k := FirstIndex(s, c);
    assert forall i :: 0 <= i < |p| ==> s[i] == p[i];
    assert s[|p|] == c;
  }

  /** Python's `''.join(parts)`. */
  function Concat(parts: seq<string>): string
  {
    if |parts| == 0 then [] else parts[0] + Concat(parts[1..])
  }

  /** Python's `sep.join(parts)` for a one-character separator. */
  function Join(parts: seq<string>, sep: char): string
  {
    if |parts| == 0 then []
    else if |parts| == 1 then parts[0]
    else parts[0] + [sep] + Join(parts[1..], sep)
  }

  /** Python's `s.split(sep)` for a one-character separator: at least one
      piece, and no piece contains the separator. */
  function SplitOn(s: string, sep: char): (r: seq<string>)
    ensures |r| > 0
    ensures forall k :: 0 <= k < |r| ==> sep !in r[k]
    decreases |s|
  {
    if sep in s then
      var k := FirstIndex(s, sep);
      [s[..k]] + SplitOn(s[k + 1..], sep)
    else [s]
  }

  /** Splitting a joined list recovers it when no part holds the separator. */
  lemma {:induction false} SplitJoin(parts: seq<string>, sep: char)
    requires |parts| > 0
    requires forall k :: 0 <= k < |parts| ==> sep !in parts[k]
    ensures SplitOn(Join(parts, sep), sep) == parts
    decreases |parts|
  {
    if |parts| > 1 {
      var tail := Join(parts[1..], sep);
      var s := parts[0] + [sep] + tail;
      assert s == Join(parts, sep);
      FirstIndexAfter(parts[0], sep, tail);
      assert s[..|parts[0]|] == parts[0];
      assert s[|parts[0]| + 1..] == tail;
      SplitJoin(parts[1..], sep);
    }
  }

  /** Joining the pieces of a split gives back the string. */
  lemma {:induction false} JoinSplit(s: string, sep: char)
    ensures Join(SplitOn(s, sep), sep) == s
    decreases |s|
  {
    if sep in s {
      var k := FirstIndex(s, sep);
      JoinSplit(s[k + 1..], sep);
      var pieces := SplitOn(s, sep);
      assert pieces[1..] == SplitOn(s[k + 1..], sep);
      assert s == s[..k] + [sep] + s[k + 1..];
    }
  }

  // ---------------------------------------------------------------------
  // Decimal integers: int(s) and str(n)
  // ---------------------------------------------------------------------

  predicate IsDigit(c: char) { '0' <= c <= '9' }

  predicate AllDigits(s: string) { forall k :: 0 <= k < |s| ==> IsDigit(s[k]) }

  function DigitChar(d: nat): (c: char)
    requires d < 10
    ensures IsDigit(c)
  {
    (48 + d) as char
  }

  /** The value of a string of decimal digits, most significant first. */
  function DigitsValue(s: string): nat
    requires AllDigits(s)
    decreases |s|
  {
    if s == [] then 0 else DigitsValue(s[..|s| - 1]) * 10 + ((s[|s| - 1] as int) - 48)
  }

  /** The decimal digits of `n`, without leading zeros. */
  function ShowNat(n: nat): (s: string)
    ensures |s| > 0 && AllDigits(s)
    ensures |s| > 1 ==> s[0] != '0'
  {
    if n < 10 then [DigitChar(n)] else ShowNat(n / 10) + [DigitChar(n % 10)]
  }

  lemma {:induction false} ShowNatValue(n: nat)
    ensures DigitsValue(ShowNat(n)) == n
  {
    if n >= 10 {
      ShowNatValue(n / 10);
      var s := ShowNat(n);
      assert s[..|s| - 1] == ShowNat(n / 10);
    }
  }

  /** `str(n)` for an integer. */
  function ShowInt(n: int): string
  {
    if n < 0 then ['-'] + ShowNat(-n) else ShowNat(n)
  }

  /** Python's `int(s)` on decimal text: surrounding white space, an optional
      sign, then one or more ASCII digits; anything else is a `ValueError`. */
  function ParseInt(s: string): Option<int>
  {
    var t := Strip(s);
    if |t| >= 2 && (t[0] == '-' || t[0] == '+') && AllDigits(t[1..]) then
      Some(if t[0] == '-' then 0 - DigitsValue(t[1..]) else DigitsValue(t[1..]))
    else if |t| >= 1 && AllDigits(t) then
      Some(DigitsValue(t))
    else None
  }

  /** Unsigned digits parse to their value. */
  lemma ParseDigits(s: string)
    requires |s| > 0 && AllDigits(s)
    ensures ParseInt(s) == Some(DigitsValue(s))
  {
    assert IsDigit(s[0]) && IsDigit(s[|s| - 1]);
    StripUnpadded(s);
  }

  /** Text that is already stripped and is a sign followed by digits. */
  lemma ParseSigned(s: string)
    requires |s| >= 2 && s[0] == '-' && AllDigits(s[1..]) && Strip(s) == s
    ensures ParseInt(s) == Some(0 - DigitsValue(s[1..]))
  {
  }

  /** A minus sign before digits negates their value. */
  lemma ParseNegative(s: string, digits: string)
    requires s == ['-'] + digits && |digits| > 0 && AllDigits(digits)
    ensures ParseInt(s) == Some(0 - DigitsValue(digits))
  {
    assert s[1..] == digits;
    assert IsDigit(digits[|digits| - 1]) && s[|s| - 1] == digits[|digits| - 1];
    StripUnpadded(s);
    ParseSigned(s);
  }

  /** `int(str(n)) == n`. */
  lemma ParseShowInt(n: int)
    ensures ParseInt(ShowInt(n)) == Some(n)
  {
    if n < 0 {
      var m: nat := -n;
      var digits := ShowNat(m);
      ShowNatValue(m);
      assert ShowInt(n) == ['-'] + digits;
      ParseNegative(ShowInt(n), digits);
    } else {
      var digits := ShowNat(n);
      ShowNatValue(n);
      assert ShowInt(n) == digits;
      ParseDigits(digits);
    }
  }

}
