/** The Python string operations the integration relies on, over `seq<char>`:
    `in`, `replace`, `split`, `strip`, `upper`, `lower` and `int()`.
    Character classes are the ASCII ones. */
module Strings {
  import opened Wrappers

  // ---------------------------------------------------------------------------
  // Prefixes and substrings
  // ---------------------------------------------------------------------------

  predicate IsPrefix(p: string, s: string) {
    |p| <= |s| && s[..|p|] == p
  }

  /** Python's `p in s`. */
  predicate Contains(s: string, p: string)
    decreases |s|
  {
    IsPrefix(p, s) || (|s| > 0 && Contains(s[1..], p))
  }

  lemma {:induction false} ContainsNeedsRoom(s: string, p: string)
    requires Contains(s, p)
    ensures |p| <= |s|
    decreases |s|
  {
    if !IsPrefix(p, s) {
      ContainsNeedsRoom(s[1..], p);
    }
  }

  /** For a one-character pattern, substring search is plain membership. */
  lemma {:induction false} ContainsChar(s: string, c: char)
    ensures Contains(s, [c]) <==> c in s
    decreases |s|
  {
    if |s| > 0 {
      ContainsChar(s[1..], c);
      assert s == [s[0]] + s[1..];
    }
  }

  /** A text that lacks `p` lacks every pattern that starts with `p`. */
  lemma {:induction false} ContainsLongerPattern(s: string, p: string, q: string)
    requires Contains(s, p + q)
    ensures Contains(s, p)
    decreases |s|
  {
    if IsPrefix(p + q, s) {
      assert s[..|p|] == s[..|p + q|][..|p|] == (p + q)[..|p|] == p;
    } else {
      ContainsLongerPattern(s[1..], p, q);
    }
  }

  /** A pattern placed anywhere in a text is found there. */
  lemma {:induction false} ContainsInfix(a: string, p: string, b: string)
    ensures Contains(a + p + b, p)
    decreases |a|
  {
    if |a| == 0 {
      assert a + p + b == p + b;
      assert (p + b)[..|p|] == p;
    } else {
      ContainsInfix(a[1..], p, b);
      assert (a + p + b)[1..] == a[1..] + p + b;
    }
  }

  /** A text holding the pattern holds its first character. */
  lemma ContainsFirstChar(s: string, p: string)
    requires |p| > 0
    ensures Contains(s, p) ==> p[0] in s
  {
    if Contains(s, p) {
      assert p == [p[0]] + p[1..];
      ContainsLongerPattern(s, [p[0]], p[1..]);
      ContainsChar(s, p[0]);
    }
  }

  /** An occurrence cannot start in leading text that lacks the pattern's
      first character. */
  lemma {:induction false} ContainsPastText(a: string, t: string, p: string)
    requires |p| > 0 && p[0] !in a
    ensures Contains(a + t, p) ==> Contains(t, p)
    decreases |a|
  {
    if |a| == 0 {
      assert a + t == t;
    } else {
      var c, rest := a[0], a[1..];
      assert a == [c] + rest;
      assert c in a;
      assert (a + t)[1..] == rest + t;
      if |a + t| >= |p| {
        assert (a + t)[..|p|][0] == c;
      }
      ContainsPastText(rest, t, p);
    }
  }

  /** When the pattern's first character occurs only at the start of the text,
      the only place the pattern can occur is the start. */
  lemma ContainsOnlyLeading(t: string, p: string)
    requires |p| > 0 && |t| > 0 && p[0] !in t[1..]
    ensures Contains(t, p) ==> IsPrefix(p, t)
  {
    ContainsFirstChar(t[1..], p);
  }

  /** An occurrence of the pattern has a position. */
  lemma {:induction false} ContainsAt(s: string, p: string) returns (i: nat)
    requires Contains(s, p)
    ensures i + |p| <= |s| && s[i..i + |p|] == p
    decreases |s|
  {
    if IsPrefix(p, s) {
      i := 0;
    } else {
      var j := ContainsAt(s[1..], p);
      assert s[1..][j..j + |p|] == s[j + 1..j + 1 + |p|];
      i := j + 1;
    }
  }

  /** Text put in front keeps every occurrence of the pattern. */
  lemma {:induction false} ContainsAfterText(a: string, t: string, p: string)
    requires Contains(t, p)
    ensures Contains(a + t, p)
    decreases |a|
  {
    if |a| == 0 {
      assert a + t == t;
    } else {
      ContainsAfterText(a[1..], t, p);
      assert (a + t)[1..] == a[1..] + t;
    }
  }

  // ---------------------------------------------------------------------------
  // replace, split, join
  // ---------------------------------------------------------------------------

  /** Python's `s.replace(p, v)` for a non-empty pattern: the text is scanned
      left to right and every non-overlapping occurrence of `p` becomes `v`. */
  function Replace(s: string, p: string, v: string): (r: string)
    requires |p| > 0
    decreases |s|
  {
    if |s| < |p| then s
    else if IsPrefix(p, s) then v + Replace(s[|p|..], p, v)
    else [s[0]] + Replace(s[1..], p, v)
  }

  /** Python's `s.split(p)` for a non-empty separator: the pieces between the
      non-overlapping occurrences of `p`, found left to right. */
  function Split(s: string, p: string): (parts: seq<string>)
    requires |p| > 0
    ensures |parts| >= 1
    decreases |s|
  {
    if |s| < |p| then [s]
    else if IsPrefix(p, s) then [""] + Split(s[|p|..], p)
    else
      var rest := Split(s[1..], p);
      [[s[0]] + rest[0]] + rest[1..]
  }

  /** Python's `sep.join(parts)`. */
  function Join(parts: seq<string>, sep: string): (r: string) {
    if |parts| == 0 then ""
    else if |parts| == 1 then parts[0]
    else parts[0] + sep + Join(parts[1..], sep)
  }

  /** `sep.join(parts)` holds every part. */
  lemma {:induction false} JoinHoldsParts(parts: seq<string>, sep: string)
    ensures forall i :: 0 <= i < |parts| ==> Contains(Join(parts, sep), parts[i])
    decreases |parts|
  {
    if |parts| == 1 {
      ContainsInfix("", parts[0], "");
      assert "" + parts[0] + "" == parts[0];
    } else if |parts| > 1 {
      var rest := Join(parts[1..], sep);
      JoinHoldsParts(parts[1..], sep);
      ContainsInfix("", parts[0], sep + rest);
      assert "" + parts[0] + (sep + rest) == Join(parts, sep);
      forall i | 1 <= i < |parts|
        ensures Contains(Join(parts, sep), parts[i])
      {
        assert parts[i] == parts[1..][i - 1];
        ContainsAfterText(parts[0] + sep, rest, parts[i]);
      }
    }
  }

  lemma JoinConsHead(c: char, h: string, t: seq<string>, sep: string)
    ensures Join([[c] + h] + t, sep) == [c] + Join([h] + t, sep)
  {
    assert ([[c] + h] + t)[1..] == t;
    assert ([h] + t)[1..] == t;
  }

  /** Replacing is splitting at the pattern and joining with the value. */
  lemma {:induction false} ReplaceIsJoinOfSplit(s: string, p: string, v: string)
    requires |p| > 0
    ensures Replace(s, p, v) == Join(Split(s, p), v)
    decreases |s|
  {
    if |s| < |p| {
    } else if IsPrefix(p, s) {
      ReplaceIsJoinOfSplit(s[|p|..], p, v);
      SplitAtSeparator(s, p);
      var rest := Split(s[|p|..], p);
      assert ([""] + rest)[1..] == rest;
      assert Join([""] + rest, v) == "" + v + Join(rest, v);
    } else {
      ReplaceIsJoinOfSplit(s[1..], p, v);
      SplitAtOther(s, p);
      var rest := Split(s[1..], p);
      JoinConsHead(s[0], rest[0], rest[1..], v);
      assert [rest[0]] + rest[1..] == rest;
    }
  }

  /** Replacing a pattern by itself changes nothing. */
  lemma {:induction false} ReplaceByItself(s: string, p: string)
    requires |p| > 0
    ensures Replace(s, p, p) == s
    decreases |s|
  {
    if |s| < |p| {
    } else if IsPrefix(p, s) {
      ReplaceByItself(s[|p|..], p);
      assert s == p + s[|p|..];
    } else {
      ReplaceByItself(s[1..], p);
      assert s == [s[0]] + s[1..];
    }
  }

  /** Round trip: joining the pieces with the separator restores the text. */
  lemma JoinSplit(s: string, p: string)
    requires |p| > 0
    ensures Join(Split(s, p), p) == s
  {
    ReplaceIsJoinOfSplit(s, p, p);
    ReplaceByItself(s, p);
  }

  /** A text without the pattern is left as it is, whatever the value. */
  lemma {:induction false} ReplaceAbsent(s: string, p: string, v: string)
    requires |p| > 0
    requires !Contains(s, p)
    ensures Replace(s, p, v) == s
    decreases |s|
  {
    if |s| >= |p| {
      ReplaceAbsent(s[1..], p, v);
      assert s == [s[0]] + s[1..];
    }
  }

  /** Leading text without the pattern's first character is passed over
      untouched. */
  lemma {:induction false} ReplaceSkipsText(a: string, t: string, p: string, v: string)
    requires |p| > 0 && p[0] !in a
    ensures Replace(a + t, p, v) == a + Replace(t, p, v)
    decreases |a|
  {
    var s := a + t;
    if |a| == 0 {
      assert s == t;
    } else if |s| < |p| {
      assert Replace(t, p, v) == t;
    } else {
      var c, rest := a[0], a[1..];
      assert a == [c] + rest;
      assert c in a;
      assert s == [c] + (rest + t);
      assert !IsPrefix(p, s) by { assert s[..|p|][0] == c; }
      ReplaceSkipsText(rest, t, p, v);
      assert Replace(s, p, v) == [c] + (rest + Replace(t, p, v));
    }
  }

  /** A lone occurrence, its first character found nowhere else in the text,
      is the one replaced. */
  lemma ReplaceLoneOccurrence(a: string, p: string, b: string, v: string)
    requires |p| > 0 && p[0] !in a && p[0] !in b
    ensures Replace(a + p + b, p, v) == a + v + b
  {
    assert a + p + b == a + (p + b);
    ReplaceSkipsText(a, p + b, p, v);
    ReplaceLeading(p, b, v);
    ContainsFirstChar(b, p);
    ReplaceAbsent(b, p, v);
  }

  /** A leading occurrence is replaced and the scan resumes after it. */
  lemma ReplaceLeading(p: string, h: string, v: string)
    requires |p| > 0
    ensures Replace(p + h, p, v) == v + Replace(h, p, v)
  {
    assert (p + h)[..|p|] == p;
    assert (p + h)[|p|..] == h;
  }

  /** The split has more than one piece exactly when the separator occurs. */
  lemma {:induction false} SplitCount(s: string, p: string)
    requires |p| > 0
    ensures |Split(s, p)| > 1 <==> Contains(s, p)
    decreases |s|
  {
    if |s| < |p| {
      if Contains(s, p) {
        ContainsNeedsRoom(s, p);
      }
    } else if IsPrefix(p, s) {
    } else {
      SplitCount(s[1..], p);
    }
  }

  /** The first piece of a split begins the text. */
  lemma {:induction false} SplitHeadIsPrefix(s: string, p: string)
    requires |p| > 0
    ensures IsPrefix(Split(s, p)[0], s)
    decreases |s|
  {
    if |s| >= |p| && !IsPrefix(p, s) {
      SplitHeadIsPrefix(s[1..], p);
      var r := Split(s[1..], p)[0];
      assert [s[0]] + r == s[..1 + |r|];
    }
  }

  /** No piece of a split contains the separator. */
  lemma {:induction false} SplitPiecesAvoidSeparator(s: string, p: string)
    requires |p| > 0
    ensures forall i :: 0 <= i < |Split(s, p)| ==> !Contains(Split(s, p)[i], p)
    decreases |s|
  {
    if |s| < |p| {
      if Contains(s, p) {
        ContainsNeedsRoom(s, p);
      }
    } else if IsPrefix(p, s) {
      SplitPiecesAvoidSeparator(s[|p|..], p);
      assert !Contains("", p);
      var rest := Split(s[|p|..], p);
      assert Split(s, p) == [""] + rest;
    } else {
      SplitPiecesAvoidSeparator(s[1..], p);
      SplitHeadIsPrefix(s[1..], p);
      var rest := Split(s[1..], p);
      var head := [s[0]] + rest[0];
      assert Split(s, p) == [head] + rest[1..];
      assert head == s[..|head|];
      assert head[1..] == rest[0];
      assert !Contains(head, p);
    }
  }

  /** The last piece follows the rest, rejoined, and one separator. */
  lemma {:induction false} JoinLast(parts: seq<string>, sep: string)
    requires |parts| >= 2
    ensures Join(parts, sep) == Join(parts[..|parts| - 1], sep) + sep + parts[|parts| - 1]
    decreases |parts|
  {
    if |parts| == 2 {
      assert parts[..1] == [parts[0]];
    } else {
      JoinLast(parts[1..], sep);
      assert parts[..|parts| - 1][1..] == parts[1..][..|parts| - 2];
    }
  }

  /** The last piece of a split at a separator that occurs: it holds no
      separator, and a separator followed by it ends the text. */
  lemma SplitLastPiece(s: string, p: string)
    requires |p| > 0 && Contains(s, p)
    ensures var parts := Split(s, p);
            var tail := p + parts[|parts| - 1];
            && !Contains(parts[|parts| - 1], p)
            && |tail| <= |s| && s[|s| - |tail|..] == tail
  {
    SplitLastPieceAvoidsSeparator(s, p);
    SplitLastPieceEndsText(s, p);
  }

  lemma SplitLastPieceAvoidsSeparator(s: string, p: string)
    requires |p| > 0
    ensures !Contains(Split(s, p)[|Split(s, p)| - 1], p)
  {
    SplitPiecesAvoidSeparator(s, p);
  }

  lemma SplitLastPieceEndsText(s: string, p: string)
    requires |p| > 0 && Contains(s, p)
    ensures var parts := Split(s, p);
            s == Join(parts[..|parts| - 1], p) + (p + parts[|parts| - 1])
  {
    var parts := Split(s, p);
    SplitCount(s, p);
    JoinSplit(s, p);
    JoinLast(parts, p);
  }


  /** A text free of the separator is one piece. */
  lemma SplitOfFree(s: string, p: string)
    requires |p| > 0 && !Contains(s, p)
    ensures Split(s, p) == [s]
  {
    SplitCount(s, p);
    JoinSplit(s, p);
  }

  /** Unfolding `Split` at a separator. */
  lemma SplitAtSeparator(s: string, p: string)
    requires |p| > 0 && IsPrefix(p, s)
    ensures Split(s, p) == [""] + Split(s[|p|..], p)
  {
  }

  /** Unfolding `Split` where no separator starts: the first character joins
      the first piece of the rest. */
  lemma SplitAtOther(s: string, p: string)
    requires 0 < |p| <= |s| && !IsPrefix(p, s)
    ensures Split(s, p) == [[s[0]] + Split(s[1..], p)[0]] + Split(s[1..], p)[1..]
  {
  }

  /** Splitting at a one-character separator is naive: a separator placed
      between two texts splits exactly there. */
  lemma {:induction false} SplitAtChar(a: string, c: char, b: string)
    ensures Split(a + [c] + b, [c]) == Split(a, [c]) + Split(b, [c])
    decreases |a|
  {
    var s := a + [c] + b;
    if |a| == 0 {
      assert s == [c] + b;
      assert IsPrefix([c], s);
      SplitAtSeparator(s, [c]);
      assert s[1..] == b;
    } else {
      SplitAtChar(a[1..], c, b);
      if a[0] == c {
        assert a[..1] == [c];
        SplitAtCharSeparatorFirst(a, [c], b);
      } else {
        SplitAtCharOtherFirst(a, c, b);
      }
    }
  }

  lemma SplitAtCharSeparatorFirst(a: string, p: string, b: string)
    requires |p| > 0 && IsPrefix(p, a)
    requires Split(a[|p|..] + p + b, p) == Split(a[|p|..], p) + Split(b, p)
    ensures Split(a + p + b, p) == Split(a, p) + Split(b, p)
  {
    var s := a + p + b;
    assert s[|p|..] == a[|p|..] + p + b;
    assert s[..|p|] == p;
    SplitAtSeparator(s, p);
    SplitAtSeparator(a, p);
    var ra, rb := Split(a[|p|..], p), Split(b, p);
    assert [""] + (ra + rb) == ([""] + ra) + rb;
  }

  lemma SplitAtCharOtherFirst(a: string, c: char, b: string)
    requires |a| > 0 && a[0] != c
    requires Split(a[1..] + [c] + b, [c]) == Split(a[1..], [c]) + Split(b, [c])
    ensures Split(a + [c] + b, [c]) == Split(a, [c]) + Split(b, [c])
  {
    var s, t := a + [c] + b, a[1..] + [c] + b;
    var ra, rb := Split(a[1..], [c]), Split(b, [c]);
    assert s[0] == a[0] && s[1..] == t;
    assert s[..1] == [a[0]] && a[..1] == [a[0]];
    SplitAtOther(s, [c]);
    SplitAtOther(a, [c]);
    HeadJoinsAppend([a[0]] + ra[0], ra, rb);
  }

  lemma HeadJoinsAppend(h: string, ra: seq<string>, rb: seq<string>)
    requires |ra| > 0
    ensures [h] + (ra + rb)[1..] == ([h] + ra[1..]) + rb
  {
    assert (ra + rb)[1..] == ra[1..] + rb;
  }

  // ---------------------------------------------------------------------------
  // strip
  // ---------------------------------------------------------------------------

  /** The ASCII characters Python's `str.isspace` accepts. */
  predicate IsSpace(c: char) {
    c == ' ' || ('\t' <= c <= '\r') || ('\U{1C}' <= c <= '\U{1F}')
  }

  /** Neither end of the text is whitespace. */
  predicate IsStripped(s: string) {
    |s| == 0 || (!IsSpace(s[0]) && !IsSpace(s[|s| - 1]))
  }

  /** The end of the run of whitespace that starts at `i`. */
  function SpaceRunEnd(s: string, i: nat): (j: nat)
    requires i <= |s|
    ensures i <= j <= |s|
    ensures forall k :: i <= k < j ==> IsSpace(s[k])
    ensures j == |s| || !IsSpace(s[j])
    decreases |s| - i
  {
    if i < |s| && IsSpace(s[i]) then SpaceRunEnd(s, i + 1) else i
  }

  /** The start of the run of whitespace that ends at `j`, not going below `lo`. */
  function SpaceRunStart(s: string, lo: nat, j: nat): (m: nat)
    requires lo <= j <= |s|
    ensures lo <= m <= j
    ensures forall k :: m <= k < j ==> IsSpace(s[k])
    ensures m == lo || !IsSpace(s[m - 1])
    decreases j
  {
    if j > lo && IsSpace(s[j - 1]) then SpaceRunStart(s, lo, j - 1) else j
  }

  /** Where the text proper starts and ends once whitespace is stripped. */
  function StripStart(s: string): (i: nat)
    ensures StripStart(s) <= |s|
  {
    SpaceRunEnd(s, 0)
  }

  function StripEnd(s: string): (j: nat)
    ensures StripStart(s) <= StripEnd(s) <= |s|
  {
    SpaceRunStart(s, StripStart(s), |s|)
  }

  /** Python's `s.strip()`: leading and trailing whitespace removed. */
  function Strip(s: string): (r: string)
    ensures IsStripped(r)
    ensures |r| <= |s|
  {
    s[StripStart(s)..StripEnd(s)]
  }

  /** `strip` changes nothing but the two ends: the result is a slice of the
      input, and everything outside that slice is whitespace. */
  lemma StripIsSlice(s: string)
    ensures var i, j := StripStart(s), StripEnd(s);
            && Strip(s) == s[i..j]
            && (forall k :: 0 <= k < i ==> IsSpace(s[k]))
            && (forall k :: j <= k < |s| ==> IsSpace(s[k]))
  {
  }

  lemma StripFixesStripped(s: string)
    requires IsStripped(s)
    ensures Strip(s) == s
  {
    if |s| > 0 {
      assert StripStart(s) == 0;
      assert StripEnd(s) == |s|;
    }
  }

  /** Every character that survives `strip` comes from the input. */
  lemma StripKeepsCharacters(s: string)
    ensures forall c :: c in Strip(s) ==> c in s
  {
    forall c | c in Strip(s)
      ensures c in s
    {
      var r := Strip(s);
      var k :| 0 <= k < |r| && r[k] == c;
      assert s[StripStart(s) + k] == c;
    }
  }

  // ---------------------------------------------------------------------------
  // upper / lower
  // ---------------------------------------------------------------------------

  function UpperChar(c: char): (u: char) {
    if 'a' <= c <= 'z' then (c as int - 32) as char else c
  }

  function LowerChar(c: char): (l: char) {
    if 'A' <= c <= 'Z' then (c as int + 32) as char else c
  }

  /** Python's `s.upper()` over ASCII letters. */
  function Upper(s: string): (r: string)
    ensures |r| == |s|
  {
    seq(|s|, i requires 0 <= i < |s| => UpperChar(s[i]))
  }

  /** Python's `s.lower()` over ASCII letters. */
  function Lower(s: string): (r: string)
    ensures |r| == |s|
  {
    seq(|s|, i requires 0 <= i < |s| => LowerChar(s[i]))
  }

  lemma LowerDistributes(a: string, b: string)
    ensures Lower(a + b) == Lower(a) + Lower(b)
  {
  }

  /** Lower-casing forgets the letter case a text had. */
  lemma LowerIgnoresCase(s: string)
    ensures Lower(Upper(s)) == Lower(s)
    ensures Lower(Lower(s)) == Lower(s)
  {
  }

  /** Case is ignored: `upper()` of a lower-cased text is its `upper()`. */
  lemma UpperOfLower(s: string)
    ensures Upper(Lower(s)) == Upper(s)
  {
  }

  // ---------------------------------------------------------------------------
  // int()
  // ---------------------------------------------------------------------------

  predicate IsDigit(c: char) {
    '0' <= c <= '9'
  }

  predicate AllDigits(s: string) {
    forall i :: 0 <= i < |s| ==> IsDigit(s[i])
  }

  function DigitValue(c: char): (d: nat)
    requires IsDigit(c)
  {
    c as int - '0' as int
  }

  function DigitChar(d: nat): (c: char)
    requires d < 10
  {
    ('0' as int + d) as char
  }

  /** The value of a decimal numeral, most significant digit first. */
  function DigitsValue(s: string): (n: nat)
    requires AllDigits(s)
  {
    if |s| == 0 then 0 else DigitsValue(s[..|s| - 1]) * 10 + DigitValue(s[|s| - 1])
  }

  /** Python's `str(n)` for a natural number. */
  function NatToString(n: nat): (r: string)
    ensures |r| >= 1 && AllDigits(r)
  {
    if n < 10 then [DigitChar(n)] else NatToString(n / 10) + [DigitChar(n % 10)]
  }

  /** Python's `str(i)` for an integer. */
  function IntToString(i: int): (r: string) {
    if i < 0 then "-" + NatToString(-i) else NatToString(i)
  }

  /** Python's `int(s)` on a string: optional surrounding whitespace, an
      optional sign and one or more decimal digits; anything else raises,
      which is `None` here. */
  function ParseInt(s: string): (r: Option<int>) {
    ParseNumeral(Strip(s))
  }

  /** `int` on text without surrounding whitespace. */
  function ParseNumeral(t: string): (r: Option<int>) {
    if |t| > 0 && (t[0] == '-' || t[0] == '+') then
      if |t| > 1 && AllDigits(t[1..]) then
        var n: int := DigitsValue(t[1..]);
        Some(if t[0] == '-' then -n else n)
      else None
    else if |t| > 0 && AllDigits(t) then Some(DigitsValue(t))
    else None
  }

  lemma {:induction false} DigitsOfNat(n: nat)
    ensures DigitsValue(NatToString(n)) == n
    decreases n
  {
    if n >= 10 {
      DigitsOfNat(n / 10);
      var s := NatToString(n);
      assert s[..|s| - 1] == NatToString(n / 10);
    }
  }

  /** Round trip: `int(str(i)) == i`. */
  lemma ParseIntOfIntToString(i: int)
    ensures ParseInt(IntToString(i)) == Some(i)
  {
    var s := IntToString(i);
    assert !IsSpace(s[0]) && !IsSpace(s[|s| - 1]);
    StripFixesStripped(s);
    if i < 0 {
      NumeralOfNegative(-i);
    } else {
      NumeralOfNatural(i);
    }
  }

  lemma NumeralOfNatural(n: nat)
    ensures ParseNumeral(NatToString(n)) == Some(n)
  {
    DigitsOfNat(n);
  }

  lemma NumeralOfNegative(n: nat)
    ensures ParseNumeral("-" + NatToString(n)) == Some(-(n as int))
  {
    var s := "-" + NatToString(n);
    assert s[1..] == NatToString(n);
    DigitsOfNat(n);
  }
}
