/** The JavaScript string operations the handlers rely on: `trim`, ASCII
    `toLowerCase`, `startsWith`, `split` on one character, and deletion of
    characters.  Strings are sequences of Unicode scalar values. */
module Strings {
  import opened Base

  /** JavaScript's WhiteSpace and LineTerminator code points: exactly what
      `String.prototype.trim` removes and what the regular-expression class
      `\s` matches. */
  predicate IsSpace(c: char) {
    || c == '\t' || c == '\n' || c == '\U{000B}' || c == '\U{000C}' || c == '\r'
    || c == ' ' || c == '\U{00A0}' || c == '\U{1680}'
    || ('\U{2000}' <= c <= '\U{200A}')
    || c == '\U{2028}' || c == '\U{2029}' || c == '\U{202F}' || c == '\U{205F}'
    || c == '\U{3000}' || c == '\U{FEFF}'
  }

  predicate AllSpace(s: string) {
    forall i :: 0 <= i < |s| ==> IsSpace(s[i])
  }

  /** Number of leading white-space characters. */
  function LeadingSpaces(s: string): (n: nat)
    ensures n <= |s|
    ensures forall i :: 0 <= i < n ==> IsSpace(s[i])
    ensures n < |s| ==> !IsSpace(s[n])
  {
    if |s| > 0 && IsSpace(s[0]) then 1 + LeadingSpaces(s[1..]) else 0
  }

  /** Number of trailing white-space characters. */
  function TrailingSpaces(s: string): (n: nat)
    ensures n <= |s|
    ensures forall i :: |s| - n <= i < |s| ==> IsSpace(s[i])
    ensures n < |s| ==> !IsSpace(s[|s| - n - 1])
  {
    if |s| > 0 && IsSpace(s[|s| - 1]) then 1 + TrailingSpaces(s[..|s| - 1]) else 0
  }

  /** `String.prototype.trim`: the result is the input with white space
      removed from both ends, and nothing else removed. */
  function Trim(s: string): (r: string)
    ensures |r| <= |s|
    ensures r == [] <==> AllSpace(s)
    ensures r != [] ==> !IsSpace(r[0]) && !IsSpace(r[|r| - 1])
    ensures exists i :: 0 <= i <= |s| - |r| && s[i..i + |r|] == r
                        && AllSpace(s[..i]) && AllSpace(s[i + |r|..])
    ensures LeadingSpaces(s) + |r| <= |s| && r == s[LeadingSpaces(s)..LeadingSpaces(s) + |r|]
  {
    var lead := LeadingSpaces(s);
    if lead == |s| then
      assert s[..0] == [] && s[0..0] == [];
      []
    else
      var trail := TrailingSpaces(s);
      TrimPart(s, lead, trail);
      s[lead..|s| - trail]
  }

  /** The part between the leading and the trailing white space of a string
      that is not all white space. */
  lemma TrimPart(s: string, lead: nat, trail: nat)
    requires lead == LeadingSpaces(s) < |s| && trail == TrailingSpaces(s)
    ensures lead <= |s| - trail - 1
    ensures var r := s[lead..|s| - trail];
            && !IsSpace(r[0]) && !IsSpace(r[|r| - 1])
            && AllSpace(s[..lead]) && AllSpace(s[lead + |r|..]) && s[lead..lead + |r|] == r
  {
    assert !IsSpace(s[lead]);
    var r := s[lead..|s| - trail];
    assert r[0] == s[lead] && r[|r| - 1] == s[|s| - trail - 1];
    var tail := s[lead + |r|..];
    forall k | 0 <= k < |tail|
      ensures IsSpace(tail[k])
    {
      assert tail[k] == s[|s| - trail + k];
    }
  }

  /** Trimming twice is trimming once. */
  lemma TrimIdempotent(s: string)
    ensures Trim(Trim(s)) == Trim(s)
  {
    var r := Trim(s);
    if r != [] {
      assert LeadingSpaces(r) == 0;
      assert TrailingSpaces(r) == 0;
    }
  }

  /** A string equal to its own trim has no white space at either end. */
  predicate IsTrimmed(s: string) {
    Trim(s) == s
  }

  /** The number of UTF-16 code units of `s`, which is what a JavaScript
      string's `length` counts: characters outside the Basic Multilingual
      Plane take two. */
  function Utf16Length(s: string): (n: nat)
    ensures |s| <= n <= 2 * |s|
  {
    if |s| == 0 then 0
    else (if s[|s| - 1] as int > 0xFFFF then 2 else 1) + Utf16Length(s[..|s| - 1])
  }

  lemma {:induction false} Utf16Concat(a: string, b: string)
    ensures Utf16Length(a + b) == Utf16Length(a) + Utf16Length(b)
  {
    if |b| > 0 {
      Utf16Concat(a, b[..|b| - 1]);
      assert (a + b)[..|a + b| - 1] == a + b[..|b| - 1];
    } else {
      assert a + b == a;
    }
  }

  /** A part of a string is no longer in code units than the string. */
  lemma Utf16Infix(s: string, i: nat, j: nat)
    requires i <= j <= |s|
    ensures Utf16Length(s[i..j]) <= Utf16Length(s)
  {
    var front, mid, back := s[..i], s[i..j], s[j..];
    assert s == (front + mid) + back;
    Utf16Concat(front + mid, back);
    Utf16Concat(front, mid);
  }

  /** Trimming never lengthens a string in code units. */
  lemma TrimUtf16(s: string)
    ensures Utf16Length(Trim(s)) <= Utf16Length(s)
  {
    var r := Trim(s);
    var i := LeadingSpaces(s);
    Utf16Infix(s, i, i + |r|);
  }

  /** Lower-casing of one character as `toLowerCase` does it for every
      character whose lower case is ASCII: the Latin capitals and the Kelvin
      sign, which lower-cases to `k`. */
  function LowerChar(c: char): char {
    if 'A' <= c <= 'Z' then (c as int + 32) as char
    else if c == '\U{212A}' then 'k'
    else c
  }

  function ToLower(s: string): (r: string)
    ensures |r| == |s|
    ensures forall i :: 0 <= i < |s| ==> r[i] == LowerChar(s[i])
  {
    seq(|s|, i requires 0 <= i < |s| => LowerChar(s[i]))
  }

  lemma ToLowerIdempotent(s: string)
    ensures ToLower(ToLower(s)) == ToLower(s)
  {
  }

  predicate StartsWith(s: string, prefix: string) {
    |prefix| <= |s| && s[..|prefix|] == prefix
  }

  predicate IsAsciiDigit(c: char) {
    '0' <= c <= '9'
  }

  /** `a` is obtained from `b` by deleting characters (greedy matching). */
  predicate IsSubseq<T(==)>(a: seq<T>, b: seq<T>)
    decreases |b|
  {
    if |a| == 0 then true
    else if |b| == 0 then false
    else if a[0] == b[0] then IsSubseq(a[1..], b[1..])
    else IsSubseq(a, b[1..])
  }

  lemma {:induction false} SubseqLength<T>(a: seq<T>, b: seq<T>)
    requires IsSubseq(a, b)
    ensures |a| <= |b|
    decreases |b|
  {
    if |a| > 0 {
      if a[0] == b[0] { SubseqLength(a[1..], b[1..]); } else { SubseqLength(a, b[1..]); }
    }
  }

  lemma {:induction false} SubseqRefl<T>(a: seq<T>)
    ensures IsSubseq(a, a)
    decreases |a|
  {
    if |a| > 0 { SubseqRefl(a[1..]); }
  }

  /** Every element of a subsequence occurs in the original. */
  lemma {:induction false} SubseqElements<T>(a: seq<T>, b: seq<T>, x: T)
    requires IsSubseq(a, b)
    requires x in a
    ensures x in b
    decreases |b|
  {
    if a[0] == b[0] {
      if x != a[0] {
        assert x in a[1..];
        SubseqElements(a[1..], b[1..], x);
      }
    } else {
      SubseqElements(a, b[1..], x);
    }
  }

  lemma {:induction false} SubseqDropHead<T>(a: seq<T>, b: seq<T>)
    requires |a| > 0 && IsSubseq(a, b)
    ensures IsSubseq(a[1..], b)
    decreases |b|
  {
    if a[0] == b[0] {
      SubseqOfTail(a[1..], b);
    } else {
      SubseqDropHead(a, b[1..]);
      SubseqOfTail(a[1..], b);
    }
  }

  lemma {:induction false} SubseqOfTail<T>(a: seq<T>, b: seq<T>)
    requires |b| > 0 && IsSubseq(a, b[1..])
    ensures IsSubseq(a, b)
    decreases |b|, 1
  {
    if |a| > 0 && a[0] == b[0] {
      SubseqDropHead(a, b[1..]);
    }
  }

  lemma {:induction false} SubseqTrans<T>(a: seq<T>, b: seq<T>, c: seq<T>)
    requires IsSubseq(a, b) && IsSubseq(b, c)
    ensures IsSubseq(a, c)
    decreases |c|
  {
    if |a| == 0 {
    } else if |c| == 0 {
      SubseqLength(a, b);
      SubseqLength(b, c);
    } else if |b| == 0 {
      SubseqLength(a, b);
    } else if b[0] == c[0] {
      if a[0] == b[0] {
        SubseqTrans(a[1..], b[1..], c[1..]);
      } else {
        SubseqTrans(a, b[1..], c[1..]);
        SubseqOfTail(a, c);
      }
    } else {
      SubseqTrans(a, b, c[1..]);
      SubseqOfTail(a, c);
    }
  }

  /** Keeping a common first element keeps the subsequence relation. */
  lemma SubseqCons<T>(x: T, a: seq<T>, b: seq<T>)
    requires IsSubseq(a, b)
    ensures IsSubseq([x] + a, [x] + b)
  {
    assert ([x] + a)[1..] == a;
    assert ([x] + b)[1..] == b;
  }

  /** Dropping a first element of the original keeps the relation. */
  lemma SubseqSkip<T>(x: T, a: seq<T>, b: seq<T>)
    requires IsSubseq(a, b)
    ensures IsSubseq(a, [x] + b)
  {
    assert ([x] + b)[1..] == b;
    SubseqOfTail(a, [x] + b);
  }

  /** The trimmed string is a subsequence of the original. */
  lemma TrimIsSubseq(s: string)
    ensures IsSubseq(Trim(s), s)
  {
    var r := Trim(s);
    var i := LeadingSpaces(s);
    InfixIsSubseq(s, i, i + |r|);
  }

  lemma {:induction false} InfixIsSubseq<T>(s: seq<T>, i: nat, j: nat)
    requires i <= j <= |s|
    ensures IsSubseq(s[i..j], s)
    decreases |s|
  {
    if i > 0 {
      InfixIsSubseq(s[1..], i - 1, j - 1);
      assert s[1..][i - 1..j - 1] == s[i..j];
      SubseqOfTail(s[i..j], s);
    } else if j > 0 {
      InfixIsSubseq(s[1..], 0, j - 1);
      assert s[1..][0..j - 1] == s[0..j][1..];
    }
  }

  /** All occurrences of `c` deleted (`replace(/c/g, '')`). */
  function RemoveChar(s: string, c: char): (r: string)
    ensures c !in r
    ensures IsSubseq(r, s)
    ensures forall x :: x != c ==> (x in r <==> x in s)
  {
    if |s| == 0 then []
    else if s[0] == c then
      var rest := RemoveChar(s[1..], c);
      SubseqOfTail(rest, s);
      rest
    else
      var rest := RemoveChar(s[1..], c);
      assert s == [s[0]] + s[1..];
      SubseqCons(s[0], rest, s[1..]);
      [s[0]] + rest
  }

  /** Position of the first occurrence of `c`, if any. */
  function IndexOf(s: string, c: char): (r: Option<nat>)
    ensures r.None? <==> c !in s
    ensures r.Some? ==> r.value < |s| && s[r.value] == c && c !in s[..r.value]
  {
    if |s| == 0 then None
    else if s[0] == c then Some(0)
    else match IndexOf(s[1..], c)
      case None => None
      case Some(k) =>
        assert s[..k + 1] == [s[0]] + s[1..][..k];
        Some(k + 1)
  }

  /** `parts.join(sep)`. */
  function Join(parts: seq<string>, sep: char): string
    decreases |parts|
  {
    if |parts| == 0 then []
    else if |parts| == 1 then parts[0]
    else parts[0] + [sep] + Join(parts[1..], sep)
  }

  /** `s.split(sep)` for a one-character separator: never empty, no piece
      holds the separator, and joining the pieces gives back `s`. */
  function Split(s: string, sep: char): (parts: seq<string>)
    ensures |parts| >= 1
    ensures forall i :: 0 <= i < |parts| ==> sep !in parts[i]
    ensures Join(parts, sep) == s
    decreases |s|
  {
    match IndexOf(s, sep)
    case None => [s]
    case Some(k) =>
      var rest := Split(s[k + 1..], sep);
      assert s == s[..k] + [sep] + s[k + 1..];
      [s[..k]] + rest
  }

  /** Splitting inverts joining, so `Split` and `Join` are a bijection
      between strings and non-empty lists of separator-free pieces. */
  lemma {:induction false} SplitJoin(parts: seq<string>, sep: char)
    requires |parts| >= 1
    requires forall i :: 0 <= i < |parts| ==> sep !in parts[i]
    ensures Split(Join(parts, sep), sep) == parts
    decreases |parts|
  {
    if |parts| > 1 {
      var s := Join(parts, sep);
      assert sep !in parts[0];
      assert s == parts[0] + [sep] + Join(parts[1..], sep);
      assert s[|parts[0]|] == sep;
      assert s[..|parts[0]|] == parts[0];
      assert IndexOf(s, sep) == Some(|parts[0]|);
      assert s[|parts[0]| + 1..] == Join(parts[1..], sep);
      SplitJoin(parts[1..], sep);
    } else {
      assert sep !in parts[0];
    }
  }

  /** Decimal digits of a natural number, as template literals print it. */
  function NatToString(n: nat): (r: string)
    ensures |r| >= 1
    ensures forall i :: 0 <= i < |r| ==> IsAsciiDigit(r[i])
  {
    if n < 10 then [DigitChar(n)] else NatToString(n / 10) + [DigitChar(n % 10)]
  }

  function DigitChar(d: nat): (c: char)
    requires d < 10
    ensures IsAsciiDigit(c)
  {
    ('0' as int + d) as char
  }

  /** `t` occurs in `s` starting at position `i`. */
  predicate OccursAt(s: string, t: string, i: int) {
    0 <= i <= |s| - |t| && s[i..i + |t|] == t
  }

  /** `t` occurs in `s` (`s.includes(t)`). */
  predicate Contains(s: string, t: string) {
    exists i | 0 <= i <= |s| :: OccursAt(s, t, i)
  }

  /** Position of the first occurrence of `t` at or after `from`. */
  function FirstOccurrenceFrom(s: string, t: string, from: nat): (r: Option<nat>)
    requires from <= |s|
    ensures r.Some? ==> from <= r.value && OccursAt(s, t, r.value)
    ensures r.Some? ==> forall j :: from <= j < r.value ==> !OccursAt(s, t, j)
    ensures r.None? ==> forall j :: from <= j <= |s| ==> !OccursAt(s, t, j)
    decreases |s| - from
  {
    if OccursAt(s, t, from) then Some(from)
    else if from == |s| then None
    else FirstOccurrenceFrom(s, t, from + 1)
  }

  /** Position of the first occurrence of `t` (`s.indexOf(t)`). */
  function FirstOccurrence(s: string, t: string): (r: Option<nat>)
    ensures r.Some? ==> OccursAt(s, t, r.value) && forall j :: 0 <= j < r.value ==> !OccursAt(s, t, j)
    ensures r.None? <==> !Contains(s, t)
  {
    FirstOccurrenceFrom(s, t, 0)
  }

  /** `s.replace(t, rep)` with a string pattern: only the first occurrence
      is replaced. */
  function ReplaceFirst(s: string, t: string, rep: string): (r: string)
    ensures !Contains(s, t) ==> r == s
    ensures Contains(s, t) ==> |r| == |s| - |t| + |rep|
    ensures Contains(s, t) ==>
              exists i :: (OccursAt(s, t, i) && (forall j :: 0 <= j < i ==> !OccursAt(s, t, j)) &&
                           r[..i] == s[..i] && r[i..i + |rep|] == rep && r[i + |rep|..] == s[i + |t|..])
  {
    match FirstOccurrence(s, t)
    case None => s
    case Some(i) => s[..i] + rep + s[i + |t|..]
  }
}
