/** The sanitising middleware applied to every request's body, query and
    parameters: each string nested in an object or array loses its angle
    brackets, `javascript:` and `data:` prefixes and `on…=` attributes, and
    is trimmed. */
module Security {
  import opened Base
  import opened Strings
  import opened Json

  /** How a case-insensitive regular expression without the `u` flag
      compares a character with a lower-case ASCII pattern character: only
      the ASCII capitals fold (no non-ASCII character canonicalises to an
      ASCII one). */
  function Fold(c: char): char {
    if 'A' <= c <= 'Z' then (c as int + 32) as char else c
  }

  /** `\w`: an ASCII letter, digit or underscore. */
  predicate IsWord(c: char) {
    ('a' <= c <= 'z') || ('A' <= c <= 'Z') || ('0' <= c <= '9') || c == '_'
  }

  /** The literal `pat` (lower-case) occurs case-insensitively at the start
      of `s`. */
  predicate MatchesAt(s: string, pat: string) {
    |pat| <= |s| && forall j :: 0 <= j < |pat| ==> Fold(s[j]) == pat[j]
  }

  /** A global, case-insensitive `replace` of the literal `pat` by nothing:
      matches are found from left to right and do not overlap. */
  function RemoveAll(s: string, pat: string): (r: string)
    requires |pat| > 0
    ensures IsSubseq(r, s)
    decreases |s|
  {
    if MatchesAt(s, pat) then
      var rest := RemoveAll(s[|pat|..], pat);
      InfixIsSubseq(s, |pat|, |s|);
      assert s[|pat|..|s|] == s[|pat|..];
      SubseqTrans(rest, s[|pat|..], s);
      rest
    else if |s| == 0 then []
    else
      var rest := RemoveAll(s[1..], pat);
      assert s == [s[0]] + s[1..];
      SubseqCons(s[0], rest, s[1..]);
      [s[0]] + rest
  }

  /** The number of word characters `s` starts with. */
  function WordRun(s: string): (n: nat)
    ensures n <= |s|
    ensures forall j :: 0 <= j < n ==> IsWord(s[j])
    ensures n < |s| ==> !IsWord(s[n])
  {
    if |s| == 0 || !IsWord(s[0]) then 0 else 1 + WordRun(s[1..])
  }

  /** `t` is one match of `/on\w+=/i`: `on` in any case, at least one word
      character, `=`. */
  predicate IsHandler(t: string) {
    && |t| >= 4
    && Fold(t[0]) == 'o' && Fold(t[1]) == 'n'
    && (forall j :: 2 <= j < |t| - 1 ==> IsWord(t[j]))
    && t[|t| - 1] == '='
  }

  /** The length of the match of `/on\w+=/i` at the start of `s`.  The greedy
      `\w+` takes the whole run of word characters; giving some back cannot
      help, since `=` is not a word character. */
  function HandlerAt(s: string): (r: Option<nat>)
    ensures r.Some? ==> r.value <= |s| && IsHandler(s[..r.value])
  {
    if |s| >= 2 && Fold(s[0]) == 'o' && Fold(s[1]) == 'n' then
      var w := WordRun(s[2..]);
      if w >= 1 && 2 + w < |s| && s[2 + w] == '=' then Some(3 + w) else None
    else None
  }

  /** The converse: whenever `s` starts with a handler attribute, the match
      is found, and it is that one. */
  lemma HandlerAtFindsEveryHandler(s: string, n: nat)
    requires n <= |s| && IsHandler(s[..n])
    ensures HandlerAt(s) == Some(n)
  {
    var w := WordRun(s[2..]);
    assert forall j :: 2 <= j < n - 1 ==> IsWord(s[..n][j]);
    assert forall j :: 0 <= j < n - 3 ==> IsWord(s[2..][j]);
    assert !IsWord(s[..n][n - 1]);
    assert w == n - 3;
  }

  /** `replace(/on\w+=/gi, '')`. */
  function RemoveHandlers(s: string): (r: string)
    ensures IsSubseq(r, s)
    decreases |s|
  {
    match HandlerAt(s)
    case Some(n) =>
      var rest := RemoveHandlers(s[n..]);
      InfixIsSubseq(s, n, |s|);
      assert s[n..|s|] == s[n..];
      SubseqTrans(rest, s[n..], s);
      rest
    case None =>
      if |s| == 0 then []
      else
        var rest := RemoveHandlers(s[1..]);
        assert s == [s[0]] + s[1..];
        SubseqCons(s[0], rest, s[1..]);
        [s[0]] + rest
  }

  /** One pass of the string sanitiser, exactly as the middleware chains
      its five steps. */
  function SanitizeString(s: string): (r: string)
    ensures IsSubseq(r, s)
    ensures '<' !in r && '>' !in r
    ensures IsTrimmed(r)
  {
    var noAngles := RemoveChar(RemoveChar(s, '<'), '>');
    var noJs := RemoveAll(noAngles, "javascript:");
    var noHandlers := RemoveHandlers(noJs);
    var noData := RemoveAll(noHandlers, "data:");
    var r := Trim(noData);
    TrimIsSubseq(noData);
    TrimIdempotent(noData);
    SubseqTrans(r, noData, noHandlers);
    SubseqTrans(r, noHandlers, noJs);
    SubseqTrans(r, noJs, noAngles);
    SubseqTrans(r, noAngles, RemoveChar(s, '<'));
    SubseqTrans(r, RemoveChar(s, '<'), s);
    AbsentFromSubseq(r, RemoveChar(s, '<'), '<');
    AbsentFromSubseq(r, noAngles, '>');
    r
  }

  /** `sanitizeInput`: strings, numbers, booleans and `null` come back
      unchanged; an array or object is copied with each member sanitised. */
  function SanitizeInput(v: Value): (r: Value)
    ensures !(v.Arr? || v.Obj?) ==> r == v
    // an array stays an array of the same length, each element sanitised
    ensures v.Arr? ==> r.Arr? && |r.items| == |v.items|
    ensures v.Arr? ==> forall i :: 0 <= i < |v.items| ==> r.items[i] == SanitizeMember(v.items[i])
    // an object keeps every property but `__proto__`, in order, each value sanitised
    ensures v.Obj? ==> r.Obj? && |r.fields| == |Filter(v.fields, NotProto())|
    ensures v.Obj? ==> forall i :: 0 <= i < |r.fields| ==>
              r.fields[i] == Field(Filter(v.fields, NotProto())[i].key, SanitizeMember(Filter(v.fields, NotProto())[i].val))
    decreases v, 0
  {
    match v
    case Arr(items) =>
      Arr(seq(|items|, i requires 0 <= i < |items| => SanitizeMember(items[i])))
    case Obj(fields) =>
      Obj(SanitizeFields(v, fields))
    case _ => v
  }

  /** Copying a property onto the fresh object: assigning to `__proto__`
      sets the copy's prototype instead of creating a property, so that
      property is lost. */
  function SanitizeFields(v: Value, fields: seq<Field>): (r: seq<Field>)
    requires forall f :: f in fields ==> f.val < v
    ensures |r| <= |fields|
    ensures forall i :: 0 <= i < |r| ==> r[i].key != "__proto__"
    // the kept properties are the others, in order, with sanitised values
    ensures |r| == |Filter(fields, NotProto())|
    ensures forall i :: 0 <= i < |r| ==>
              r[i] == Field(Filter(fields, NotProto())[i].key, SanitizeMember(Filter(fields, NotProto())[i].val))
    decreases v, 0, |fields|
  {
    if |fields| == 0 then []
    else
      assert forall f :: f in fields[1..] ==> f in fields;
      var rest := SanitizeFields(v, fields[1..]);
      var kept := Filter(fields, NotProto());
      var keptRest := Filter(fields[1..], NotProto());
      FilterCons(fields, NotProto());
      if fields[0].key == "__proto__" then
        assert kept == keptRest;
        rest
      else
        var r := [Field(fields[0].key, SanitizeMember(fields[0].val))] + rest;
        assert kept == [fields[0]] + keptRest;
        assert forall i :: 0 <= i < |r| ==> r[i] == Field(kept[i].key, SanitizeMember(kept[i].val)) by {
          forall i | 0 <= i < |r| ensures r[i] == Field(kept[i].key, SanitizeMember(kept[i].val)) {
            if i > 0 {
              assert r[i] == rest[i - 1];
              assert kept[i] == keptRest[i - 1];
            }
          }
        }
        r
  }

  /** The properties a copy keeps. */
  function NotProto(): Field -> bool {
    (f: Field) => f.key != "__proto__"
  }

  /** One member of an array or object. */
  function SanitizeMember(v: Value): (r: Value)
    ensures v.Str? ==> r == Str(SanitizeString(v.s))
    ensures !(v.Str? || v.Arr? || v.Obj?) ==> r == v
    decreases v, 1
  {
    match v
    case Str(s) => Str(SanitizeString(s))
    case Arr(_) => SanitizeInput(v)
    case Obj(_) => SanitizeInput(v)
    case _ => v
  }

  /** No string anywhere inside `v` holds an angle bracket. */
  predicate NoAngles(v: Value) {
    match v
    case Str(s) => '<' !in s && '>' !in s
    case Arr(items) => forall i :: 0 <= i < |items| ==> NoAngles(items[i])
    case Obj(fields) => forall i :: 0 <= i < |fields| ==> NoAngles(fields[i].val)
    case _ => true
  }

  /** After the middleware no nested string holds `<` or `>`. */
  lemma {:induction false} SanitizedHasNoAngles(v: Value)
    requires v.Arr? || v.Obj?
    ensures NoAngles(SanitizeInput(v))
    decreases v, 0
  {
    match v
    case Arr(items) =>
      var r := SanitizeInput(v);
      forall i | 0 <= i < |items|
        ensures NoAngles(r.items[i])
      {
        MemberHasNoAngles(items[i]);
      }
    case Obj(fields) =>
      FieldsHaveNoAngles(v, fields);
  }

  lemma {:induction false} FieldsHaveNoAngles(v: Value, fields: seq<Field>)
    requires forall f :: f in fields ==> f.val < v
    ensures forall i :: 0 <= i < |SanitizeFields(v, fields)| ==> NoAngles(SanitizeFields(v, fields)[i].val)
    decreases v, 0, |fields|
  {
    var r := SanitizeFields(v, fields);
    var kept := Filter(fields, NotProto());
    forall i | 0 <= i < |r| ensures NoAngles(r[i].val) {
      assert kept[i] in fields;
      MemberHasNoAngles(kept[i].val);
    }
  }

  lemma {:induction false} MemberHasNoAngles(v: Value)
    requires v.Str? || NoAngles(v) || v.Arr? || v.Obj?
    ensures NoAngles(SanitizeMember(v))
    decreases v, 1
  {
    if v.Arr? || v.Obj? {
      SanitizedHasNoAngles(v);
    }
  }

  /** A top-level string is not sanitised at all. */
  lemma TopLevelStringUntouched(s: string)
    ensures SanitizeInput(Str(s)) == Str(s)
  {
  }

  /** A string whose one pass of removals assembles a new `javascript:`
      out of the pieces around a removed one. */
  const SplitProtocol: string := "jjavascript:avascript:"

  /** One pass leaves a `javascript:` behind: removing the inner occurrence
      joins `j` and `avascript:` into a fresh one. */
  lemma OnePassLeavesProtocol()
    ensures SanitizeString(SplitProtocol) == "javascript:"
  {
    OnePassOn(SplitProtocol, "javascript:");
  }

  lemma OnePassOn(s: string, protocol: string)
    requires s == SplitProtocol && protocol == "javascript:"
    ensures SanitizeString(s) == protocol
  {
    assert '<' !in s && '>' !in s;
    RemoveCharAbsent(s, '<');
    RemoveCharAbsent(s, '>');
    var a := RemoveChar(RemoveChar(s, '<'), '>');
    assert a == s;
    SplitProtocolJoins();
    var j := RemoveAll(a, "javascript:");
    assert j == protocol;
    ProtocolHasNoHandler();
    var h := RemoveHandlers(j);
    assert h == protocol;
    ProtocolHasNoData();
    var d := RemoveAll(h, "data:");
    assert d == protocol;
    ProtocolIsTrimmed();
    assert Trim(d) == protocol;
  }

  lemma SplitProtocolJoins()
    ensures RemoveAll(SplitProtocol, "javascript:") == "javascript:"
  {
    JoinedAroundRemoval("javascript:", SplitProtocol);
  }

  /** Removing the occurrence of `pat` that sits after its own first
      character joins that character with the rest of `pat`. */
  lemma JoinedAroundRemoval(pat: string, s: string)
    requires |pat| >= 2 && pat[1] != pat[0]
    requires forall j :: 0 <= j < |pat| ==> Fold(pat[j]) == pat[j]
    requires s == [pat[0]] + pat + pat[1..]
    ensures RemoveAll(s, pat) == pat
  {
    var rest := pat[1..];
    assert s == [pat[0]] + (pat + rest);
    assert (pat + rest)[0] == pat[0];
    RemoveAllKeepHead(pat[0], pat + rest, pat);
    RemoveAllMatchHead(pat, rest);
    RemoveAllShort(rest, pat);
    assert [pat[0]] + rest == pat;
  }

  /** A pattern at the head is removed. */
  lemma RemoveAllMatchHead(pat: string, rest: string)
    requires |pat| > 0 && forall j :: 0 <= j < |pat| ==> Fold(pat[j]) == pat[j]
    ensures RemoveAll(pat + rest, pat) == RemoveAll(rest, pat)
  {
    assert MatchesAt(pat + rest, pat);
    assert (pat + rest)[|pat|..] == rest;
  }

  /** A head character that does not start a match is kept. */
  lemma RemoveAllKeepHead(c: char, t: string, pat: string)
    requires |pat| > 0 && !MatchesAt([c] + t, pat)
    ensures RemoveAll([c] + t, pat) == [c] + RemoveAll(t, pat)
  {
    assert ([c] + t)[1..] == t;
  }

  lemma ProtocolMatchesItself()
    ensures MatchesAt("javascript:", "javascript:")
  {
    var s := "javascript:";
    assert forall k :: 0 <= k < |s| ==> !('A' <= s[k] <= 'Z');
  }

  lemma ProtocolHasNoHandler()
    ensures RemoveHandlers("javascript:") == "javascript:"
  {
    var s := "javascript:";
    assert forall k :: 0 <= k < |s| ==> s[k] != '=';
    NoHandlerWithoutEquals(s);
  }

  lemma ProtocolHasNoData()
    ensures RemoveAll("javascript:", "data:") == "javascript:"
  {
    var s := "javascript:";
    assert forall k :: 0 <= k < 10 ==> s[k] != ':';
    assert s[6] == 'r';
    forall i | 0 <= i <= |s|
      ensures !MatchesAt(s[i..], "data:")
    {
      if i + 5 <= |s| {
        assert s[i..][0] == s[i] && s[i..][4] == s[i + 4];
      }
    }
    RemoveAllAbsent(s, "data:");
  }

  lemma ProtocolIsTrimmed()
    ensures Trim("javascript:") == "javascript:"
  {
    assert LeadingSpaces("javascript:") == 0;
    assert TrailingSpaces("javascript:") == 0;
  }

  lemma RemoveCharAbsent(s: string, c: char)
    requires c !in s
    ensures RemoveChar(s, c) == s
  {
  }

  /** A string shorter than the pattern is left alone. */
  lemma {:induction false} RemoveAllShort(s: string, pat: string)
    requires 0 < |pat| && |s| < |pat|
    ensures RemoveAll(s, pat) == s
    decreases |s|
  {
    if |s| > 0 {
      RemoveAllShort(s[1..], pat);
      assert s == [s[0]] + s[1..];
    }
  }

  /** A string with no occurrence of the pattern is left alone. */
  lemma {:induction false} RemoveAllAbsent(s: string, pat: string)
    requires 0 < |pat|
    requires forall i :: 0 <= i <= |s| ==> !MatchesAt(s[i..], pat)
    ensures RemoveAll(s, pat) == s
    decreases |s|
  {
    assert s[0..] == s;
    if |s| > 0 {
      forall i | 0 <= i <= |s| - 1
        ensures !MatchesAt(s[1..][i..], pat)
      {
        assert s[1..][i..] == s[i + 1..];
      }
      RemoveAllAbsent(s[1..], pat);
      assert s == [s[0]] + s[1..];
    }
  }

  /** Without `=` there is no handler attribute to remove. */
  lemma {:induction false} NoHandlerWithoutEquals(s: string)
    requires '=' !in s
    ensures RemoveHandlers(s) == s
    decreases |s|
  {
    if |s| > 0 {
      assert HandlerAt(s).None?;
      NoHandlerWithoutEquals(s[1..]);
      assert s == [s[0]] + s[1..];
    }
  }

  /** A subsequence as long as the original is the original. */
  lemma {:induction false} SubseqSameLength<T>(a: seq<T>, b: seq<T>)
    requires IsSubseq(a, b) && |a| == |b|
    ensures a == b
    decreases |b|
  {
    if |a| > 0 {
      if a[0] == b[0] {
        SubseqSameLength(a[1..], b[1..]);
        assert a == [a[0]] + a[1..] && b == [b[0]] + b[1..];
      } else {
        SubseqLength(a, b[1..]);
      }
    }
  }

  lemma AbsentFromSubseq<T>(a: seq<T>, b: seq<T>, x: T)
    requires IsSubseq(a, b) && x !in b
    ensures x !in a
  {
    if x in a { SubseqElements(a, b, x); }
  }

  lemma ChangedSubseqIsShorter<T>(a: seq<T>, b: seq<T>)
    requires IsSubseq(a, b) && a != b
    ensures |a| < |b|
  {
    SubseqLength(a, b);
    if |a| == |b| { SubseqSameLength(a, b); }
  }

  /** If the removal changes nothing, the pattern occurs nowhere. */
  lemma {:induction false} RemoveAllFixpoint(s: string, pat: string)
    requires 0 < |pat| && RemoveAll(s, pat) == s
    ensures forall i :: 0 <= i <= |s| ==> !MatchesAt(s[i..], pat)
    decreases |s|
  {
    if MatchesAt(s, pat) {
      SubseqLength(RemoveAll(s[|pat|..], pat), s[|pat|..]);
    } else if |s| > 0 {
      assert RemoveAll(s[1..], pat) == s[1..];
      RemoveAllFixpoint(s[1..], pat);
      forall i | 1 <= i <= |s|
        ensures !MatchesAt(s[i..], pat)
      {
        assert s[i..] == s[1..][i - 1..];
      }
      assert s[0..] == s;
    }
  }

  /** If removing handler attributes changes nothing, none is left. */
  lemma {:induction false} RemoveHandlersFixpoint(s: string)
    requires RemoveHandlers(s) == s
    ensures forall i :: 0 <= i <= |s| ==> HandlerAt(s[i..]).None?
    decreases |s|
  {
    match HandlerAt(s)
    case Some(n) =>
      SubseqLength(RemoveHandlers(s[n..]), s[n..]);
    case None =>
      if |s| > 0 {
        assert RemoveHandlers(s[1..]) == s[1..];
        RemoveHandlersFixpoint(s[1..]);
        forall i | 1 <= i <= |s|
          ensures HandlerAt(s[i..]).None?
        {
          assert s[i..] == s[1..][i - 1..];
        }
      }
      assert s[0..] == s;
  }

  /** The sanitiser as evidently intended: the pass is repeated until it
      changes nothing, so none of the removed constructs can be assembled
      from the pieces around a removed one. */
  function SanitizeStringFixed(s: string): (r: string)
    ensures IsSubseq(r, s)
    ensures '<' !in r && '>' !in r
    ensures forall i :: 0 <= i <= |r| ==> !MatchesAt(r[i..], "javascript:")
    ensures forall i :: 0 <= i <= |r| ==> HandlerAt(r[i..]).None?
    ensures forall i :: 0 <= i <= |r| ==> !MatchesAt(r[i..], "data:")
    ensures IsTrimmed(r)
    decreases |s|
  {
    var t := SanitizeString(s);
    if t == s then
      SubseqRefl(s);
      StablePassIsClean(s);
      s
    else
      ChangedSubseqIsShorter(t, s);
      var r := SanitizeStringFixed(t);
      SubseqTrans(r, t, s);
      r
  }

  /** A string one pass leaves unchanged holds none of the constructs. */
  lemma StablePassIsClean(s: string)
    requires SanitizeString(s) == s
    ensures forall i :: 0 <= i <= |s| ==> !MatchesAt(s[i..], "javascript:")
    ensures forall i :: 0 <= i <= |s| ==> HandlerAt(s[i..]).None?
    ensures forall i :: 0 <= i <= |s| ==> !MatchesAt(s[i..], "data:")
  {
    var a1 := RemoveChar(s, '<');
    var a2 := RemoveChar(a1, '>');
    var j := RemoveAll(a2, "javascript:");
    var h := RemoveHandlers(j);
    var d := RemoveAll(h, "data:");
    TrimIsSubseq(d);
    SubseqLength(s, d);
    SubseqLength(d, h);
    SubseqLength(h, j);
    SubseqLength(j, a2);
    SubseqLength(a2, a1);
    SubseqLength(a1, s);
    SubseqSameLength(a1, s);
    SubseqSameLength(a2, a1);
    SubseqSameLength(j, a2);
    SubseqSameLength(h, j);
    SubseqSameLength(d, h);
    RemoveAllFixpoint(s, "javascript:");
    RemoveHandlersFixpoint(s);
    RemoveAllFixpoint(s, "data:");
  }

  /** Repeating the pass removes what a single pass leaves behind. */
  lemma FixedRemovesSplitProtocol()
    ensures SanitizeStringFixed(SplitProtocol) != SanitizeString(SplitProtocol)
  {
    OnePassLeavesProtocol();
    var r := SanitizeStringFixed(SplitProtocol);
    assert r[0..] == r;
    ProtocolMatchesItself();
  }
}
