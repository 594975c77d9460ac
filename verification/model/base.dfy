/** Identifiers, optional values and the two account kinds shared by every
    collection of the job board.  Document ids (Mongo ObjectIds) are modelled
    as their string form, which is how the route handlers compare them.
    Every id is taken to be well formed: a string that is not ObjectId syntax
    is simply an id no document has, where Mongoose would fail to cast it. */
module Base {

  /** The string form of a document id. */
  type Id = string

  /** Milliseconds since the epoch, as returned by `Date.now()`. */
  type Time = int

  datatype Option<+T> = None | Some(value: T) {
    function GetOr(default: T): T {
      match this
      case Some(v) => v
      case None => default
    }
  }

  /** An operation that either yields a value or fails with an error. */
  datatype Result<+T, +E> = Ok(value: T) | Err(error: E)

  /** An error response: its HTTP status and its `error` text. */
  datatype Fail = Fail(status: int, error: string)

  /** The catch-all of every handler: an exception becomes a 500. */
  const ServerError: Fail := Fail(500, "Server error")

  /** The two account collections a message or notification can point at
      (`refPath` values `'User'` and `'Business'`). */
  datatype Party = UserParty | BusinessParty {
    function Other(): (p: Party)
      ensures p != this
    {
      if UserParty? then BusinessParty else UserParty
    }

    function Name(): string {
      if UserParty? then "User" else "Business"
    }
  }

  /** The authenticated caller: `req.userId` and `req.userType`, both taken
      from the verified token.  Every type other than `'user'` is treated as
      a business by the messaging routes. */
  datatype Requester = Requester(id: Id, userType: string) {
    predicate IsUser() {
      userType == "user"
    }

    /** The collection the requester's own messages point at. */
    function Party(): (p: Party)
      ensures p == UserParty <==> IsUser()
    {
      if IsUser() then UserParty else BusinessParty
    }
  }

  /** The enum check of the `senderModel`, `recipientModel` fields: only the
      two names above are accepted. */
  function ParseParty(s: string): (r: Option<Party>)
    ensures r.Some? ==> r.value.Name() == s
    ensures (exists p: Party :: p.Name() == s) ==> r.Some?
  {
    if s == "User" then Some(UserParty)
    else if s == "Business" then Some(BusinessParty)
    else None
  }

  /** Mongoose's `timestamps` and `Date.now` defaults both read one clock. */
  const MsPerSecond: int := 1000
  const MsPerMinute: int := 60 * MsPerSecond
  const MsPerHour: int := 60 * MsPerMinute
  const MsPerDay: int := 24 * MsPerHour

  /** The number of elements of `s` satisfying `p` (a `countDocuments`). */
  function Count<T>(s: seq<T>, p: T -> bool): (n: nat)
    ensures n <= |s|
  {
    if |s| == 0 then 0 else (if p(s[|s| - 1]) then 1 else 0) + Count(s[..|s| - 1], p)
  }

  /** The elements of `s` satisfying `p`, in order (a `find` with a filter). */
  function Filter<T>(s: seq<T>, p: T -> bool): (r: seq<T>)
    ensures |r| == Count(s, p)
    ensures forall i :: 0 <= i < |r| ==> r[i] in s && p(r[i])
    ensures forall i :: 0 <= i < |s| && p(s[i]) ==> s[i] in r
  {
    if |s| == 0 then [] else Filter(s[..|s| - 1], p) + (if p(s[|s| - 1]) then [s[|s| - 1]] else [])
  }

  /** The positions of `s` whose element satisfies `p`. */
  function MatchingIndices<T>(s: seq<T>, p: T -> bool): set<int> {
    set i | 0 <= i < |s| && p(s[i])
  }

  /** A count is the number of positions that satisfy the filter. */
  lemma {:induction false} CountIsMatchingIndices<T>(s: seq<T>, p: T -> bool)
    ensures Count(s, p) == |MatchingIndices(s, p)|
  {
    if |s| > 0 {
      var t := s[..|s| - 1];
      CountIsMatchingIndices(t, p);
      var before := MatchingIndices(t, p);
      assert MatchingIndices(s, p) == if p(s[|s| - 1]) then before + {|s| - 1} else before;
    }
  }

  /** The count is zero exactly when no element satisfies the filter. */
  lemma {:induction false} CountZeroIff<T>(s: seq<T>, p: T -> bool)
    ensures Count(s, p) == 0 <==> forall i :: 0 <= i < |s| ==> !p(s[i])
  {
    if |s| > 0 {
      var t := s[..|s| - 1];
      CountZeroIff(t, p);
      assert forall i :: 0 <= i < |t| ==> t[i] == s[i];
    }
  }

  /** Elements before position `i` do not satisfy `p`. */
  predicate NoneBefore<T>(s: seq<T>, p: T -> bool, i: int)
    requires 0 <= i <= |s|
  {
    forall k :: 0 <= k < i ==> !p(s[k])
  }

  /** Filtering a non-empty sequence takes its head, if it passes, before
      the filtered tail. */
  lemma {:induction false} FilterCons<T>(s: seq<T>, p: T -> bool)
    requires |s| > 0
    ensures Filter(s, p) == (if p(s[0]) then [s[0]] else []) + Filter(s[1..], p)
    decreases |s|
  {
    if |s| > 1 {
      var front := s[..|s| - 1];
      FilterCons(front, p);
      assert front[1..] == s[1..][..|s[1..]| - 1];
      assert s[1..][|s[1..]| - 1] == s[|s| - 1];
    } else {
      assert s[..0] == [] && s[1..] == [];
    }
  }

  /** The first element of `s` satisfying `p` (a `findOne`). */
  function FindFirst<T(==)>(s: seq<T>, p: T -> bool): (r: Option<T>)
    ensures r.Some? <==> exists i :: 0 <= i < |s| && p(s[i])
    ensures r.Some? ==> p(r.value) && r.value in s
    // it is the first such element in the order of `s`
    ensures r.Some? ==> exists i :: 0 <= i < |s| && s[i] == r.value && NoneBefore(s, p, i)
  {
    if |s| == 0 then None
    else if p(s[0]) then Some(s[0])
    else
      var r := FindFirst(s[1..], p);
      assert forall i :: 0 < i < |s| ==> s[i] == s[1..][i - 1];
      if r.Some? then
        var i :| 0 <= i < |s[1..]| && s[1..][i] == r.value && NoneBefore(s[1..], p, i);
        assert s[i + 1] == r.value && NoneBefore(s, p, i + 1);
        r
      else r
  }

  /** A `save` of a changed document: every element with the same id as
      `x` (by `id`) becomes `x`; the others and all positions stay. */
  function ReplaceById<T>(s: seq<T>, x: T, id: T -> Id): (r: seq<T>)
    ensures |r| == |s|
    ensures forall i :: 0 <= i < |s| ==> r[i] == if id(s[i]) == id(x) then x else s[i]
  {
    if |s| == 0 then [] else [if id(s[0]) == id(x) then x else s[0]] + ReplaceById(s[1..], x, id)
  }
}
