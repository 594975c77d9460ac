/** The `/businesses` routes: the public, filtered and paged directory of
    businesses, the little query language its `filter` parameter speaks,
    and the private view of one business.  The store's evaluation of a
    query (matching and sorting) is a parameter. */
module BusinessesRoute {
  import opened Base
  import opened Strings
  import opened Json
  import opened Paging
  import opened Accounts
  import opened BusinessModel
  import opened Store
  import Security

  /** The condition one filter entry becomes. */
  datatype Cond =
    | Like(pattern: string)           // { $regex: pattern, $options: 'i' }
    | InList(items: seq<string>)      // { $in: items }
    | NotInList(items: seq<string>)   // { $nin: items }
    | AtLeast(bound: string)          // { $gte: bound }
    | AtMost(bound: string)           // { $lte: bound }
    | Above(bound: string)            // { $gt: bound }
    | Below(bound: string)            // { $lt: bound }
    | NotEqual(bound: string)         // { $ne: bound }
    | Equal(value: Value)             // the value itself
    | AnyOf(search: string)           // the `$or` of the text search
  {
    /** The four range operators. */
    predicate IsComparison() {
      AtLeast? || AtMost? || Above? || Below?
    }
  }

  /** One filter value: a string holding `~` is a case-insensitive pattern
      (the tildes removed) whatever else it holds; otherwise the first
      matching prefix among `in:`, `nin:`, `>=`, `<=`, `>`, `<` and `!=`
      picks the operator and the rest of the string is its operand; any
      other value is matched as it is. */
  function ParseCondition(v: Value): (c: Cond)
    ensures !v.Str? ==> c == Equal(v)
    ensures v.Str? && '~' in v.s ==> c == Like(RemoveChar(v.s, '~'))
    ensures c.Like? ==> '~' !in c.pattern
    // a range operator needs the string to start with an angle bracket
    ensures c.IsComparison() ==> v.Str? && |v.s| > 0 && (v.s[0] == '<' || v.s[0] == '>')
    ensures !c.AnyOf?
  {
    if !v.Str? then Equal(v)
    else
      var s := v.s;
      if '~' in s then Like(RemoveChar(s, '~'))
      else if StartsWith(s, "in:") then InList(Split(s[3..], ','))
      else if StartsWith(s, "nin:") then NotInList(Split(s[4..], ','))
      else if StartsWith(s, ">=") then AtLeast(s[2..])
      else if StartsWith(s, "<=") then AtMost(s[2..])
      else if StartsWith(s, ">") then Above(s[1..])
      else if StartsWith(s, "<") then Below(s[1..])
      else if StartsWith(s, "!=") then NotEqual(s[2..])
      else Equal(v)
  }

  /** A list operand the query language can write: a non-empty list of
      pieces free of `,` and `~`. */
  predicate WritableList(items: seq<string>) {
    |items| >= 1 && forall i :: 0 <= i < |items| ==> ',' !in items[i] && '~' !in items[i]
  }

  /** A plain string that no operator prefix claims. */
  predicate Unprefixed(s: string) {
    !StartsWith(s, "in:") && !StartsWith(s, "nin:") && !StartsWith(s, ">") && !StartsWith(s, "<")
    && !StartsWith(s, "!=")
  }

  /** The conditions a tilde-free filter string can express. */
  predicate Writable(c: Cond) {
    match c
    case InList(items) => WritableList(items)
    case NotInList(items) => WritableList(items)
    case AtLeast(b) => '~' !in b
    case AtMost(b) => '~' !in b
    // `>=x` would be read as `$gte`, so a `$gt` operand cannot start with `=`
    case Above(b) => '~' !in b && !StartsWith(b, "=")
    case Below(b) => '~' !in b && !StartsWith(b, "=")
    case NotEqual(b) => '~' !in b
    case Equal(v) => v.Str? && '~' !in v.s && Unprefixed(v.s)
    case _ => false
  }

  /** The filter string that expresses a condition. */
  function Write(c: Cond): string
    requires Writable(c)
  {
    match c
    case InList(items) => "in:" + Join(items, ',')
    case NotInList(items) => "nin:" + Join(items, ',')
    case AtLeast(b) => ">=" + b
    case AtMost(b) => "<=" + b
    case Above(b) => ">" + b
    case Below(b) => "<" + b
    case NotEqual(b) => "!=" + b
    case Equal(v) => v.s
  }

  lemma {:induction false} JoinAvoids(parts: seq<string>, sep: char, x: char)
    requires x != sep && forall i :: 0 <= i < |parts| ==> x !in parts[i]
    ensures x !in Join(parts, sep)
    decreases |parts|
  {
    if |parts| > 1 {
      JoinAvoids(parts[1..], sep, x);
    }
  }

  lemma {:induction false} PartInJoin(parts: seq<string>, sep: char, i: nat, x: char)
    requires i < |parts| && x in parts[i]
    ensures x in Join(parts, sep)
    decreases |parts|
  {
    if i > 0 {
      PartInJoin(parts[1..], sep, i - 1, x);
    }
  }

  /** A piece of a split string holds only characters of the string. */
  lemma SplitAvoids(s: string, sep: char, x: char)
    requires x !in s
    ensures forall i :: 0 <= i < |Split(s, sep)| ==> x !in Split(s, sep)[i]
  {
    var parts := Split(s, sep);
    forall i | 0 <= i < |parts|
      ensures x !in parts[i]
    {
      if x in parts[i] {
        PartInJoin(parts, sep, i, x);
      }
    }
  }

  /** A string starting with a character other than the first of `q`
      does not start with `q`. */
  lemma HeadDiffers(s: string, q: string)
    requires |s| > 0 && |q| > 0 && s[0] != q[0]
    ensures !StartsWith(s, q)
  {
    if |q| <= |s| {
      assert s[..|q|][0] == s[0];
    }
  }

  lemma ParseList(items: seq<string>, prefix: string)
    requires WritableList(items) && (prefix == "in:" || prefix == "nin:")
    ensures ParseCondition(Str(prefix + Join(items, ','))) ==
              if prefix == "in:" then InList(items) else NotInList(items)
  {
    JoinAvoids(items, ',', '~');
    SplitJoin(items, ',');
    if prefix == "in:" {
      ParsePrefixed(Join(items, ','), prefix);
    } else {
      ParsePrefixed(Join(items, ','), prefix);
      HeadDiffers(prefix + Join(items, ','), "in:");
    }
  }

  /** A list operator followed by `~`-free text is read by its branch. */
  lemma ParsePrefixed(j: string, prefix: string)
    requires '~' !in j && (prefix == "in:" || prefix == "nin:")
    ensures var s := prefix + j;
      && '~' !in s && StartsWith(s, prefix) && s[|prefix|..] == j
  {
    var s := prefix + j;
    assert s[..|prefix|] == prefix;
    assert s[|prefix|..] == j;
  }

  lemma ParseRange(c: Cond)
    requires Writable(c) && (c.IsComparison() || c.NotEqual?)
    ensures ParseCondition(Str(Write(c))) == c
  {
    var s := Write(c);
    HeadDiffers(s, "in:");
    HeadDiffers(s, "nin:");
    match c
    case AtLeast(b) =>
      assert s[..2] == ">=" && s[2..] == b;
    case AtMost(b) =>
      assert s[..2] == "<=" && s[2..] == b;
      HeadDiffers(s, ">=");
    case Above(b) =>
      assert s[..1] == ">" && s[1..] == b;
      assert !StartsWith(s, ">=") by {
        if |s| >= 2 {
          assert s[..2] == [s[0], s[1]] && s[1] == b[0];
          assert b[..1] == [b[0]];
        }
      }
      HeadDiffers(s, "<=");
    case Below(b) =>
      assert s[..1] == "<" && s[1..] == b;
      assert !StartsWith(s, "<=") by {
        if |s| >= 2 {
          assert s[..2] == [s[0], s[1]] && s[1] == b[0];
          assert b[..1] == [b[0]];
        }
      }
      HeadDiffers(s, ">=");
      HeadDiffers(s, ">");
    case NotEqual(b) =>
      assert s[..2] == "!=" && s[2..] == b;
      HeadDiffers(s, ">=");
      HeadDiffers(s, "<=");
      HeadDiffers(s, ">");
      HeadDiffers(s, "<");
  }

  /** Writing a condition and parsing the string gives the condition back. */
  lemma WriteThenParse(c: Cond)
    requires Writable(c)
    ensures ParseCondition(Str(Write(c))) == c
  {
    match c
    case InList(items) => ParseList(items, "in:");
    case NotInList(items) => ParseList(items, "nin:");
    case Equal(v) =>
    case _ => ParseRange(c);
  }

  /** Conversely, every tilde-free filter string is the writing of the
      condition it parses to: the two are inverse on tilde-free strings. */
  lemma ParseThenWrite(s: string)
    requires '~' !in s
    ensures Writable(ParseCondition(Str(s)))
    ensures Write(ParseCondition(Str(s))) == s
  {
    var c := ParseCondition(Str(s));
    if StartsWith(s, "in:") {
      SplitAvoids(s[3..], ',', '~');
      assert s == "in:" + s[3..];
    } else if StartsWith(s, "nin:") {
      SplitAvoids(s[4..], ',', '~');
      assert s == "nin:" + s[4..];
    } else if StartsWith(s, ">=") || StartsWith(s, "<=") || StartsWith(s, "!=") {
      assert s == s[..2] + s[2..];
    } else if StartsWith(s, ">") || StartsWith(s, "<") {
      assert s == s[..1] + s[1..];
      if |s| >= 2 {
        assert s[..2] == [s[0], s[1]];
        assert s[1..][..1] == [s[1]];
      }
    }
  }

  /** Filter values free of angle brackets never become range conditions.
      The security middleware strips `<` and `>` from the query text before
      it is parsed, so the range operators are reachable only through JSON
      escapes such as `\u003e`. */
  lemma AngleFreeHasNoComparison(v: Value)
    requires Security.NoAngles(v)
    ensures !ParseCondition(v).IsComparison()
  {
  }

  /** The `conditions` object under construction: its own properties. */
  type Conditions = seq<(string, Cond)>

  const ProtoKey: string := "__proto__"

  predicate DistinctKeys(conds: Conditions) {
    forall i, j :: 0 <= i < j < |conds| ==> conds[i].0 != conds[j].0
  }

  /** `conds[key] = c` on a property that is not `__proto__`: an existing
      property is overwritten in place, a new one is appended. */
  function Replace(conds: Conditions, key: string, c: Cond): (r: Conditions)
    ensures forall k :: Lookup(r, k) == if k == key then Some(c) else Lookup(conds, k)
    ensures DistinctKeys(conds) ==> DistinctKeys(r)
  {
    if |conds| == 0 then [(key, c)]
    else if conds[0].0 == key then
      assert forall k :: k != key ==> Lookup(conds, k) == Lookup(conds[1..], k);
      [(key, c)] + conds[1..]
    else
      var rest := Replace(conds[1..], key, c);
      var r := [conds[0]] + rest;
      assert forall k :: k != conds[0].0 ==> Lookup(r, k) == Lookup(rest, k);
      ConsKeepsDistinct(conds, rest, key);
      r
  }

  lemma ConsKeepsDistinct(conds: Conditions, rest: Conditions, key: string)
    requires |conds| > 0 && conds[0].0 != key
    requires forall k :: Lookup(rest, k).Some? <==> k == key || Lookup(conds[1..], k).Some?
    requires DistinctKeys(conds[1..]) ==> DistinctKeys(rest)
    ensures DistinctKeys(conds) ==> DistinctKeys([conds[0]] + rest)
  {
    if DistinctKeys(conds) {
      assert DistinctKeys(conds[1..]) by {
        forall i, j | 0 <= i < j < |conds[1..]| ensures conds[1..][i].0 != conds[1..][j].0 {
          assert conds[1..][i] == conds[i + 1] && conds[1..][j] == conds[j + 1];
        }
      }
      forall j | 0 <= j < |rest| ensures rest[j].0 != conds[0].0 {
        assert Lookup(rest, rest[j].0).Some?;
        if rest[j].0 != key {
          var m :| 0 <= m < |conds[1..]| && conds[1..][m].0 == rest[j].0;
          assert conds[m + 1].0 == rest[j].0;
        }
      }
      var r := [conds[0]] + rest;
      forall i, j | 0 <= i < j < |r| ensures r[i].0 != r[j].0 {
        if i > 0 {
          assert r[i] == rest[i - 1] && r[j] == rest[j - 1];
        } else {
          assert r[j] == rest[j - 1];
        }
      }
    }
  }

  /** `conds[key] = c`.  Assigning to `__proto__` sets the object's
      prototype (or, for a primitive, does nothing) and never creates an own
      property. */
  function Assign(conds: Conditions, key: string, c: Cond): (r: Conditions)
    ensures key == ProtoKey ==> r == conds
    ensures forall k :: Lookup(r, k) == if k == key && key != ProtoKey then Some(c) else Lookup(conds, k)
    ensures DistinctKeys(conds) ==> DistinctKeys(r)
  {
    if key == ProtoKey then conds else Replace(conds, key, c)
  }

  /** `Object.entries(v)`: the properties of an object, the indexed
      elements of an array, the indexed characters of a string, and nothing
      for any other value. */
  function Entries(v: Value): (r: seq<(string, Value)>)
    ensures !(v.Obj? || v.Arr? || v.Str?) ==> r == []
    ensures v.Obj? ==> |r| == |v.fields|
  {
    match v
    case Obj(fields) => seq(|fields|, i requires 0 <= i < |fields| => (fields[i].key, fields[i].val))
    case Arr(items) => seq(|items|, i requires 0 <= i < |items| => (NatToString(i), items[i]))
    case Str(s) => seq(|s|, i requires 0 <= i < |s| => (NatToString(i), Str([s[i]])))
    case _ => []
  }

  /** The `forEach` over the entries. */
  function AssignAll(conds: Conditions, entries: seq<(string, Value)>): (r: Conditions)
    ensures DistinctKeys(conds) ==> DistinctKeys(r)
    decreases |entries|
  {
    if |entries| == 0 then conds
    else AssignAll(Assign(conds, entries[0].0, ParseCondition(entries[0].1)), entries[1..])
  }

  /** `parseFilterConditions(filter)`. */
  function ParseFilterConditions(filter: Value): (r: Conditions)
    ensures !Truthy(filter) ==> r == []
    ensures DistinctKeys(r)
  {
    if !Truthy(filter) then [] else AssignAll([], Entries(filter))
  }

  /** The value of the last entry with the given key: the one whose
      assignment survives. */
  function LastValue(entries: seq<(string, Value)>, key: string): (r: Option<Value>)
    ensures r.Some? <==> exists i :: 0 <= i < |entries| && entries[i].0 == key
  {
    if |entries| == 0 then None
    else
      var rest := LastValue(entries[1..], key);
      assert forall i :: 0 < i < |entries| ==> entries[i] == entries[1..][i - 1];
      if rest.Some? then rest else if entries[0].0 == key then Some(entries[0].1) else None
  }

  lemma {:induction false} AssignAllFind(conds: Conditions, entries: seq<(string, Value)>, key: string)
    ensures Lookup(AssignAll(conds, entries), key) ==
              if key != ProtoKey && LastValue(entries, key).Some?
              then Some(ParseCondition(LastValue(entries, key).value))
              else Lookup(conds, key)
    decreases |entries|
  {
    if |entries| > 0 {
      AssignAllFind(Assign(conds, entries[0].0, ParseCondition(entries[0].1)), entries[1..], key);
    }
  }

  /** The filter object maps every key of the parsed filter except
      `__proto__` to the condition of the last value given for it, and holds
      no other key. */
  lemma FilterConditionsLookup(filter: Value, key: string)
    ensures Lookup(ParseFilterConditions(filter), key) ==
              if key != ProtoKey && LastValue(Entries(filter), key).Some?
              then Some(ParseCondition(LastValue(Entries(filter), key).value))
              else None
  {
    if Truthy(filter) {
      AssignAllFind([], Entries(filter), key);
    } else {
      assert Entries(filter) == [];
    }
  }

  /** `conditions.$or = [...]` when a search text is given. */
  function WithSearch(conds: Conditions, search: string): (r: Conditions)
    ensures |search| == 0 ==> r == conds
    ensures |search| > 0 ==> Lookup(r, "$or") == Some(AnyOf(search))
    ensures forall k :: k != "$or" ==> Lookup(r, k) == Lookup(conds, k)
    ensures DistinctKeys(conds) ==> DistinctKeys(r)
  {
    if |search| == 0 then conds else Assign(conds, "$or", AnyOf(search))
  }

  /** A query-string parameter holding JSON: absent (or empty), parsed, or
      text that `JSON.parse` rejects. */
  datatype JsonParam = Absent | Parsed(value: Value) | Malformed

  /** The default order: by business name, ascending. */
  const DefaultSort: Value := Obj([Field("businessName", Num(1))])

  /** A listed business: `select('businessName businessType')` with the id. */
  datatype BusinessRow = BusinessRow(id: Id, businessName: string, businessType: string)

  function Row(b: Business): BusinessRow {
    BusinessRow(b.id, b.businessName, b.businessType)
  }

  function Rows(bs: seq<Business>): (r: seq<BusinessRow>)
    ensures |r| == |bs|
    ensures forall i :: 0 <= i < |r| ==> r[i] == Row(bs[i])
  {
    seq(|bs|, i requires 0 <= i < |bs| => Row(bs[i]))
  }

  datatype Directory = Directory(businesses: seq<BusinessRow>, pagination: PageInfo, filter: Conditions)

  /** The conditions the handler queries with. */
  function QueryConditions(filter: JsonParam, search: string): (r: Conditions)
    requires !filter.Malformed?
    ensures DistinctKeys(r)
  {
    var f := if filter.Parsed? then filter.value else Obj([]);
    WithSearch(ParseFilterConditions(f), search)
  }

  /** `parseInt(req.query.limit) || 30`. */
  function PageSize(limit: Option<int>): (l: int)
    ensures l != 0
    ensures limit.Some? && limit.value != 0 ==> l == limit.value
    ensures limit.None? || limit.value == 0 ==> l == 30
  {
    if limit.Some? && limit.value != 0 then limit.value else 30
  }

  /** The store's answer to the handler's query, in the requested order. */
  function Found(sort: JsonParam, filter: JsonParam, search: string,
                 query: (Value, Conditions) -> seq<Business>): seq<Business>
    requires !filter.Malformed?
  {
    query(if sort.Parsed? then sort.value else DefaultSort, QueryConditions(filter, search))
  }

  /** GET `/public`.  `page` and `limit` are the `parseInt` results (`None`
      for NaN); `query(sort, conditions)` is what the store returns for the
      conditions in the requested order, and its length is what
      `countDocuments` counts.  A negative skip is refused by the store
      (500); a negative limit makes the store return that many documents in
      absolute value. */
  function ListPublic(page: Option<int>, limit: Option<int>, sort: JsonParam, filter: JsonParam,
                      search: string, query: (Value, Conditions) -> seq<Business>): (r: Result<Directory, Fail>)
    ensures r.Ok? <==> !sort.Malformed? && !filter.Malformed?
                       && SkipFor(PageOrOne(page), PageSize(limit)) >= 0
    ensures r.Err? ==> r.error == ServerError
    ensures r.Ok? ==>
              var p := PageOrOne(page);
              var l := PageSize(limit);
              var skip := SkipFor(p, l);
              var conds := QueryConditions(filter, search);
              var found := Found(sort, filter, search, query);
              && r.value.filter == conds
              && |r.value.businesses| <= (if l < 0 then -l else l)
              && (r.value.businesses != [] ==> skip + |r.value.businesses| <= |found|)
              && (forall i :: 0 <= i < |r.value.businesses| ==>
                    r.value.businesses[i] == Row(found[skip + i]))
              && r.value.pagination == Info(p, |found|, l)
  {
    if sort.Malformed? || filter.Malformed? then Err(ServerError)
    else
      var p := PageOrOne(page);
      var l := PageSize(limit);
      var skip := SkipFor(p, l);
      var conds := QueryConditions(filter, search);
      var found := Found(sort, filter, search, query);
      if skip < 0 then Err(ServerError)
      else
        var w := Window(Rows(found), skip, if l < 0 then -l else l);
        Ok(Directory(w, Info(p, |found|, l), conds))
  }

  /** Pages 1..k of the directory at a fixed page size, one after the
      other. */
  function DirectoryPages(limit: int, sort: JsonParam, filter: JsonParam, search: string,
                          query: (Value, Conditions) -> seq<Business>, k: nat): seq<BusinessRow>
    requires limit > 0 && !sort.Malformed? && !filter.Malformed?
  {
    if k == 0 then []
    else DirectoryPages(limit, sort, filter, search, query, k - 1)
         + ListPublic(Some(k), Some(limit), sort, filter, search, query).value.businesses
  }

  lemma {:induction false} DirectoryPagesArePages(limit: int, sort: JsonParam, filter: JsonParam, search: string,
                                                  query: (Value, Conditions) -> seq<Business>, k: nat)
    requires limit > 0 && !sort.Malformed? && !filter.Malformed?
    ensures DirectoryPages(limit, sort, filter, search, query, k) == Pages(Rows(Found(sort, filter, search, query)), limit, k)
  {
    if k > 0 {
      var rows := Rows(Found(sort, filter, search, query));
      DirectoryPagesArePages(limit, sort, filter, search, query, k - 1);
      DirectoryPage(limit, sort, filter, search, query, k);
      assert DirectoryPages(limit, sort, filter, search, query, k)
          == DirectoryPages(limit, sort, filter, search, query, k - 1) + Window(rows, (k - 1) * limit, limit);
    }
  }

  /** Page `k` of the directory at a positive page size. */
  lemma DirectoryPage(limit: int, sort: JsonParam, filter: JsonParam, search: string,
                      query: (Value, Conditions) -> seq<Business>, k: nat)
    requires limit > 0 && !sort.Malformed? && !filter.Malformed? && k >= 1
    ensures var found := Found(sort, filter, search, query);
            ListPublic(Some(k), Some(limit), sort, filter, search, query).Ok?
            && ListPublic(Some(k), Some(limit), sort, filter, search, query).value.businesses
               == Window(Rows(found), (k - 1) * limit, limit)
  {
  }

  /** With a positive page size, walking pages 1..`totalPages` lists every
      matching business exactly once, in the store's order. */
  lemma DirectoryCoversAll(limit: int, sort: JsonParam, filter: JsonParam, search: string,
                           query: (Value, Conditions) -> seq<Business>)
    requires limit > 0 && !sort.Malformed? && !filter.Malformed?
    ensures ListPublic(Some(1), Some(limit), sort, filter, search, query).Ok?
    ensures var found := Found(sort, filter, search, query);
            var t := ListPublic(Some(1), Some(limit), sort, filter, search, query).value.pagination.totalPages;
            t >= 0 && DirectoryPages(limit, sort, filter, search, query, t) == Rows(found)
  {
    var found := Found(sort, filter, search, query);
    assert PageSize(Some(limit)) == limit && SkipFor(1, limit) == 0;
    var info := ListPublic(Some(1), Some(limit), sort, filter, search, query).value.pagination;
    assert info == Info(1, |Rows(found)|, limit);
    PagesCoverAll(Rows(found), limit);
    DirectoryPagesArePages(limit, sort, filter, search, query, info.totalPages);
  }

  /** A negative `limit` still returns up to that many businesses, but the
      reported page count is not positive, so no next page is announced. */
  lemma NegativeLimitHidesNextPage(page: int, limit: int, sort: JsonParam, filter: JsonParam,
                                   search: string, query: (Value, Conditions) -> seq<Business>)
    requires page >= 1 && limit < 0
    requires ListPublic(Some(page), Some(limit), sort, filter, search, query).Ok?
    ensures var r := ListPublic(Some(page), Some(limit), sort, filter, search, query).value;
            r.pagination.totalPages <= 0 && !r.pagination.hasNextPage
  {
    var found := Found(sort, filter, search, query);
    var t := CeilDiv(|found|, limit);
    assert (t - 1) * limit > 0;
    assert ListPublic(Some(page), Some(limit), sort, filter, search, query).value.pagination == Info(page, |found|, limit);
  }

  /** GET `/:id` for the authenticated requester: the business without its
      secrets, and only to itself. */
  function ViewBusiness(db: Db, requesterId: Id, id: Id): (r: Result<Document, Fail>)
    ensures FindBusiness(db, id).None? ==> r == Err(Fail(404, "Business not found"))
    ensures FindBusiness(db, id).Some? && requesterId != id ==> r == Err(Fail(403, "Access denied"))
    ensures r.Ok? <==> FindBusiness(db, id).Some? && requesterId == id
    ensures r.Ok? ==> r.value == ToJson(FindBusiness(db, id).value)
                      && Lookup(r.value, PasswordField).None?
                      && Lookup(r.value, ApprovedField) == Some(Bool(FindBusiness(db, id).value.approved))
  {
    match FindBusiness(db, id)
    case None => Err(Fail(404, "Business not found"))
    case Some(b) =>
      if requesterId != b.id then Err(Fail(403, "Access denied"))
      else
        ToJsonShowsApproval(b);
        Ok(ToJson(b))
  }
}
