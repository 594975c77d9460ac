/** Request bodies and query strings as the handlers see them: parsed JSON
    values, with JavaScript's truthiness and the optional-chaining `?.trim()`
    idiom the handlers use to read text fields. */
module Json {
  import opened Base
  import opened Strings

  /** A parsed JSON value.  `Undefined` stands for a field that is absent;
      numbers are integers (floating point is not modelled). */
  datatype Value =
    | Undefined
    | Null
    | Bool(b: bool)
    | Num(n: int)
    | Str(s: string)
    | Arr(items: seq<Value>)
    | Obj(fields: seq<Field>)

  /** One property of an object, in insertion order. */
  datatype Field = Field(key: string, val: Value)

  /** JavaScript truthiness: `undefined`, `null`, `false`, `0` and `''` are
      falsy; every array and object is truthy. */
  predicate Truthy(v: Value) {
    match v
    case Undefined => false
    case Null => false
    case Bool(b) => b
    case Num(n) => n != 0
    case Str(s) => |s| > 0
    case Arr(_) => true
    case Obj(_) => true
  }

  /** What `v?.trim()` evaluates to. */
  datatype Trimmed =
    | Absent                  // `undefined`: v was null or undefined
    | TrimmedStr(s: string)   // v was a string
    | NotAString              // `.trim` is not a function: a TypeError is thrown

  function OptionalTrim(v: Value): (r: Trimmed)
    ensures r.Absent? <==> v.Undefined? || v.Null?
    ensures r.TrimmedStr? <==> v.Str?
    ensures r.TrimmedStr? ==> r.s == Trim(v.s) && IsTrimmed(r.s)
  {
    TrimIdempotent(if v.Str? then v.s else []);
    match v
    case Undefined => Absent
    case Null => Absent
    case Str(s) => TrimmedStr(Trim(s))
    case _ => NotAString
  }

  /** `!v?.trim()` is false: the field holds a string with a non-blank
      character. */
  predicate HasText(v: Value) {
    v.Str? && !AllSpace(v.s)
  }

  lemma HasTextIffTruthyTrim(v: Value)
    ensures HasText(v) <==> OptionalTrim(v).TrimmedStr? && |OptionalTrim(v).s| > 0
  {
  }

  /** `v?.trim()` throws a TypeError: `v` is neither nullish nor a string. */
  predicate TrimThrows(v: Value) {
    !(v.Undefined? || v.Null? || v.Str?)
  }

  lemma TrimThrowsIff(v: Value)
    ensures TrimThrows(v) <==> OptionalTrim(v).NotAString?
  {
  }

  /** The value of the first property named `key` of a document given as
      its (name, value) pairs in order. */
  function Lookup<K(==), V>(fields: seq<(K, V)>, key: K): (r: Option<V>)
    ensures r.Some? <==> exists i :: 0 <= i < |fields| && fields[i].0 == key
  {
    if |fields| == 0 then None
    else if fields[0].0 == key then Some(fields[0].1)
    else
      var r := Lookup(fields[1..], key);
      assert forall i :: 0 < i < |fields| ==> fields[i] == fields[1..][i - 1];
      r
  }

  /** A copy of the document without the properties named in `keys` (a
      series of `delete ret.k`), the others keeping their order. */
  function Remove<K(==,!new)>(fields: seq<(K, Value)>, keys: set<K>): (r: seq<(K, Value)>)
    ensures |r| <= |fields|
    ensures forall i :: 0 <= i < |r| ==> r[i].0 !in keys
    ensures forall k :: Lookup(r, k) == if k in keys then None else Lookup(fields, k)
  {
    if |fields| == 0 then []
    else
      var rest := Remove(fields[1..], keys);
      if fields[0].0 in keys then rest else [fields[0]] + rest
  }

  /** A property of `a + b` comes from `a` when `a` has it and from `b`
      otherwise. */
  lemma {:induction false} LookupAppend<K>(a: seq<(K, Value)>, b: seq<(K, Value)>)
    ensures forall k :: Lookup(a + b, k) == if Lookup(a, k).Some? then Lookup(a, k) else Lookup(b, k)
  {
    if |a| > 0 {
      assert (a + b)[1..] == a[1..] + b;
      LookupAppend(a[1..], b);
    } else {
      assert a + b == b;
    }
  }
}
