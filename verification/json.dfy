/** The values `json.loads` produces, with the dict operations and the `str()` rendering
    that the core applies to them. */
module JsonData {
  import opened Wrappers
  import opened Text

  /** A decoded JSON value. An object keeps its key/value pairs in text order; as a Python
      dict it maps each key to its LAST value. Numbers are Python `int` or (finite) `float`. */
  datatype Json =
    | JNull
    | JBool(b: bool)
    | JInt(i: int)
    | JFloat(f: real)
    | JStr(s: string)
    | JList(items: seq<Json>)
    | JObject(fields: seq<(string, Json)>)

  /** Dict lookup over the pairs of an object: the last binding of `key` wins. */
  function Lookup(fields: seq<(string, Json)>, key: string): (r: Option<Json>)
    ensures r.None? <==> forall k | 0 <= k < |fields| :: fields[k].0 != key
    ensures r.Some? ==> (key, r.value) in fields
  {
    if |fields| == 0 then None
    else if fields[|fields| - 1].0 == key then Some(fields[|fields| - 1].1)
    else Lookup(fields[..|fields| - 1], key)
  }

  /** A key bound exactly once is looked up to its value. */
  lemma {:induction false} LookupSole(fields: seq<(string, Json)>, k: nat)
    requires k < |fields|
    requires forall m | 0 <= m < |fields| && m != k :: fields[m].0 != fields[k].0
    ensures Lookup(fields, fields[k].0) == Some(fields[k].1)
  {
    if k < |fields| - 1 {
      var prefix := fields[..|fields| - 1];
      assert prefix[k] == fields[k];
      LookupSole(prefix, k);
    }
  }

  /** The keys of a dict in insertion order (a key bound again keeps its first place). */
  function DictKeys(fields: seq<(string, Json)>): (r: seq<string>)
    ensures forall k :: k in r <==> Lookup(fields, k).Some?
    ensures forall i, j | 0 <= i < j < |r| :: r[i] != r[j]
  {
    if |fields| == 0 then []
    else
      var prefix := DictKeys(fields[..|fields| - 1]);
      if fields[|fields| - 1].0 in prefix then prefix else prefix + [fields[|fields| - 1].0]
  }

  /** The position of the binding of `key` that a lookup finds: the last one. */
  function LastBinding(fields: seq<(string, Json)>, key: string): (r: nat)
    requires Lookup(fields, key).Some?
    ensures r < |fields| && fields[r] == (key, Lookup(fields, key).value)
  {
    if fields[|fields| - 1].0 == key then |fields| - 1 else LastBinding(fields[..|fields| - 1], key)
  }

  /** `key in value`, for a value that is a dict (false for any other value). */
  predicate Has(j: Json, key: string) {
    j.JObject? && Lookup(j.fields, key).Some?
  }

  /** `value[key]` on a dict that holds `key`. */
  function Get(j: Json, key: string): Json
    requires Has(j, key)
  {
    Lookup(j.fields, key).value
  }

  /** `value.get(key, default)` on a dict. */
  function GetOr(j: Json, key: string, default: Json): Json
    requires j.JObject?
  {
    Lookup(j.fields, key).GetOr(default)
  }

  /** `d[key] = v`: an existing binding is overwritten in place, otherwise the pair is appended. */
  function Assign(fields: seq<(string, Json)>, key: string, v: Json): (r: seq<(string, Json)>)
    ensures Lookup(r, key) == Some(v)
    ensures forall other | other != key :: Lookup(r, other) == Lookup(fields, other)
  {
    if Lookup(fields, key).Some? then Overwrite(fields, key, v) else fields + [(key, v)]
  }

  function Overwrite(fields: seq<(string, Json)>, key: string, v: Json): (r: seq<(string, Json)>)
    ensures Lookup(r, key) == if Lookup(fields, key).Some? then Some(v) else None
    ensures forall other | other != key :: Lookup(r, other) == Lookup(fields, other)
  {
    if |fields| == 0 then []
    else
      var prefix := Overwrite(fields[..|fields| - 1], key, v);
      var last := fields[|fields| - 1];
      var r := prefix + [if last.0 == key then (key, v) else last];
      assert r[..|r| - 1] == prefix;
      r
  }

  /** Python truthiness (`if value:`). */
  predicate Truthy(j: Json) {
    match j
    case JNull => false
    case JBool(b) => b
    case JInt(i) => i != 0
    case JFloat(f) => f != 0.0
    case JStr(s) => |s| > 0
    case JList(items) => |items| > 0
    case JObject(fields) => |fields| > 0
  }

  /** Python's `str()` of a float, for magnitudes below 10**16: a minus sign for a negative
      value, then the integer part of the magnitude, then `.0` for an integral value and a fixed
      placeholder for the digits after the point otherwise. */
  function FloatText(f: real): (r: string)
    ensures f < 0.0 <==> |r| > 0 && r[0] == '-'
  {
    if f < 0.0 then "-" + MagnitudeText(-f) else MagnitudeText(f)
  }

  function MagnitudeText(f: real): (r: string)
    requires f >= 0.0
    ensures |r| > 0 && IsDigit(r[0])
  {
    var whole := NatToString(f.Floor);
    if f == f.Floor as real then whole + ".0" else whole + ".<fraction>"
  }

  /** Python's `str(value)` (`quoted == false`) and `repr(value)` (`quoted == true`), as used by
      f-strings; containers show their elements with `repr`. A dict shows each key once, at
      the place it was first bound, with the value it was last bound to. */
  function Render(j: Json, quoted: bool): string
    decreases j
  {
    match j
    case JNull => "None"
    case JBool(b) => if b then "True" else "False"
    case JInt(i) => IntToString(i)
    case JFloat(f) => FloatText(f)
    case JStr(s) => if quoted then "'" + s + "'" else s
    case JList(items) =>
      "[" + Join(seq(|items|, k requires 0 <= k < |items| => Render(items[k], true)), ", ") + "]"
    case JObject(fields) =>
      var keys := DictKeys(fields);
      "{" + Join(seq(|keys|, k requires 0 <= k < |keys| =>
                       "'" + keys[k] + "': " + Render(fields[LastBinding(fields, keys[k])].1, true)),
                 ", ") + "}"
  }

  /** What `f"{value}"` inserts into a string. */
  function Show(j: Json): (r: string)
    ensures j.JStr? ==> r == j.s
  {
    Render(j, false)
  }
}
