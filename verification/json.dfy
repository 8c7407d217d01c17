/** JSON values as the Rust code sees them, with its accessors and the canonical digest.

    A digest text is kept apart from every other string: `Digest(v)` is the JSON string
    that `canonical_digest` returns for `v`.  The constructor is injective, which is what
    the code relies on SHA-256 for.
  */
module Json {

  datatype Option<+T> = None | Some(value: T)

  datatype Result<+T, +E> = Ok(value: T) | Err(error: E)

  datatype Value =
    | Null
    | Bool(b: bool)
    | Int(n: int)
    | Float(text: string)
    | Str(s: string)
    | Digest(of: Value)
    | Arr(items: seq<Value>)
    | Obj(fields: map<string, Value>)
  {
    /** `value.get(key)` */
    function Get(key: string): Option<Value> {
      if Obj? && key in fields then Some(fields[key]) else None
    }

    /** `value[key]`: Null when the field is missing or the value is no object. */
    function At(key: string): Value {
      if Obj? && key in fields then fields[key] else Null
    }

    /** `value.as_str()` where the code expects an ordinary string. */
    function AsStr(): Option<string> {
      if Str? then Some(s) else None
    }

    /** `value.as_str()` where the code expects a digest: any JSON string, kept as a value. */
    function AsText(): Option<Value> {
      if Str? || Digest? then Some(this) else None
    }

    /** `value.as_array().into_iter().flatten()` */
    function Elements(): seq<Value> {
      if Arr? then items else []
    }

    /** `value.as_object()` */
    function AsObj(): Option<map<string, Value>> {
      if Obj? then Some(fields) else None
    }
  }

  /** `canonical_json` refuses every value that holds a floating-point number. */
  predicate Canonical(v: Value) {
    match v
    case Float(_) => false
    case Arr(items) => forall i | 0 <= i < |items| :: Canonical(items[i])
    case Obj(fields) => forall k | k in fields :: Canonical(fields[k])
    case _ => true
  }

  function CanonicalDigest(v: Value): Option<Value> {
    if Canonical(v) then Some(Digest(v)) else None
  }

  /** The ID of a record or clause. */
  function IdOf(v: Value): Option<string> {
    v.At("id").AsStr()
  }

  predicate NonEmpty(v: Value) {
    v.Str? && v.s != ""
  }

  predicate HexDigit(c: char) {
    '0' <= c <= '9' || 'a' <= c <= 'f' || 'A' <= c <= 'F'
  }

  /** `is_sha256_digest`: the text of a digest, whichever way it was written. */
  predicate Sha256Text(v: Value) {
    v.Digest? || (v.Str? && |v.s| == 71 && v.s[..7] == "sha256:" && forall i | 7 <= i < 71 :: HexDigit(v.s[i]))
  }

  /** The ordinary strings of a list, in order: `filter_map(Value::as_str)`. */
  function Strings(vs: seq<Value>): seq<string> {
    if vs == [] then []
    else if vs[0].Str? then [vs[0].s] + Strings(vs[1..])
    else Strings(vs[1..])
  }

  lemma {:induction false} StringsMember(vs: seq<Value>, t: string)
    ensures t in Strings(vs) <==> Str(t) in vs
  {
    if vs != [] {
      StringsMember(vs[1..], t);
      assert vs == [vs[0]] + vs[1..];
    }
  }

  function Lookup<K, V>(m: map<K, V>, k: K): Option<V> {
    if k in m then Some(m[k]) else None
  }
}
