/** The dynamically typed value the JSON parser hands to the peer (a QVariant),
    together with the JSON-RPC 2.0 shape checks the peer and the response
    handler apply to it. */
module Json {

  /** Qt's `int`, `uint`, `qlonglong` and `qulonglong`. */
  newtype int32 = x: int | -0x8000_0000 <= x < 0x8000_0000
  newtype uint32 = x: int | 0 <= x < 0x1_0000_0000
  newtype int64 = x: int | -0x8000_0000_0000_0000 <= x < 0x8000_0000_0000_0000
  newtype uint64 = x: int | 0 <= x < 0x1_0000_0000_0000_0000

  datatype Option<+T> = None | Some(value: T)

  /** A QVariant as produced by the JSON parser. `Null` is the invalid
      (null) QVariant; each numeric QVariant type keeps its own tag,
      `uint` included, which the id and error-code checks refuse. Doubles
      are kept as an opaque bit pattern: nothing here computes with them.
      `Other` stands for every remaining QVariant type (a char, a byte
      array, a string list, a hash, ...), identified only by its type
      number; no check of the peer accepts one. */
  datatype Value =
    | Null
    | Bool(b: bool)
    | Int(i: int32)
    | UInt(ui: uint32)
    | LongLong(l: int64)
    | ULongLong(u: uint64)
    | Double(bits: int)
    | String(s: string)
    | List(items: seq<Value>)
    | Map(fields: map<string, Value>)
    | Other(typeId: int)

  /** QVariantMap::value: the stored value, or a null QVariant for a missing key. */
  function Get(m: map<string, Value>, key: string): Value
  {
    if key in m then m[key] else Null
  }

  /** Two's-complement truncation of an integer to 32 bits, as `int(x)` does
      for a `qlonglong` or `qulonglong` in C++. */
  function Wrap32(x: int): (r: int32)
    ensures (r as int - x) % 0x1_0000_0000 == 0
    ensures -0x8000_0000 <= x < 0x8000_0000 ==> r as int == x
  {
    var m := x % 0x1_0000_0000;
    if m < 0x8000_0000 then m as int32 else (m - 0x1_0000_0000) as int32
  }

  /** The integer types the peer checks for: `int`, `qlonglong` and
      `qulonglong`, but not `uint`. */
  predicate IsInteger(v: Value)
  {
    v.Int? || v.LongLong? || v.ULongLong?
  }

  /** QVariant::toInt on one of the three integer types: the value itself
      when it fits in an `int`, and otherwise the value truncated to its low
      32 bits. */
  function ToInt(v: Value): (r: int32)
    requires IsInteger(v)
    ensures v.Int? ==> r == v.i
    ensures v.LongLong? ==> (r as int - v.l as int) % 0x1_0000_0000 == 0
    ensures v.ULongLong? ==> (r as int - v.u as int) % 0x1_0000_0000 == 0
    ensures v.LongLong? && -0x8000_0000 <= v.l < 0x8000_0000 ==> r as int == v.l as int
    ensures v.ULongLong? && v.u < 0x8000_0000 ==> r as int == v.u as int
  {
    match v
    case Int(i) => i
    case LongLong(l) => Wrap32(l as int)
    case ULongLong(u) => Wrap32(u as int)
  }

  /** The `rpc.` prefix that JSON-RPC 2.0 (section 4) reserves for
      rpc-internal methods; QString::startsWith("rpc."). */
  predicate IsReservedName(name: string)
  {
    "rpc." <= name
  }

  /** The QVariant types the source accepts as `params`: a list, a map, or
      a null QVariant. Section 4.2 of JSON-RPC 2.0 allows only an Array or
      an Object; the null value is accepted as well and stands for "no
      params". */
  predicate IsParamsShape(v: Value)
  {
    match v
    case List(_) => true
    case Map(_) => true
    case Null => true
    case _ => false
  }

  /** The QVariant types the source accepts as `id`: a string, an `int`,
      a `qlonglong`, a `qulonglong`, a double, or a null QVariant. A `uint`
      is refused, although JSON-RPC 2.0 (section 4) allows any Number. */
  predicate IsIdShape(v: Value)
  {
    match v
    case String(_) => true
    case Int(_) => true
    case LongLong(_) => true
    case ULongLong(_) => true
    case Double(_) => true
    case Null => true
    case _ => false
  }
}
