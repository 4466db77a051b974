/** What a handler reads from a request: query-string parameters (strings) and
    values of the parsed JSON body (request.data), with Python's truthiness and the
    integer conversion the ORM applies when such a value is used as a primary key. */
module Requests {
  import opened Wrappers
  import opened Numbers
  import opened Text

  /** request.query_params, one value per key. */
  type Params = map<string, string>

  /** query_params.get(key). */
  function Param(q: Params, key: string): (r: Option<string>)
    ensures r.Some? <==> key in q
    ensures r.Some? ==> r.value == q[key]
  {
    if key in q then Some(q[key]) else None
  }

  /** query_params.get(key) used as a condition: present and not the empty string. */
  function NonEmptyParam(q: Params, key: string): (r: Option<string>)
    ensures r.Some? <==> key in q && q[key] != ""
    ensures r.Some? ==> r.value == q[key]
  {
    if key in q && q[key] != "" then Some(q[key]) else None
  }

  /** One value of request.data: a missing key, JSON null, a boolean, an integer, or
      a string. */
  datatype Datum = Absent | Null | Bool(b: bool) | Int(i: int) | Str(s: string)

  /** Python's truthiness of the value request.data.get(key) returns. */
  predicate Truthy(d: Datum) {
    match d
    case Absent => false
    case Null => false
    case Bool(b) => b
    case Int(i) => i != 0
    case Str(s) => s != ""
  }

  /** How a value compares against an integer primary key: None matches no row, a
      value int() accepts names that integer, anything else raises ValueError. */
  datatype Key = NullKey | IntKey(key: int) | BadKey

  function KeyOf(d: Datum): (k: Key)
    ensures k.BadKey? <==> d.Str? && ParseInt(d.s).None?
  {
    match d
    case Absent => NullKey
    case Null => NullKey
    case Bool(b) => IntKey(if b then 1 else 0)
    case Int(i) => IntKey(i)
    case Str(s) =>
      match ParseInt(s)
      case Some(i) => IntKey(i)
      case None => BadKey
  }

  /** A key sent as its decimal text names the same row as the integer itself. */
  lemma {:induction false} KeyOfText(i: int)
    ensures KeyOf(Str(IntText(i))) == KeyOf(Int(i)) == IntKey(i)
  {
    ParseIntText(i);
  }

  /** An empty string names no row: int('') raises. */
  lemma {:induction false} EmptyTextIsBadKey()
    ensures KeyOf(Str("")) == BadKey
  {
    assert Strip("") == "";
  }
}
