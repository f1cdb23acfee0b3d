/**
 * The JavaScript values the relay handles: what a request's parameters hold,
 * what the templates and the mail transport receive, and JavaScript's notion
 * of a "truthy" value, which decides fake mode, uploads and redirects.
 */
module Values {

  datatype Option<T> = None | Some(value: T)

  datatype Result<T, E> = Ok(value: T) | Err(error: E)

  /**
   * A JavaScript value. Objects are maps from property names to values;
   * `Stream` is a readable file stream, known only by the order in which it
   * was opened and the path it reads.
   */
  datatype Value =
    | Undefined
    | Null
    | Bool(b: bool)
    | Num(n: int)
    | Str(s: string)
    | List(items: seq<Value>)
    | Obj(props: map<string, Value>)
    | Stream(id: nat, path: string)

  /** JavaScript truthiness: `undefined`, `null`, `false`, `0` and `""` are falsy. */
  predicate Truthy(v: Value) {
    match v
    case Undefined => false
    case Null => false
    case Bool(b) => b
    case Num(n) => n != 0
    case Str(s) => s != ""
    case _ => true
  }

  /** lodash `get(obj, key)` for a one-segment key on an unordered object. */
  function Get(m: map<string, Value>, k: string): Value {
    if k in m then m[k] else Undefined
  }

  /** One own property of an ordered object. */
  datatype Prop = Prop(key: string, value: Value)

  predicate DistinctKeys(ps: seq<Prop>) {
    forall i, j :: 0 <= i < j < |ps| ==> ps[i].key != ps[j].key
  }

  predicate Has(ps: seq<Prop>, k: string) {
    exists i :: 0 <= i < |ps| && ps[i].key == k
  }

  /** A request's `params`: an object's own properties in iteration order. */
  type Params = ps: seq<Prop> | DistinctKeys(ps) witness []

  /** The value of property `k`, if the object has one. */
  function Find(ps: seq<Prop>, k: string): (r: Option<Value>)
    ensures r.Some? <==> Has(ps, k)
  {
    if ps == [] then None
    else if ps[0].key == k then Some(ps[0].value)
    else
      var r := Find(ps[1..], k);
      assert forall i :: 0 < i < |ps| ==> ps[i] == ps[1..][i - 1];
      r
  }

  /** lodash `get(params, k)`: the property's value, `undefined` when absent. */
  function Param(ps: seq<Prop>, k: string): Value {
    match Find(ps, k)
    case Some(v) => v
    case None => Undefined
  }

  /** In an object with distinct keys, a property's value is the one stored under it. */
  lemma {:induction false} FindAt(ps: seq<Prop>, i: nat)
    requires DistinctKeys(ps) && i < |ps|
    ensures Find(ps, ps[i].key) == Some(ps[i].value)
  {
    if i > 0 {
      FindAt(ps[1..], i - 1);
    }
  }
}
