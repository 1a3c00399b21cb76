/** Values, outcomes and errors shared by the whole model. */
module Values {

  datatype Option<+T> = None | Some(value: T)

  /** The exceptions the modelled code raises (or lets escape). */
  datatype Error =
    | InvalidPrefix                    // ValueError('invalid API prefix')
    | PrefixIndex                      // IndexError from prefix[0] or prefix[-1] on an empty string
    | ChoicesNotIterable               // TypeError from `[x for x in val]` on a `choices` that is not iterable
    | RouteClash                       // setdefault or item assignment on the string 'CRUD'
    | UnboundRelation                  // UnboundLocalError: process_relationship found no forward relation at all
    | DuplicateEndpoint(name: string)  // Exception('need to add a name to viewset: <name>')
    | DuplicateModelName(name: string) // TypeError('duplicate model name found: "<name>"')

  /** A value or the exception that aborted the computation; usable with `:-`. */
  datatype Result<+T> = Ok(value: T) | Err(error: Error) {
    predicate IsFailure() { Err? }
    function PropagateFailure<U>(): Result<U>
      requires Err?
    {
      Err(error)
    }
    function Extract(): T
      requires Ok?
    {
      value
    }
  }

  /** The Python values the field attributes and option bags hold. */
  datatype Value =
    | VNone
    | VBool(b: bool)
    | VInt(i: int)
    | VStr(s: string)
    | VList(items: seq<Value>)
    | VTuple(items: seq<Value>)   // a tuple, or any other ordered non-list iterable such as a Choices object
    | VNotProvided                // django.db.models.fields.NOT_PROVIDED
    | VEmpty                      // rest_framework.fields.empty
    | VObject(id: nat)            // any other object (a callable, a lazy string, ...), equal only to itself

  /** An option bag: the JSON object describing one field. */
  type Bag = map<string, Value>

  function BoolToInt(b: bool): int { if b then 1 else 0 }

  /** Python's `==` on these values: `True == 1` and `False == 0`, sequences
      compare element by element, a list never equals a tuple. */
  function PyEq(a: Value, b: Value): bool
  {
    match a
    case VBool(x) =>
      (b.VBool? && b.b == x) || (b.VInt? && b.i == BoolToInt(x))
    case VInt(i) =>
      (b.VInt? && b.i == i) || (b.VBool? && BoolToInt(b.b) == i)
    case VList(xs) =>
      b.VList? && |xs| == |b.items| && forall k | 0 <= k < |xs| :: PyEq(xs[k], b.items[k])
    case VTuple(xs) =>
      b.VTuple? && |xs| == |b.items| && forall k | 0 <= k < |xs| :: PyEq(xs[k], b.items[k])
    case _ => a == b
  }

  /** Python truthiness of an optional string (None and '' are false). */
  predicate Truthy(s: Option<string>) { s.Some? && s.value != "" }
}
