/**
 * The Python values the message layer moves around, the exceptions it raises,
 * and the two pieces of Python slicing it relies on.
 */
module PyValues {

  /** A field value. `ColumnObj` is a `Column(...)` descriptor object sitting on a class. */
  datatype Value =
    | NoneV
    | Str(s: string)
    | Int(i: int)
    | Bool(b: bool)
    | ColumnObj(default: Value)
    | Opaque(id: nat)

  /** The exceptions raised by the message layer, one constructor per raise site. */
  datatype Error =
    | ClassBodyNotFound(className: string)       // RuntimeError: class body cannot be located
    | WrapperPayloadMismatch                     // TypeError: exactly one of wrapper / payload given
    | MixedConstruction                          // TypeError: args/kwargs together with wrapper / payload
    | TooManyPositional(max: nat, got: nat)       // TypeError: more positionals than fields
    | UnexpectedKeyword(key: string)             // TypeError: keyword that is not a field
    | MissingAttribute(name: string)             // AttributeError: wrapper has no such property
    | NoHostClass(fullName: string)              // AttributeError: no generated IRIS class for package.Class
    | DecodeFailure                              // json.loads / pickle.loads rejected the blob
    | UnpackFailure(arity: nat)                  // ValueError: handler returned a sequence not of length 2

  /** Python's `s[start:end]` for non-negative bounds: both bounds are clamped to the length. */
  function Slice<T>(s: seq<T>, start: nat, end: nat): (r: seq<T>)
    ensures start < end && start < |s| ==> |r| > 0
    ensures |r| <= (if end <= start then 0 else end - start)
    ensures start >= |s| || end <= start ==> r == []
    ensures forall k :: 0 <= k < |r| ==> start + k < |s| && r[k] == s[start + k]
  {
    var hi := if end < |s| then end else |s|;
    if start >= hi then [] else s[start..hi]
  }

  /** Python's `s[n:]` for a non-negative `n`: empty when `s` is shorter than `n`. */
  function DropPrefix<T>(s: seq<T>, n: nat): (r: seq<T>)
    ensures |s| <= n ==> r == []
    ensures |s| > n ==> |r| == |s| - n && (forall k :: 0 <= k < |r| ==> r[k] == s[n + k])
  {
    if |s| <= n then [] else s[n..]
  }
}
