/** The settings store the config commands write through: a map from
    settings path to value, the generic setter `set`, the typed setters
    `setBoolean`, `setFloat` and `setInt`, and `save`. The store keeps a
    record of every call made on it, so that what a command did to the store
    can be stated call by call.
 */
module SettingsStore {
  import opened Wrappers
  import opened Values

  /** A normalised settings path: the keys from the root down. */
  type Path = seq<string>

  /** The conversion a typed setter applies before storing. */
  datatype Coercion = AsBool | AsFloat | AsInt

  /** One call on the store. */
  datatype Call =
    | SetCall(path: Path, value: Value)
    | SetBooleanCall(path: Path, value: Value)
    | SetFloatCall(path: Path, value: Value)
    | SetIntCall(path: Path, value: Value)
    | SaveCall

  /** The value at `p`; a path with nothing stored reads as `None`. */
  function Lookup(data: map<Path, Value>, p: Path): Value
  {
    if p in data then data[p] else Null
  }

  /** Storing `v` at `p`. Storing `None` unsets the key instead of keeping
      an explicit null. */
  function Assign(data: map<Path, Value>, p: Path, v: Value): (r: map<Path, Value>)
    ensures v.Null? ==> p !in r
    ensures !v.Null? ==> p in r && r[p] == v
    ensures forall q :: q != p ==> (q in r <==> q in data)
    ensures forall q :: q != p && q in r ==> r[q] == data[q]
  {
    if v.Null? then data - {p} else data[p := v]
  }

  /** Reading back right after storing gives what was stored, and no other
      path changes. */
  lemma LookupAssign(data: map<Path, Value>, p: Path, v: Value, q: Path)
    ensures Lookup(Assign(data, p, v), q) == if q == p then v else Lookup(data, q)
  {
  }

  /** What one call does to the stored values. A typed setter stores the
      converted value, and stores nothing when conversion fails; `save`
      changes no value. */
  function Effect(convert: (Coercion, Value) -> Option<Value>,
                  data: map<Path, Value>, call: Call): map<Path, Value>
  {
    match call
    case SetCall(p, v) => Assign(data, p, v)
    case SetBooleanCall(p, v) => Converted(convert, data, AsBool, p, v)
    case SetFloatCall(p, v) => Converted(convert, data, AsFloat, p, v)
    case SetIntCall(p, v) => Converted(convert, data, AsInt, p, v)
    case SaveCall => data
  }

  function Converted(convert: (Coercion, Value) -> Option<Value>,
                     data: map<Path, Value>, kind: Coercion, p: Path, v: Value): map<Path, Value>
  {
    match convert(kind, v)
    case Some(c) => Assign(data, p, c)
    case None => data
  }

  /** The stored values after a sequence of calls. */
  function Replay(convert: (Coercion, Value) -> Option<Value>,
                  data: map<Path, Value>, calls: seq<Call>): map<Path, Value>
  {
    if calls == [] then data
    else Effect(convert, Replay(convert, data, calls[..|calls| - 1]), calls[|calls| - 1])
  }

  lemma ReplaySnoc(convert: (Coercion, Value) -> Option<Value>,
                   data: map<Path, Value>, calls: seq<Call>, call: Call)
    ensures Replay(convert, data, calls + [call]) == Effect(convert, Replay(convert, data, calls), call)
  {
    assert (calls + [call])[..|calls|] == calls;
  }

  /** A settings store. `data` is what a read sees, `persisted` what the
      last `save` wrote, `trace` every call made so far. */
  class Store {
    var data: map<Path, Value>
    var persisted: map<Path, Value>
    ghost var trace: seq<Call>
    ghost const initial: map<Path, Value>
    const convert: (Coercion, Value) -> Option<Value>

    /** The stored values are exactly what the recorded calls produce. */
    ghost predicate Valid()
      reads this
    {
      data == Replay(convert, initial, trace)
    }

    constructor (contents: map<Path, Value>, convert: (Coercion, Value) -> Option<Value>)
      ensures data == contents && persisted == contents && trace == []
      ensures this.convert == convert
      ensures Valid()
    {
      data := contents;
      persisted := contents;
      trace := [];
      initial := contents;
      this.convert := convert;
    }

    /** `settings.get(path)`: reads without changing anything. */
    method Get(p: Path) returns (v: Value)
      ensures v == Lookup(data, p)
    {
      v := if p in data then data[p] else Null;
    }

    method Record(call: Call)
      requires Valid()
      modifies this
      ensures data == Effect(convert, old(data), call)
      ensures trace == old(trace) + [call]
      ensures persisted == if call.SaveCall? then data else old(persisted)
      ensures Valid()
    {
      ReplaySnoc(convert, initial, trace, call);
      data := Effect(convert, data, call);
      if call.SaveCall? {
        persisted := data;
      }
      trace := trace + [call];
    }

    /** `settings.set(path, value)`: stores `value` unconverted. */
    method Set(p: Path, v: Value)
      requires Valid()
      modifies this
      ensures data == Assign(old(data), p, v)
      ensures persisted == old(persisted)
      ensures trace == old(trace) + [SetCall(p, v)]
      ensures Valid()
    {
      Record(SetCall(p, v));
    }

    /** `settings.setBoolean(path, value)`. */
    method SetBoolean(p: Path, v: Value)
      requires Valid()
      modifies this
      ensures data == Converted(convert, old(data), AsBool, p, v)
      ensures persisted == old(persisted)
      ensures trace == old(trace) + [SetBooleanCall(p, v)]
      ensures Valid()
    {
      Record(SetBooleanCall(p, v));
    }

    /** `settings.setFloat(path, value)`. */
    method SetFloat(p: Path, v: Value)
      requires Valid()
      modifies this
      ensures data == Converted(convert, old(data), AsFloat, p, v)
      ensures persisted == old(persisted)
      ensures trace == old(trace) + [SetFloatCall(p, v)]
      ensures Valid()
    {
      Record(SetFloatCall(p, v));
    }

    /** `settings.setInt(path, value)`. */
    method SetInt(p: Path, v: Value)
      requires Valid()
      modifies this
      ensures data == Converted(convert, old(data), AsInt, p, v)
      ensures persisted == old(persisted)
      ensures trace == old(trace) + [SetIntCall(p, v)]
      ensures Valid()
    {
      Record(SetIntCall(p, v));
    }

    /** `settings.save()`: persists the current values. */
    method Save()
      requires Valid()
      modifies this
      ensures data == old(data) && persisted == data
      ensures trace == old(trace) + [SaveCall]
      ensures Valid()
    {
      Record(SaveCall);
    }
  }
}
