/** The `octoprint config` commands: `set`, `remove`, `append_value`,
    `insert_value`, `remove_value` and the read of `get`, each as a method
    on the settings store, plus the write helper they share.

    A command ends either normally or by exiting with a code (`ctx.exit`
    raises, so nothing after it runs). A `--json` argument arrives already
    decoded, as the outcome of decoding the raw text.
 */
module ConfigCommands {
  import opened Wrappers
  import opened Values
  import opened SettingsPath
  import opened ListEdit
  import opened SettingsStore

  /** How a command ended: normally, through `ctx.exit(code)`, or by an
      exception nothing catches. */
  datatype Outcome = Completed | Exited(code: int) | Raised(exception: string)

  /** The range of `Py_ssize_t` on a 64-bit build: `list.insert` converts
      its index to it and raises `OverflowError` outside it. */
  const SsizeMin: int := -0x8000_0000_0000_0000
  const SsizeMax: int := 0x7fff_ffff_ffff_ffff

  predicate FitsSsize(n: int)
  {
    SsizeMin <= n <= SsizeMax
  }

  /** The coercion the `--bool`, `--float` and `--int` flags select: the
      first flag given in that order wins, and no flag means none. */
  function DataTypeFor(asBool: bool, asFloat: bool, asInt: bool): (kind: Option<Coercion>)
    ensures kind == Some(AsBool) <==> asBool
    ensures kind == Some(AsFloat) <==> !asBool && asFloat
    ensures kind == Some(AsInt) <==> !asBool && !asFloat && asInt
    ensures kind == None <==> !asBool && !asFloat && !asInt
  {
    if asBool then Some(AsBool)
    else if asFloat then Some(AsFloat)
    else if asInt then Some(AsInt)
    else None
  }

  /** The setter the write helper calls for a coercion kind: the typed
      setter of that kind, or the generic `set` for none. Either way it
      carries the path and the value unchanged. */
  function SetterCall(kind: Option<Coercion>, p: Path, v: Value): (call: Call)
    ensures !call.SaveCall? && call.path == p && call.value == v
    ensures call.SetCall? <==> kind.None?
    ensures call.SetBooleanCall? <==> kind == Some(AsBool)
    ensures call.SetFloatCall? <==> kind == Some(AsFloat)
    ensures call.SetIntCall? <==> kind == Some(AsInt)
  {
    match kind
    case None => SetCall(p, v)
    case Some(AsBool) => SetBooleanCall(p, v)
    case Some(AsFloat) => SetFloatCall(p, v)
    case Some(AsInt) => SetIntCall(p, v)
  }

  /** The value argument of a command: the raw text, or with `--json` what
      decoding it gave. */
  function Argument(raw: string, asJson: bool, decoded: Result<Value>): (arg: Result<Value>)
    ensures !asJson ==> arg == Success(Str(raw))
    ensures asJson ==> arg == decoded
  {
    if asJson then decoded else Success(Str(raw))
  }

  /** The list a list command edits: `None` counts as the empty list, and
      any other non-list value has no list to edit. */
  function ListOf(current: Value): (xs: Option<seq<Value>>)
    ensures xs.None? <==> !current.Null? && !current.List?
    ensures current.List? ==> xs == Some(current.items)
    ensures current.Null? ==> xs == Some([])
  {
    match current
    case Null => Some([])
    case List(items) => Some(items)
    case _ => None
  }

  /** `_set_helper`: normalises the path, makes exactly one setter call,
      chosen by the coercion kind, then saves. */
  method SetHelper(store: Store, path: PathArg, value: Value, kind: Option<Coercion>)
    requires store.Valid()
    modifies store
    ensures store.Valid()
    ensures store.trace == old(store.trace) + [SetterCall(kind, ToSettingsPath(path), value), SaveCall]
    ensures store.data == Effect(store.convert, old(store.data), SetterCall(kind, ToSettingsPath(path), value))
    ensures store.persisted == store.data
  {
    var p := ToSettingsPath(path);
    CallSetter(store, kind, p, value);
    store.Save();
  }

  /** The setter dispatch of `_set_helper`. */
  method CallSetter(store: Store, kind: Option<Coercion>, p: Path, value: Value)
    requires store.Valid()
    modifies store
    ensures store.Valid()
    ensures store.trace == old(store.trace) + [SetterCall(kind, p, value)]
    ensures store.data == Effect(store.convert, old(store.data), SetterCall(kind, p, value))
    ensures store.persisted == old(store.persisted)
  {
    match kind {
      case None => store.Set(p, value);
      case Some(AsBool) => store.SetBoolean(p, value);
      case Some(AsFloat) => store.SetFloat(p, value);
      case Some(AsInt) => store.SetInt(p, value);
    }
  }

  /** `config set`: a `--json` value that fails to decode exits with -1 and
      leaves the store alone; otherwise the value is written at the path
      through the setter the flags select, and saved. */
  method SetCommand(store: Store, path: string, raw: string,
                    asBool: bool, asFloat: bool, asInt: bool, asJson: bool,
                    decoded: Result<Value>) returns (outcome: Outcome)
    requires store.Valid()
    modifies store
    ensures store.Valid()
    ensures Argument(raw, asJson, decoded).Failure? ==>
              outcome == Exited(-1) && unchanged(store)
    ensures Argument(raw, asJson, decoded).Success? ==>
              var call := SetterCall(DataTypeFor(asBool, asFloat, asInt),
                                     ToSettingsPath(Dotted(path)),
                                     Argument(raw, asJson, decoded).value);
              && outcome == Completed
              && store.trace == old(store.trace) + [call, SaveCall]
              && store.data == Effect(store.convert, old(store.data), call)
              && store.persisted == store.data
  {
    var arg := Argument(raw, asJson, decoded);
    if arg.Failure? {
      return Exited(-1);
    }
    SetHelper(store, Dotted(path), arg.value, DataTypeFor(asBool, asFloat, asInt));
    outcome := Completed;
  }

  /** `config set` without a type flag stores the value as given, the raw
      text or, with `--json`, what it decoded to: reading the path back gives
      that value (a decoded `null` unsets the path), and nothing else
      changes. A failed decode changes nothing. */
  method SetThenGet(store: Store, path: string, raw: string, asJson: bool, decoded: Result<Value>)
    requires store.Valid()
    modifies store
    ensures store.Valid()
    ensures Argument(raw, asJson, decoded).Failure? ==> unchanged(store)
    ensures Argument(raw, asJson, decoded).Success? ==>
              Lookup(store.data, ToSettingsPath(Dotted(path))) == Argument(raw, asJson, decoded).value
    ensures forall q :: q != ToSettingsPath(Dotted(path)) ==>
              Lookup(store.data, q) == Lookup(old(store.data), q)
    ensures !asJson ==> Lookup(store.data, ToSettingsPath(Dotted(path))) == Str(raw)
    ensures asJson && decoded == Success(Null) ==> ToSettingsPath(Dotted(path)) !in store.data
  {
    var outcome := SetCommand(store, path, raw, false, false, false, asJson, decoded);
    var arg := Argument(raw, asJson, decoded);
    if arg.Success? {
      var p := ToSettingsPath(Dotted(path));
      forall q {
        LookupAssign(old(store.data), p, arg.value, q);
      }
    }
  }

  /** `config remove`: the generic setter with `None`, which unsets the
      path, then a save. */
  method RemoveCommand(store: Store, path: string)
    requires store.Valid()
    modifies store
    ensures store.Valid()
    ensures store.trace == old(store.trace) + [SetCall(ToSettingsPath(Dotted(path)), Null), SaveCall]
    ensures store.data == old(store.data) - {ToSettingsPath(Dotted(path))}
    ensures ToSettingsPath(Dotted(path)) !in store.data
    ensures store.persisted == store.data
  {
    SetHelper(store, Dotted(path), Null, None);
  }

  /** `config append_value`: adds the value at the end of the list at the
      path. A value that fails to decode, or a non-list at the path, exits
      with -1 and leaves the store alone. */
  method AppendValueCommand(store: Store, path: string, raw: string,
                            asJson: bool, decoded: Result<Value>) returns (outcome: Outcome)
    requires store.Valid()
    modifies store
    ensures store.Valid()
    ensures var p := ToSettingsPath(Dotted(path));
            var arg := Argument(raw, asJson, decoded);
            var current := ListOf(Lookup(old(store.data), p));
            if arg.Failure? || current.None? then
              outcome == Exited(-1) && unchanged(store)
            else
              && outcome == Completed
              && store.trace == old(store.trace) + [SetCall(p, List(current.value + [arg.value])), SaveCall]
              && store.data == old(store.data)[p := List(current.value + [arg.value])]
              && store.persisted == store.data
  {
    var p := ToSettingsPath(Dotted(path));
    var arg := Argument(raw, asJson, decoded);
    if arg.Failure? {
      return Exited(-1);
    }
    var value := arg.value;
    var current := store.Get(p);
    if current.Null? {
      current := List([]);
    }
    if !current.List? {
      return Exited(-1);
    }
    var items := current.items + [value];
    SetHelper(store, Segments(p), List(items), None);
    outcome := Completed;
  }

  /** `config insert_value`: puts the value into the list at the path where
      `list.insert(index, value)` would. Same error exits as append; an
      index outside `Py_ssize_t` makes `list.insert` raise `OverflowError`
      before anything is written. */
  method InsertValueCommand(store: Store, path: string, index: int, raw: string,
                            asJson: bool, decoded: Result<Value>) returns (outcome: Outcome)
    requires store.Valid()
    modifies store
    ensures store.Valid()
    ensures var p := ToSettingsPath(Dotted(path));
            var arg := Argument(raw, asJson, decoded);
            var current := ListOf(Lookup(old(store.data), p));
            if arg.Failure? || current.None? then
              outcome == Exited(-1) && unchanged(store)
            else if !FitsSsize(index) then
              outcome == Raised("OverflowError") && unchanged(store)
            else
              && outcome == Completed
              && store.trace == old(store.trace) + [SetCall(p, List(Insert(current.value, index, arg.value))), SaveCall]
              && store.data == old(store.data)[p := List(Insert(current.value, index, arg.value))]
              && store.persisted == store.data
  {
    var p := ToSettingsPath(Dotted(path));
    var arg := Argument(raw, asJson, decoded);
    if arg.Failure? {
      return Exited(-1);
    }
    var value := arg.value;
    var current := store.Get(p);
    if current.Null? {
      current := List([]);
    }
    if !current.List? {
      return Exited(-1);
    }
    if !FitsSsize(index) {
      return Raised("OverflowError");
    }
    var items := Insert(current.items, index, value);
    SetHelper(store, Segments(p), List(items), None);
    outcome := Completed;
  }

  /** `config remove_value`: takes the first element equal to the value out
      of the list at the path. A value not in the list exits with 0 and
      leaves the store alone; decoding failure and a non-list exit with -1
      as for append. */
  method RemoveValueCommand(store: Store, path: string, raw: string,
                            asJson: bool, decoded: Result<Value>) returns (outcome: Outcome)
    requires store.Valid()
    modifies store
    ensures store.Valid()
    ensures var p := ToSettingsPath(Dotted(path));
            var arg := Argument(raw, asJson, decoded);
            var current := ListOf(Lookup(old(store.data), p));
            if arg.Failure? || current.None? then
              outcome == Exited(-1) && unchanged(store)
            else if !In(arg.value, current.value) then
              outcome == Exited(0) && unchanged(store)
            else
              && Remove(current.value, arg.value).Some?
              && var rest := Remove(current.value, arg.value).value;
                 && outcome == Completed
                 && store.trace == old(store.trace) + [SetCall(p, List(rest)), SaveCall]
                 && store.data == old(store.data)[p := List(rest)]
                 && store.persisted == store.data
  {
    var p := ToSettingsPath(Dotted(path));
    var arg := Argument(raw, asJson, decoded);
    if arg.Failure? {
      return Exited(-1);
    }
    var value := arg.value;
    var current := store.Get(p);
    if current.Null? {
      current := List([]);
    }
    if !current.List? {
      return Exited(-1);
    }
    if !In(value, current.items) {
      return Exited(0);
    }
    InContains(value, current.items);
    var rest := Remove(current.items, value).value;
    SetHelper(store, Segments(p), List(rest), None);
    outcome := Completed;
  }

  /** The read of `config get`: the value at the normalised path, with the
      store left alone. */
  method GetCommand(store: Store, path: string) returns (value: Value)
    ensures value == Lookup(store.data, ToSettingsPath(Dotted(path)))
  {
    value := store.Get(ToSettingsPath(Dotted(path)));
  }
}
