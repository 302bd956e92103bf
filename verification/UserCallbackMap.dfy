/** `UserCallbackMap`: the user's callbacks by name, and the list of names that remote callers use to
    enumerate them. */
module UserCallbacks {
  import opened Prelude
  import opened Messages

  /** The identity of a user's function. What it does is not part of this model. */
  type Function = nat

  datatype Wrapper = Wrapper(function_: Function, manifest: Manifest)

  datatype Registry = Registry(callbacks: map<string, Wrapper>, names: seq<string>)

  const EMPTY := Registry(map[], [])

  /** The result of reading the registry at an index. `Undefined` is what the program does at the index
      just past the end, which its bounds test lets through: it reads past the vector. */
  datatype Access<+T> = Present(value: T) | Absent | Undefined

  function Register(r: Registry, name: string, wrapper: Wrapper): Registry {
    Registry(r.callbacks[name := wrapper], if name in r.callbacks then r.names else r.names + [name])
  }

  /** The map and the list agree. */
  ghost predicate Agree(r: Registry) {
    && (forall i, j :: 0 <= i < j < |r.names| ==> r.names[i] != r.names[j])
    && (forall name :: name in r.names <==> name in r.callbacks)
  }

  function NameAt(r: Registry, index: uint32): Access<string> {
    if index > |r.names| then Absent
    else if index == |r.names| then Undefined
    else Present(r.names[index])
  }

  function ManifestAt(r: Registry, index: uint32): Access<Manifest>
    requires Agree(r)
  {
    match NameAt(r, index)
    case Present(name) => assert name in r.names; Present(r.callbacks[name].manifest)
    case Absent => Absent
    case Undefined => Undefined
  }

  class UserCallbackMap {
    var callbacks: map<string, Wrapper>
    var names: seq<string>

    function Value(): Registry
      reads this
    {
      Registry(callbacks, names)
    }

    constructor ()
      ensures Value() == EMPTY
    {
      callbacks, names := map[], [];
    }

    method RegisterCallback(name: string, callback: Function, manifest: Manifest) returns (overwriting: bool)
      requires Agree(Value())
      modifies this
      ensures overwriting <==> name in old(callbacks)
      ensures Value() == Register(old(Value()), name, Wrapper(callback, manifest)) && Agree(Value())
    {
      overwriting := name in callbacks;
      callbacks := callbacks[name := Wrapper(callback, manifest)];
      if !overwriting {
        names := names + [name];
      }
    }

    method GetCallback(name: string) returns (callback: Option<Function>)
      ensures callback == if name in callbacks then Some(callbacks[name].function_) else None
    {
      if name in callbacks {
        return Some(callbacks[name].function_);
      }
      return None;
    }

    // The result is a `uint32_t`: the model keeps its wrap-around.
    method GetLength() returns (length: uint32)
      ensures length == |names| % UINT32_LIMIT
    {
      length := |names| % UINT32_LIMIT;
    }

    method GetManifestAt(index: uint32) returns (manifest: Access<Manifest>)
      requires Agree(Value())
      ensures manifest == ManifestAt(Value(), index)
    {
      if index > |names| {
        return Absent;
      }
      if index == |names| {
        return Undefined;
      }
      var name := names[index];
      assert name in names;
      return Present(callbacks[name].manifest);
    }

    method GetNameAt(index: uint32) returns (name: Access<string>)
      ensures name == NameAt(Value(), index)
    {
      if index > |names| {
        return Absent;
      }
      if index == |names| {
        return Undefined;
      }
      return Present(names[index]);
    }
  }

  // ---------- Sequences of registrations ----------

  datatype Registration = Registration(name: string, wrapper: Wrapper)

  function RegisterAll(r: Registry, rs: seq<Registration>): Registry {
    if rs == [] then r
    else Register(RegisterAll(r, rs[..|rs| - 1]), rs[|rs| - 1].name, rs[|rs| - 1].wrapper)
  }

  /** The names of a list of registrations, each where it first occurs. */
  function FirstOccurrences(rs: seq<Registration>): seq<string> {
    if rs == [] then []
    else
      var before := FirstOccurrences(rs[..|rs| - 1]);
      var name := rs[|rs| - 1].name;
      if name in before then before else before + [name]
  }

  /** The last wrapper registered under a name. */
  function Latest(rs: seq<Registration>, name: string): Option<Wrapper> {
    if rs == [] then None
    else if rs[|rs| - 1].name == name then Some(rs[|rs| - 1].wrapper)
    else Latest(rs[..|rs| - 1], name)
  }

  /** After any registrations: the list holds every registered name once, in the order of first
      registration, and the map holds what was registered last under it. */
  lemma {:induction false} RegistryRefinesRegistrations(rs: seq<Registration>)
    ensures
      var r := RegisterAll(EMPTY, rs);
      && Agree(r)
      && r.names == FirstOccurrences(rs)
      && (forall name :: name in r.callbacks <==> Latest(rs, name).Some?)
      && (forall name :: name in r.callbacks ==> Some(r.callbacks[name]) == Latest(rs, name))
    decreases |rs|
  {
    if rs == [] {
    } else {
      RegistryRefinesRegistrations(rs[..|rs| - 1]);
    }
  }

  /** Later registrations keep every name, at its index. */
  lemma {:induction false} NamesAreStable(r: Registry, rs: seq<Registration>)
    requires Agree(r)
    ensures Agree(RegisterAll(r, rs)) && r.names <= RegisterAll(r, rs).names
    ensures forall name <- r.callbacks :: name in RegisterAll(r, rs).callbacks
    decreases |rs|
  {
    if rs == [] {
    } else {
      NamesAreStable(r, rs[..|rs| - 1]);
    }
  }

  /** What a remote caller sees of index i. */
  predicate Describes(r: Registry, i: uint32, name: string, manifest: Manifest)
    requires Agree(r)
  {
    NameAt(r, i) == Present(name) && ManifestAt(r, i) == Present(manifest)
  }

  /** Asking for the length and then for each description below it lists every registered name exactly
      once, in order of first registration, with its latest manifest. */
  lemma EnumerationIsComplete(rs: seq<Registration>)
    requires |RegisterAll(EMPTY, rs).names| < UINT32_LIMIT
    ensures
      var r := RegisterAll(EMPTY, rs);
      && Agree(r) && |r.names| % UINT32_LIMIT == |FirstOccurrences(rs)|
      && (forall i: uint32 :: i < |r.names| ==>
           Latest(rs, FirstOccurrences(rs)[i]).Some?
           && Describes(r, i, FirstOccurrences(rs)[i], Latest(rs, FirstOccurrences(rs)[i]).value.manifest))
      && (forall name :: Latest(rs, name).Some? <==> name in FirstOccurrences(rs))
      && (forall i, j :: 0 <= i < j < |r.names| ==> FirstOccurrences(rs)[i] != FirstOccurrences(rs)[j])
  {
    RegistryRefinesRegistrations(rs);
    var r := RegisterAll(EMPTY, rs);
    forall i: uint32 | i < |r.names|
      ensures Latest(rs, r.names[i]).Some? && Describes(r, i, r.names[i], Latest(rs, r.names[i]).value.manifest)
    {
      assert r.names[i] in r.names;
    }
  }

  /** The bounds test of the two readers is off by one: reading is undefined exactly at the index equal
      to the length, and elsewhere they answer as a bounds-checked read does. */
  lemma UndefinedExactlyPastTheEnd(r: Registry, index: uint32)
    requires Agree(r)
    ensures ManifestAt(r, index).Undefined? <==> index == |r.names|
    ensures NameAt(r, index).Undefined? <==> index == |r.names|
    ensures NameAt(r, index).Present? <==> index < |r.names|
    ensures ManifestAt(r, index).Present? <==> index < |r.names|
  {
    if index < |r.names| {
      assert r.names[index] in r.names;
    }
  }

  /** With nothing registered, already the first description asked for is undefined. */
  lemma FirstDescriptionOfNothing()
    ensures Agree(EMPTY) && ManifestAt(EMPTY, 0) == Undefined
  {
  }
}
