/** The state of one `LiteNetLibFunction`: its declared parameter types and
    the parameter slots that hold the values of the call in progress. */
module RemoteFunction {
  import opened ParameterCodec

  /** The generic subclasses `LiteNetLibFunction<T1>` to
      `LiteNetLibFunction<T1, ..., T10>` cover one to ten parameters. */
  const MaxGenericArity: nat := 10

  datatype Function = Function(parameterTypes: seq<TypeRef>, parameters: seq<Slot>) {
    /** The arity invariant every constructor sets up: one declared type per slot. */
    predicate WellFormed() {
      |parameterTypes| == |parameters|
    }

    function Arity(): nat {
      |parameters|
    }
  }

  /** A slot array as `new object[n]` creates it. */
  function NullSlots(n: nat): (r: seq<Slot>)
    ensures |r| == n
    ensures forall i :: 0 <= i < n ==> r[i] == Null
  {
    seq(n, _ => Null)
  }

  /** `LiteNetLibFunction()` and `LiteNetLibFunction(Delegate)`: no parameters. */
  function NewEmpty(): (f: Function)
    ensures f.WellFormed() && f.Arity() == 0
  {
    Function([], [])
  }

  /** `LiteNetLibFunction(int parameterCount)`: `n` null slots whose declared
      types are still null. */
  function NewWithCount(n: nat): (f: Function)
    ensures f.WellFormed() && f.Arity() == n
    ensures forall i :: 0 <= i < n ==> f.parameterTypes[i] == NoType && f.parameters[i] == Null
  {
    Function(seq(n, _ => NoType), NullSlots(n))
  }

  /** `LiteNetLibFunction(Type[] parameterTypes, Delegate callback)`: the
      arity is taken from the type array, which is kept as given. */
  function NewWithTypes(types: seq<TypeRef>): (f: Function)
    ensures f.WellFormed() && f.Arity() == |types|
    ensures f.parameterTypes == types
    ensures forall i :: 0 <= i < |types| ==> f.parameters[i] == Null
  {
    Function(types, NullSlots(|types|))
  }

  /** `LiteNetLibFunction<T1, ..., Tn>()` for n in 1..10: base(n), then slot i
      is declared as `typeof(Ti)`. */
  function NewGeneric(tags: seq<TypeTag>): (f: Function)
    requires 1 <= |tags| <= MaxGenericArity
    ensures f.WellFormed() && f.Arity() == |tags|
    ensures forall i :: 0 <= i < |tags| ==> f.parameterTypes[i] == TypeOf(tags[i]) && f.parameters[i] == Null
  {
    var base := NewWithCount(|tags|);
    Function(seq(|tags|, i requires 0 <= i < |tags| => TypeOf(tags[i])), base.parameters)
  }

  /** `after` is `before` with `values[i]` written into slot `i` for every
      index both have, and every other slot left alone. */
  predicate CopiesPrefix(before: seq<Slot>, values: seq<Slot>, after: seq<Slot>) {
    && |after| == |before|
    && (forall i :: 0 <= i < |after| && i < |values| ==> after[i] == values[i])
    && (forall i :: |values| <= i < |after| ==> after[i] == before[i])
  }

  /** `SetParameters`: copies `values[i]` into slot `i` for every index both
      have; slots past the supplied values keep their old contents and
      surplus values are ignored. */
  method SetParameters(f: Function, values: seq<Slot>) returns (g: Function)
    requires f.WellFormed()
    ensures g.WellFormed() && g.parameterTypes == f.parameterTypes
    ensures CopiesPrefix(f.parameters, values, g.parameters)
  {
    var slots := f.parameters;
    var i := 0;
    while i < |slots|
      invariant 0 <= i <= |slots| == |f.parameters|
      invariant forall j :: 0 <= j < i ==> j < |values| && slots[j] == values[j]
      invariant forall j :: i <= j < |slots| ==> slots[j] == f.parameters[j]
    {
      if i >= |values| {
        break;
      }
      slots := slots[i := values[i]];
      i := i + 1;
    }
    g := f.(parameters := slots);
  }
}
