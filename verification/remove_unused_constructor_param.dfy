/** The rewrite rule that drops constructor parameters the constructor never
    reads: the admission gate of `refactor` and the key selection of
    `processRemoveParams`. */
module RemoveUnusedConstructorParam {
  import opened Wrappers
  import opened PhpAst
  import opened Collaborators
  import opened KeyLists

  /** The loop over the interfaces of the resolved class: does any of them
      natively declare `__construct`? */
  function AnyInterfaceDeclaresConstruct(interfaces: seq<InterfaceReflection>): (r: bool)
    ensures r <==> exists i | 0 <= i < |interfaces| :: interfaces[i].hasNativeConstruct
  {
    if |interfaces| == 0 then false
    else if interfaces[0].hasNativeConstruct then true
    else
      var rest := AnyInterfaceDeclaresConstruct(interfaces[1..]);
      assert forall i | 1 <= i < |interfaces| :: interfaces[i] == interfaces[1..][i - 1];
      rest
  }

  /** The veto chain of `refactor`: the constructor to process, or `None` when
      any check says the class must be left alone. */
  function AdmitConstructor(cls: Class, c: Services): (r: Option<ClassMethod>)
    ensures r.Some? ==> GetMethod(cls, CONSTRUCT) == r
    ensures r.Some? <==>
      && GetMethod(cls, CONSTRUCT).Some?
      && |GetMethod(cls, CONSTRUCT).value.params| > 0
      && (forall i | 0 <= i < |GetMethod(cls, CONSTRUCT).value.params| ::
            !c.isPromoted(GetMethod(cls, CONSTRUCT).value, i))
      && !GetMethod(cls, CONSTRUCT).value.isAbstract
      && c.resolveClassReflection(cls).Some?
      && (forall i | 0 <= i < |c.resolveClassReflection(cls).value.interfaces| ::
            !c.resolveClassReflection(cls).value.interfaces[i].hasNativeConstruct)
  {
    match GetMethod(cls, CONSTRUCT)
    case None => None
    case Some(ctor) =>
      if ctor.params == [] then None
      else if HasPropertyPromotion(ctor, c) then None
      else if ctor.isAbstract then None
      else
        match c.resolveClassReflection(cls)
        case None => None
        case Some(reflection) =>
          if AnyInterfaceDeclaresConstruct(reflection.interfaces) then None
          else Some(ctor)
  }

  /** The unused keys among the first `n` parameters, in the order the
      `foreach` of `processRemoveParams` appends them. */
  function UnusedKeysUpTo(m: ClassMethod, c: Services, n: nat): (keys: seq<nat>)
    requires n <= |m.params|
    ensures forall k: nat :: k in keys <==> k < n && !c.isParamUsed(m, k)
    ensures StrictlyIncreasing(keys)
  {
    if n == 0 then []
    else
      var earlier := UnusedKeysUpTo(m, c, n - 1);
      assert forall i | 0 <= i < |earlier| :: earlier[i] in earlier;
      if c.isParamUsed(m, n - 1) then earlier else earlier + [n - 1]
  }

  /** `$paramKeysToBeRemoved` once the loop over all parameters is done. */
  function ParamKeysToBeRemoved(m: ClassMethod, c: Services): seq<nat>
  {
    UnusedKeysUpTo(m, c, |m.params|)
  }

  /** The loop of `processRemoveParams` that collects the keys of the
      parameters the usage analysis reports as unused. */
  method CollectParamKeysToBeRemoved(m: ClassMethod, c: Services) returns (keys: seq<nat>)
    ensures keys == ParamKeysToBeRemoved(m, c)
    ensures forall k: nat :: k in keys <==> k < |m.params| && !c.isParamUsed(m, k)
    ensures StrictlyIncreasing(keys)
  {
    keys := [];
    var key := 0;
    while key < |m.params|
      invariant key <= |m.params|
      invariant keys == UnusedKeysUpTo(m, c, key)
    {
      if !c.isParamUsed(m, key) {
        keys := keys + [key];
      }
      key := key + 1;
    }
  }

  /** The argument the remover is called with, or `None` when
      `processRemoveParams` returns before calling it. */
  function RemovalRequest(m: ClassMethod, c: Services): Option<seq<nat>>
  {
    var keys := ParamKeysToBeRemoved(m, c);
    if keys == [] then None else Some(keys)
  }

  /** `processRemoveParams`: the method when the remover reports some removed
      key, `None` otherwise. */
  function ProcessRemoveParams(m: ClassMethod, c: Services): (r: Option<ClassMethod>)
    ensures r.Some? <==>
      && (exists k: nat | k < |m.params| :: !c.isParamUsed(m, k))
      && c.removeParamsWithKeys(m, ParamKeysToBeRemoved(m, c)) != []
    ensures r.Some? ==> r.value == m
  {
    var keys := ParamKeysToBeRemoved(m, c);
    assert keys != [] ==> keys[0] in keys;
    match RemovalRequest(m, c)
    case None => None
    case Some(keys) =>
      if c.removeParamsWithKeys(m, keys) != [] then Some(m) else None
  }

  /** `refactor`: the class node itself when it changed, `None` for "no change". */
  function Refactor(cls: Class, c: Services): (r: Option<Class>)
    ensures r.Some? ==> r.value == cls
  {
    match AdmitConstructor(cls, c)
    case None => None
    case Some(ctor) =>
      if ProcessRemoveParams(ctor, c).Some? then Some(cls) else None
  }
}
