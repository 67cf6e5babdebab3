/** What `refactor` and `processRemoveParams` promise, for every behaviour of
    the usage analysis, the promotion test, the resolver and the remover. */
module RemoveUnusedConstructorParamProperties {
  import opened Wrappers
  import opened PhpAst
  import opened Collaborators
  import opened KeyLists
  import opened RemoveUnusedConstructorParam

  // ---------------------------------------------------------------------------
  // The vetoes of `refactor`: each one on its own means "no change".
  // ---------------------------------------------------------------------------

  /** A class without a `__construct` method is left alone. */
  lemma NoConstructorMeansNoChange(cls: Class, c: Services)
    requires forall i | 0 <= i < |cls.stmts| :: !IsMethodNamed(cls.stmts[i], CONSTRUCT)
    ensures AdmitConstructor(cls, c).None?
    ensures Refactor(cls, c).None?
  {
  }

  /** A constructor without parameters is left alone. */
  lemma NoParamsMeansNoChange(cls: Class, c: Services, ctor: ClassMethod)
    requires GetMethod(cls, CONSTRUCT) == Some(ctor)
    requires ctor.params == []
    ensures AdmitConstructor(cls, c).None?
    ensures Refactor(cls, c).None?
  {
  }

  /** One promoted parameter vetoes the whole constructor, whatever the usage. */
  lemma PromotedParamMeansNoChange(cls: Class, c: Services, ctor: ClassMethod, i: nat)
    requires GetMethod(cls, CONSTRUCT) == Some(ctor)
    requires i < |ctor.params| && c.isPromoted(ctor, i)
    ensures AdmitConstructor(cls, c).None?
    ensures Refactor(cls, c).None?
  {
  }

  /** An abstract constructor is left alone, whatever the usage. */
  lemma AbstractConstructorMeansNoChange(cls: Class, c: Services, ctor: ClassMethod)
    requires GetMethod(cls, CONSTRUCT) == Some(ctor)
    requires ctor.isAbstract
    ensures AdmitConstructor(cls, c).None?
    ensures Refactor(cls, c).None?
  {
  }

  /** A class the resolver cannot reflect is left alone (fail-closed). */
  lemma UnresolvedClassMeansNoChange(cls: Class, c: Services)
    requires c.resolveClassReflection(cls).None?
    ensures AdmitConstructor(cls, c).None?
    ensures Refactor(cls, c).None?
  {
  }

  /** An implemented interface that natively declares `__construct` vetoes the
      change, even when no parameter is used at all. */
  lemma InterfaceConstructMeansNoChange(cls: Class, c: Services, reflection: ClassReflection, i: nat)
    requires c.resolveClassReflection(cls) == Some(reflection)
    requires i < |reflection.interfaces| && reflection.interfaces[i].hasNativeConstruct
    ensures AdmitConstructor(cls, c).None?
    ensures Refactor(cls, c).None?
  {
  }

  /** The gate admits exactly the constructor that passes every check; the
      order of the checks does not matter for the outcome. */
  lemma AdmitConstructorIff(cls: Class, c: Services, ctor: ClassMethod)
    ensures AdmitConstructor(cls, c) == Some(ctor) <==>
      && GetMethod(cls, CONSTRUCT) == Some(ctor)
      && |ctor.params| > 0
      && (forall i | 0 <= i < |ctor.params| :: !c.isPromoted(ctor, i))
      && !ctor.isAbstract
      && c.resolveClassReflection(cls).Some?
      && (forall i | 0 <= i < |c.resolveClassReflection(cls).value.interfaces| ::
            !c.resolveClassReflection(cls).value.interfaces[i].hasNativeConstruct)
  {
  }

  // ---------------------------------------------------------------------------
  // The candidate keys of `processRemoveParams`.
  // ---------------------------------------------------------------------------

  /** The candidates are exactly the unused positions, strictly increasing,
      and no used parameter's key is among them. */
  lemma CandidateKeysExact(m: ClassMethod, c: Services)
    ensures forall k: nat :: k in ParamKeysToBeRemoved(m, c) <==> k < |m.params| && !c.isParamUsed(m, k)
    ensures StrictlyIncreasing(ParamKeysToBeRemoved(m, c))
    ensures forall j | 0 <= j < |ParamKeysToBeRemoved(m, c)| ::
      && ParamKeysToBeRemoved(m, c)[j] < |m.params|
      && !c.isParamUsed(m, ParamKeysToBeRemoved(m, c)[j])
  {
    var keys := ParamKeysToBeRemoved(m, c);
    assert forall j | 0 <= j < |keys| :: keys[j] in keys;
  }

  /** The candidate list is the only strictly increasing list of the unused
      positions. */
  lemma CandidateKeysCanonical(m: ClassMethod, c: Services, keys: seq<nat>)
    requires StrictlyIncreasing(keys)
    requires forall k: nat :: k in keys <==> k < |m.params| && !c.isParamUsed(m, k)
    ensures keys == ParamKeysToBeRemoved(m, c)
  {
    StrictlyIncreasingUnique(keys, ParamKeysToBeRemoved(m, c));
  }

  /** There are no candidates exactly when every parameter is used. */
  lemma NoCandidatesIffAllUsed(m: ClassMethod, c: Services)
    ensures ParamKeysToBeRemoved(m, c) == [] <==>
      forall k: nat | k < |m.params| :: c.isParamUsed(m, k)
  {
    var keys := ParamKeysToBeRemoved(m, c);
    if keys != [] {
      assert keys[0] in keys;
    }
  }

  // ---------------------------------------------------------------------------
  // How `processRemoveParams` reads the remover's answer.
  // ---------------------------------------------------------------------------

  /** When every parameter is used the remover is never called and nothing changes. */
  lemma AllUsedMeansRemoverNotCalled(m: ClassMethod, c: Services)
    requires forall k: nat | k < |m.params| :: c.isParamUsed(m, k)
    ensures RemovalRequest(m, c).None?
    ensures ProcessRemoveParams(m, c).None?
  {
    NoCandidatesIffAllUsed(m, c);
  }

  /** When the remover is called, it is called with the candidate keys. */
  lemma RemoverCalledWithCandidates(m: ClassMethod, c: Services, k: nat)
    requires k < |m.params| && !c.isParamUsed(m, k)
    ensures RemovalRequest(m, c) == Some(ParamKeysToBeRemoved(m, c))
    ensures k in RemovalRequest(m, c).value
  {
    NoCandidatesIffAllUsed(m, c);
  }

  /** `processRemoveParams` reports a change iff there were candidates and the
      remover reported a non-empty list of removed keys; the method it returns
      is the one it was given. An empty answer to a non-empty request is "no change". */
  lemma ProcessRemoveParamsChangedIff(m: ClassMethod, c: Services)
    ensures ProcessRemoveParams(m, c).Some? <==>
      && ParamKeysToBeRemoved(m, c) != []
      && c.removeParamsWithKeys(m, ParamKeysToBeRemoved(m, c)) != []
    ensures ProcessRemoveParams(m, c).Some? ==> ProcessRemoveParams(m, c).value == m
  {
  }

  // ---------------------------------------------------------------------------
  // The final result of `refactor`.
  // ---------------------------------------------------------------------------

  /** `refactor` reports a change iff every check passed and the remover removed
      something; what it returns then is the input class node itself. */
  lemma RefactorChangedIff(cls: Class, c: Services)
    ensures Refactor(cls, c).Some? <==>
      exists ctor: ClassMethod ::
        && AdmitConstructor(cls, c) == Some(ctor)
        && ParamKeysToBeRemoved(ctor, c) != []
        && c.removeParamsWithKeys(ctor, ParamKeysToBeRemoved(ctor, c)) != []
    ensures Refactor(cls, c).Some? ==> Refactor(cls, c) == Some(cls)
  {
    if AdmitConstructor(cls, c).Some? {
      var ctor := AdmitConstructor(cls, c).value;
      ProcessRemoveParamsChangedIff(ctor, c);
    }
  }

  /** `refactor` end to end, over the source's own conditions only: the class
      changes exactly when it has a `__construct` passing every check, some
      parameter is unused, and the remover's answer to the candidate keys is
      non-empty. */
  lemma RefactorEndToEnd(cls: Class, c: Services)
    ensures Refactor(cls, c).Some? <==>
      exists ctor: ClassMethod ::
        && GetMethod(cls, CONSTRUCT) == Some(ctor)
        && |ctor.params| > 0
        && (forall i | 0 <= i < |ctor.params| :: !c.isPromoted(ctor, i))
        && !ctor.isAbstract
        && c.resolveClassReflection(cls).Some?
        && (forall i | 0 <= i < |c.resolveClassReflection(cls).value.interfaces| ::
              !c.resolveClassReflection(cls).value.interfaces[i].hasNativeConstruct)
        && (exists k: nat | k < |ctor.params| :: !c.isParamUsed(ctor, k))
        && c.removeParamsWithKeys(ctor, ParamKeysToBeRemoved(ctor, c)) != []
    ensures Refactor(cls, c).Some? ==> Refactor(cls, c) == Some(cls)
  {
    RefactorChangedIff(cls, c);
    match GetMethod(cls, CONSTRUCT)
    case None =>
    case Some(ctor) =>
      AdmitConstructorIff(cls, c, ctor);
      NoCandidatesIffAllUsed(ctor, c);
  }
}
