/** The services the rule consults but does not implement. Their code is not
    part of this model: each one is an arbitrary function, and every property
    proved about the rule holds for every choice of them. */
module Collaborators {
  import opened Wrappers
  import opened PhpAst

  /** An interface the class implements, as the reflection layer reports it:
      only whether it natively declares `__construct` matters to the rule. */
  datatype InterfaceReflection = InterfaceReflection(name: string, hasNativeConstruct: bool)

  /** The resolved class (`ClassReflection`), reduced to its interfaces. */
  datatype ClassReflection = ClassReflection(interfaces: seq<InterfaceReflection>)

  /** The collaborators of the rule, one function per service it calls. */
  datatype Services = Services(
    /** `ParamAnalyzer::isParamUsedInClassMethod`, for the parameter at a key. */
    isParamUsed: (ClassMethod, nat) -> bool,
    /** Whether the parameter at a key is a promoted property (the
        per-parameter test behind `ParamAnalyzer::hasPropertyPromotion`). */
    isPromoted: (ClassMethod, nat) -> bool,
    /** `ReflectionResolver::resolveClassReflection`; `None` when unresolvable. */
    resolveClassReflection: Class -> Option<ClassReflection>,
    /** `ComplexNodeRemover::processRemoveParamWithKeys`: the keys it reports
        as removed. Nothing is assumed about them. */
    removeParamsWithKeys: (ClassMethod, seq<nat>) -> seq<nat>)

  /** `ParamAnalyzer::hasPropertyPromotion` on the parameters of `m`, assumed
      to mean that some parameter of the list is promoted. */
  predicate HasPropertyPromotion(m: ClassMethod, c: Services)
  {
    exists i | 0 <= i < |m.params| :: c.isPromoted(m, i)
  }
}
