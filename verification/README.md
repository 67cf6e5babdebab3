# RemoveUnusedConstructorParam — a Dafny model

This project models one dead-code rule of the Rector PHP rewriting engine,
`RemoveUnusedConstructorParamRector`. The rule is given a class declaration. It decides
whether the class's constructor may lose parameters. If it may, it asks a tree-editing
helper to drop the parameters that the constructor body never reads. It reports "changed"
only when the helper's list of removed keys is non-empty.

The rule owns two things, and the model covers both:

- **The admission gate of `refactor`.** This is a chain of independent vetoes, and each one
  means "no change" (`null`): there is no `__construct`; it has no parameters; some parameter
  is a promoted property; it is abstract; the class cannot be reflected; or some implemented
  interface natively declares `__construct`.
- **Candidate selection in `processRemoveParams`.** It collects the keys of the parameters
  the usage analysis calls unused. It calls the remover only when there is at least one
  such key. It reads an empty answer from the remover as "no change".

The collaborators are fields of the `Services` datatype, and each is an arbitrary
function of the right type. Every lemma holds for every choice of them. They are:
`ParamAnalyzer::isParamUsedInClassMethod`, the per-parameter promotion test behind
`ParamAnalyzer::hasPropertyPromotion`, `ReflectionResolver::resolveClassReflection` and
`ComplexNodeRemover::processRemoveParamWithKeys`. A parameter is passed to the usage and
promotion tests by its key (its position). An oracle on the method and a position
can express any oracle on the method and `params[position]`, so this choice loses
nothing.

Files:

- `wrappers.dfy`: `Option`, which stands in for PHP's nullable results.
- `php_ast.dfy`: class, method and parameter nodes, plus `getMethod`.
- `collaborators.dfy`: the reflection records and the collaborator functions.
- `key_lists.dfy`: strictly increasing key lists. A list like that is fixed by the set of
  its elements.
- `remove_unused_constructor_param.dfy`: the gate, the key loop, `processRemoveParams`
  and `refactor`.
- `remove_unused_constructor_param_properties.dfy`: one lemma per veto, plus lemmas for
  the candidate keys and the change criterion.

Modelling decisions:

- `Class_::getMethod` comes from the PHP parser library, which is not part of this model.
  It is modelled as returning the first method statement whose name equals the requested
  name when both are ASCII-lower-cased. PHP method names are case-insensitive.
- The keys of `$classMethod->params` are taken to be the list positions `0 .. n-1`.
- `ParamAnalyzer::hasPropertyPromotion` is not part of this model. `HasPropertyPromotion`
  assumes it means "some parameter of the list is promoted", which is what its name says.
  `PromotedParamMeansNoChange` rests on that assumption.
- `refactor` returns `Some(cls)`, the input node itself, as the source does. The remover
  edits that node in place, and its edits are not modelled (see "Left out"), so the
  returned value is the unedited input.
- "The remover is never invoked" is stated through `RemovalRequest`. This is the key list
  the remover would be called with, or `None` when `processRemoveParams` returns before
  calling it.

Two points about the rule's own code:

- `processRemoveParams` never checks the remover's answer against the candidates
  (line 129). Any non-empty answer, even keys that were never candidates, counts as
  "changed".
- `refactor` returns at the first failed check (lines 76-103). `AdmitConstructorIff`
  shows that the order of the checks does not change the outcome.

## Model

| member | source | states |
|---|---|---|
| PhpAst.GetMethod | rules/DeadCode/Rector/ClassMethod/RemoveUnusedConstructorParamRector.php:76-77 | The constructor lookup gives `None` exactly when no method statement has that name (ignoring case). Otherwise it gives the first method with that name. |
| RemoveUnusedConstructorParam.AdmitConstructor | rules/DeadCode/Rector/ClassMethod/RemoveUnusedConstructorParamRector.php:76-103 | The veto chain hands on the constructor `getMethod` found. It admits one exactly when that constructor has parameters, none of them promoted, and is not abstract, and the class resolves with no interface that natively declares `__construct`. |
| RemoveUnusedConstructorParam.ProcessRemoveParams | rules/DeadCode/Rector/ClassMethod/RemoveUnusedConstructorParamRector.php:113-134 | `processRemoveParams` returns a method exactly when some parameter is unused and the remover's answer for the candidate keys is non-empty. The method it returns is the one it was given. |
| PhpAst.FirstMethodIndex | rules/DeadCode/Rector/ClassMethod/RemoveUnusedConstructorParamRector.php:76 | The search returns the position of the first matching method at or after the start point. No statement before that position matches. `None` means nothing from the start point on matches. |
| RemoveUnusedConstructorParam.AnyInterfaceDeclaresConstruct | rules/DeadCode/Rector/ClassMethod/RemoveUnusedConstructorParamRector.php:98-103 | The loop over interfaces says "veto" exactly when some interface natively declares `__construct`. |
| RemoveUnusedConstructorParam.UnusedKeysUpTo | rules/DeadCode/Rector/ClassMethod/RemoveUnusedConstructorParamRector.php:115-122 | After the first n parameters, the key list holds exactly the keys below n that the usage analysis reports unused. The keys are strictly increasing. |
| RemoveUnusedConstructorParam.CollectParamKeysToBeRemoved | rules/DeadCode/Rector/ClassMethod/RemoveUnusedConstructorParamRector.php:115-122 | The `foreach` loop ends with exactly the unused positions, in strictly increasing order. This is the same list as the functional definition. |
| RemoveUnusedConstructorParam.Refactor | rules/DeadCode/Rector/ClassMethod/RemoveUnusedConstructorParamRector.php:105-110 | A non-null result from `refactor` is the input class node itself. |
| RemoveUnusedConstructorParamProperties.NoConstructorMeansNoChange | rules/DeadCode/Rector/ClassMethod/RemoveUnusedConstructorParamRector.php:76-79 | A class with no `__construct` method is rejected by the gate, and `refactor` returns null. |
| RemoveUnusedConstructorParamProperties.NoParamsMeansNoChange | rules/DeadCode/Rector/ClassMethod/RemoveUnusedConstructorParamRector.php:81-83 | A constructor with an empty parameter list gives null. |
| RemoveUnusedConstructorParamProperties.PromotedParamMeansNoChange | rules/DeadCode/Rector/ClassMethod/RemoveUnusedConstructorParamRector.php:85-87 | One promoted parameter makes `refactor` return null, whatever the usage, resolver or remover says. |
| RemoveUnusedConstructorParamProperties.AbstractConstructorMeansNoChange | rules/DeadCode/Rector/ClassMethod/RemoveUnusedConstructorParamRector.php:89-91 | An abstract constructor gives null, whatever the parameter usage. |
| RemoveUnusedConstructorParamProperties.UnresolvedClassMeansNoChange | rules/DeadCode/Rector/ClassMethod/RemoveUnusedConstructorParamRector.php:93-96 | A class the resolver cannot reflect gives null. |
| RemoveUnusedConstructorParamProperties.InterfaceConstructMeansNoChange | rules/DeadCode/Rector/ClassMethod/RemoveUnusedConstructorParamRector.php:98-103 | If any implemented interface natively declares `__construct`, the result is null, even when every parameter is unused. |
| RemoveUnusedConstructorParamProperties.AdmitConstructorIff | rules/DeadCode/Rector/ClassMethod/RemoveUnusedConstructorParamRector.php:76-103 | The gate admits a constructor exactly when all six checks pass together. The order of the early returns does not affect the outcome. |
| RemoveUnusedConstructorParamProperties.CandidateKeysExact | rules/DeadCode/Rector/ClassMethod/RemoveUnusedConstructorParamRector.php:115-122 | The candidates are exactly the positions below the parameter count that are reported unused. They are strictly increasing, and no used parameter's key is among them. |
| RemoveUnusedConstructorParamProperties.CandidateKeysCanonical | rules/DeadCode/Rector/ClassMethod/RemoveUnusedConstructorParamRector.php:115-122 | Any strictly increasing list of exactly the unused positions equals the candidate list. |
| RemoveUnusedConstructorParamProperties.NoCandidatesIffAllUsed | rules/DeadCode/Rector/ClassMethod/RemoveUnusedConstructorParamRector.php:115-126 | The candidate list is empty exactly when every parameter is used. |
| RemoveUnusedConstructorParamProperties.AllUsedMeansRemoverNotCalled | rules/DeadCode/Rector/ClassMethod/RemoveUnusedConstructorParamRector.php:124-126 | If every parameter is used, the remover is not called and `processRemoveParams` returns null. |
| RemoveUnusedConstructorParamProperties.RemoverCalledWithCandidates | rules/DeadCode/Rector/ClassMethod/RemoveUnusedConstructorParamRector.php:124-128 | If some parameter is unused, the remover is called with the candidate list, and that parameter's key is in the list. |
| RemoveUnusedConstructorParamProperties.ProcessRemoveParamsChangedIff | rules/DeadCode/Rector/ClassMethod/RemoveUnusedConstructorParamRector.php:128-133 | `processRemoveParams` returns the method it was given exactly when there were candidates and the remover's answer is non-empty. An empty answer means null. |
| RemoveUnusedConstructorParamProperties.RefactorEndToEnd | rules/DeadCode/Rector/ClassMethod/RemoveUnusedConstructorParamRector.php:74-134 | In terms of the source's own conditions: `refactor` reports a change exactly when the class has a `__construct` that passes all six checks, some parameter is unused, and the remover's answer for the candidate keys is non-empty. The node it returns then is the input class. |
| RemoveUnusedConstructorParamProperties.RefactorChangedIff | rules/DeadCode/Rector/ClassMethod/RemoveUnusedConstructorParamRector.php:105-110 | `refactor` reports a change exactly when the gate admitted the constructor, there were candidates and the remover removed something. The node it returns then is the input class. |

## Left out

- CollectParamKeysToBeRemoved and ParamKeysToBeRemoved treat the keys of
  `$classMethod->params` as the list positions `0 .. n-1`. The `foreach` at line 116
  passes array keys, and a PHP array can have gaps after an `unset`. Parameter arrays
  with gaps are not modelled.

- How `ParamAnalyzer` decides whether a parameter is used or promoted. Its code is not part
  of this model; both are arbitrary functions, with no shadowing or default-value semantics.
- What `ComplexNodeRemover::processRemoveParamWithKeys` does to the tree. Its code is not
  part of this model, and its answer is an arbitrary key list. For the same reason the model
  has no edited parameter list, and so nothing is claimed about which parameters remain.
  So the model makes no claim that used parameters survive in their original order, and
  no claim about the exact parameter list left after a change.
- Idempotence across two runs, that is, a second run reporting no change. It depends on the remover's actual
  edits, which are not visible.
- PHPStan reflection beyond "resolved or not" and one `hasNativeMethod('__construct')` flag
  per interface.
- `ClassMethod::isAbstract` is a Boolean field. The modifier bit mask behind it is not part
  of this model.
- The rule's own dependency-injection constructor, `getRuleDefinition`, `getNodeTypes`, and
  the engine's driver loop and printing. These are framework wiring with no behaviour to
  state.
